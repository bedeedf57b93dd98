/**
 The two tables that `PluginNodeExecutor` owns (electron/plugin-node-executor.ts)
 and every synchronous stretch of code that changes them.

 A handler that awaits is cut at its awaits: each stretch between two awaits runs
 without interruption and is one method here.  `Tables` is the abstract value of the
 two tables; the functions on it say what each stretch does, the class does it in
 place, and the protocol module interleaves the stretches.
 */
module NodeGrants {
  import opened Wrappers

  type PluginId = string
  type WebContentsId = nat
  type Token = nat

  datatype Grant = Grant(token: Token, webContentsId: WebContentsId)

  /** `cleanups` holds the web contents that have a cleanup registration. */
  datatype Tables = Tables(grants: map<PluginId, Grant>, cleanups: set<WebContentsId>)

  const MAX_UPLOADED_PLUGIN_ID_LENGTH := 100
  const FORBIDDEN_PLUGIN_IDS := {"__proto__", "prototype", "constructor"}

  predicate IsAlphanumeric(c: char) {
    'A' <= c <= 'Z' || 'a' <= c <= 'z' || '0' <= c <= '9'
  }

  /** What `assertSafePluginId` lets through. */
  predicate SafePluginId(id: PluginId) {
    && 0 < |id| <= MAX_UPLOADED_PLUGIN_ID_LENGTH
    && IsAlphanumeric(id[0])
    && (forall i | 0 <= i < |id| :: IsAlphanumeric(id[i]) || id[i] in {'.', '_', '-'})
    && id !in FORBIDDEN_PLUGIN_IDS
  }

  function Successor(first: char, i: nat): char
    requires first as int + i < 128
  {
    (first as int + i) as char
  }

  /** The `n` characters from `first` on. */
  function Characters(first: char, n: nat): set<char>
    requires first as int + n <= 128
  {
    set i: nat | i < n :: Successor(first, i)
  }

  /** 26 capital letters, 26 small ones and ten digits. */
  function Alphabet(): set<char> {
    Characters('A', 26) + Characters('a', 26) + Characters('0', 10)
  }

  lemma InCharacters(first: char, n: nat, c: char)
    requires first as int + n <= 128
    ensures c in Characters(first, n) <==> first as int <= c as int < first as int + n
  {
    if first as int <= c as int < first as int + n {
      assert c == Successor(first, c as int - first as int);
    }
  }

  lemma InAlphabet(c: char)
    ensures c in Alphabet() <==> IsAlphanumeric(c)
  {
    InCharacters('A', 26, c);
    InCharacters('a', 26, c);
    InCharacters('0', 10, c);
  }

  /** The ids let in, spelled out: 1 to 100 characters of the alphabet and `._-`, an alphanumeric first, no object member name. */
  lemma SafePluginIdIff(id: PluginId)
    ensures SafePluginId(id) <==>
            && id != "" && |id| <= 100 && id[0] in Alphabet()
            && (forall c | c in id :: c in Alphabet() || c in "._-")
            && id != "__proto__" && id != "prototype" && id != "constructor"
  {
    forall c: char
      ensures c in Alphabet() <==> IsAlphanumeric(c)
    {
      InAlphabet(c);
    }
    assert forall c :: c in "._-" <==> c in {'.', '_', '-'};
  }

  /** Some grant is bound to web contents `w`. */
  predicate InUse(grants: map<PluginId, Grant>, w: WebContentsId) {
    exists id | id in grants :: grants[id].webContentsId == w
  }

  function WithoutId(t: Tables, id: PluginId): Tables {
    t.(grants := t.grants - {id})
  }

  function WithCleanup(t: Tables, w: WebContentsId): Tables {
    t.(cleanups := t.cleanups + {w})
  }

  function Minted(t: Tables, id: PluginId, w: WebContentsId, token: Token): Tables {
    t.(grants := t.grants[id := Grant(token, w)])
  }

  /** The cleanup closure of `w`: no grant of `w` survives, the registration goes. */
  function CleanedUp(t: Tables, w: WebContentsId): Tables {
    Tables(map id | id in t.grants && t.grants[id].webContentsId != w :: t.grants[id], t.cleanups - {w})
  }

  function ReleasedIfUnused(t: Tables, w: WebContentsId): Tables {
    if InUse(t.grants, w) then t else t.(cleanups := t.cleanups - {w})
  }

  /** A grant of this id held by another window is taken away when a window asks for the id. */
  function TakenOver(t: Tables, id: PluginId, w: WebContentsId): Tables {
    if id in t.grants && t.grants[id].webContentsId != w
    then ReleasedIfUnused(WithoutId(t, id), t.grants[id].webContentsId)
    else t
  }

  function Cleared(t: Tables, id: PluginId): Tables {
    if id in t.grants then ReleasedIfUnused(WithoutId(t, id), t.grants[id].webContentsId) else t
  }

  function Revoked(t: Tables, id: PluginId, w: WebContentsId): Tables {
    if id in t.grants && t.grants[id].webContentsId == w then WithoutId(t, id) else t
  }

  /** The dialog came back: mint only for a valid, still registered sender and an Allow. */
  function DialogDone(t: Tables, id: PluginId, w: WebContentsId, senderValid: bool, allowed: bool, token: Token): Tables {
    if senderValid && w in t.cleanups && allowed then Minted(t, id, w, token)
    else ReleasedIfUnused(WithoutId(t, id), w)
  }

  /** Every grant's window is registered: then each operation keeps it so, and only drops grants. */
  ghost predicate Registered(t: Tables) {
    forall id | id in t.grants :: t.grants[id].webContentsId in t.cleanups
  }

  /** Grants of `t'` are grants of `t`, and still registered. */
  ghost predicate OnlyDrops(t: Tables, t': Tables) {
    && Registered(t')
    && t'.cleanups <= t.cleanups
    && forall id | id in t'.grants :: id in t.grants && t'.grants[id] == t.grants[id]
  }

  lemma ReleaseKeepsRegistered(t: Tables, w: WebContentsId)
    requires Registered(t)
    ensures OnlyDrops(t, ReleasedIfUnused(t, w)) && ReleasedIfUnused(t, w).grants == t.grants
  {
    if !InUse(t.grants, w) {
      assert forall id | id in t.grants :: t.grants[id].webContentsId != w;
    }
  }

  lemma DropKeepsRegistered(t: Tables, id: PluginId, w: WebContentsId)
    requires Registered(t)
    ensures OnlyDrops(t, ReleasedIfUnused(WithoutId(t, id), w))
    ensures ReleasedIfUnused(WithoutId(t, id), w).grants == t.grants - {id}
    ensures w in ReleasedIfUnused(WithoutId(t, id), w).cleanups ==> InUse(t.grants - {id}, w)
  {
    ReleaseKeepsRegistered(WithoutId(t, id), w);
  }

  lemma CleanupKeepsRegistered(t: Tables, w: WebContentsId)
    requires Registered(t)
    ensures OnlyDrops(t, CleanedUp(t, w)) && w !in CleanedUp(t, w).cleanups
    ensures forall id | id in CleanedUp(t, w).grants :: t.grants[id].webContentsId != w
  {
  }

  class PluginNodeExecutor {
    var grants: map<PluginId, Grant>
    var grantCleanupByWebContents: set<WebContentsId>

    ghost function View(): Tables
      reads this
    {
      Tables(grants, grantCleanupByWebContents)
    }

    constructor ()
      ensures View() == Tables(map[], {})
    {
      grants, grantCleanupByWebContents := map[], {};
    }

    method RegisterGrantCleanup(w: WebContentsId)
      modifies this
      ensures View() == WithCleanup(old(View()), w)
    {
      if w in grantCleanupByWebContents {
        return;
      }
      grantCleanupByWebContents := grantCleanupByWebContents + {w};
    }

    method UnregisterGrantCleanup(w: WebContentsId)
      modifies this`grantCleanupByWebContents
      ensures grantCleanupByWebContents == old(grantCleanupByWebContents) - {w}
    {
      if w !in grantCleanupByWebContents {
        return;
      }
      grantCleanupByWebContents := grantCleanupByWebContents - {w};
    }

    /** Runs on `destroyed`, `will-navigate`, `did-navigate` and main-frame navigation starts. */
    method Cleanup(w: WebContentsId)
      modifies this
      ensures View() == CleanedUp(old(View()), w)
    {
      var todo := grants.Keys;
      while todo != {}
        invariant todo <= grants.Keys
        invariant forall id :: id in grants <==> id in old(grants) && (id in todo || old(grants)[id].webContentsId != w)
        invariant forall id | id in grants :: grants[id] == old(grants)[id]
        invariant grantCleanupByWebContents == old(grantCleanupByWebContents)
        decreases |todo|
      {
        var id :| id in todo;
        if grants[id].webContentsId == w {
          grants := grants - {id};
        }
        todo := todo - {id};
      }
      assert grants == CleanedUp(old(View()), w).grants;
      if w in grantCleanupByWebContents {
        UnregisterGrantCleanup(w);
      }
    }

    method DidStartNavigation(w: WebContentsId, isInPlace: bool, isMainFrame: bool)
      modifies this
      ensures View() == if isMainFrame && !isInPlace then CleanedUp(old(View()), w) else old(View())
    {
      if isMainFrame && !isInPlace {
        Cleanup(w);
      }
    }

    method ReleaseGrantCleanupIfUnused(w: WebContentsId)
      modifies this`grantCleanupByWebContents
      ensures View() == ReleasedIfUnused(old(View()), w)
    {
      var todo := grants.Keys;
      while todo != {}
        invariant todo <= grants.Keys
        invariant forall id | id in grants && id !in todo :: grants[id].webContentsId != w
        decreases |todo|
      {
        var id :| id in todo;
        if grants[id].webContentsId == w {
          return;
        }
        todo := todo - {id};
      }
      UnregisterGrantCleanup(w);
    }

    method MintGrant(id: PluginId, w: WebContentsId, freshToken: Token) returns (token: Token)
      modifies this
      ensures View() == Minted(old(View()), id, w, freshToken) && token == freshToken
    {
      token := freshToken;
      grants := grants[id := Grant(token, w)];
    }

    /** The grant handler up to its first await; a reply ends the request at once. */
    method RequestStarts(id: PluginId, w: WebContentsId) returns (reply: Option<Token>)
      modifies this
      ensures View() == TakenOver(old(View()), id, w)
      ensures reply.Some? <==> id in old(grants) && old(grants)[id].webContentsId == w
      ensures reply.Some? ==> reply.value == old(grants)[id].token
    {
      reply := None;
      if id in grants {
        var existing := grants[id];
        if existing.webContentsId == w {
          return Some(existing.token);
        }
        grants := grants - {id};
        ReleaseGrantCleanupIfUnused(existing.webContentsId);
      }
    }

    /** After the persisted consent was read: mint, give up, or (no consent) go on to the dialog. */
    method ConsentWasRead(id: PluginId, w: WebContentsId, persisted: bool, senderValid: bool, freshToken: Token)
      returns (reply: Option<Token>, opensDialog: bool)
      modifies this
      ensures opensDialog == !persisted
      ensures reply == if persisted && senderValid then Some(freshToken) else None
      ensures View() ==
              if !persisted then WithCleanup(old(View()), w)
              else if senderValid then Minted(WithCleanup(old(View()), w), id, w, freshToken)
              else old(View())
    {
      reply, opensDialog := None, false;
      if persisted {
        if !senderValid {
          return;
        }
        RegisterGrantCleanup(w);
        var token := MintGrant(id, w, freshToken);
        return Some(token), false;
      }
      opensDialog := true;
      RegisterGrantCleanup(w);
    }

    /** After the native dialog came back; `senderValid` is "not destroyed and same URL as at the request". */
    method DialogAnswered(id: PluginId, w: WebContentsId, senderValid: bool, response: int, freshToken: Token)
      returns (reply: Option<Token>)
      modifies this
      ensures View() == DialogDone(old(View()), id, w, senderValid, response == 0, freshToken)
      ensures reply.Some? <==> senderValid && w in old(grantCleanupByWebContents) && response == 0
      ensures reply.Some? ==> reply.value == freshToken
    {
      if !senderValid || w !in grantCleanupByWebContents {
        grants := grants - {id};
        ReleaseGrantCleanupIfUnused(w);
        return None;
      }
      if response != 0 {
        grants := grants - {id};
        ReleaseGrantCleanupIfUnused(w);
        return None;
      }
      var token := MintGrant(id, w, freshToken);
      return Some(token);
    }

    method ClearConsent(id: PluginId)
      modifies this
      ensures View() == if SafePluginId(id) then Cleared(old(View()), id) else old(View())
    {
      if !SafePluginId(id) {
        return;
      }
      if id in grants {
        var grant := grants[id];
        grants := grants - {id};
        ReleaseGrantCleanupIfUnused(grant.webContentsId);
      }
    }

    method RevokeGrant(id: PluginId, w: WebContentsId)
      modifies this
      ensures View() == if SafePluginId(id) then Revoked(old(View()), id, w) else old(View())
    {
      if !SafePluginId(id) {
        return;
      }
      if id in grants && grants[id].webContentsId == w {
        grants := grants - {id};
      }
    }

    /** Whether the exec handler goes on to `executeScript`. */
    method IsAuthorized(id: PluginId, w: WebContentsId, token: Token) returns (ok: bool)
      ensures ok <==> SafePluginId(id) && id in grants && grants[id] == Grant(token, w)
    {
      if !SafePluginId(id) || id !in grants {
        return false;
      }
      var grant := grants[id];
      ok := grant.token == token && grant.webContentsId == w;
    }
  }
}
