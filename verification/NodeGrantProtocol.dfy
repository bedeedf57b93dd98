/**
 Every interleaving of the four IPC handlers of electron/plugin-node-executor.ts with
 navigation and destruction of windows.

 A run is any sequence of inputs; an input that is not possible in the current state
 (an answer to a dialog nobody opened, a message from a destroyed window) changes
 nothing.  Each step reports one event, so the log of a run tells its whole history.
 The executor is compared with that history: `Live` says, from the log alone, which
 grants should exist.
 */
module NodeGrantProtocol {
  import opened Wrappers
  import opened NodeGrants
  import PosixPaths

  type RequestId = nat

  datatype WebContents = WebContents(destroyed: bool, url: string)

  /** Where a grant request is suspended. */
  datatype Stage = ReadingConsent | InDialog | Persisting

  datatype Request = Request(sender: WebContentsId, id: PluginId, requestUrl: string, builtIn: bool, stage: Stage)

  /** Tokens are drawn fresh: `nextToken` and above have never been used. */
  datatype State = State(
    tables: Tables,
    windows: map<WebContentsId, WebContents>,
    requests: map<RequestId, Request>,
    nextToken: Token)

  datatype Input =
    | OpenWindow(w: WebContentsId, url: string)
    | RequestGrant(r: RequestId, w: WebContentsId, id: PluginId, builtIn: bool)
    | ConsentRead(r: RequestId, persisted: bool)
    | ConsentReadThrows(r: RequestId)
    | DialogAnswer(r: RequestId, response: int)
    | DialogThrows(r: RequestId)
    | PersistSettles(r: RequestId)
    | ClearConsent(id: PluginId)
    | RevokeGrant(w: WebContentsId, id: PluginId)
    | ExecScript(w: WebContentsId, id: PluginId, token: Token)
    | WillNavigate(w: WebContentsId)
    | DidStartNavigation(w: WebContentsId, isInPlace: bool, isMainFrame: bool)
    | DidNavigate(w: WebContentsId, url: string)
    | UrlChanges(w: WebContentsId, url: string)
    | Destroy(w: WebContentsId)

  datatype Event =
    | Asked(w: WebContentsId, id: PluginId, opensDialog: bool)
    | DialogOpened(w: WebContentsId, id: PluginId)
    | GrantMinted(w: WebContentsId, id: PluginId, token: Token, viaDialog: bool)
    | DialogRefused(w: WebContentsId, id: PluginId)
    | DialogFailed(w: WebContentsId)
    | ConsentCleared(id: PluginId)
    | GrantRevoked(w: WebContentsId, id: PluginId)
    | Left(w: WebContentsId)
    | Executed(w: WebContentsId, id: PluginId, token: Token)
    | Quiet

  const Init := State(Tables(map[], {}), map[], map[], 0)

  predicate Alive(s: State, w: WebContentsId) {
    w in s.windows && !s.windows[w].destroyed
  }

  /** The re-check after an await: not destroyed, and still on the URL of the request. */
  predicate SenderValid(s: State, q: Request) {
    Alive(s, q.sender) && s.windows[q.sender].url == q.requestUrl
  }

  /** Listeners exist only while there is a registration. */
  function Notified(t: Tables, w: WebContentsId): Tables {
    if w in t.cleanups then CleanedUp(t, w) else t
  }

  function StepRequest(s: State, r: RequestId, w: WebContentsId, id: PluginId, builtIn: bool): (State, Event) {
    if !Alive(s, w) || !SafePluginId(id) || r in s.requests then (s, Quiet)
    else if id in s.tables.grants && s.tables.grants[id].webContentsId == w then (s, Asked(w, id, false))
    else
      var t := TakenOver(s.tables, id, w);
      var q := Request(w, id, s.windows[w].url, builtIn, if builtIn then InDialog else ReadingConsent);
      (s.(tables := if builtIn then WithCleanup(t, w) else t, requests := s.requests[r := q]), Asked(w, id, builtIn))
  }

  function StepConsentRead(s: State, r: RequestId, persisted: bool): (State, Event) {
    if r !in s.requests || !s.requests[r].stage.ReadingConsent? then (s, Quiet)
    else
      var q := s.requests[r];
      if !persisted then
        (s.(tables := WithCleanup(s.tables, q.sender), requests := s.requests[r := q.(stage := InDialog)]),
         DialogOpened(q.sender, q.id))
      else if !SenderValid(s, q) then
        (s.(requests := s.requests - {r}), Quiet)
      else
        (State(Minted(WithCleanup(s.tables, q.sender), q.id, q.sender, s.nextToken),
               s.windows, s.requests - {r}, s.nextToken + 1),
         GrantMinted(q.sender, q.id, s.nextToken, false))
  }

  function StepDialogAnswer(s: State, r: RequestId, response: int): (State, Event) {
    if r !in s.requests || !s.requests[r].stage.InDialog? then (s, Quiet)
    else
      var q := s.requests[r];
      var t := DialogDone(s.tables, q.id, q.sender, SenderValid(s, q), response == 0, s.nextToken);
      if SenderValid(s, q) && q.sender in s.tables.cleanups && response == 0 then
        var rest := if q.builtIn then s.requests - {r} else s.requests[r := q.(stage := Persisting)];
        (State(t, s.windows, rest, s.nextToken + 1), GrantMinted(q.sender, q.id, s.nextToken, true))
      else
        (s.(tables := t, requests := s.requests - {r}), DialogRefused(q.sender, q.id))
  }

  function Step(s: State, input: Input): (State, Event) {
    match input
    case OpenWindow(w, url) =>
      if w in s.windows then (s, Quiet) else (s.(windows := s.windows[w := WebContents(false, url)]), Quiet)
    case RequestGrant(r, w, id, builtIn) => StepRequest(s, r, w, id, builtIn)
    case ConsentRead(r, persisted) => StepConsentRead(s, r, persisted)
    case ConsentReadThrows(r) =>
      if r !in s.requests || !s.requests[r].stage.ReadingConsent? then (s, Quiet)
      else (s.(requests := s.requests - {r}), Quiet)
    case DialogAnswer(r, response) => StepDialogAnswer(s, r, response)
    case DialogThrows(r) =>
      if r !in s.requests || !s.requests[r].stage.InDialog? then (s, Quiet)
      else
        (s.(tables := ReleasedIfUnused(s.tables, s.requests[r].sender), requests := s.requests - {r}),
         DialogFailed(s.requests[r].sender))
    case PersistSettles(r) =>
      if r !in s.requests || !s.requests[r].stage.Persisting? then (s, Quiet)
      else (s.(requests := s.requests - {r}), Quiet)
    case ClearConsent(id) =>
      if !SafePluginId(id) then (s, Quiet) else (s.(tables := Cleared(s.tables, id)), ConsentCleared(id))
    case RevokeGrant(w, id) =>
      if !Alive(s, w) || !SafePluginId(id) then (s, Quiet)
      else (s.(tables := Revoked(s.tables, id, w)), GrantRevoked(w, id))
    case ExecScript(w, id, token) =>
      if Alive(s, w) && SafePluginId(id) && id in s.tables.grants && s.tables.grants[id] == Grant(token, w)
      then (s, Executed(w, id, token)) else (s, Quiet)
    case WillNavigate(w) =>
      if !Alive(s, w) then (s, Quiet) else (s.(tables := Notified(s.tables, w)), Left(w))
    case DidStartNavigation(w, isInPlace, isMainFrame) =>
      if !Alive(s, w) || isInPlace || !isMainFrame then (s, Quiet)
      else (s.(tables := Notified(s.tables, w)), Left(w))
    case DidNavigate(w, url) =>
      if !Alive(s, w) then (s, Quiet)
      else (s.(tables := Notified(s.tables, w), windows := s.windows[w := WebContents(false, url)]), Left(w))
    case UrlChanges(w, url) =>
      if !Alive(s, w) then (s, Quiet) else (s.(windows := s.windows[w := WebContents(false, url)]), Quiet)
    case Destroy(w) =>
      if !Alive(s, w) then (s, Quiet)
      else (s.(tables := Notified(s.tables, w), windows := s.windows[w := s.windows[w].(destroyed := true)]), Left(w))
  }

  /** The state and the event log after all inputs. */
  function Run(inputs: seq<Input>): (State, seq<Event>) {
    if inputs == [] then (Init, [])
    else
      var (s, log) := Run(inputs[..|inputs| - 1]);
      var (s', e) := Step(s, inputs[|inputs| - 1]);
      (s', log + [e])
  }

  /** The history ends the grant of plugin `id` to window `w` with this event. */
  predicate Ends(e: Event, w: WebContentsId, id: PluginId) {
    match e
    case Asked(w', id', _) => id' == id && w' != w
    case GrantMinted(_, id', _, _) => id' == id
    case DialogRefused(_, id') => id' == id
    case ConsentCleared(id') => id' == id
    case GrantRevoked(w', id') => w' == w && id' == id
    case Left(w') => w' == w
    case _ => false
  }

  predicate Mints(e: Event, w: WebContentsId, id: PluginId, token: Token) {
    e.GrantMinted? && e.w == w && e.id == id && e.token == token
  }

  /** By the log alone: this grant was minted, and nothing has ended it since. */
  ghost predicate Live(log: seq<Event>, w: WebContentsId, id: PluginId, token: Token) {
    exists i :: 0 <= i < |log| && Mints(log[i], w, id, token) && forall j | i < j < |log| :: !Ends(log[j], w, id)
  }

  lemma LiveStep(log: seq<Event>, e: Event, w: WebContentsId, id: PluginId, token: Token)
    ensures Live(log + [e], w, id, token) <==>
            Mints(e, w, id, token) || (Live(log, w, id, token) && !Ends(e, w, id))
  {
    var longer := log + [e];
    if Mints(e, w, id, token) {
      assert Mints(longer[|log|], w, id, token);
    } else if Live(log, w, id, token) && !Ends(e, w, id) {
      var i :| 0 <= i < |log| && Mints(log[i], w, id, token) && forall j | i < j < |log| :: !Ends(log[j], w, id);
      assert Mints(longer[i], w, id, token);
    }
    if Live(longer, w, id, token) && !Mints(e, w, id, token) {
      var i :| 0 <= i < |longer| && Mints(longer[i], w, id, token) && forall j | i < j < |longer| :: !Ends(longer[j], w, id);
      assert Mints(log[i], w, id, token) && !Ends(longer[|log|], w, id);
      forall j | i < j < |log| ensures !Ends(log[j], w, id) {
        assert longer[j] == log[j];
      }
    }
  }

  // ---------------------------------------------------------------- invariant

  ghost predicate GrantsOk(s: State) {
    && (forall id | id in s.tables.grants ::
          && SafePluginId(id)
          && Alive(s, s.tables.grants[id].webContentsId)
          && s.tables.grants[id].webContentsId in s.tables.cleanups
          && s.tables.grants[id].token < s.nextToken)
    && (forall id, id' | id in s.tables.grants && id' in s.tables.grants && s.tables.grants[id].token == s.tables.grants[id'].token ::
          id == id')
  }

  ghost predicate DialogWaitsFor(s: State, w: WebContentsId) {
    exists r :: r in s.requests && s.requests[r].stage.InDialog? && s.requests[r].sender == w
  }

  /** A registration never outlives its window, except while a dialog of that window is open. */
  ghost predicate CleanupsOk(s: State) {
    forall w | w in s.tables.cleanups :: Alive(s, w) || DialogWaitsFor(s, w)
  }

  ghost predicate RequestsOk(s: State) {
    forall r | r in s.requests :: SafePluginId(s.requests[r].id) && s.requests[r].sender in s.windows
  }

  ghost predicate Inv(s: State) {
    GrantsOk(s) && CleanupsOk(s) && RequestsOk(s)
  }

  /** Same windows, requests that still wait still wait, fewer or equal grants: the invariant stays. */
  lemma InvAfterDrop(s: State, s': State)
    requires Inv(s) && s'.windows == s.windows && s'.nextToken == s.nextToken && RequestsOk(s')
    requires OnlyDrops(s.tables, s'.tables)
    requires forall w | w in s'.tables.cleanups && !Alive(s, w) :: DialogWaitsFor(s', w)
    ensures Inv(s')
  {
  }

  lemma InvRequest(s: State, r: RequestId, w: WebContentsId, id: PluginId, builtIn: bool)
    requires Inv(s)
    ensures Inv(StepRequest(s, r, w, id, builtIn).0)
  {
    var s' := StepRequest(s, r, w, id, builtIn).0;
    if s' != s {
      var t := TakenOver(s.tables, id, w);
      if t != s.tables {
        DropKeepsRegistered(s.tables, id, s.tables.grants[id].webContentsId);
      }
      WaitersKept(s, s');
      assert s'.tables.grants == t.grants && s'.tables.cleanups <= t.cleanups + {w};
    }
  }

  /** Requests in a dialog that are kept keep waiting. */
  lemma WaitersKept(s: State, s': State)
    requires forall r | r in s.requests && s.requests[r].stage.InDialog? :: r in s'.requests && s'.requests[r] == s.requests[r]
    ensures forall w | DialogWaitsFor(s, w) :: DialogWaitsFor(s', w)
  {
    forall w | DialogWaitsFor(s, w)
      ensures DialogWaitsFor(s', w)
    {
      var r :| r in s.requests && s.requests[r].stage.InDialog? && s.requests[r].sender == w;
      assert s'.requests[r] == s.requests[r];
    }
  }

  lemma InvConsentRead(s: State, r: RequestId, persisted: bool)
    requires Inv(s)
    ensures Inv(StepConsentRead(s, r, persisted).0)
  {
    var s' := StepConsentRead(s, r, persisted).0;
    if s' != s {
      WaitersKept(s, s');
      if !persisted {
        assert s'.requests[r].stage.InDialog?;
      }
    }
  }

  /** The dialog of request `r` ends without a grant: its own id and, if unused, its registration go. */
  lemma InvDialogEnds(s: State, r: RequestId, s': State)
    requires Inv(s) && r in s.requests && s.requests[r].stage.InDialog?
    requires s'.windows == s.windows && s'.nextToken == s.nextToken && s'.requests == s.requests - {r}
    requires || s'.tables == ReleasedIfUnused(WithoutId(s.tables, s.requests[r].id), s.requests[r].sender)
             || s'.tables == ReleasedIfUnused(s.tables, s.requests[r].sender)
    ensures Inv(s')
  {
    var w := s.requests[r].sender;
    DropKeepsRegistered(s.tables, s.requests[r].id, w);
    ReleaseKeepsRegistered(s.tables, w);
    forall w' | w' in s'.tables.cleanups && !Alive(s, w')
      ensures DialogWaitsFor(s', w')
    {
      var r' :| r' in s.requests && s.requests[r'].stage.InDialog? && s.requests[r'].sender == w';
      assert r' in s'.requests;
    }
    InvAfterDrop(s, s');
  }

  lemma InvDialogAnswer(s: State, r: RequestId, response: int)
    requires Inv(s)
    ensures Inv(StepDialogAnswer(s, r, response).0)
  {
    var (s', e) := StepDialogAnswer(s, r, response);
    if e.DialogRefused? {
      InvDialogEnds(s, r, s');
    } else if e.GrantMinted? {
      var w := s.requests[r].sender;
      forall w' | w' != w && DialogWaitsFor(s, w')
        ensures DialogWaitsFor(s', w')
      {
        var r' :| r' in s.requests && s.requests[r'].stage.InDialog? && s.requests[r'].sender == w';
        assert r' in s'.requests && s'.requests[r'] == s.requests[r'];
      }
    }
  }

  lemma InvClear(s: State, id: PluginId)
    requires Inv(s)
    ensures Inv(Step(s, ClearConsent(id)).0)
  {
    var s' := Step(s, ClearConsent(id)).0;
    if s'.tables != s.tables {
      DropKeepsRegistered(s.tables, id, s.tables.grants[id].webContentsId);
      WaitersKept(s, s');
      InvAfterDrop(s, s');
    }
  }

  /** A window leaves its page, or goes: nothing of it stays behind in the tables. */
  lemma InvLeave(s: State, s': State, w: WebContentsId)
    requires Inv(s) && Alive(s, w)
    requires s'.tables == Notified(s.tables, w) && s'.requests == s.requests && s'.nextToken == s.nextToken
    requires w in s'.windows && forall v | v != w :: Alive(s', v) == Alive(s, v)
    requires s.windows.Keys <= s'.windows.Keys
    ensures Inv(s')
  {
    CleanupKeepsRegistered(s.tables, w);
    WaitersKept(s, s');
    assert forall id | id in s'.tables.grants :: s'.tables.grants[id].webContentsId != w;
  }

  lemma InvStep(s: State, input: Input)
    requires Inv(s)
    ensures Inv(Step(s, input).0)
  {
    match input
    case RequestGrant(r, w, id, builtIn) => InvRequest(s, r, w, id, builtIn);
    case ConsentRead(r, persisted) => InvConsentRead(s, r, persisted);
    case DialogAnswer(r, response) => InvDialogAnswer(s, r, response);
    case DialogThrows(r) =>
      if Step(s, input).0 != s {
        InvDialogEnds(s, r, Step(s, input).0);
      }
    case ClearConsent(id) => InvClear(s, id);
    case WillNavigate(w) => InvNavigation(s, input, w);
    case DidStartNavigation(w, _, _) => InvNavigation(s, input, w);
    case DidNavigate(w, _) => InvNavigation(s, input, w);
    case Destroy(w) => InvNavigation(s, input, w);
    case RevokeGrant(w, id) => InvRevoke(s, w, id);
    case _ => InvQuiet(s, Step(s, input).0);
  }

  lemma InvNavigation(s: State, input: Input, w: WebContentsId)
    requires Inv(s)
    requires input.WillNavigate? || input.DidStartNavigation? || input.DidNavigate? || input.Destroy?
    requires w == input.w
    ensures Inv(Step(s, input).0)
  {
    if Step(s, input).1.Left? {
      InvLeave(s, Step(s, input).0, w);
    }
  }

  lemma InvRevoke(s: State, w: WebContentsId, id: PluginId)
    requires Inv(s)
    ensures Inv(Step(s, RevokeGrant(w, id)).0)
  {
    WaitersKept(s, Step(s, RevokeGrant(w, id)).0);
  }

  /** Inputs that leave the tables and open dialogs alone. */
  lemma InvQuiet(s: State, s': State)
    requires Inv(s) && s'.tables == s.tables && s'.nextToken == s.nextToken
    requires forall r | r in s.requests && s.requests[r].stage.InDialog? :: r in s'.requests && s'.requests[r] == s.requests[r]
    requires forall r | r in s'.requests :: r in s.requests && s'.requests[r] == s.requests[r]
    requires s.windows.Keys <= s'.windows.Keys && forall w | w in s.windows :: Alive(s', w) == Alive(s, w)
    ensures Inv(s')
  {
    WaitersKept(s, s');
  }

  lemma {:induction false} RunInv(inputs: seq<Input>)
    ensures Inv(Run(inputs).0) && |Run(inputs).1| == |inputs|
  {
    if inputs != [] {
      RunInv(inputs[..|inputs| - 1]);
      InvStep(Run(inputs[..|inputs| - 1]).0, inputs[|inputs| - 1]);
    }
  }

  /** In every reachable state: live window, registration in place, token never issued twice. */
  lemma {:induction false} EveryGrantHasALiveRegisteredWindow(inputs: seq<Input>, id: PluginId)
    requires id in Run(inputs).0.tables.grants
    ensures var s := Run(inputs).0;
            var w := s.tables.grants[id].webContentsId;
            && Alive(s, w) && w in s.tables.cleanups && SafePluginId(id)
            && (forall id' | id' in s.tables.grants && id' != id :: s.tables.grants[id'].token != s.tables.grants[id].token)
  {
    RunInv(inputs);
  }

  // ------------------------------------------------ the table is the history

  ghost predicate Holds(t: Tables, w: WebContentsId, id: PluginId, token: Token) {
    id in t.grants && t.grants[id] == Grant(token, w)
  }

  /** Between two states, the grant to `w` changed exactly as the event says. */
  ghost predicate MatchesEvent(t: Tables, t': Tables, e: Event, w: WebContentsId, id: PluginId, token: Token) {
    Holds(t', w, id, token) <==> Mints(e, w, id, token) || (Holds(t, w, id, token) && !Ends(e, w, id))
  }

  lemma RequestMatchesEvent(s: State, r: RequestId, v: WebContentsId, asked: PluginId, builtIn: bool,
                            w: WebContentsId, id: PluginId, token: Token)
    requires Inv(s)
    ensures var (s', e) := StepRequest(s, r, v, asked, builtIn); MatchesEvent(s.tables, s'.tables, e, w, id, token)
  {
  }

  lemma ConsentReadMatchesEvent(s: State, r: RequestId, persisted: bool, w: WebContentsId, id: PluginId, token: Token)
    requires Inv(s)
    ensures var (s', e) := StepConsentRead(s, r, persisted); MatchesEvent(s.tables, s'.tables, e, w, id, token)
  {
  }

  lemma DialogAnswerMatchesEvent(s: State, r: RequestId, response: int, w: WebContentsId, id: PluginId, token: Token)
    requires Inv(s)
    ensures var (s', e) := StepDialogAnswer(s, r, response); MatchesEvent(s.tables, s'.tables, e, w, id, token)
  {
  }

  lemma RevokeMatchesEvent(s: State, input: Input, w: WebContentsId, id: PluginId, token: Token)
    requires Inv(s) && (input.ClearConsent? || input.RevokeGrant?)
    ensures MatchesEvent(s.tables, Step(s, input).0.tables, Step(s, input).1, w, id, token)
  {
  }

  lemma LeavingMatchesEvent(s: State, w': WebContentsId, w: WebContentsId, id: PluginId, token: Token)
    requires Inv(s)
    ensures MatchesEvent(s.tables, Notified(s.tables, w'), Left(w'), w, id, token)
  {
  }

  lemma NavigationMatchesEvent(s: State, input: Input, w: WebContentsId, id: PluginId, token: Token)
    requires Inv(s) && (input.WillNavigate? || input.DidStartNavigation? || input.DidNavigate? || input.Destroy?)
    ensures MatchesEvent(s.tables, Step(s, input).0.tables, Step(s, input).1, w, id, token)
  {
    LeavingMatchesEvent(s, input.w, w, id, token);
  }

  lemma OtherMatchesEvent(s: State, input: Input, w: WebContentsId, id: PluginId, token: Token)
    requires input.OpenWindow? || input.ConsentReadThrows? || input.DialogThrows? || input.PersistSettles? || input.ExecScript? || input.UrlChanges?
    ensures MatchesEvent(s.tables, Step(s, input).0.tables, Step(s, input).1, w, id, token)
  {
  }

  /** One step changes a grant exactly as its event says. */
  lemma StepMatchesEvent(s: State, input: Input, w: WebContentsId, id: PluginId, token: Token)
    requires Inv(s)
    ensures MatchesEvent(s.tables, Step(s, input).0.tables, Step(s, input).1, w, id, token)
  {
    if input.RequestGrant? {
      RequestMatchesEvent(s, input.r, input.w, input.id, input.builtIn, w, id, token);
    } else if input.ConsentRead? {
      ConsentReadMatchesEvent(s, input.r, input.persisted, w, id, token);
    } else if input.DialogAnswer? {
      DialogAnswerMatchesEvent(s, input.r, input.response, w, id, token);
    } else if input.ClearConsent? || input.RevokeGrant? {
      RevokeMatchesEvent(s, input, w, id, token);
    } else if input.WillNavigate? || input.DidStartNavigation? || input.DidNavigate? || input.Destroy? {
      NavigationMatchesEvent(s, input, w, id, token);
    } else {
      OtherMatchesEvent(s, input, w, id, token);
    }
  }

  /**
   The grant table is exactly the history: a grant is in the table if and only if it was
   minted and nothing since re-minted, cleared, refused, took over or revoked it, nor
   navigated or destroyed its window.
   */
  lemma {:induction false} GrantIffLive(inputs: seq<Input>, w: WebContentsId, id: PluginId, token: Token)
    ensures Holds(Run(inputs).0.tables, w, id, token) <==> Live(Run(inputs).1, w, id, token)
  {
    if inputs != [] {
      var front, last := inputs[..|inputs| - 1], inputs[|inputs| - 1];
      GrantIffLive(front, w, id, token);
      RunInv(front);
      StepMatchesEvent(Run(front).0, last, w, id, token);
      LiveStep(Run(front).1, Step(Run(front).0, last).1, w, id, token);
    }
  }

  lemma {:induction false} RunPrefix(inputs: seq<Input>, k: nat)
    requires k <= |inputs|
    ensures |Run(inputs).1| == |inputs| && Run(inputs[..k]).1 == Run(inputs).1[..k]
    ensures k < |inputs| ==> Run(inputs).1[k] == Step(Run(inputs[..k]).0, inputs[k]).1
  {
    RunInv(inputs);
    if k < |inputs| {
      var front := inputs[..|inputs| - 1];
      RunPrefix(front, k);
      assert front[..k] == inputs[..k];
    } else {
      assert inputs[..k] == inputs;
    }
  }

  /** Whenever a script runs, and only then: its exact triple is live in the history so far. */
  lemma {:induction false} ExecutionIffLive(inputs: seq<Input>, k: nat, w: WebContentsId, id: PluginId, token: Token)
    requires k < |inputs|
    ensures |Run(inputs).1| == |inputs|
    ensures Run(inputs).1[k] == Executed(w, id, token) <==>
            inputs[k] == ExecScript(w, id, token) && Live(Run(inputs).1[..k], w, id, token)
  {
    RunPrefix(inputs, k);
    RunInv(inputs[..k]);
    GrantIffLive(inputs[..k], w, id, token);
  }

  lemma MintUsesTheNextToken(s: State, input: Input)
    ensures var (s', e) := Step(s, input);
            s.nextToken <= s'.nextToken && (e.GrantMinted? ==> e.token == s.nextToken < s'.nextToken)
  {
  }

  lemma RunSnoc(inputs: seq<Input>)
    requires inputs != []
    ensures var (s, log) := Run(inputs[..|inputs| - 1]);
            var (s', e) := Step(s, inputs[|inputs| - 1]);
            Run(inputs) == (s', log + [e])
  {
  }

  lemma {:induction false} MintedTokensAreOld(inputs: seq<Input>, i: nat)
    requires i < |Run(inputs).1| && Run(inputs).1[i].GrantMinted?
    ensures Run(inputs).1[i].token < Run(inputs).0.nextToken
  {
    var front := inputs[..|inputs| - 1];
    RunSnoc(inputs);
    MintUsesTheNextToken(Run(front).0, inputs[|front|]);
    if i < |Run(front).1| {
      MintedTokensAreOld(front, i);
    }
  }

  /** No token is minted twice, so a live triple has one mint. */
  lemma {:induction false} TokensMintedOnce(inputs: seq<Input>, i: nat, j: nat)
    requires i < j < |Run(inputs).1| && Run(inputs).1[i].GrantMinted? && Run(inputs).1[j].GrantMinted?
    ensures Run(inputs).1[i].token != Run(inputs).1[j].token
  {
    RunInv(inputs);
    RunPrefix(inputs, j);
    MintedTokensAreOld(inputs[..j], i);
  }

  // ------------------------------------------------- the table and the inputs

  /** The answer `r` waits for is an Allow by a valid, registered sender. */
  predicate AllowsNow(s: State, r: RequestId, response: int) {
    && r in s.requests && s.requests[r].stage.InDialog? && response == 0
    && Alive(s, s.requests[r].sender) && s.windows[s.requests[r].sender].url == s.requests[r].requestUrl
    && s.requests[r].sender in s.tables.cleanups
  }

  /** The stored consent `r` waits for is there, and its sender still valid. */
  predicate ConsentsNow(s: State, r: RequestId, persisted: bool) {
    && r in s.requests && s.requests[r].stage.ReadingConsent? && persisted
    && Alive(s, s.requests[r].sender) && s.windows[s.requests[r].sender].url == s.requests[r].requestUrl
  }

  /** In state `s` the input grants plugin `id` to window `w`, under the next unused token. */
  predicate InputMints(s: State, input: Input, w: WebContentsId, id: PluginId, token: Token) {
    && (input.ConsentRead? || input.DialogAnswer?) && token == s.nextToken
    && (if input.ConsentRead? then ConsentsNow(s, input.r, input.persisted) else AllowsNow(s, input.r, input.response))
    && s.requests[input.r].sender == w && s.requests[input.r].id == id
  }

  /** In state `s` the input ends any grant of `id` to `w`: what a user, a page or the window itself can do. */
  predicate InputEnds(s: State, input: Input, w: WebContentsId, id: PluginId) {
    match input
    case ClearConsent(id') => id' == id
    case RevokeGrant(w', id') => w' == w && id' == id
    case WillNavigate(w') => w' == w
    case DidStartNavigation(w', isInPlace, isMainFrame) => w' == w && isMainFrame && !isInPlace
    case DidNavigate(w', _) => w' == w
    case Destroy(w') => w' == w
    case RequestGrant(r, w', id', _) => id' == id && w' != w && Alive(s, w') && r !in s.requests
    case DialogAnswer(r, _) => r in s.requests && s.requests[r].stage.InDialog? && s.requests[r].id == id
    case ConsentRead(r, persisted) => ConsentsNow(s, r, persisted) && s.requests[r].id == id
    case _ => false
  }

  /** Between two states the grant to `w` changed exactly as the input demands. */
  ghost predicate MatchesInput(s: State, s': State, input: Input, w: WebContentsId, id: PluginId, token: Token) {
    Holds(s'.tables, w, id, token) <==>
    InputMints(s, input, w, id, token) || (Holds(s.tables, w, id, token) && !InputEnds(s, input, w, id))
  }

  lemma RequestMatchesInput(s: State, input: Input, w: WebContentsId, id: PluginId, token: Token)
    requires Inv(s) && input.RequestGrant?
    ensures MatchesInput(s, Step(s, input).0, input, w, id, token)
  {
  }

  lemma AnswerMatchesInput(s: State, input: Input, w: WebContentsId, id: PluginId, token: Token)
    requires Inv(s) && (input.ConsentRead? || input.DialogAnswer?)
    ensures MatchesInput(s, Step(s, input).0, input, w, id, token)
  {
  }

  lemma RevokeMatchesInput(s: State, input: Input, w: WebContentsId, id: PluginId, token: Token)
    requires Inv(s) && (input.ClearConsent? || input.RevokeGrant?)
    ensures MatchesInput(s, Step(s, input).0, input, w, id, token)
  {
  }

  lemma NavigationMatchesInput(s: State, input: Input, w: WebContentsId, id: PluginId, token: Token)
    requires Inv(s) && (input.WillNavigate? || input.DidStartNavigation? || input.DidNavigate? || input.Destroy?)
    ensures MatchesInput(s, Step(s, input).0, input, w, id, token)
  {
  }

  lemma OtherMatchesInput(s: State, input: Input, w: WebContentsId, id: PluginId, token: Token)
    requires input.OpenWindow? || input.ConsentReadThrows? || input.DialogThrows? || input.PersistSettles? || input.ExecScript? || input.UrlChanges?
    ensures MatchesInput(s, Step(s, input).0, input, w, id, token)
  {
  }

  /** One step mints and ends grants exactly as its input demands. */
  lemma StepMatchesInput(s: State, input: Input, w: WebContentsId, id: PluginId, token: Token)
    requires Inv(s)
    ensures MatchesInput(s, Step(s, input).0, input, w, id, token)
  {
    if input.RequestGrant? {
      RequestMatchesInput(s, input, w, id, token);
    } else if input.ConsentRead? || input.DialogAnswer? {
      AnswerMatchesInput(s, input, w, id, token);
    } else if input.ClearConsent? || input.RevokeGrant? {
      RevokeMatchesInput(s, input, w, id, token);
    } else if input.WillNavigate? || input.DidStartNavigation? || input.DidNavigate? || input.Destroy? {
      NavigationMatchesInput(s, input, w, id, token);
    } else {
      OtherMatchesInput(s, input, w, id, token);
    }
  }

  ghost predicate MintedAt(inputs: seq<Input>, i: nat, w: WebContentsId, id: PluginId, token: Token)
    requires i < |inputs|
  {
    InputMints(Run(inputs[..i]).0, inputs[i], w, id, token)
  }

  ghost predicate EndedAt(inputs: seq<Input>, j: nat, w: WebContentsId, id: PluginId)
    requires j < |inputs|
  {
    InputEnds(Run(inputs[..j]).0, inputs[j], w, id)
  }

  /** By the inputs: one of them granted `id` to `w`, and none since has ended that. */
  ghost predicate GrantedByInputs(inputs: seq<Input>, w: WebContentsId, id: PluginId, token: Token) {
    exists i :: 0 <= i < |inputs| && MintedAt(inputs, i, w, id, token) && forall j | i < j < |inputs| :: !EndedAt(inputs, j, w, id)
  }

  lemma GrantedByInputsStep(inputs: seq<Input>, input: Input, w: WebContentsId, id: PluginId, token: Token)
    ensures var s := Run(inputs).0;
            GrantedByInputs(inputs + [input], w, id, token) <==>
            InputMints(s, input, w, id, token) || (GrantedByInputs(inputs, w, id, token) && !InputEnds(s, input, w, id))
  {
    var longer, n := inputs + [input], |inputs|;
    assert longer[..n] == inputs;
    forall i | 0 <= i < n
      ensures MintedAt(longer, i, w, id, token) <==> MintedAt(inputs, i, w, id, token)
      ensures EndedAt(longer, i, w, id) <==> EndedAt(inputs, i, w, id)
    {
      assert longer[..i] == inputs[..i];
    }
    if MintedAt(longer, n, w, id, token) {
      assert GrantedByInputs(longer, w, id, token);
    } else if GrantedByInputs(inputs, w, id, token) && !EndedAt(longer, n, w, id) {
      var i :| 0 <= i < n && MintedAt(inputs, i, w, id, token) && forall j | i < j < n :: !EndedAt(inputs, j, w, id);
      assert MintedAt(longer, i, w, id, token);
    }
  }

  /**
   From the inputs alone: a window holds a grant if and only if some input minted it -- an
   Allow or a stored consent of a valid sender -- and no input since has cleared, revoked,
   refused, re-minted or taken over the id, nor navigated or destroyed the window.
   */
  lemma {:induction false} GrantIffByInputs(inputs: seq<Input>, w: WebContentsId, id: PluginId, token: Token)
    ensures Holds(Run(inputs).0.tables, w, id, token) <==> GrantedByInputs(inputs, w, id, token)
  {
    if inputs != [] {
      var front, last := inputs[..|inputs| - 1], inputs[|inputs| - 1];
      GrantIffByInputs(front, w, id, token);
      RunInv(front);
      StepMatchesInput(Run(front).0, last, w, id, token);
      GrantedByInputsStep(front, last, w, id, token);
      assert front + [last] == inputs;
    }
  }

  /** A script runs if and only if it was asked for with a grant that the inputs so far have made and not ended. */
  lemma ExecutionIffByInputs(inputs: seq<Input>, input: Input, w: WebContentsId, id: PluginId, token: Token)
    ensures Step(Run(inputs).0, input).1 == Executed(w, id, token) <==>
            input == ExecScript(w, id, token) && GrantedByInputs(inputs, w, id, token)
  {
    GrantIffByInputs(inputs, w, id, token);
    RunInv(inputs);
  }

  /** After an input that ends it, a triple runs again only behind a new mint of the very same triple. */
  lemma {:induction false} NoExecutionAfterEnd(inputs: seq<Input>, i: nat, k: nat, w: WebContentsId, id: PluginId, token: Token)
    requires i < k < |inputs| && EndedAt(inputs, i, w, id)
    requires Step(Run(inputs[..k]).0, inputs[k]).1 == Executed(w, id, token)
    ensures MintedAt(inputs, i, w, id, token) || exists j :: i < j < k && MintedAt(inputs, j, w, id, token)
  {
    var before := inputs[..k];
    ExecutionIffByInputs(before, inputs[k], w, id, token);
    var j :| 0 <= j < k && MintedAt(before, j, w, id, token) && forall m | j < m < k :: !EndedAt(before, m, w, id);
    assert before[..i] == inputs[..i] && before[..j] == inputs[..j];
    assert MintedAt(inputs, j, w, id, token);
    if j < i {
      assert EndedAt(before, i, w, id);
    }
  }

  // ----------------------------------------------- windows, requests and events

  /** The page of a window, by the inputs that name it: opened once, then moved, changed or destroyed. */
  function PageOf(inputs: seq<Input>, w: WebContentsId): (page: Option<WebContents>) {
    if inputs == [] then None
    else
      var before, last := PageOf(inputs[..|inputs| - 1], w), inputs[|inputs| - 1];
      if before.None? then (if last.OpenWindow? && last.w == w then Some(WebContents(false, last.url)) else None)
      else Some(PageAfter(before.value, w, [last]))
  }

  lemma StepPage(s: State, input: Input, w: WebContentsId)
    ensures var s' := Step(s, input).0;
            if w in s.windows then w in s'.windows && s'.windows[w] == PageAfter(s.windows[w], w, [input])
            else if input.OpenWindow? && input.w == w then w in s'.windows && s'.windows[w] == WebContents(false, input.url)
            else w !in s'.windows
  {
    assert [input][1..] == [];
  }

  lemma {:induction false} WindowsFollowInputs(inputs: seq<Input>, w: WebContentsId)
    ensures var s := Run(inputs).0;
            PageOf(inputs, w) == if w in s.windows then Some(s.windows[w]) else None
  {
    if inputs != [] {
      WindowsFollowInputs(inputs[..|inputs| - 1], w);
      StepPage(Run(inputs[..|inputs| - 1]).0, inputs[|inputs| - 1], w);
    }
  }

  /** Whether a request starts to wait with this input. */
  predicate StartsToWait(s: State, input: Input, r: RequestId) {
    && input.RequestGrant? && input.r == r && r !in s.requests
    && Alive(s, input.w) && SafePluginId(input.id)
    && !(input.id in s.tables.grants && s.tables.grants[input.id].webContentsId == input.w)
  }

  /** Where a waiting request goes with this input; `None` when it is answered. */
  function GoesOn(s: State, q: Request, input: Input, r: RequestId): Option<Stage> {
    match input
    case ConsentRead(r', persisted) =>
      if r' != r || !q.stage.ReadingConsent? then Some(q.stage) else if persisted then None else Some(InDialog)
    case ConsentReadThrows(r') => if r' != r || !q.stage.ReadingConsent? then Some(q.stage) else None
    case DialogAnswer(r', response) =>
      if r' != r || !q.stage.InDialog? then Some(q.stage)
      else if AllowsNow(s, r, response) && !q.builtIn then Some(Persisting) else None
    case DialogThrows(r') => if r' != r || !q.stage.InDialog? then Some(q.stage) else None
    case PersistSettles(r') => if r' != r || !q.stage.Persisting? then Some(q.stage) else None
    case _ => Some(q.stage)
  }

  /**
   A request waits from the input that makes it until it is answered: for its consent to be
   read, or at once for its dialog if it is built in, then for its Allow to be persisted; with
   the window, id and URL it was made with.
   */
  lemma StepRequests(s: State, input: Input, r: RequestId)
    ensures var s' := Step(s, input).0;
            if r in s.requests then
              var next := GoesOn(s, s.requests[r], input, r);
              (r in s'.requests <==> next.Some?) && (next.Some? ==> s'.requests[r] == s.requests[r].(stage := next.value))
            else if StartsToWait(s, input, r) then
              r in s'.requests &&
              s'.requests[r] == Request(input.w, input.id, s.windows[input.w].url, input.builtIn,
                                        if input.builtIn then InDialog else ReadingConsent)
            else r !in s'.requests
  {
  }

  /** The events of the log, each from the input that causes it. */
  lemma EventFollowsInput(s: State, input: Input)
    requires Inv(s)
    ensures var e := Step(s, input).1;
            && (forall w, id, token, d :: e == GrantMinted(w, id, token, d) <==> InputMints(s, input, w, id, token) && d == input.DialogAnswer?)
            && (forall w, id :: e == DialogRefused(w, id) <==>
                  && input.DialogAnswer? && !AllowsNow(s, input.r, input.response)
                  && input.r in s.requests && s.requests[input.r].stage.InDialog?
                  && s.requests[input.r].sender == w && s.requests[input.r].id == id)
            && (forall w :: e == DialogFailed(w) <==>
                  input.DialogThrows? && input.r in s.requests && s.requests[input.r].stage.InDialog? && s.requests[input.r].sender == w)
            && (forall w, id :: e == DialogOpened(w, id) <==>
                  && input.ConsentRead? && !input.persisted && input.r in s.requests && s.requests[input.r].stage.ReadingConsent?
                  && s.requests[input.r].sender == w && s.requests[input.r].id == id)
            && (forall w, id :: e == GrantRevoked(w, id) <==> input == RevokeGrant(w, id) && Alive(s, w) && SafePluginId(id))
            && (forall id :: e == ConsentCleared(id) <==> input == ClearConsent(id) && SafePluginId(id))
  {
  }

  lemma MoreEventsFollowInputs(s: State, input: Input)
    requires Inv(s)
    ensures var e := Step(s, input).1;
            && (forall w :: e == Left(w) <==>
                  && Alive(s, w)
                  && (input == WillNavigate(w) || input == DidStartNavigation(w, false, true) || input == Destroy(w)
                      || (input.DidNavigate? && input.w == w)))
            && (forall w, id, opensDialog :: e == Asked(w, id, opensDialog) <==>
                  && input.RequestGrant? && input.w == w && input.id == id && Alive(s, w) && SafePluginId(id) && input.r !in s.requests
                  && opensDialog == (input.builtIn && StartsToWait(s, input, input.r)))
            && (forall w, id, token :: e == Executed(w, id, token) <==>
                  input == ExecScript(w, id, token) && Holds(s.tables, w, id, token))
  {
  }

  // ---------------------------------------------- minting for a stale sender

  /** Events that put a cleanup registration of `w` in place. */
  predicate Registers(e: Event, w: WebContentsId) {
    (e.Asked? && e.w == w && e.opensDialog) || (e.DialogOpened? && e.w == w) || (e.GrantMinted? && e.w == w)
  }

  /** Some grant of `w` is live in the history. */
  ghost predicate Granted(log: seq<Event>, w: WebContentsId) {
    exists id, token :: Live(log, w, id, token)
  }

  ghost predicate GrantedTo(log: seq<Event>, w: WebContentsId, id: PluginId) {
    exists token :: Live(log, w, id, token)
  }

  /** The event lets go of a grant or a dialog of `w` and asks whether `w` still needs its registration. */
  ghost predicate Releases(log: seq<Event>, e: Event, w: WebContentsId) {
    match e
    case DialogRefused(w', _) => w' == w
    case DialogFailed(w') => w' == w
    case ConsentCleared(id) => GrantedTo(log, w, id)
    case Asked(w', id, _) => w' != w && GrantedTo(log, w, id)
    case _ => false
  }

  /** Event `j` of the log ends the registration of `w`: it left, or a release found no other grant of it. */
  ghost predicate Unregisters(log: seq<Event>, j: nat, w: WebContentsId)
    requires j < |log|
  {
    log[j] == Left(w) || (Releases(log[..j], log[j], w) && !Granted(log[..j + 1], w))
  }

  /** By the log alone: something registered `w`, and nothing has ended that since. */
  ghost predicate RegisteredInHistory(log: seq<Event>, w: WebContentsId) {
    exists i :: 0 <= i < |log| && Registers(log[i], w) && forall j | i < j < |log| :: !Unregisters(log, j, w)
  }

  lemma RegisteredInHistoryStep(log: seq<Event>, e: Event, w: WebContentsId)
    ensures RegisteredInHistory(log + [e], w) <==>
            Registers(e, w) || (RegisteredInHistory(log, w) && !Unregisters(log + [e], |log|, w))
  {
    var longer := log + [e];
    forall j | 0 <= j < |log|
      ensures Unregisters(longer, j, w) <==> Unregisters(log, j, w)
      ensures longer[j] == log[j]
    {
      assert longer[..j] == log[..j] && longer[..j + 1] == log[..j + 1];
    }
    if Registers(e, w) {
      assert Registers(longer[|log|], w);
    } else if RegisteredInHistory(log, w) && !Unregisters(longer, |log|, w) {
      var i :| 0 <= i < |log| && Registers(log[i], w) && forall j | i < j < |log| :: !Unregisters(log, j, w);
      assert Registers(longer[i], w);
    }
  }

  /** The releases of one step, told by the table instead of the log. */
  predicate ReleasesInTable(t: Tables, e: Event, w: WebContentsId) {
    match e
    case DialogRefused(w', _) => w' == w
    case DialogFailed(w') => w' == w
    case ConsentCleared(id) => id in t.grants && t.grants[id].webContentsId == w
    case Asked(w', id, _) => w' != w && id in t.grants && t.grants[id].webContentsId == w
    case _ => false
  }

  /** A registration comes and goes exactly as the event of the step says. */
  lemma StepRegistration(s: State, input: Input, w: WebContentsId)
    ensures var (s', e) := Step(s, input);
            w in s'.tables.cleanups <==>
            Registers(e, w) ||
            (w in s.tables.cleanups && e != Left(w) && !(ReleasesInTable(s.tables, e, w) && !InUse(s'.tables.grants, w)))
  {
  }

  lemma InUseIffGranted(inputs: seq<Input>, w: WebContentsId)
    ensures InUse(Run(inputs).0.tables.grants, w) <==> Granted(Run(inputs).1, w)
  {
    var (s, log) := Run(inputs);
    if InUse(s.tables.grants, w) {
      var id :| id in s.tables.grants && s.tables.grants[id].webContentsId == w;
      GrantIffLive(inputs, w, id, s.tables.grants[id].token);
    }
    if id, token :| Live(log, w, id, token) {
      GrantIffLive(inputs, w, id, token);
    }
  }

  lemma GrantedToIff(inputs: seq<Input>, w: WebContentsId, id: PluginId)
    ensures var (s, log) := Run(inputs);
            GrantedTo(log, w, id) <==> id in s.tables.grants && s.tables.grants[id].webContentsId == w
  {
    var (s, log) := Run(inputs);
    if id in s.tables.grants && s.tables.grants[id].webContentsId == w {
      GrantIffLive(inputs, w, id, s.tables.grants[id].token);
    }
    if token :| Live(log, w, id, token) {
      GrantIffLive(inputs, w, id, token);
    }
  }

  /** The registrations, too, are exactly the history. */
  lemma {:induction false} RegisteredIffHistory(inputs: seq<Input>, w: WebContentsId)
    ensures w in Run(inputs).0.tables.cleanups <==> RegisteredInHistory(Run(inputs).1, w)
  {
    if inputs != [] {
      var front, last := inputs[..|inputs| - 1], inputs[|inputs| - 1];
      RegisteredIffHistory(front, w);
      var (s, log) := Run(front);
      var e := Step(s, last).1;
      StepRegistration(s, last, w);
      RegisteredInHistoryStep(log, e, w);
      InUseIffGranted(inputs, w);
      if e.ConsentCleared? || e.Asked? {
        GrantedToIff(front, w, e.id);
      }
      assert (log + [e])[..|log|] == log && (log + [e])[..|log| + 1] == log + [e];
    }
  }

  /**
   Exactly when a dialog mints: on Allow, with the sender alive on the URL of its request,
   and with a registration of the window that nothing in the history has ended.  The
   registration need not be this request's: it is the window's, and may be younger than
   a navigation.
   */
  lemma DialogMintsIff(inputs: seq<Input>, r: RequestId, response: int)
    requires r in Run(inputs).0.requests && Run(inputs).0.requests[r].stage.InDialog?
    ensures var (s, log) := Run(inputs);
            Step(s, DialogAnswer(r, response)).1.GrantMinted? <==>
            response == 0 && SenderValid(s, s.requests[r]) && RegisteredInHistory(log, s.requests[r].sender)
  {
    RegisteredIffHistory(inputs, Run(inputs).0.requests[r].sender);
  }

  /** After its window left the page, an Allow mints only if something registered the window again in between. */
  lemma DialogMintNeedsRegistrationSinceLeaving(inputs: seq<Input>, w: WebContentsId, i: nat, k: nat)
    requires i < k < |inputs| && |Run(inputs).1| == |inputs|
    requires Run(inputs).1[i] == Left(w)
    requires Run(inputs).1[k].GrantMinted? && Run(inputs).1[k].w == w && Run(inputs).1[k].viaDialog
    ensures exists j :: i < j < k && Registers(Run(inputs).1[j], w)
  {
    RunPrefix(inputs, k);
    OnlyRegisteredMint(Run(inputs[..k]).0, inputs[k], w);
    RegisteredIffHistory(inputs[..k], w);
    var log := Run(inputs[..k]).1;
    RegisteredAfter(log, w, i);
    var j :| i < j < |log| && Registers(log[j], w);
    assert Registers(Run(inputs).1[j], w);
  }

  lemma OnlyRegisteredMint(s: State, input: Input, w: WebContentsId)
    ensures var e := Step(s, input).1; e.GrantMinted? && e.w == w && e.viaDialog ==> w in s.tables.cleanups
  {
  }

  lemma RegisteredAfter(log: seq<Event>, w: WebContentsId, i: nat)
    requires RegisteredInHistory(log, w) && i < |log| && log[i] == Left(w)
    ensures exists j :: i < j < |log| && Registers(log[j], w)
  {
    var j :| 0 <= j < |log| && Registers(log[j], w) && forall m | j < m < |log| :: !Unregisters(log, m, w);
    assert Unregisters(log, i, w);
  }

  /**
   An example of the other half: refused after a reload, the same Allow mints once a second
   request has registered the reloaded page.
   */
  lemma StaleDialogMintExists()
    ensures var asked := Step(Step(Init, OpenWindow(1, "app")).0, RequestGrant(0, 1, "a", true)).0;
            var reloaded := Step(asked, DidNavigate(1, "app")).0;
            var askedAgain := Step(reloaded, RequestGrant(1, 1, "b", true)).0;
            && Step(asked, DidNavigate(1, "app")).1 == Left(1)
            && Step(reloaded, DialogAnswer(0, 0)).1 == DialogRefused(1, "a")
            && Step(askedAgain, DialogAnswer(0, 0)).1 == GrantMinted(1, "a", 0, true)
  {
    assert SafePluginId("a") && SafePluginId("b");
    var asked := Step(Step(Init, OpenWindow(1, "app")).0, RequestGrant(0, 1, "a", true)).0;
    assert asked == State(Tables(map[], {1}), map[1 := WebContents(false, "app")],
                          map[0 := Request(1, "a", "app", true, InDialog)], 0);
    var reloaded := Step(asked, DidNavigate(1, "app")).0;
    assert reloaded.tables == Tables(map[], {});
  }

  function RunFrom(s: State, inputs: seq<Input>): State
    decreases |inputs|
  {
    if inputs == [] then s else RunFrom(Step(s, inputs[0]).0, inputs[1..])
  }

  /** Where one window is after the inputs, by its own navigations alone. */
  function PageAfter(page: WebContents, w: WebContentsId, inputs: seq<Input>): WebContents
    decreases |inputs|
  {
    if inputs == [] then page
    else
      var next :=
        if page.destroyed then page
        else
          match inputs[0]
          case DidNavigate(v, url) => if v == w then WebContents(false, url) else page
          case UrlChanges(v, url) => if v == w then WebContents(false, url) else page
          case Destroy(v) => if v == w then page.(destroyed := true) else page
          case _ => page;
      PageAfter(next, w, inputs[1..])
  }

  /** The consent read of request `r` comes back. */
  predicate SettlesRead(input: Input, r: RequestId) {
    (input.ConsentRead? || input.ConsentReadThrows?) && input.r == r
  }

  predicate ReadSettles(inputs: seq<Input>, r: RequestId) {
    exists i :: 0 <= i < |inputs| && SettlesRead(inputs[i], r)
  }

  lemma {:induction false} PendingReadWaits(s: State, inputs: seq<Input>, r: RequestId)
    requires r in s.requests && s.requests[r].stage.ReadingConsent? && !ReadSettles(inputs, r)
    requires s.requests[r].sender in s.windows
    ensures var s' := RunFrom(s, inputs);
            var w := s.requests[r].sender;
            && r in s'.requests && s'.requests[r] == s.requests[r]
            && w in s'.windows && s'.windows[w] == PageAfter(s.windows[w], w, inputs)
    decreases |inputs|
  {
    if inputs != [] {
      assert !SettlesRead(inputs[0], r);
      assert forall i | 0 <= i < |inputs| - 1 :: inputs[1..][i] == inputs[i + 1];
      OtherInputsLeaveReading(s, inputs[0], r);
      PendingReadWaits(Step(s, inputs[0]).0, inputs[1..], r);
    }
  }

  lemma OtherInputsLeaveReading(s: State, input: Input, r: RequestId)
    requires r in s.requests && s.requests[r].stage.ReadingConsent? && !SettlesRead(input, r)
    requires s.requests[r].sender in s.windows
    ensures var s' := Step(s, input).0;
            var w := s.requests[r].sender;
            && r in s'.requests && s'.requests[r] == s.requests[r]
            && w in s'.windows && s'.windows[w] == PageAfter(s.windows[w], w, [input])
  {
    assert [input][1..] == [];
  }

  /**
   The ask-once path has no registration to lose: whatever happens while the consent is
   being read -- navigations, clears, revokes, other requests and their dialogs -- a stored
   consent mints exactly if the window ends up alive on the URL of the request.
   */
  lemma AskOnceSeesOnlyTheUrl(s: State, inputs: seq<Input>, r: RequestId, persisted: bool)
    requires Inv(s) && r in s.requests && s.requests[r].stage.ReadingConsent? && !ReadSettles(inputs, r)
    ensures var q := s.requests[r];
            var page := PageAfter(s.windows[q.sender], q.sender, inputs);
            Step(RunFrom(s, inputs), ConsentRead(r, persisted)).1.GrantMinted? <==>
            persisted && !page.destroyed && page.url == q.requestUrl
  {
    PendingReadWaits(s, inputs, r);
  }

  /** Left undisturbed, a request of a built-in plugin, or of one without stored consent, mints on Allow and not on Deny. */
  lemma UndisturbedRequestFollowsTheAnswer(s: State, r: RequestId, w: WebContentsId, id: PluginId, builtIn: bool, response: int)
    requires Inv(s) && Alive(s, w) && SafePluginId(id) && r !in s.requests
    requires id in s.tables.grants ==> s.tables.grants[id].webContentsId != w
    ensures var asked := Step(s, RequestGrant(r, w, id, builtIn)).0;
            var open := if builtIn then asked else Step(asked, ConsentRead(r, false)).0;
            var (done, e) := Step(open, DialogAnswer(r, response));
            && (if response == 0 then e == GrantMinted(w, id, s.nextToken, true) else e == DialogRefused(w, id))
            && (id in done.tables.grants <==> response == 0)
            && (r in done.requests <==> response == 0 && !builtIn)
  {
    var asked := Step(s, RequestGrant(r, w, id, builtIn)).0;
    var open := if builtIn then asked else Step(asked, ConsentRead(r, false)).0;
    assert open.requests[r].sender == w && w in open.tables.cleanups && open.windows == s.windows;
  }

  /** As a path segment under the bundled-plugins directory, a safe id names a direct child of it. */
  lemma SafeIdStaysInBundledDir(dir: PosixPaths.Path, id: PluginId)
    requires PosixPaths.ValidPath(dir) && SafePluginId(id)
    ensures PosixPaths.Resolve(dir, id) == dir + [id] && ':' !in id && ' ' !in id
  {
    assert '/' !in id && id != "." && id != "..";
    PosixPaths.SplitWithoutSlash(id);
    assert !PosixPaths.IsAbsolute(id) by { assert id[0] in id; }
    assert PosixPaths.Normalize(dir + [id], [id][1..]) == dir + [id];
  }

  /**
   Two dialogs of one window: after a Deny on the second, an Allow on the first mints if
   and only if the sender is still valid and the window holds some other grant -- without
   one, the Deny dropped the registration the first answer is checked against.
   */
  lemma DenyOfOneDialogAffectsTheOther(s: State, r: RequestId, other: RequestId)
    requires Inv(s) && r in s.requests && other in s.requests && r != other
    requires s.requests[r].stage.InDialog? && s.requests[other].stage.InDialog?
    requires s.requests[r].sender == s.requests[other].sender
    ensures var w := s.requests[r].sender;
            var s' := Step(s, DialogAnswer(other, 1)).0;
            Step(s', DialogAnswer(r, 0)).1.GrantMinted? <==>
            SenderValid(s, s.requests[r]) && InUse(s.tables.grants - {s.requests[other].id}, w)
  {
    var w := s.requests[r].sender;
    var s' := Step(s, DialogAnswer(other, 1)).0;
    assert s'.requests[r] == s.requests[r] && s'.windows == s.windows;
    if InUse(s.tables.grants - {s.requests[other].id}, w) {
      var id :| id in s.tables.grants - {s.requests[other].id} && s.tables.grants[id].webContentsId == w;
      assert w in s.tables.cleanups;
    }
  }
}
