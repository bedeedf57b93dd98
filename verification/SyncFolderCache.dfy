/** The first-read cache of electron/local-file-sync.ts stays in step with the file. */
module SyncFolderCache {
  import opened Wrappers
  import opened Decimals
  import opened StoreFormat
  import opened StoreQueues
  import opened StoreQueueProofs

  /** The pick's save is on disk. */
  predicate PickCommitted(s: State, p: nat) {
    p < |s.picks| && s.picks[p].save < |s.saves| && s.saves[s.picks[p].save].stage.Committed?
  }

  /** A pick is on disk but `setSyncFolderPath` has not resumed yet. */
  ghost predicate PickPending(s: State) {
    exists p: nat :: PickCommitted(s, p) && !s.picks[p].settled
  }

  ghost predicate PicksOrdered(s: State) {
    && (forall p, q | 0 <= p < q < |s.picks| :: s.picks[p].save < s.picks[q].save && (s.picks[q].settled ==> s.picks[p].settled))
    && (forall p | 0 <= p < |s.picks| && s.picks[p].settled :: s.picks[p].save < |s.saves| && SaveSettled(s.saves[s.picks[p].save]))
  }

  /** `setSyncFolderPath` has set the cache for pick `p`. */
  predicate PickDone(s: State, p: nat) {
    PickCommitted(s, p) && s.picks[p].settled
  }

  ghost predicate NoPickLanded(s: State) {
    forall p: nat :: !PickCommitted(s, p)
  }

  /** Once a pick is done, the cache is the last such pick. */
  ghost predicate CacheIsLastPick(s: State) {
    forall p: nat | PickDone(s, p) && (forall q: nat | q > p :: !PickDone(s, q)) :: s.cache == Some(Some(s.picks[p].path))
  }

  /** What the first read hands to the cache as long as no pick has landed. */
  function Seed(file: File, s: State): Option<string> {
    if s.loadMissed then None else FolderIn(file)
  }

  ghost predicate CacheIsSeed(file: File, s: State) {
    && (s.cache.Some? ==> s.load.LoadSettled? && s.cache.value == Seed(file, s))
    && (s.load.HasFolder? ==> s.load.folder == Seed(file, s))
  }

  ghost predicate CacheInv(file: File, s: State) {
    PicksOrdered(s) && CacheIsLastPick(s) && (NoPickLanded(s) ==> CacheIsSeed(file, s))
  }

  // Frame lemmas speak of two states, not of `Step`: only what a step touches matters.

  lemma PicksOrderedFrame(s: State, s': State)
    requires PicksOrdered(s) && SavesMoveOn(s.saves, s'.saves) && s'.picks == s.picks
    ensures PicksOrdered(s')
  {
  }

  lemma PicksOrderedNew(s: State, path: string)
    requires PicksOrdered(s) && forall p | 0 <= p < |s.picks| :: s.picks[p].save < |s.saves|
    ensures PicksOrdered(Step(s, PickFolder(path)))
  {
  }

  lemma PicksOrderedSettle(s: State, p: nat)
    requires PicksOrdered(s)
    ensures PicksOrdered(Step(s, PickSettles(p)))
  {
    var s' := Step(s, PickSettles(p));
    if s' != s {
      assert s'.saves == s.saves && s'.picks == s.picks[p := s.picks[p].(settled := true)];
      forall q, r | 0 <= q < r < |s'.picks| && s'.picks[r].settled
        ensures s'.picks[q].settled
      {
        if r == p && q < r - 1 {
          assert s.picks[r - 1].settled;
        }
      }
    }
  }

  /** The same picks are done, and the cache is the same. */
  lemma LastPickFrame(s: State, s': State)
    requires CacheIsLastPick(s) && s'.cache == s.cache
    requires forall p: nat :: PickDone(s', p) <==> PickDone(s, p)
    requires forall p: nat | PickDone(s, p) :: p < |s'.picks| && s'.picks[p].path == s.picks[p].path
    ensures CacheIsLastPick(s')
  {
    forall p: nat | PickDone(s', p) && (forall q: nat | q > p :: !PickDone(s', q))
      ensures s'.cache == Some(Some(s'.picks[p].path))
    {
      assert PickDone(s, p) && forall q: nat | q > p :: !PickDone(s, q);
    }
  }

  /** Only the pick whose save just committed has newly landed; later picks are still waiting. */
  lemma LandedAfterRename(s: State, s': State, i: nat, q: nat)
    requires i < |s.saves| && SavesOrdered(s.saves) && s.saves[i].stage.TmpWritten?
    requires s'.saves == s.saves[i := s.saves[i].(stage := Committed)] && s'.picks == s.picks
    ensures PickCommitted(s', q) <==> PickCommitted(s, q) || (q < |s.picks| && s.picks[q].save == i)
    ensures PickCommitted(s', q) ==> s.picks[q].save <= i
  {
  }

  /** A save lands: what has landed stays landed, and a pick that lands with it is not done yet. */
  lemma SameDoneAfterRename(s: State, s': State, i: nat, p: nat)
    requires SavesOrdered(s.saves) && PicksOrdered(s) && i < |s.saves| && s.saves[i].stage.TmpWritten?
    requires s'.saves == s.saves[i := s.saves[i].(stage := Committed)] && s'.picks == s.picks
    ensures PickCommitted(s, p) ==> PickCommitted(s', p)
    ensures PickDone(s', p) <==> PickDone(s, p)
  {
    LandedAfterRename(s, s', i, p);
  }

  lemma RenameTouches(s: State, i: nat)
    requires i < |s.saves| && s.saves[i].stage.TmpWritten?
    ensures var s' := Step(s, SaveRenames(i));
            && s'.saves == s.saves[i := s.saves[i].(stage := Committed)] && s'.picks == s.picks
            && s'.cache == s.cache && s'.load == s.load && s'.loadMissed == s.loadMissed
            && SavesMoveOn(s.saves, s'.saves)
  {
  }

  lemma RenameKeepsCache(file: File, s: State, i: nat)
    requires SavesOrdered(s.saves) && CacheInv(file, s) && i < |s.saves| && s.saves[i].stage.TmpWritten?
    ensures CacheInv(file, Step(s, SaveRenames(i)))
  {
    RenameTouches(s, i);
    LandingKeepsCache(file, s, Step(s, SaveRenames(i)), i);
  }

  lemma LandingKeepsCache(file: File, s: State, s': State, i: nat)
    requires SavesOrdered(s.saves) && CacheInv(file, s) && i < |s.saves| && s.saves[i].stage.TmpWritten?
    requires s'.saves == s.saves[i := s.saves[i].(stage := Committed)] && s'.picks == s.picks
    requires s'.cache == s.cache && s'.load == s.load && s'.loadMissed == s.loadMissed
    requires SavesMoveOn(s.saves, s'.saves)
    ensures CacheInv(file, s')
  {
    PicksOrderedFrame(s, s');
    forall p: nat
      ensures PickCommitted(s, p) ==> PickCommitted(s', p)
      ensures PickDone(s', p) <==> PickDone(s, p)
    {
      SameDoneAfterRename(s, s', i, p);
    }
    LastPickFrame(s, s');
    if NoPickLanded(s') {
      assert NoPickLanded(s);
    }
  }

  lemma SettleKeepsCache(file: File, s: State, p: nat)
    requires CacheInv(file, s)
    ensures CacheInv(file, Step(s, PickSettles(p)))
  {
    var s' := Step(s, PickSettles(p));
    PicksOrderedSettle(s, p);
    if s' != s {
      assert s'.saves == s.saves && s'.picks == s.picks[p := s.picks[p].(settled := true)];
      assert forall q: nat :: PickCommitted(s', q) <==> PickCommitted(s, q);
      if PickCommitted(s, p) {
        assert forall q: nat | q > p :: !PickDone(s', q);
        assert PickDone(s', p);
      } else {
        LastPickFrame(s, s');
      }
    }
  }

  /** No save commits and old picks stay: the same picks have landed. */
  lemma SameLanded(s: State, s': State, q: nat)
    requires |s.saves| <= |s'.saves| && |s.picks| <= |s'.picks| && s'.picks[..|s.picks|] == s.picks
    requires forall i | 0 <= i < |s'.saves| :: s'.saves[i].stage.Committed? <==> i < |s.saves| && s.saves[i].stage.Committed?
    requires forall p | |s.picks| <= p < |s'.picks| :: s'.picks[p].save >= |s.saves|
    ensures PickCommitted(s', q) <==> PickCommitted(s, q)
    ensures PickCommitted(s, q) ==> s'.picks[q] == s.picks[q]
  {
  }

  /** Nothing commits, settles or loads: file, cache and committed saves are as before. */
  lemma QuietStep(s: State, input: Input)
    requires !input.SaveRenames? && !input.PickSettles? && !input.LoadReads? && !input.LoadSeeds?
    ensures var s' := Step(s, input);
            && s'.file == s.file && s'.cache == s.cache && (s'.load.HasFolder? ==> s'.load == s.load)
            && |s.saves| <= |s'.saves| && |s.picks| <= |s'.picks| && s'.picks[..|s.picks|] == s.picks
            && (forall i | 0 <= i < |s'.saves| :: s'.saves[i].stage.Committed? <==> i < |s.saves| && s.saves[i].stage.Committed?)
            && (forall p | |s.picks| <= p < |s'.picks| :: s'.picks[p].save >= |s.saves|)
  {
  }

  lemma OtherStepKeepsCache(file: File, s: State, input: Input)
    requires Links(s) && CacheInv(file, s)
    requires !input.SaveRenames? && !input.PickSettles? && !input.LoadReads? && !input.LoadSeeds?
    ensures CacheInv(file, Step(s, input))
  {
    var s' := Step(s, input);
    PicksOrderedStep(s, input);
    QuietStep(s, input);
    forall q: nat
      ensures PickCommitted(s', q) <==> PickCommitted(s, q)
      ensures PickCommitted(s, q) ==> s'.picks[q] == s.picks[q]
    {
      SameLanded(s, s', q);
    }
    LastPickFrame(s, s');
  }

  /** The first read and its seeding, given what the file says while no pick has landed. */
  lemma LoadKeepsCache(file: File, s: State, input: Input)
    requires CacheInv(file, s) && (input.LoadReads? || input.LoadSeeds?)
    requires NoPickLanded(s) ==> FolderIn(s.file).None? || FolderIn(s.file) == FolderIn(file)
    ensures CacheInv(file, Step(s, input))
  {
    var s' := Step(s, input);
    assert s'.saves == s.saves && s'.picks == s.picks;
    assert forall q: nat :: PickCommitted(s', q) <==> PickCommitted(s, q);
    if s'.cache == s.cache {
      LastPickFrame(s, s');
    } else {
      SomePickDone(s);
    }
  }

  /** With an empty cache no pick is done. */
  lemma SomePickDone(s: State)
    requires CacheIsLastPick(s) && s.cache.None?
    ensures forall p: nat :: !PickDone(s, p)
  {
    if p: nat :| PickDone(s, p) {
      var last := LastDone(s, p);
    }
  }

  lemma LastDone(s: State, p: nat) returns (last: nat)
    requires PickDone(s, p)
    ensures PickDone(s, last) && forall q: nat | q > last :: !PickDone(s, q)
    decreases |s.picks| - p
  {
    if q: nat :| q > p && PickDone(s, q) {
      last := LastDone(s, q);
    } else {
      last := p;
    }
  }

  lemma PicksOrderedStep(s: State, input: Input)
    requires Links(s) && PicksOrdered(s)
    ensures PicksOrdered(Step(s, input))
  {
    if input.PickFolder? {
      PicksOrderedNew(s, input.path);
    } else if input.PickSettles? {
      PicksOrderedSettle(s, input.p);
    } else {
      SavesMoveOnStep(s, input);
      OtherInputsLeavePicks(s, input);
      PicksOrderedFrame(s, Step(s, input));
    }
  }

  lemma OtherInputsLeavePicks(s: State, input: Input)
    requires !input.PickFolder? && !input.PickSettles?
    ensures Step(s, input).picks == s.picks
  {
  }

  lemma CacheInvStep(file: File, s: State, input: Input)
    requires SaveInv(file, s) && Links(s) && CacheInv(file, s)
    ensures CacheInv(file, Step(s, input))
  {
    match input
    case SaveRenames(i) =>
      if i < |s.saves| && s.saves[i].stage.TmpWritten? {
        RenameKeepsCache(file, s, i);
      }
    case PickSettles(p) => SettleKeepsCache(file, s, p);
    case LoadReads(_) =>
      FolderBeforePicks(file, s);
      LoadKeepsCache(file, s, input);
    case LoadSeeds =>
      FolderBeforePicks(file, s);
      LoadKeepsCache(file, s, input);
    case _ => OtherStepKeepsCache(file, s, input);
  }

  lemma {:induction false} RunCacheInv(file: File, inputs: seq<Input>)
    ensures CacheInv(file, Run(file, inputs))
  {
    if inputs != [] {
      RunCacheInv(file, inputs[..|inputs| - 1]);
      RunInv(file, inputs[..|inputs| - 1]);
      CacheInvStep(file, Run(file, inputs[..|inputs| - 1]), inputs[|inputs| - 1]);
    }
  }

  // ------------------------------------------------------ what the file says

  lemma FolderInFile(file: File)
    ensures FolderIn(file) == FolderOf(Get(Spread(file), SYNC_FOLDER_KEY))
  {
    assert !IsDigit(SYNC_FOLDER_KEY[0]);
  }

  lemma FileFolder(file: File, s: State)
    requires SaveInv(file, s)
    ensures FolderIn(s.file) ==
            if Dropped(s.saves, SYNC_FOLDER_KEY) then None else FolderOf(LastSaved(file, s.saves, SYNC_FOLDER_KEY))
  {
    FolderInFile(s.file);
    EveryKeyHolds(file, s.saves, SYNC_FOLDER_KEY);
    KeyHoldsUnlessDropped(file, s.saves, SYNC_FOLDER_KEY);
  }

  lemma {:induction false} LastSavedAt(file: File, saves: seq<Save>, key: string, i: nat)
    requires i < |saves| && saves[i].stage.Committed? && saves[i].key == key
    requires forall j | i < j < |saves| :: !(saves[j].stage.Committed? && saves[j].key == key)
    ensures LastSaved(file, saves, key) == Some(saves[i].data)
  {
    if i < |saves| - 1 {
      LastSavedAt(file, saves[..|saves| - 1], key, i);
    }
  }

  lemma {:induction false} NeverSaved(file: File, saves: seq<Save>, key: string)
    requires forall j | 0 <= j < |saves| :: !(saves[j].stage.Committed? && saves[j].key == key)
    ensures LastSaved(file, saves, key) == Get(Spread(file), key)
  {
    if saves != [] {
      NeverSaved(file, saves[..|saves| - 1], key);
    }
  }

  /** Without a landed pick the file names the folder it named at the start, unless that was dropped. */
  lemma FolderBeforePicks(file: File, s: State)
    requires SaveInv(file, s) && Links(s)
    ensures NoPickLanded(s) ==>
              FolderIn(s.file) == if Dropped(s.saves, SYNC_FOLDER_KEY) then None else FolderIn(file)
  {
    if NoPickLanded(s) {
      forall j | 0 <= j < |s.saves| && s.saves[j].stage.Committed?
        ensures s.saves[j].key != SYNC_FOLDER_KEY
      {
        if s.saves[j].key == SYNC_FOLDER_KEY {
          assert PickCommitted(s, s.saves[j].owner.pick);
        }
      }
      FileFolder(file, s);
      NeverSaved(file, s.saves, SYNC_FOLDER_KEY);
      FolderInFile(file);
    }
  }

  /** With a landed pick it names the last one, unless that was dropped. */
  lemma FolderAfterPick(file: File, s: State, p: nat)
    requires SaveInv(file, s) && Links(s) && PicksOrdered(s)
    requires PickCommitted(s, p) && forall q: nat | q > p :: !PickCommitted(s, q)
    ensures FolderIn(s.file) == if Dropped(s.saves, SYNC_FOLDER_KEY) then None else Some(s.picks[p].path)
  {
    var i := s.picks[p].save;
    forall j | i < j < |s.saves| && s.saves[j].stage.Committed?
      ensures s.saves[j].key != SYNC_FOLDER_KEY
    {
      if s.saves[j].key == SYNC_FOLDER_KEY {
        assert PickCommitted(s, s.saves[j].owner.pick);
      }
    }
    FileFolder(file, s);
    LastSavedAt(file, s.saves, SYNC_FOLDER_KEY, i);
  }

  /**
   Coherence, exactly.  Whenever no pick is on disk with its continuation outstanding, a
   filled cache is what the file says -- through failed saves, overlapping picks and a first
   read that finishes late -- if and only if:
   once a pick has landed, no landed save to another key that could not read has dropped it since;
   before that, the file named no folder to begin with, or the first read missed it exactly
   if it has been dropped.
   */
  lemma CacheIsCoherentIff(file: File, inputs: seq<Input>)
    requires !PickPending(Run(file, inputs)) && Run(file, inputs).cache.Some?
    ensures var s := Run(file, inputs);
            s.cache.value == FolderIn(s.file) <==>
            if NoPickLanded(s) then FolderIn(file).None? || (s.loadMissed <==> Dropped(s.saves, SYNC_FOLDER_KEY))
            else !Dropped(s.saves, SYNC_FOLDER_KEY)
  {
    RunInv(file, inputs);
    RunCacheInv(file, inputs);
    var s := Run(file, inputs);
    FolderBeforePicks(file, s);
    if p: nat :| PickCommitted(s, p) {
      assert PickDone(s, p);
      var last := LastDone(s, p);
      assert forall q: nat | PickCommitted(s, q) :: PickDone(s, q);
      FolderAfterPick(file, s, last);
    }
  }

  /** Seeding never replaces a value that is already cached. */
  lemma LateReadNeverOverwrites(s: State)
    requires s.cache.Some?
    ensures Step(s, LoadSeeds).cache == s.cache
  {
  }

  /**
   Asking for the folder with nothing cached starts the one first read, and that seeds the
   cache with what the file says if and only if it worked or there was no folder to read:
   after an error the session goes on as "not configured".
   */
  lemma FailedFirstReadIsCached(s: State, ok: bool)
    requires s.load.NotStarted? && s.cache.None? && s.file != Some(Null)
    ensures var s' := Step(Step(Step(s, GetFolder), LoadReads(ok)), LoadSeeds);
            && s'.cache.Some? && s'.file == s.file
            && (s'.cache.value == FolderIn(s.file) <==> ok || FolderIn(s.file).None?)
  {
  }

  /** On a store file holding `null` the first read fails for good: nothing is cached, and only a pick will change that. */
  lemma NullStoreEndsFirstRead(s: State)
    requires s.load.Reading? && s.file == Some(Null)
    ensures var s' := Step(s, LoadReads(true));
            s' == s.(load := LoadSettled) && Step(s', LoadSeeds) == s' && Step(s', GetFolder) == s'
  {
  }

  /** Once a folder is cached, or the first read is under way or done, asking reads nothing. */
  lemma OnlyOneFirstRead(s: State)
    requires s.cache.Some? || !s.load.NotStarted?
    ensures Step(s, GetFolder) == s
  {
  }
}
