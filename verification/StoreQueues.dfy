/**
 The two nested promise queues over one file, and the first-read cache on top:
 electron/simple-store.ts (`_saveQueue`), electron/plugin-node-consent-store.ts
 (`_mutationQueue`) and electron/local-file-sync.ts (`_cachedSyncFolder`).

 Every queue entry is kept with its stage, so a state shows the call order for ever.
 A run is any sequence of inputs: new calls, and single steps of whichever entry may go
 on.  An entry starts when its predecessor has settled, whether that one failed or not.
 Reads may fail (the code then goes on with an empty store) and so may writes.
 */
module StoreQueues {
  import opened Wrappers
  import opened StoreFormat

  /** Who called `saveSimpleStore`. */
  datatype Owner = OtherCaller | ByMutation(mutation: nat) | ByPick(pick: nat)

  datatype SaveStage =
    | Waiting
    | HasRead(prev: map<string, Json>)
    | TmpWritten(content: Json)
    | Committed
    | SaveFailed

  datatype Save = Save(key: string, data: Json, owner: Owner, readOk: bool, stage: SaveStage)

  datatype Op = SetConsent(id: string, consent: Consent) | ClearConsent(id: string)

  datatype MutationStage =
    | MWaiting
    | MHasRead(consents: Consents)
    | MSaving(save: nat)
    | MDone
    | MFailed

  datatype Mutation = Mutation(op: Op, readOk: bool, stage: MutationStage)

  datatype Pick = Pick(path: string, save: nat, settled: bool)

  datatype FirstLoad = NotStarted | Reading | HasFolder(folder: Option<string>) | LoadSettled

  datatype State = State(
    file: File,
    saves: seq<Save>,
    mutations: seq<Mutation>,
    picks: seq<Pick>,
    cache: Option<Option<string>>,
    load: FirstLoad,
    loadMissed: bool)  // the first read for the cache failed, or found no folder

  datatype Input =
    | CallSave(key: string, data: Json)
    | CallMutate(op: Op)
    | PickFolder(path: string)
    | GetFolder
    | SaveReads(i: nat, ok: bool)
    | SaveWritesTmp(i: nat)
    | SaveRenames(i: nat)
    | SaveFails(i: nat)
    | MutationReads(k: nat, ok: bool)
    | MutationApplies(k: nat)
    | MutationSettles(k: nat)
    | PickSettles(p: nat)
    | LoadReads(ok: bool)
    | LoadSeeds

  function Init(file: File): State {
    State(file, [], [], [], None, NotStarted, false)
  }

  predicate SaveSettled(save: Save) {
    save.stage.Committed? || save.stage.SaveFailed?
  }

  predicate MutationSettled(mutation: Mutation) {
    mutation.stage.MDone? || mutation.stage.MFailed?
  }

  predicate SaveMayStart(s: State, i: nat) {
    i < |s.saves| && s.saves[i].stage.Waiting? && (i > 0 ==> SaveSettled(s.saves[i - 1]))
  }

  predicate MutationMayStart(s: State, k: nat) {
    k < |s.mutations| && s.mutations[k].stage.MWaiting? && (k > 0 ==> MutationSettled(s.mutations[k - 1]))
  }

  function Apply(op: Op, consents: Consents): Consents {
    match op
    case SetConsent(id, consent) => consents[id := consent]
    case ClearConsent(id) => consents - {id}
  }

  /** What `apply` returns to `mutate`: whether there is anything to write. */
  predicate NeedsWrite(op: Op, consents: Consents) {
    op.SetConsent? || op.id in consents
  }

  function WithSave(s: State, i: nat, save: Save): State
    requires i < |s.saves|
  {
    s.(saves := s.saves[i := save])
  }

  function WithStage(s: State, i: nat, stage: SaveStage): State
    requires i < |s.saves|
  {
    WithSave(s, i, s.saves[i].(stage := stage))
  }

  function WithMutation(s: State, k: nat, mutation: Mutation): State
    requires k < |s.mutations|
  {
    s.(mutations := s.mutations[k := mutation])
  }

  function Enqueued(s: State, key: string, data: Json, owner: Owner): State {
    s.(saves := s.saves + [Save(key, data, owner, true, Waiting)])
  }

  /** `loadBlob`: an unreadable file is an empty store, a file holding `null` makes it throw. */
  function MutationAfterRead(file: File, mutation: Mutation, ok: bool): Mutation {
    if !ok then mutation.(readOk := false, stage := MHasRead(map[]))
    else if file == Some(Null) then mutation.(stage := MFailed)
    else mutation.(readOk := true, stage := MHasRead(ConsentsIn(file)))
  }

  function StepMutation(s: State, k: nat): State
    requires k < |s.mutations| && s.mutations[k].stage.MHasRead?
  {
    var m := s.mutations[k];
    if NeedsWrite(m.op, m.stage.consents) then
      Enqueued(WithMutation(s, k, m.(stage := MSaving(|s.saves|))),
               CONSENT_KEY, BlobJson(Apply(m.op, m.stage.consents)), ByMutation(k))
    else WithMutation(s, k, m.(stage := MDone))
  }

  function StepSave(s: State, input: Input): State
    requires input.SaveReads? || input.SaveWritesTmp? || input.SaveRenames? || input.SaveFails?
  {
    match input
    case SaveReads(i, ok) =>
      if !SaveMayStart(s, i) then s
      else WithSave(s, i, s.saves[i].(readOk := ok, stage := HasRead(if ok then Spread(s.file) else map[])))
    case SaveWritesTmp(i) =>
      if i >= |s.saves| || !s.saves[i].stage.HasRead? then s
      else WithStage(s, i, TmpWritten(Obj(s.saves[i].stage.prev[s.saves[i].key := s.saves[i].data])))
    case SaveRenames(i) =>
      if i >= |s.saves| || !s.saves[i].stage.TmpWritten? then s
      else WithStage(s, i, Committed).(file := Some(s.saves[i].stage.content))
    case SaveFails(i) =>
      if i >= |s.saves| || !(s.saves[i].stage.HasRead? || s.saves[i].stage.TmpWritten?) then s
      else WithStage(s, i, SaveFailed)
  }

  /** `await saveSimpleStore(...)` in `setSyncFolderPath` resumes, in call order. */
  function StepPickSettles(s: State, p: nat): State {
    if p >= |s.picks| || s.picks[p].settled || s.picks[p].save >= |s.saves| then s
    else if !SaveSettled(s.saves[s.picks[p].save]) || (p > 0 && !s.picks[p - 1].settled) then s
    else
      var s' := s.(picks := s.picks[p := s.picks[p].(settled := true)]);
      if s.saves[s.picks[p].save].stage.Committed? then s'.(cache := Some(Some(s.picks[p].path))) else s'
  }

  function Step(s: State, input: Input): State {
    match input
    case CallSave(key, data) =>
      if key in {CONSENT_KEY, SYNC_FOLDER_KEY} then s else Enqueued(s, key, data, OtherCaller)
    case CallMutate(op) =>
      s.(mutations := s.mutations + [Mutation(op, true, MWaiting)])
    case PickFolder(path) =>
      if path == "" then s
      else Enqueued(s, SYNC_FOLDER_KEY, Str(path), ByPick(|s.picks|))
           .(picks := s.picks + [Pick(path, |s.saves|, false)])
    case GetFolder =>
      if s.cache.Some? || !s.load.NotStarted? then s else s.(load := Reading)
    case MutationReads(k, ok) =>
      if !MutationMayStart(s, k) then s
      else WithMutation(s, k, MutationAfterRead(s.file, s.mutations[k], ok))
    case MutationApplies(k) =>
      if k >= |s.mutations| || !s.mutations[k].stage.MHasRead? then s else StepMutation(s, k)
    case MutationSettles(k) =>
      if k >= |s.mutations| || !s.mutations[k].stage.MSaving? || s.mutations[k].stage.save >= |s.saves| then s
      else
        var save := s.saves[s.mutations[k].stage.save];
        if !SaveSettled(save) then s
        else WithMutation(s, k, s.mutations[k].(stage := if save.stage.Committed? then MDone else MFailed))
    case PickSettles(p) => StepPickSettles(s, p)
    case LoadReads(ok) =>
      if !s.load.Reading? then s
      else if !ok then s.(load := HasFolder(None), loadMissed := true)
      else if s.file == Some(Null) then s.(load := LoadSettled)
      else s.(load := HasFolder(FolderIn(s.file)), loadMissed := FolderIn(s.file).None?)
    case LoadSeeds =>
      if !s.load.HasFolder? then s
      else s.(load := LoadSettled, cache := if s.cache.None? then Some(s.load.folder) else s.cache)
    case _ => StepSave(s, input)
  }

  function Run(file: File, inputs: seq<Input>): State {
    if inputs == [] then Init(file) else Step(Run(file, inputs[..|inputs| - 1]), inputs[|inputs| - 1])
  }

  // ------------------------------------------------- reference: sequential folds

  /** The file after the successful saves, one after the other in call order. */
  function FoldSaves(file: File, saves: seq<Save>): File {
    if saves == [] then file
    else
      var last := saves[|saves| - 1];
      var before := FoldSaves(file, saves[..|saves| - 1]);
      if last.stage.Committed? then Some(AfterSave(before, last.key, last.data, last.readOk)) else before
  }

  /** A mutation has taken effect once its write is on disk, or it found nothing to write. */
  predicate TookEffect(mutation: Mutation, saves: seq<Save>) {
    || mutation.stage.MDone?
    || (mutation.stage.MSaving? && mutation.stage.save < |saves| && saves[mutation.stage.save].stage.Committed?)
  }

  /** The consent map after the successful mutations, one after the other in call order. */
  function FoldMutations(consents: Consents, mutations: seq<Mutation>, saves: seq<Save>): Consents {
    if mutations == [] then consents
    else
      var last := mutations[|mutations| - 1];
      var before := FoldMutations(consents, mutations[..|mutations| - 1], saves);
      if TookEffect(last, saves) then Apply(last.op, before) else before
  }

  lemma {:induction false} FoldSavesSame(file: File, saves: seq<Save>, saves': seq<Save>)
    requires |saves| == |saves'|
    requires forall i | 0 <= i < |saves| :: saves[i] == saves'[i] || (!saves[i].stage.Committed? && !saves'[i].stage.Committed?)
    ensures FoldSaves(file, saves) == FoldSaves(file, saves')
  {
    if saves != [] {
      FoldSavesSame(file, saves[..|saves| - 1], saves'[..|saves| - 1]);
    }
  }

  /** Committing entry `i`, with nothing behind it committed, is one more sequential save. */
  lemma {:induction false} FoldSavesCommit(file: File, saves: seq<Save>, i: nat)
    requires i < |saves| && !saves[i].stage.Committed?
    requires forall j | i < j < |saves| :: !saves[j].stage.Committed?
    ensures FoldSaves(file, saves[i := saves[i].(stage := Committed)]) ==
            Some(AfterSave(FoldSaves(file, saves), saves[i].key, saves[i].data, saves[i].readOk))
  {
    var front, after := saves[..|saves| - 1], saves[i := saves[i].(stage := Committed)];
    if i < |front| {
      FoldSavesCommit(file, front, i);
      assert after[..|saves| - 1] == front[i := saves[i].(stage := Committed)];
    } else {
      assert after[..|saves| - 1] == front;
    }
  }

  lemma {:induction false} FoldMutationsSame(
    consents: Consents, mutations: seq<Mutation>, saves: seq<Save>, mutations': seq<Mutation>, saves': seq<Save>)
    requires |mutations| == |mutations'|
    requires forall k | 0 <= k < |mutations| ::
               mutations[k].op == mutations'[k].op && TookEffect(mutations[k], saves) == TookEffect(mutations'[k], saves')
    ensures FoldMutations(consents, mutations, saves) == FoldMutations(consents, mutations', saves')
  {
    if mutations != [] {
      FoldMutationsSame(consents, mutations[..|mutations| - 1], saves, mutations'[..|mutations| - 1], saves');
    }
  }

  /** Mutation `k` takes effect while nothing behind it has: one more sequential application. */
  lemma {:induction false} FoldMutationsCommit(
    consents: Consents, mutations: seq<Mutation>, saves: seq<Save>, mutations': seq<Mutation>, saves': seq<Save>, k: nat)
    requires k < |mutations| == |mutations'|
    requires forall j | 0 <= j < |mutations| :: mutations[j].op == mutations'[j].op
    requires forall j | 0 <= j < |mutations| && j != k :: TookEffect(mutations[j], saves) == TookEffect(mutations'[j], saves')
    requires forall j | k < j < |mutations| :: !TookEffect(mutations[j], saves)
    requires !TookEffect(mutations[k], saves) && TookEffect(mutations'[k], saves')
    ensures FoldMutations(consents, mutations', saves') ==
            Apply(mutations[k].op, FoldMutations(consents, mutations, saves))
  {
    var front, front' := mutations[..|mutations| - 1], mutations'[..|mutations| - 1];
    if k < |front| {
      FoldMutationsCommit(consents, front, saves, front', saves', k);
    } else {
      FoldMutationsSame(consents, front, saves, front', saves');
    }
  }
}
