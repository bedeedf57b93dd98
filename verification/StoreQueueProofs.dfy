/** What every interleaving of the store queues keeps, and what follows for whole runs. */
module StoreQueueProofs {
  import opened Wrappers
  import opened StoreFormat
  import opened StoreQueues

  // ------------------------------------------------------------ the save queue

  ghost predicate SavesOrdered(saves: seq<Save>) {
    forall i, j | 0 <= i < j < |saves| :: saves[j].stage.Waiting? || SaveSettled(saves[i])
  }

  /** The one running save still sees the file it read. */
  ghost predicate SavesCurrent(s: State) {
    forall i | 0 <= i < |s.saves| ::
      && (s.saves[i].stage.HasRead? ==> s.saves[i].stage.prev == if s.saves[i].readOk then Spread(s.file) else map[])
      && (s.saves[i].stage.TmpWritten? ==>
            s.saves[i].stage.content == AfterSave(s.file, s.saves[i].key, s.saves[i].data, s.saves[i].readOk))
  }

  ghost predicate SaveInv(file: File, s: State) {
    && SavesOrdered(s.saves)
    && SavesCurrent(s)
    && s.file == FoldSaves(file, s.saves)
  }

  lemma SaveInvEnqueued(file: File, s: State, key: string, data: Json, owner: Owner)
    requires SaveInv(file, s)
    ensures SaveInv(file, Enqueued(s, key, data, owner))
  {
    var s' := Enqueued(s, key, data, owner);
    assert s'.saves[..|s'.saves| - 1] == s.saves;
  }

  lemma SaveInvUncommitted(file: File, s: State, i: nat, save: Save)
    requires SaveInv(file, s) && i < |s.saves|
    requires !SaveSettled(s.saves[i]) && !save.stage.Committed? && !save.stage.Waiting?
    requires s.saves[i].stage.Waiting? ==> i > 0 ==> SaveSettled(s.saves[i - 1])
    requires save.stage.HasRead? ==> save.stage.prev == if save.readOk then Spread(s.file) else map[]
    requires save.stage.TmpWritten? ==> save.stage.content == AfterSave(s.file, save.key, save.data, save.readOk)
    ensures SaveInv(file, WithSave(s, i, save))
  {
    var s' := WithSave(s, i, save);
    FoldSavesSame(file, s.saves, s'.saves);
    forall j, k | 0 <= j < k < |s'.saves|
      ensures s'.saves[k].stage.Waiting? || SaveSettled(s'.saves[j])
    {
      if k == i && j < i - 1 {
        assert s.saves[i].stage.Waiting? ==> SaveSettled(s.saves[i - 1]);
      }
    }
  }

  lemma SaveInvRename(file: File, s: State, i: nat)
    requires SaveInv(file, s) && i < |s.saves| && s.saves[i].stage.TmpWritten?
    ensures SaveInv(file, StepSave(s, SaveRenames(i)))
  {
    FoldSavesCommit(file, s.saves, i);
    var s' := StepSave(s, SaveRenames(i));
    assert s'.saves == s.saves[i := s.saves[i].(stage := Committed)];
    assert forall j | 0 <= j < |s.saves| && j != i :: s.saves[j].stage.Waiting? || SaveSettled(s.saves[j]);
  }

  lemma SaveInvStepSave(file: File, s: State, input: Input)
    requires SaveInv(file, s)
    requires input.SaveReads? || input.SaveWritesTmp? || input.SaveRenames? || input.SaveFails?
    ensures SaveInv(file, StepSave(s, input))
  {
    var s' := StepSave(s, input);
    if s' != s {
      if input.SaveRenames? {
        SaveInvRename(file, s, input.i);
      } else {
        SaveInvUncommitted(file, s, input.i, s'.saves[input.i]);
        assert s' == WithSave(s, input.i, s'.saves[input.i]);
      }
    }
  }

  lemma SaveInvUntouched(file: File, s: State, s': State)
    requires SaveInv(file, s) && s'.saves == s.saves && s'.file == s.file
    ensures SaveInv(file, s')
  {
  }

  lemma SaveInvStep(file: File, s: State, input: Input)
    requires SaveInv(file, s)
    ensures SaveInv(file, Step(s, input))
  {
    match input
    case CallSave(key, data) => SaveInvEnqueued(file, s, key, data, OtherCaller);
    case PickFolder(path) =>
      SaveInvEnqueued(file, s, SYNC_FOLDER_KEY, Str(path), ByPick(|s.picks|));
      if path != "" {
        SaveInvUntouched(file, Enqueued(s, SYNC_FOLDER_KEY, Str(path), ByPick(|s.picks|)), Step(s, input));
      }
    case MutationApplies(k) => SaveInvApply(file, s, k);
    case SaveReads(_, _) => SaveInvStepSave(file, s, input);
    case SaveWritesTmp(_) => SaveInvStepSave(file, s, input);
    case SaveRenames(_) => SaveInvStepSave(file, s, input);
    case SaveFails(_) => SaveInvStepSave(file, s, input);
    case _ => SaveInvUntouched(file, s, Step(s, input));
  }

  lemma SaveInvApply(file: File, s: State, k: nat)
    requires SaveInv(file, s)
    ensures SaveInv(file, Step(s, MutationApplies(k)))
  {
    var s' := Step(s, MutationApplies(k));
    if s'.saves == s.saves {
      SaveInvUntouched(file, s, s');
    } else {
      var m := s.mutations[k];
      var saved := Enqueued(s, CONSENT_KEY, BlobJson(Apply(m.op, m.stage.consents)), ByMutation(k));
      SaveInvEnqueued(file, s, CONSENT_KEY, BlobJson(Apply(m.op, m.stage.consents)), ByMutation(k));
      SaveInvUntouched(file, saved, s');
    }
  }

  // ------------------------------------------------------- who owns which save

  /** Saves to the consent key and mutations that wait for a save name each other. */
  ghost predicate ConsentLinks(s: State) {
    && (forall i | 0 <= i < |s.saves| && s.saves[i].key == CONSENT_KEY ::
          && s.saves[i].owner.ByMutation? && s.saves[i].owner.mutation < |s.mutations|
          && (SaveSettled(s.saves[i]) || s.mutations[s.saves[i].owner.mutation].stage == MSaving(i)))
    && (forall k | 0 <= k < |s.mutations| && s.mutations[k].stage.MSaving? ::
          var i := s.mutations[k].stage.save;
          i < |s.saves| && s.saves[i].owner == ByMutation(k) && s.saves[i].key == CONSENT_KEY)
  }

  /** Saves to the folder key and picks name each other. */
  ghost predicate PickLinks(s: State) {
    && (forall i | 0 <= i < |s.saves| && s.saves[i].key == SYNC_FOLDER_KEY ::
          s.saves[i].owner.ByPick? && s.saves[i].owner.pick < |s.picks| && s.picks[s.saves[i].owner.pick].save == i)
    && (forall p | 0 <= p < |s.picks| ::
          var i := s.picks[p].save;
          && i < |s.saves| && s.saves[i].owner == ByPick(p) && s.saves[i].key == SYNC_FOLDER_KEY
          && s.saves[i].data == Str(s.picks[p].path) && s.picks[p].path != "")
  }

  ghost predicate Links(s: State) {
    ConsentLinks(s) && PickLinks(s)
  }

  ghost predicate MutationsOrdered(mutations: seq<Mutation>) {
    forall i, j | 0 <= i < j < |mutations| :: mutations[j].stage.MWaiting? || MutationSettled(mutations[i])
  }

  /** Saves only move on: same key, data and owner, and settled for good. */
  ghost predicate SavesMoveOn(saves: seq<Save>, saves': seq<Save>) {
    |saves| <= |saves'| && forall i | 0 <= i < |saves| ::
      && saves'[i].key == saves[i].key && saves'[i].data == saves[i].data && saves'[i].owner == saves[i].owner
      && (SaveSettled(saves[i]) ==> saves'[i] == saves[i])
  }

  lemma SavesMoveOnStep(s: State, input: Input)
    ensures SavesMoveOn(s.saves, Step(s, input).saves)
  {
  }

  lemma ConsentLinksFrame(s: State, s': State)
    requires ConsentLinks(s) && SavesMoveOn(s.saves, s'.saves) && s'.mutations == s.mutations
    requires forall i | |s.saves| <= i < |s'.saves| :: s'.saves[i].key != CONSENT_KEY
    ensures ConsentLinks(s')
  {
  }

  lemma PickLinksFrame(s: State, s': State)
    requires PickLinks(s) && SavesMoveOn(s.saves, s'.saves) && |s'.picks| == |s.picks|
    requires forall p | 0 <= p < |s.picks| :: s'.picks[p].save == s.picks[p].save && s'.picks[p].path == s.picks[p].path
    requires forall i | |s.saves| <= i < |s'.saves| :: s'.saves[i].key != SYNC_FOLDER_KEY
    ensures PickLinks(s')
  {
  }

  /** A mutation reads, fails or settles; it does not come to wait for a save. */
  lemma ConsentLinksMutation(s: State, k: nat, mutation: Mutation)
    requires ConsentLinks(s) && k < |s.mutations| && mutation.stage != MWaiting
    requires !MutationSettled(s.mutations[k]) && !mutation.stage.MSaving?
    requires s.mutations[k].stage.MSaving? ==> s.mutations[k].stage.save < |s.saves| && SaveSettled(s.saves[s.mutations[k].stage.save])
    ensures ConsentLinks(WithMutation(s, k, mutation))
  {
  }

  lemma ConsentLinksCall(s: State, op: Op)
    requires ConsentLinks(s)
    ensures ConsentLinks(Step(s, CallMutate(op)))
  {
  }

  lemma ConsentLinksApply(s: State, k: nat)
    requires ConsentLinks(s) && k < |s.mutations| && s.mutations[k].stage.MHasRead?
    ensures ConsentLinks(StepMutation(s, k))
  {
  }

  lemma PickLinksNew(s: State, path: string)
    requires PickLinks(s)
    ensures PickLinks(Step(s, PickFolder(path)))
  {
  }

  /** Only a mutation's write goes to the consent key, only a pick's to the folder key. */
  lemma NewSaveKeys(s: State, input: Input)
    ensures forall i | |s.saves| <= i < |Step(s, input).saves| ::
              && (Step(s, input).saves[i].key == CONSENT_KEY ==> input.MutationApplies?)
              && (Step(s, input).saves[i].key == SYNC_FOLDER_KEY ==> input.PickFolder?)
  {
  }

  predicate TouchesMutations(input: Input) {
    input.CallMutate? || input.MutationReads? || input.MutationApplies? || input.MutationSettles?
  }

  lemma UntouchedMutations(s: State, input: Input)
    requires !TouchesMutations(input)
    ensures Step(s, input).mutations == s.mutations
  {
  }

  lemma UntouchedPicks(s: State, input: Input)
    requires !input.PickFolder?
    ensures var s' := Step(s, input);
            |s'.picks| == |s.picks| && forall p | 0 <= p < |s.picks| :: s'.picks[p].save == s.picks[p].save && s'.picks[p].path == s.picks[p].path
  {
  }

  lemma ConsentLinksReads(s: State, k: nat, ok: bool)
    requires ConsentLinks(s)
    ensures ConsentLinks(Step(s, MutationReads(k, ok)))
  {
    if MutationMayStart(s, k) {
      ConsentLinksMutation(s, k, MutationAfterRead(s.file, s.mutations[k], ok));
    }
  }

  lemma ConsentLinksSettles(s: State, k: nat)
    requires ConsentLinks(s)
    ensures ConsentLinks(Step(s, MutationSettles(k)))
  {
    var s' := Step(s, MutationSettles(k));
    if s' != s {
      ConsentLinksMutation(s, k, s'.mutations[k]);
    }
  }

  lemma ConsentLinksUntouched(s: State, input: Input)
    requires ConsentLinks(s) && !TouchesMutations(input)
    ensures ConsentLinks(Step(s, input))
  {
    SavesMoveOnStep(s, input);
    NewSaveKeys(s, input);
    UntouchedMutations(s, input);
    ConsentLinksFrame(s, Step(s, input));
  }

  lemma ConsentLinksStep(s: State, input: Input)
    requires ConsentLinks(s)
    ensures ConsentLinks(Step(s, input))
  {
    match input
    case CallMutate(op) => ConsentLinksCall(s, op);
    case MutationApplies(k) =>
      if k < |s.mutations| && s.mutations[k].stage.MHasRead? {
        ConsentLinksApply(s, k);
      }
    case MutationReads(k, ok) => ConsentLinksReads(s, k, ok);
    case MutationSettles(k) => ConsentLinksSettles(s, k);
    case _ => ConsentLinksUntouched(s, input);
  }

  lemma PickLinksStep(s: State, input: Input)
    requires PickLinks(s)
    ensures PickLinks(Step(s, input))
  {
    if input.PickFolder? {
      PickLinksNew(s, input.path);
    } else {
      SavesMoveOnStep(s, input);
      NewSaveKeys(s, input);
      UntouchedPicks(s, input);
      PickLinksFrame(s, Step(s, input));
    }
  }

  lemma LinksStep(s: State, input: Input)
    requires Links(s)
    ensures Links(Step(s, input))
  {
    ConsentLinksStep(s, input);
    PickLinksStep(s, input);
  }

  lemma MutationsOrderedStep(s: State, input: Input)
    requires MutationsOrdered(s.mutations)
    ensures MutationsOrdered(Step(s, input).mutations)
  {
    var s' := Step(s, input);
    if input.MutationReads? && s' != s {
      forall j, k | 0 <= j < k < |s'.mutations|
        ensures s'.mutations[k].stage.MWaiting? || MutationSettled(s'.mutations[j])
      {
        if k == input.k && j < k - 1 {
          assert MutationSettled(s.mutations[k - 1]);
        }
      }
    }
  }

  // -------------------------------------------------------- the mutation queue

  /** The reads that decide about consents worked: those of landed saves to other keys and of effective mutations. */
  predicate ConsentReadsOk(s: State) {
    && (forall i | 0 <= i < |s.saves| && s.saves[i].stage.Committed? && s.saves[i].key != CONSENT_KEY :: s.saves[i].readOk)
    && (forall k | 0 <= k < |s.mutations| && TookEffect(s.mutations[k], s.saves) :: s.mutations[k].readOk)
  }

  /** What a mutation takes for the stored consents. */
  function SeenBy(m: Mutation, consents: Consents): Consents {
    if m.readOk then consents else map[]
  }

  /** What running mutations know about the consents on disk. */
  ghost predicate MutationsCurrent(s: State) {
    forall k | 0 <= k < |s.mutations| ::
      && (s.mutations[k].stage.MHasRead? ==> s.mutations[k].stage.consents == SeenBy(s.mutations[k], ConsentsIn(s.file)))
      && (s.mutations[k].stage.MSaving? && s.mutations[k].stage.save < |s.saves| && !SaveSettled(s.saves[s.mutations[k].stage.save]) ==>
            s.saves[s.mutations[k].stage.save].data == BlobJson(Apply(s.mutations[k].op, SeenBy(s.mutations[k], ConsentsIn(s.file)))))
  }

  ghost predicate ConsentsFolded(file: File, s: State) {
    ConsentsIn(s.file) == FoldMutations(ConsentsIn(file), s.mutations, s.saves)
  }

  ghost predicate Inv(file: File, s: State) {
    SaveInv(file, s) && Links(s) && MutationsOrdered(s.mutations)
  }

  /**
   The step loses stored consents to a failed read: a save to another key lands on a store
   it took for empty, a mutation's save lands and drops the consents of other ids, or a
   clear finds nothing to clear although its consent is stored.
   */
  predicate LosesConsents(s: State, input: Input) {
    match input
    case SaveRenames(i) =>
      && i < |s.saves| && s.saves[i].stage.TmpWritten?
      && if s.saves[i].key == CONSENT_KEY then
           && s.saves[i].owner.ByMutation? && s.saves[i].owner.mutation < |s.mutations|
           && !s.mutations[s.saves[i].owner.mutation].readOk
           && exists id | id in ConsentsIn(s.file) :: id != s.mutations[s.saves[i].owner.mutation].op.id
         else !s.saves[i].readOk && ConsentsIn(s.file) != map[]
    case MutationApplies(k) =>
      && k < |s.mutations| && s.mutations[k].stage.MHasRead? && s.mutations[k].op.ClearConsent?
      && !s.mutations[k].readOk && s.mutations[k].op.id in ConsentsIn(s.file)
    case _ => false
  }

  /** Working on an empty map instead of the stored one matters exactly if another id is stored. */
  lemma BlindWrite(op: Op, consents: Consents)
    ensures Apply(op, map[]) == Apply(op, consents) <==> forall id | id in consents :: id == op.id
  {
    if id :| id in consents && id != op.id {
      assert id in Apply(op, consents) && id !in Apply(op, map[]);
    }
  }

  /** What took effect stays in effect, by the same read. */
  ghost predicate EffectsStay(s: State, s': State) {
    && SavesMoveOn(s.saves, s'.saves)
    && |s.mutations| <= |s'.mutations|
    && forall k | 0 <= k < |s.mutations| && TookEffect(s.mutations[k], s.saves) ::
         TookEffect(s'.mutations[k], s'.saves) && s'.mutations[k].readOk == s.mutations[k].readOk
  }

  /** A settled mutation is left alone; one that waits for its save keeps waiting, or settles as that says. */
  lemma MutationsMoveOnStep(s: State, input: Input, k: nat)
    requires k < |s.mutations| && (s.mutations[k].stage.MDone? || s.mutations[k].stage.MSaving?)
    ensures var s' := Step(s, input);
            && k < |s'.mutations| && s'.mutations[k].readOk == s.mutations[k].readOk
            && (s'.mutations[k].stage == s.mutations[k].stage ||
                (s.mutations[k].stage.MSaving? && s.mutations[k].stage.save < |s.saves| &&
                 (s.saves[s.mutations[k].stage.save].stage.Committed? ==> s'.mutations[k].stage.MDone?)))
  {
  }

  lemma EffectsStayStep(s: State, input: Input)
    ensures EffectsStay(s, Step(s, input))
  {
    var s' := Step(s, input);
    SavesMoveOnStep(s, input);
    forall k | 0 <= k < |s.mutations| && TookEffect(s.mutations[k], s.saves)
      ensures k < |s'.mutations| && TookEffect(s'.mutations[k], s'.saves) && s'.mutations[k].readOk == s.mutations[k].readOk
    {
      MutationsMoveOnStep(s, input, k);
    }
    MutationsNeverShrink(s, input);
  }

  lemma MutationsNeverShrink(s: State, input: Input)
    ensures |s.mutations| <= |Step(s, input).mutations|
  {
  }

  lemma ReadsOkBefore(s: State, s': State)
    requires EffectsStay(s, s') && ConsentReadsOk(s')
    ensures ConsentReadsOk(s)
  {
    forall i | 0 <= i < |s.saves| && s.saves[i].stage.Committed? && s.saves[i].key != CONSENT_KEY
      ensures s.saves[i].readOk
    {
      assert s'.saves[i] == s.saves[i];
    }
  }

  /** The commit of a save: consents and folder on disk move exactly for their own key, or are dropped. */
  lemma CommitEffect(file: File, s: State, i: nat)
    requires SaveInv(file, s) && i < |s.saves| && s.saves[i].stage.TmpWritten?
    ensures var s' := Step(s, SaveRenames(i));
            && ConsentsIn(s'.file) == (if s.saves[i].key == CONSENT_KEY then ParseBlob(Some(s.saves[i].data))
                                       else if s.saves[i].readOk then ConsentsIn(s.file) else map[])
            && (s.saves[i].key != SYNC_FOLDER_KEY ==>
                  FolderIn(s'.file) == if s.saves[i].readOk then FolderIn(s.file) else None)
            && (s.saves[i].key == SYNC_FOLDER_KEY && s.saves[i].data.Str? && s.saves[i].data.s != "" ==>
                  FolderIn(s'.file) == Some(s.saves[i].data.s))
  {
    SaveChangesOneKey(s.file, s.saves[i].key, s.saves[i].data, CONSENT_KEY);
    SaveChangesOneKey(s.file, s.saves[i].key, s.saves[i].data, SYNC_FOLDER_KEY);
  }

  lemma ConsentRename(file: File, s: State, i: nat)
    requires SaveInv(file, s) && Links(s) && MutationsOrdered(s.mutations)
    requires MutationsCurrent(s) && ConsentsFolded(file, s)
    requires i < |s.saves| && s.saves[i].stage.TmpWritten?
    ensures var s' := Step(s, SaveRenames(i));
            && (ConsentsFolded(file, s') <==> !LosesConsents(s, SaveRenames(i)))
            && (!LosesConsents(s, SaveRenames(i)) ==> MutationsCurrent(s'))
  {
    var s' := Step(s, SaveRenames(i));
    CommitEffect(file, s, i);
    if s.saves[i].key == CONSENT_KEY {
      RenameOfConsents(file, s, s', i);
    } else {
      RenameOfOtherKey(file, s, s', i);
    }
  }

  /** The save of mutation `k` lands: its mutation takes effect, alone, on what it has read. */
  lemma CommitFolds(file: File, s: State, s': State, i: nat)
    requires ConsentLinks(s) && MutationsOrdered(s.mutations)
    requires MutationsCurrent(s) && ConsentsFolded(file, s)
    requires i < |s.saves| && s.saves[i].stage.TmpWritten? && s.saves[i].key == CONSENT_KEY
    requires s'.saves == s.saves[i := s.saves[i].(stage := Committed)] && s'.mutations == s.mutations
    ensures var m := s.mutations[s.saves[i].owner.mutation];
            && ParseBlob(Some(s.saves[i].data)) == Apply(m.op, SeenBy(m, ConsentsIn(s.file)))
            && FoldMutations(ConsentsIn(file), s'.mutations, s'.saves) == Apply(m.op, ConsentsIn(s.file))
  {
    var k := s.saves[i].owner.mutation;
    BlobRoundTrip(Apply(s.mutations[k].op, SeenBy(s.mutations[k], ConsentsIn(s.file))));
    FoldMutationsCommit(ConsentsIn(file), s.mutations, s.saves, s'.mutations, s'.saves, k);
  }

  lemma RenameOfConsents(file: File, s: State, s': State, i: nat)
    requires ConsentLinks(s) && MutationsOrdered(s.mutations)
    requires MutationsCurrent(s) && ConsentsFolded(file, s)
    requires i < |s.saves| && s.saves[i].stage.TmpWritten? && s.saves[i].key == CONSENT_KEY
    requires s'.saves == s.saves[i := s.saves[i].(stage := Committed)] && s'.mutations == s.mutations
    requires ConsentsIn(s'.file) == ParseBlob(Some(s.saves[i].data))
    ensures MutationsCurrent(s') && (ConsentsFolded(file, s') <==> !LosesConsents(s, SaveRenames(i)))
  {
    var k := s.saves[i].owner.mutation;
    CommitFolds(file, s, s', i);
    BlindWrite(s.mutations[k].op, ConsentsIn(s.file));
    OthersIdle(s.mutations, k);
    CurrentWhenOthersIdle(s', k);
  }

  predicate Idle(mutation: Mutation) {
    mutation.stage.MWaiting? || MutationSettled(mutation)
  }

  lemma OthersIdle(mutations: seq<Mutation>, k: nat)
    requires MutationsOrdered(mutations) && k < |mutations| && !Idle(mutations[k])
    ensures forall j | 0 <= j < |mutations| && j != k :: Idle(mutations[j])
  {
  }

  lemma CurrentWhenOthersIdle(s: State, k: nat)
    requires k < |s.mutations| && forall j | 0 <= j < |s.mutations| && j != k :: Idle(s.mutations[j])
    requires !s.mutations[k].stage.MHasRead?
    requires s.mutations[k].stage.MSaving? && s.mutations[k].stage.save < |s.saves| ==>
               var save := s.saves[s.mutations[k].stage.save];
               SaveSettled(save) || save.data == BlobJson(Apply(s.mutations[k].op, SeenBy(s.mutations[k], ConsentsIn(s.file))))
    ensures MutationsCurrent(s)
  {
  }

  lemma RenameOfOtherKey(file: File, s: State, s': State, i: nat)
    requires ConsentLinks(s) && MutationsCurrent(s) && ConsentsFolded(file, s)
    requires i < |s.saves| && s.saves[i].stage.TmpWritten? && s.saves[i].key != CONSENT_KEY
    requires s'.saves == s.saves[i := s.saves[i].(stage := Committed)] && s'.mutations == s.mutations
    requires ConsentsIn(s'.file) == if s.saves[i].readOk then ConsentsIn(s.file) else map[]
    ensures ConsentsFolded(file, s') <==> !LosesConsents(s, SaveRenames(i))
    ensures !LosesConsents(s, SaveRenames(i)) ==> MutationsCurrent(s')
  {
    FoldMutationsSame(ConsentsIn(file), s.mutations, s.saves, s'.mutations, s'.saves);
  }

  lemma ConsentApply(file: File, s: State, k: nat)
    requires ConsentLinks(s) && MutationsOrdered(s.mutations)
    requires MutationsCurrent(s) && ConsentsFolded(file, s)
    requires k < |s.mutations| && s.mutations[k].stage.MHasRead?
    ensures var s' := StepMutation(s, k);
            MutationsCurrent(s') && (ConsentsFolded(file, s') <==> !LosesConsents(s, MutationApplies(k)))
  {
    var s' := StepMutation(s, k);
    var m := s.mutations[k];
    OthersIdle(s.mutations, k);
    CurrentWhenOthersIdle(s', k);
    if NeedsWrite(m.op, m.stage.consents) {
      ApplyWrites(ConsentsIn(file), s, k);
    } else {
      ApplyFindsNothing(ConsentsIn(file), s, k);
    }
  }

  /** The enqueued save has not landed: no effect yet. */
  lemma ApplyWrites(consents: Consents, s: State, k: nat)
    requires ConsentLinks(s) && k < |s.mutations| && s.mutations[k].stage.MHasRead?
    requires NeedsWrite(s.mutations[k].op, s.mutations[k].stage.consents)
    ensures var s' := StepMutation(s, k);
            FoldMutations(consents, s'.mutations, s'.saves) == FoldMutations(consents, s.mutations, s.saves)
  {
    var s' := StepMutation(s, k);
    FoldMutationsSame(consents, s.mutations, s.saves, s'.mutations, s'.saves);
  }

  /** A clear that finds nothing is done, and counts. */
  lemma ApplyFindsNothing(consents: Consents, s: State, k: nat)
    requires MutationsOrdered(s.mutations) && k < |s.mutations| && s.mutations[k].stage.MHasRead?
    requires !NeedsWrite(s.mutations[k].op, s.mutations[k].stage.consents)
    ensures var s' := StepMutation(s, k);
            FoldMutations(consents, s'.mutations, s'.saves) ==
            Apply(s.mutations[k].op, FoldMutations(consents, s.mutations, s.saves))
  {
    var s' := StepMutation(s, k);
    OthersIdle(s.mutations, k);
    FoldMutationsCommit(consents, s.mutations, s.saves, s'.mutations, s'.saves, k);
  }

  /** A new mutation waits at the end of the queue: nothing is known of it, and it has no effect. */
  lemma CallKeepsCurrent(s: State, s': State)
    requires MutationsCurrent(s) && s'.saves == s.saves && s'.file == s.file
    requires |s'.mutations| == |s.mutations| + 1 && s'.mutations[..|s.mutations|] == s.mutations
    requires s'.mutations[|s.mutations|].stage.MWaiting?
    ensures MutationsCurrent(s')
  {
    assert forall k | 0 <= k < |s.mutations| :: s'.mutations[k] == s.mutations[k];
  }

  lemma CallKeepsFold(consents: Consents, mutations: seq<Mutation>, saves: seq<Save>, called: Mutation)
    requires called.stage.MWaiting?
    ensures FoldMutations(consents, mutations + [called], saves) == FoldMutations(consents, mutations, saves)
  {
    assert (mutations + [called])[..|mutations|] == mutations;
  }

  /** Commit nothing, apply nothing: the consent side stays as it is. */
  lemma ConsentFrame(file: File, s: State, s': State)
    requires MutationsCurrent(s) && ConsentsFolded(file, s) && s'.file == s.file
    requires SavesMoveOn(s.saves, s'.saves) && |s'.mutations| == |s.mutations|
    requires forall k | 0 <= k < |s.mutations| :: s'.mutations[k].op == s.mutations[k].op
    requires forall k | 0 <= k < |s.mutations| :: TookEffect(s'.mutations[k], s'.saves) == TookEffect(s.mutations[k], s.saves)
    requires forall k | 0 <= k < |s.mutations| ::
               s'.mutations[k] == s.mutations[k] || MutationSettled(s'.mutations[k]) ||
               s'.mutations[k].stage == MHasRead(SeenBy(s'.mutations[k], ConsentsIn(s.file)))
    requires forall k | 0 <= k < |s.mutations| && s.mutations[k].stage.MSaving? :: s.mutations[k].stage.save < |s.saves|
    ensures MutationsCurrent(s') && ConsentsFolded(file, s')
  {
    FoldMutationsSame(ConsentsIn(file), s.mutations, s.saves, s'.mutations, s'.saves);
  }

  /** No save commits, so no mutation takes effect by it. */
  lemma EffectFrame(s: State, input: Input, k: nat)
    requires k < |s.mutations| && (s.mutations[k].stage.MSaving? ==> s.mutations[k].stage.save < |s.saves|)
    requires !input.SaveRenames?
    ensures TookEffect(s.mutations[k], Step(s, input).saves) == TookEffect(s.mutations[k], s.saves)
  {
  }

  lemma MutationReadQuiet(file: File, s: State, k: nat, ok: bool)
    requires ConsentLinks(s) && MutationsCurrent(s) && ConsentsFolded(file, s)
    ensures var s' := Step(s, MutationReads(k, ok)); MutationsCurrent(s') && ConsentsFolded(file, s')
  {
    ConsentFrame(file, s, Step(s, MutationReads(k, ok)));
  }

  lemma MutationSettleQuiet(file: File, s: State, k: nat)
    requires ConsentLinks(s) && MutationsCurrent(s) && ConsentsFolded(file, s)
    ensures var s' := Step(s, MutationSettles(k)); MutationsCurrent(s') && ConsentsFolded(file, s')
  {
    ConsentFrame(file, s, Step(s, MutationSettles(k)));
  }

  /** Steps that touch no mutation and commit no save. */
  lemma ConsentQuietStep(file: File, s: State, input: Input)
    requires ConsentLinks(s) && MutationsCurrent(s) && ConsentsFolded(file, s)
    requires !input.SaveRenames? && !TouchesMutations(input)
    ensures MutationsCurrent(Step(s, input)) && ConsentsFolded(file, Step(s, input))
  {
    SavesMoveOnStep(s, input);
    UntouchedMutations(s, input);
    forall k | 0 <= k < |s.mutations| {
      EffectFrame(s, input, k);
    }
    OnlyRenamesMoveTheFile(s, input);
    ConsentFrame(file, s, Step(s, input));
  }

  lemma OnlyRenamesMoveTheFile(s: State, input: Input)
    requires !input.SaveRenames?
    ensures Step(s, input).file == s.file
  {
  }

  /** Step by step, the consents stay the fold of the mutations exactly if the step loses none. */
  lemma ConsentStepIff(file: File, s: State, input: Input)
    requires SaveInv(file, s) && Links(s) && MutationsOrdered(s.mutations)
    requires MutationsCurrent(s) && ConsentsFolded(file, s)
    ensures ConsentsFolded(file, Step(s, input)) <==> !LosesConsents(s, input)
    ensures !LosesConsents(s, input) ==> MutationsCurrent(Step(s, input))
  {
    match input
    case SaveRenames(i) =>
      if i < |s.saves| && s.saves[i].stage.TmpWritten? {
        ConsentRename(file, s, i);
      }
    case MutationApplies(k) =>
      if k < |s.mutations| && s.mutations[k].stage.MHasRead? {
        ConsentApply(file, s, k);
      }
    case CallMutate(op) =>
      CallKeepsCurrent(s, Step(s, input));
      CallKeepsFold(ConsentsIn(file), s.mutations, s.saves, Mutation(op, true, MWaiting));
    case MutationReads(k, ok) => MutationReadQuiet(file, s, k, ok);
    case MutationSettles(k) => MutationSettleQuiet(file, s, k);
    case _ => ConsentQuietStep(file, s, input);
  }

  /** A step that loses consents leaves the failed read on record. */
  lemma LossIsOnRecord(s: State, input: Input)
    requires ConsentLinks(s) && MutationsCurrent(s) && LosesConsents(s, input)
    ensures !ConsentReadsOk(Step(s, input))
  {
    var s' := Step(s, input);
    match input
    case SaveRenames(i) =>
      assert s'.saves[i].stage.Committed? && s'.saves[i].readOk == s.saves[i].readOk;
      if s.saves[i].key == CONSENT_KEY {
        assert TookEffect(s'.mutations[s.saves[i].owner.mutation], s'.saves);
      }
    case MutationApplies(k) =>
      assert s.mutations[k].stage.consents == map[];
      assert TookEffect(s'.mutations[k], s'.saves);
  }

  lemma {:induction false} RunInv(file: File, inputs: seq<Input>)
    ensures Inv(file, Run(file, inputs))
  {
    if inputs != [] {
      var front, last := inputs[..|inputs| - 1], inputs[|inputs| - 1];
      RunInv(file, front);
      SaveInvStep(file, Run(file, front), last);
      LinksStep(Run(file, front), last);
      MutationsOrderedStep(Run(file, front), last);
    }
  }

  // ---------------------------------------------------------- the save theorems

  /** At every moment of every run the file is the sequential fold of the successful saves, in call order. */
  lemma {:induction false} FileIsFoldOfSaves(file: File, inputs: seq<Input>)
    ensures Run(file, inputs).file == FoldSaves(file, Run(file, inputs).saves)
  {
    RunInv(file, inputs);
  }

  /** The file is the result of the first `n` saves, all settled, and no later save has landed. */
  ghost predicate IsPrefixResult(file: File, s: State, n: nat) {
    && n <= |s.saves| && s.file == FoldSaves(file, s.saves[..n])
    && (forall i | 0 <= i < n :: SaveSettled(s.saves[i]))
    && (forall i | n <= i < |s.saves| :: !s.saves[i].stage.Committed?)
  }

  /**
   What a concurrent load returns, and what a crash leaves: the result of a settled prefix
   of the save queue.
   */
  lemma {:induction false} LoadSeesAPrefix(file: File, inputs: seq<Input>)
    ensures exists n: nat :: IsPrefixResult(file, Run(file, inputs), n)
  {
    RunInv(file, inputs);
    var s := Run(file, inputs);
    var n := SettledPrefix(file, s.saves);
    assert IsPrefixResult(file, s, n);
  }

  lemma {:induction false} SettledPrefix(file: File, saves: seq<Save>) returns (n: nat)
    requires SavesOrdered(saves)
    ensures n <= |saves| && FoldSaves(file, saves) == FoldSaves(file, saves[..n])
    ensures forall i | 0 <= i < n :: SaveSettled(saves[i])
    ensures forall i | n <= i < |saves| :: !saves[i].stage.Committed?
  {
    if saves == [] || SaveSettled(saves[|saves| - 1]) {
      n := |saves|;
      assert saves[..n] == saves;
    } else {
      var front := saves[..|saves| - 1];
      n := SettledPrefix(file, front);
      assert front[..n] == saves[..n];
    }
  }

  lemma OnlyRenamesChangeTheFile(file: File, inputs: seq<Input>, input: Input)
    ensures var s, s' := Run(file, inputs), Run(file, inputs + [input]);
            s'.file == s.file ||
            (input.SaveRenames? && input.i < |s.saves| &&
             s'.file == Some(AfterSave(s.file, s.saves[input.i].key, s.saves[input.i].data, s.saves[input.i].readOk)))
  {
    RunInv(file, inputs);
    assert (inputs + [input])[..|inputs|] == inputs;
  }

  /** The last successful save to `key`, or what was stored before. */
  function LastSaved(file: File, saves: seq<Save>, key: string): Option<Json> {
    if saves == [] then (if key in Spread(file) then Some(Spread(file)[key]) else None)
    else
      var last := saves[|saves| - 1];
      if last.stage.Committed? && last.key == key then Some(last.data)
      else LastSaved(file, saves[..|saves| - 1], key)
  }

  function Get(m: map<string, Json>, key: string): Option<Json> {
    if key in m then Some(m[key]) else None
  }

  /** What a key holds after the saves: a landed save to another key whose read failed drops it. */
  function KeyHolds(file: File, saves: seq<Save>, key: string): Option<Json> {
    if saves == [] then Get(Spread(file), key)
    else
      var last := saves[|saves| - 1];
      if last.stage.Committed? && last.key == key then Some(last.data)
      else if last.stage.Committed? && !last.readOk then None
      else KeyHolds(file, saves[..|saves| - 1], key)
  }

  /** Since the last landed save to `key`, one to another key has landed that could not read. */
  predicate Dropped(saves: seq<Save>, key: string) {
    exists i :: 0 <= i < |saves| && saves[i].stage.Committed? && saves[i].key != key && !saves[i].readOk
                && forall j | i < j < |saves| :: !(saves[j].stage.Committed? && saves[j].key == key)
  }

  lemma DroppedSnoc(saves: seq<Save>, key: string)
    requires saves != []
    ensures var last := saves[|saves| - 1];
            Dropped(saves, key) <==>
            if !last.stage.Committed? then Dropped(saves[..|saves| - 1], key)
            else last.key != key && (!last.readOk || Dropped(saves[..|saves| - 1], key))
  {
    var n := |saves| - 1;
    var front, last := saves[..n], saves[n];
    assert forall i | 0 <= i < n :: front[i] == saves[i];
    if Dropped(front, key) && !(last.stage.Committed? && last.key == key) {
      var i :| 0 <= i < n && front[i].stage.Committed? && front[i].key != key && !front[i].readOk
               && forall j | i < j < n :: !(front[j].stage.Committed? && front[j].key == key);
      assert saves[i].stage.Committed? && saves[i].key != key && !saves[i].readOk;
    }
    if Dropped(saves, key) {
      var i :| 0 <= i < |saves| && saves[i].stage.Committed? && saves[i].key != key && !saves[i].readOk
               && forall j | i < j < |saves| :: !(saves[j].stage.Committed? && saves[j].key == key);
      if i < n {
        assert front[i].stage.Committed?;
        assert !(saves[n].stage.Committed? && saves[n].key == key);
      }
    }
  }

  lemma {:induction false} KeyHoldsUnlessDropped(file: File, saves: seq<Save>, key: string)
    ensures KeyHolds(file, saves, key) == if Dropped(saves, key) then None else LastSaved(file, saves, key)
  {
    if saves != [] {
      KeyHoldsUnlessDropped(file, saves[..|saves| - 1], key);
      DroppedSnoc(saves, key);
    }
  }

  lemma {:induction false} EveryKeyHolds(file: File, saves: seq<Save>, key: string)
    ensures Get(Spread(FoldSaves(file, saves)), key) == KeyHolds(file, saves, key)
  {
    if saves != [] {
      EveryKeyHolds(file, saves[..|saves| - 1], key);
    }
  }

  /** In every run, failed reads and all, the file holds under each key exactly what the saves left there. */
  lemma FileHoldsEveryKey(file: File, inputs: seq<Input>, key: string)
    ensures var s := Run(file, inputs);
            Get(Spread(s.file), key) == KeyHolds(file, s.saves, key)
  {
    RunInv(file, inputs);
    EveryKeyHolds(file, Run(file, inputs).saves, key);
  }

  /**
   A key holds the data of its last successful save, or what was stored before -- if and
   only if there is none, or no landed save to another key that could not read came since.
   */
  lemma NoUpdateIsLostIff(file: File, inputs: seq<Input>, key: string)
    ensures var s := Run(file, inputs);
            Get(Spread(s.file), key) == LastSaved(file, s.saves, key) <==>
            LastSaved(file, s.saves, key).None? || !Dropped(s.saves, key)
  {
    FileHoldsEveryKey(file, inputs, key);
    KeyHoldsUnlessDropped(file, Run(file, inputs).saves, key);
  }

  // -------------------------------------------------------- queues and their calls

  datatype Call = Call(key: string, data: Json)

  /** The saves that callers asked for, in call order; the two main-owned keys are refused. */
  function CalledSaves(inputs: seq<Input>): seq<Call> {
    if inputs == [] then []
    else
      CalledSaves(inputs[..|inputs| - 1]) +
      match inputs[|inputs| - 1]
      case CallSave(key, data) =>
        if key == "pluginNodeExecutionConsent" || key == "syncFolderPath" then [] else [Call(key, data)]
      case _ => []
  }

  function CalledOps(inputs: seq<Input>): seq<Op> {
    if inputs == [] then []
    else CalledOps(inputs[..|inputs| - 1]) + if inputs[|inputs| - 1].CallMutate? then [inputs[|inputs| - 1].op] else []
  }

  function PickedPaths(inputs: seq<Input>): seq<string> {
    if inputs == [] then []
    else
      PickedPaths(inputs[..|inputs| - 1]) +
      if inputs[|inputs| - 1].PickFolder? && inputs[|inputs| - 1].path != "" then [inputs[|inputs| - 1].path] else []
  }

  /** The queued saves of callers, with whether they have landed. */
  function QueuedCalls(saves: seq<Save>): seq<Call> {
    if saves == [] then []
    else
      QueuedCalls(saves[..|saves| - 1]) +
      if saves[|saves| - 1].owner.OtherCaller? then [Call(saves[|saves| - 1].key, saves[|saves| - 1].data)] else []
  }

  function QueuedLanded(saves: seq<Save>): (landed: seq<bool>)
    ensures |landed| == |QueuedCalls(saves)|
  {
    if saves == [] then []
    else
      QueuedLanded(saves[..|saves| - 1]) +
      if saves[|saves| - 1].owner.OtherCaller? then [saves[|saves| - 1].stage.Committed?] else []
  }

  lemma {:induction false} QueuedCallsMoveOn(saves: seq<Save>, saves': seq<Save>)
    requires |saves| == |saves'| && SavesMoveOn(saves, saves')
    ensures QueuedCalls(saves') == QueuedCalls(saves)
  {
    if saves != [] {
      QueuedCallsMoveOn(saves[..|saves| - 1], saves'[..|saves| - 1]);
    }
  }

  /** What one input appends to the save queue. */
  lemma NewSaves(s: State, input: Input)
    ensures var s' := Step(s, input);
            |s.saves| <= |s'.saves| <= |s.saves| + 1 &&
            if input.CallSave? && input.key != "pluginNodeExecutionConsent" && input.key != "syncFolderPath" then
              |s'.saves| == |s.saves| + 1 && s'.saves[|s.saves|] == Save(input.key, input.data, OtherCaller, true, Waiting)
            else |s'.saves| == |s.saves| + 1 ==> !s'.saves[|s.saves|].owner.OtherCaller?
  {
  }

  lemma QueuedCallsStep(s: State, input: Input)
    ensures QueuedCalls(Step(s, input).saves) == QueuedCalls(s.saves) + CalledSaves([input])
  {
    var s' := Step(s, input);
    NewSaves(s, input);
    SavesMoveOnStep(s, input);
    var old' := s'.saves[..|s.saves|];
    QueuedCallsMoveOn(s.saves, old');
    assert [input][..0] == [];
    assert CalledSaves([]) == [];
    if |s'.saves| == |s.saves| {
      assert old' == s'.saves;
    } else {
      assert s'.saves[..|s'.saves| - 1] == old';
    }
  }

  lemma CalledSavesSnoc(inputs: seq<Input>)
    requires inputs != []
    ensures CalledSaves(inputs) == CalledSaves(inputs[..|inputs| - 1]) + CalledSaves([inputs[|inputs| - 1]])
  {
    var last := inputs[|inputs| - 1];
    assert [last][..0] == [];
    assert CalledSaves([]) == [];
    assert forall calls: seq<Call> :: [] + calls == calls;
  }

  /** The save queue holds, of callers, exactly what they asked for: every call, its key and its data, in call order. */
  lemma {:induction false} EveryCallIsQueued(file: File, inputs: seq<Input>)
    ensures QueuedCalls(Run(file, inputs).saves) == CalledSaves(inputs)
  {
    if inputs != [] {
      EveryCallIsQueued(file, inputs[..|inputs| - 1]);
      QueuedCallsStep(Run(file, inputs[..|inputs| - 1]), inputs[|inputs| - 1]);
      CalledSavesSnoc(inputs);
    }
  }

  function OpsOf(mutations: seq<Mutation>): seq<Op> {
    seq(|mutations|, k requires 0 <= k < |mutations| => mutations[k].op)
  }

  function PathsOf(picks: seq<Pick>): seq<string> {
    seq(|picks|, p requires 0 <= p < |picks| => picks[p].path)
  }

  lemma OpsStep(s: State, input: Input)
    ensures OpsOf(Step(s, input).mutations) == OpsOf(s.mutations) + if input.CallMutate? then [input.op] else []
  {
    var s' := Step(s, input);
    if !TouchesMutations(input) {
      UntouchedMutations(s, input);
    } else if !input.CallMutate? {
      assert |s'.mutations| == |s.mutations|;
      assert forall k | 0 <= k < |s.mutations| :: s'.mutations[k].op == s.mutations[k].op;
    }
  }

  lemma PathsStep(s: State, input: Input)
    ensures PathsOf(Step(s, input).picks) ==
            PathsOf(s.picks) + if input.PickFolder? && input.path != "" then [input.path] else []
  {
    if !input.PickFolder? {
      UntouchedPicks(s, input);
    }
  }

  /** So do the mutation queue and the picks. */
  lemma {:induction false} EveryMutationAndPickIsQueued(file: File, inputs: seq<Input>)
    ensures OpsOf(Run(file, inputs).mutations) == CalledOps(inputs)
    ensures PathsOf(Run(file, inputs).picks) == PickedPaths(inputs)
  {
    if inputs != [] {
      EveryMutationAndPickIsQueued(file, inputs[..|inputs| - 1]);
      OpsStep(Run(file, inputs[..|inputs| - 1]), inputs[|inputs| - 1]);
      PathsStep(Run(file, inputs[..|inputs| - 1]), inputs[|inputs| - 1]);
    }
  }

  /** The data of the last call for `key` that has landed, or what was stored before. */
  function LastLandedCall(file: File, calls: seq<Call>, landed: seq<bool>, key: string): Option<Json>
    requires |landed| == |calls|
  {
    if calls == [] then Get(Spread(file), key)
    else
      var n := |calls| - 1;
      if landed[n] && calls[n].key == key then Some(calls[n].data)
      else LastLandedCall(file, calls[..n], landed[..n], key)
  }

  lemma LastLandedSnoc(file: File, calls: seq<Call>, landed: seq<bool>, call: Call, ok: bool, key: string)
    requires |landed| == |calls|
    ensures LastLandedCall(file, calls + [call], landed + [ok], key) ==
            if ok && call.key == key then Some(call.data) else LastLandedCall(file, calls, landed, key)
  {
    assert (calls + [call])[..|calls|] == calls && (landed + [ok])[..|calls|] == landed;
  }

  lemma {:induction false} LastSavedIsLastLanded(file: File, saves: seq<Save>, key: string)
    requires forall i | 0 <= i < |saves| && saves[i].key == key :: saves[i].owner.OtherCaller?
    ensures LastSaved(file, saves, key) == LastLandedCall(file, QueuedCalls(saves), QueuedLanded(saves), key)
  {
    if saves != [] {
      var front, last := saves[..|saves| - 1], saves[|saves| - 1];
      LastSavedIsLastLanded(file, front, key);
      if last.owner.OtherCaller? {
        LastLandedSnoc(file, QueuedCalls(front), QueuedLanded(front), Call(last.key, last.data), last.stage.Committed?, key);
      } else {
        assert QueuedCalls(saves) == QueuedCalls(front) && QueuedLanded(saves) == QueuedLanded(front);
        assert last.key != key;
      }
    }
  }

  ghost predicate OwnersKeepToTheirKeys(saves: seq<Save>) {
    forall i | 0 <= i < |saves| ::
      && (saves[i].owner.ByMutation? ==> saves[i].key == CONSENT_KEY)
      && (saves[i].owner.ByPick? ==> saves[i].key == SYNC_FOLDER_KEY)
  }

  lemma OwnersStep(s: State, input: Input)
    requires OwnersKeepToTheirKeys(s.saves)
    ensures OwnersKeepToTheirKeys(Step(s, input).saves)
  {
  }

  lemma {:induction false} RunOwners(file: File, inputs: seq<Input>)
    ensures OwnersKeepToTheirKeys(Run(file, inputs).saves)
  {
    if inputs != [] {
      RunOwners(file, inputs[..|inputs| - 1]);
      OwnersStep(Run(file, inputs[..|inputs| - 1]), inputs[|inputs| - 1]);
    }
  }

  /**
   No update is lost, from the calls: under any key but the two main-owned ones the file
   holds the data of the last call for that key whose save has landed, or what was there
   before -- if and only if there is none, or no landed save to another key that could not
   read came since.
   */
  lemma NoCalledUpdateIsLostIff(file: File, inputs: seq<Input>, key: string)
    requires key != "pluginNodeExecutionConsent" && key != "syncFolderPath"
    ensures var s := Run(file, inputs);
            && |QueuedLanded(s.saves)| == |CalledSaves(inputs)|
            && var last := LastLandedCall(file, CalledSaves(inputs), QueuedLanded(s.saves), key);
               Get(Spread(s.file), key) == last <==> last.None? || !Dropped(s.saves, key)
  {
    var s := Run(file, inputs);
    EveryCallIsQueued(file, inputs);
    RunOwners(file, inputs);
    LastSavedIsLastLanded(file, s.saves, key);
    NoUpdateIsLostIff(file, inputs, key);
  }

  /** On a file holding `null` a mutation fails as soon as it has read, and writes nothing. */
  lemma NullStoreFailsMutations(s: State, k: nat)
    requires MutationMayStart(s, k) && s.file == Some(Null)
    ensures var s' := Step(s, MutationReads(k, true));
            s'.mutations[k].stage.MFailed? && s'.saves == s.saves && s'.file == s.file
  {
  }

  // -------------------------------------------------------- how an entry goes on

  /** A save starts when its predecessor has settled, reads, writes aside, and lands or fails; nothing else moves it. */
  lemma SavesGoOn(s: State, input: Input, i: nat)
    requires i < |s.saves|
    ensures var s' := Step(s, input);
            var stage, stage' := s.saves[i].stage, s'.saves[i].stage;
            && i < |s'.saves|
            && if input.SaveReads? && input.i == i && stage.Waiting? && (i > 0 ==> SaveSettled(s.saves[i - 1])) then
                 stage'.HasRead? && s'.saves[i].readOk == input.ok
               else if input == SaveWritesTmp(i) && stage.HasRead? then stage'.TmpWritten?
               else if input == SaveRenames(i) && stage.TmpWritten? then stage'.Committed?
               else if input == SaveFails(i) && (stage.HasRead? || stage.TmpWritten?) then stage'.SaveFailed? && s'.file == s.file
               else s'.saves[i] == s.saves[i]
  {
  }

  /** A mutation starts when its predecessor has settled, reads, asks for a save or finds nothing to do, and settles as its save does. */
  lemma MutationsGoOn(s: State, input: Input, k: nat)
    requires k < |s.mutations| && ConsentLinks(s)
    ensures var s' := Step(s, input);
            var m, m' := s.mutations[k], s'.mutations[k];
            && k < |s'.mutations|
            && if input.MutationReads? && input.k == k && m.stage.MWaiting? && (k > 0 ==> MutationSettled(s.mutations[k - 1])) then
                 if input.ok && s.file == Some(Null) then m'.stage.MFailed? else m'.stage.MHasRead? && m'.readOk == input.ok
               else if input == MutationApplies(k) && m.stage.MHasRead? then
                 if m.op.SetConsent? || m.op.id in m.stage.consents then m'.stage == MSaving(|s.saves|) && |s'.saves| == |s.saves| + 1
                 else m'.stage.MDone? && s'.saves == s.saves
               else if input == MutationSettles(k) && m.stage.MSaving? && SaveSettled(s.saves[m.stage.save]) then
                 if s.saves[m.stage.save].stage.Committed? then m'.stage.MDone? else m'.stage.MFailed?
               else m' == m
  {
  }

  /** A pick resumes when its save has settled and the picks before it have resumed; it sets the cache if the save landed. */
  lemma PicksGoOn(s: State, input: Input, p: nat)
    requires p < |s.picks| && PickLinks(s)
    ensures var s' := Step(s, input);
            && p < |s'.picks| && s'.picks[p].path == s.picks[p].path && s'.picks[p].save == s.picks[p].save
            && (s'.picks[p].settled <==>
                s.picks[p].settled ||
                (input == PickSettles(p) && SaveSettled(s.saves[s.picks[p].save]) && (p > 0 ==> s.picks[p - 1].settled)))
            && (!s.picks[p].settled && s'.picks[p].settled ==>
                  s'.cache == if s.saves[s.picks[p].save].stage.Committed? then Some(Some(s.picks[p].path)) else s.cache)
  {
  }

  // ----------------------------------------------------- the mutation theorems

  ghost predicate Quiescent(s: State) {
    && (forall i | 0 <= i < |s.saves| :: SaveSettled(s.saves[i]))
    && (forall k | 0 <= k < |s.mutations| :: MutationSettled(s.mutations[k]))
    && (forall p | 0 <= p < |s.picks| :: s.picks[p].settled)
  }

  /** No step of the run loses consents. */
  predicate NeverLosesConsents(file: File, inputs: seq<Input>) {
    inputs != [] ==>
      var front := inputs[..|inputs| - 1];
      NeverLosesConsents(file, front) && !LosesConsents(Run(file, front), inputs[|inputs| - 1])
  }

  /** After every input of the run the stored consents are the fold. */
  ghost predicate AlwaysFolded(file: File, inputs: seq<Input>) {
    ConsentsFolded(file, Run(file, inputs)) && (inputs != [] ==> AlwaysFolded(file, inputs[..|inputs| - 1]))
  }

  lemma {:induction false} FoldedUntilLoss(file: File, inputs: seq<Input>)
    ensures AlwaysFolded(file, inputs) <==> NeverLosesConsents(file, inputs)
    ensures AlwaysFolded(file, inputs) ==> MutationsCurrent(Run(file, inputs))
  {
    if inputs != [] {
      var front, last := inputs[..|inputs| - 1], inputs[|inputs| - 1];
      FoldedUntilLoss(file, front);
      RunInv(file, front);
      if AlwaysFolded(file, front) {
        ConsentStepIff(file, Run(file, front), last);
      }
    }
  }

  /**
   The exact condition: the stored consents are at every moment of a run the fold of the
   mutations if and only if no step of it loses consents to a failed read.
   */
  lemma ConsentsAlwaysFoldedIff(file: File, inputs: seq<Input>)
    ensures AlwaysFolded(file, inputs) <==> NeverLosesConsents(file, inputs)
  {
    FoldedUntilLoss(file, inputs);
  }

  /** No step has lost consents as long as the decisive reads on record have worked. */
  lemma {:induction false} ReadsOnRecord(file: File, inputs: seq<Input>)
    requires ConsentReadsOk(Run(file, inputs))
    ensures NeverLosesConsents(file, inputs)
  {
    if inputs != [] {
      var front, last := inputs[..|inputs| - 1], inputs[|inputs| - 1];
      EffectsStayStep(Run(file, front), last);
      ReadsOkBefore(Run(file, front), Run(file, inputs));
      ReadsOnRecord(file, front);
      FoldedUntilLoss(file, front);
      RunInv(file, front);
      if LosesConsents(Run(file, front), last) {
        LossIsOnRecord(Run(file, front), last);
      }
    }
  }

  /**
   The consent map that `loadBlob` finds is the fold of the effective mutations in call
   order, provided the reads of landed saves to other keys and of effective mutations worked.
   */
  lemma ConsentsAreFoldOfMutations(file: File, inputs: seq<Input>)
    requires ConsentReadsOk(Run(file, inputs))
    ensures var s := Run(file, inputs);
            ConsentsIn(s.file) == FoldMutations(ConsentsIn(file), s.mutations, s.saves)
  {
    ReadsOnRecord(file, inputs);
    FoldedUntilLoss(file, inputs);
  }

  /** The successful mutations alone, applied one after the other. */
  function FoldSuccessful(consents: Consents, mutations: seq<Mutation>): Consents {
    if mutations == [] then consents
    else
      var last := mutations[|mutations| - 1];
      var before := FoldSuccessful(consents, mutations[..|mutations| - 1]);
      if last.stage.MDone? then Apply(last.op, before) else before
  }

  lemma {:induction false} SettledFolds(consents: Consents, mutations: seq<Mutation>, saves: seq<Save>)
    requires forall k | 0 <= k < |mutations| :: MutationSettled(mutations[k])
    ensures FoldMutations(consents, mutations, saves) == FoldSuccessful(consents, mutations)
  {
    if mutations != [] {
      SettledFolds(consents, mutations[..|mutations| - 1], saves);
    }
  }

  /**
   Once everything has settled, the stored consents are those of the successful sets and
   clears in call order -- whatever the interleaving with saves to other keys, and with
   failed mutations contributing nothing.
   */
  lemma ConsentsAtQuiescence(file: File, inputs: seq<Input>)
    requires NeverLosesConsents(file, inputs) && Quiescent(Run(file, inputs))
    ensures ConsentsIn(Run(file, inputs).file) == FoldSuccessful(ConsentsIn(file), Run(file, inputs).mutations)
  {
    FoldedUntilLoss(file, inputs);
    var s := Run(file, inputs);
    SettledFolds(ConsentsIn(file), s.mutations, s.saves);
  }

  /** No mutation of `id` from `n` on has taken effect. */
  ghost predicate NoEffectFrom(mutations: seq<Mutation>, saves: seq<Save>, id: string, n: nat) {
    forall k | n <= k < |mutations| :: !(TookEffect(mutations[k], saves) && mutations[k].op.id == id)
  }

  /** The last effective mutation of `id` set a consent, or none has touched a stored one. */
  ghost predicate LastEffectSets(before: Consents, mutations: seq<Mutation>, saves: seq<Save>, id: string) {
    || (exists k :: 0 <= k < |mutations| && TookEffect(mutations[k], saves) && mutations[k].op.SetConsent? &&
                    mutations[k].op.id == id && NoEffectFrom(mutations, saves, id, k + 1))
    || (id in before && NoEffectFrom(mutations, saves, id, 0))
  }

  lemma {:induction false} InFoldIffLastEffectSets(before: Consents, mutations: seq<Mutation>, saves: seq<Save>, id: string)
    ensures id in FoldMutations(before, mutations, saves) <==> LastEffectSets(before, mutations, saves, id)
  {
    if mutations != [] {
      var n := |mutations| - 1;
      var front, last := mutations[..n], mutations[n];
      InFoldIffLastEffectSets(before, front, saves, id);
      assert forall k | 0 <= k < n :: front[k] == mutations[k];
      if TookEffect(last, saves) && last.op.id == id {
        assert last.op.SetConsent? ==> NoEffectFrom(mutations, saves, id, n + 1);
        assert forall m: nat | m <= n :: !NoEffectFrom(mutations, saves, id, m);
      } else {
        assert forall m: nat | m <= n :: NoEffectFrom(mutations, saves, id, m) <==> NoEffectFrom(front, saves, id, m);
      }
    }
  }

  /** The last successful mutation of `id` set this consent, or nothing touched a stored one. */
  ghost predicate LastSetTo(before: Consents, mutations: seq<Mutation>, id: string, consent: Consent) {
    || (exists k :: 0 <= k < |mutations| && mutations[k].stage.MDone? && mutations[k].op == SetConsent(id, consent) &&
                    UntouchedFrom(mutations, id, k + 1))
    || (id in before && before[id] == consent && UntouchedFrom(mutations, id, 0))
  }

  ghost predicate UntouchedFrom(mutations: seq<Mutation>, id: string, n: nat) {
    forall k | n <= k < |mutations| :: !(mutations[k].stage.MDone? && mutations[k].op.id == id)
  }

  /** A consent is stored exactly if its id's last successful mutation set it: no clear that succeeded is ever undone. */
  lemma {:induction false} StoredIffLastSet(before: Consents, mutations: seq<Mutation>, id: string, consent: Consent)
    ensures id in FoldSuccessful(before, mutations) && FoldSuccessful(before, mutations)[id] == consent <==>
            LastSetTo(before, mutations, id, consent)
  {
    if mutations != [] {
      var n := |mutations| - 1;
      var front, last := mutations[..n], mutations[n];
      StoredIffLastSet(before, front, id, consent);
      assert forall k | 0 <= k < n :: front[k] == mutations[k];
      if last.stage.MDone? && last.op.id == id {
        assert last.op == SetConsent(id, consent) ==> UntouchedFrom(mutations, id, n + 1);
        assert forall m: nat | m <= n :: !UntouchedFrom(mutations, id, m);
      } else {
        assert forall m: nat | m <= n :: UntouchedFrom(mutations, id, m) <==> UntouchedFrom(front, id, m);
      }
    }
  }

  /**
   A read error makes `loadBlob` answer "nothing stored", so a clear then settles as done
   without writing; it has cleared the consent unless exactly that happened.
   */
  lemma ClearWithFailedRead(s: State, k: nat, ok: bool)
    requires MutationMayStart(s, k) && s.mutations[k].op.ClearConsent? && s.file != Some(Null)
    ensures var s' := Step(Step(s, MutationReads(k, ok)), MutationApplies(k));
            var id := s.mutations[k].op.id;
            && (s'.mutations[k].stage.MDone? <==> !ok || id !in ConsentsIn(s.file))
            && (s'.mutations[k].stage.MDone? ==> (id in ConsentsIn(s'.file) <==> !ok && id in ConsentsIn(s.file)))
  {
  }

  // ------------------------------------------------------------- no deadlock

  function SaveRank(save: Save): nat {
    match save.stage
    case Waiting => 3
    case HasRead(_) => 2
    case TmpWritten(_) => 1
    case _ => 0
  }

  /** Enqueueing the save of a mutation is paid for by the mutation. */
  function MutationRank(mutation: Mutation): nat {
    match mutation.stage
    case MWaiting => 6
    case MHasRead(_) => 5
    case MSaving(_) => 1
    case _ => 0
  }

  function SavesRank(saves: seq<Save>): nat {
    if saves == [] then 0 else SavesRank(saves[..|saves| - 1]) + SaveRank(saves[|saves| - 1])
  }

  function MutationsRank(mutations: seq<Mutation>): nat {
    if mutations == [] then 0 else MutationsRank(mutations[..|mutations| - 1]) + MutationRank(mutations[|mutations| - 1])
  }

  function PicksRank(picks: seq<Pick>): nat {
    if picks == [] then 0
    else PicksRank(picks[..|picks| - 1]) + if picks[|picks| - 1].settled then 0 else 1
  }

  /** Steps still to be taken by everything that has been called. */
  function Rank(s: State): nat {
    SavesRank(s.saves) + MutationsRank(s.mutations) + PicksRank(s.picks)
  }

  lemma {:induction false} SavesRankUpdate(saves: seq<Save>, i: nat, save: Save)
    requires i < |saves|
    ensures SavesRank(saves[i := save]) == SavesRank(saves) - SaveRank(saves[i]) + SaveRank(save)
  {
    var front := saves[..|saves| - 1];
    if i < |front| {
      SavesRankUpdate(front, i, save);
      assert saves[i := save][..|saves| - 1] == front[i := save];
    } else {
      assert saves[i := save][..|saves| - 1] == front;
    }
  }

  lemma {:induction false} MutationsRankUpdate(mutations: seq<Mutation>, k: nat, mutation: Mutation)
    requires k < |mutations|
    ensures MutationsRank(mutations[k := mutation]) ==
            MutationsRank(mutations) - MutationRank(mutations[k]) + MutationRank(mutation)
  {
    var front := mutations[..|mutations| - 1];
    if k < |front| {
      MutationsRankUpdate(front, k, mutation);
      assert mutations[k := mutation][..|mutations| - 1] == front[k := mutation];
    } else {
      assert mutations[k := mutation][..|mutations| - 1] == front;
    }
  }

  lemma {:induction false} PicksRankUpdate(picks: seq<Pick>, p: nat, pick: Pick)
    requires p < |picks| && !picks[p].settled && pick.settled
    ensures PicksRank(picks[p := pick]) == PicksRank(picks) - 1
  {
    var front := picks[..|picks| - 1];
    if p < |front| {
      PicksRankUpdate(front, p, pick);
      assert picks[p := pick][..|picks| - 1] == front[p := pick];
    } else {
      assert picks[p := pick][..|picks| - 1] == front;
    }
  }

  lemma SaveProgress(s: State, i: nat)
    requires i < |s.saves| && !SaveSettled(s.saves[i]) && (i > 0 ==> SaveSettled(s.saves[i - 1]))
    ensures exists input :: Rank(Step(s, input)) < Rank(s)
  {
    var input := match s.saves[i].stage
      case Waiting => SaveReads(i, true)
      case HasRead(_) => SaveWritesTmp(i)
      case _ => SaveRenames(i);
    SavesRankUpdate(s.saves, i, Step(s, input).saves[i]);
    assert Step(s, input).saves == s.saves[i := Step(s, input).saves[i]];
  }

  lemma MutationStageDrops(s: State, s': State, k: nat, mutation: Mutation)
    requires k < |s.mutations| && MutationRank(mutation) < MutationRank(s.mutations[k])
    requires s'.mutations == s.mutations[k := mutation] && s'.picks == s.picks
    requires
      || s'.saves == s.saves
      || (|s'.saves| == |s.saves| + 1 && s'.saves[..|s.saves|] == s.saves && MutationRank(mutation) + 3 < MutationRank(s.mutations[k]))
    ensures Rank(s') < Rank(s)
  {
    MutationsRankUpdate(s.mutations, k, mutation);
  }

  lemma MutationReadProgress(s: State, k: nat)
    requires MutationMayStart(s, k)
    ensures Rank(Step(s, MutationReads(k, true))) < Rank(s)
  {
    var s' := Step(s, MutationReads(k, true));
    MutationStageDrops(s, s', k, MutationAfterRead(s.file, s.mutations[k], true));
  }

  lemma MutationApplyProgress(s: State, k: nat)
    requires k < |s.mutations| && s.mutations[k].stage.MHasRead?
    ensures Rank(Step(s, MutationApplies(k))) < Rank(s)
  {
    var s' := StepMutation(s, k);
    MutationStageDrops(s, s', k, s'.mutations[k]);
  }

  lemma MutationSettleProgress(s: State, k: nat)
    requires k < |s.mutations| && s.mutations[k].stage.MSaving?
    requires s.mutations[k].stage.save < |s.saves| && SaveSettled(s.saves[s.mutations[k].stage.save])
    ensures Rank(Step(s, MutationSettles(k))) < Rank(s)
  {
    var s' := Step(s, MutationSettles(k));
    MutationStageDrops(s, s', k, s'.mutations[k]);
  }

  lemma MutationProgress(s: State, k: nat)
    requires k < |s.mutations| && !MutationSettled(s.mutations[k]) && (k > 0 ==> MutationSettled(s.mutations[k - 1]))
    requires s.mutations[k].stage.MSaving? ==>
               s.mutations[k].stage.save < |s.saves| && SaveSettled(s.saves[s.mutations[k].stage.save])
    ensures exists input :: Rank(Step(s, input)) < Rank(s)
  {
    match s.mutations[k].stage
    case MWaiting => MutationReadProgress(s, k);
    case MHasRead(_) => MutationApplyProgress(s, k);
    case MSaving(_) => MutationSettleProgress(s, k);
  }

  lemma PickProgress(s: State, p: nat)
    requires p < |s.picks| && !s.picks[p].settled && (p > 0 ==> s.picks[p - 1].settled)
    requires s.picks[p].save < |s.saves| && SaveSettled(s.saves[s.picks[p].save])
    ensures exists input :: Rank(Step(s, input)) < Rank(s)
  {
    var s' := Step(s, PickSettles(p));
    PicksRankUpdate(s.picks, p, s.picks[p].(settled := true));
    assert s'.picks == s.picks[p := s.picks[p].(settled := true)];
  }

  lemma {:induction false} FirstOpen(open: seq<bool>, i: nat) returns (first: nat)
    requires i < |open| && open[i]
    ensures first < |open| && open[first] && (first > 0 ==> !open[first - 1])
  {
    first := i;
    while first > 0 && open[first - 1]
      invariant first < |open| && open[first]
    {
      first := first - 1;
    }
  }

  lemma SomeSaveProgress(s: State, i: nat)
    requires i < |s.saves| && !SaveSettled(s.saves[i])
    ensures exists input :: Rank(Step(s, input)) < Rank(s)
  {
    var first := FirstOpen(seq(|s.saves|, j requires 0 <= j < |s.saves| => !SaveSettled(s.saves[j])), i);
    SaveProgress(s, first);
  }

  lemma SomeMutationProgress(s: State, k: nat)
    requires Links(s) && forall i | 0 <= i < |s.saves| :: SaveSettled(s.saves[i])
    requires k < |s.mutations| && !MutationSettled(s.mutations[k])
    ensures exists input :: Rank(Step(s, input)) < Rank(s)
  {
    var first := FirstOpen(seq(|s.mutations|, j requires 0 <= j < |s.mutations| => !MutationSettled(s.mutations[j])), k);
    MutationProgress(s, first);
  }

  lemma SomePickProgress(s: State, p: nat)
    requires Links(s) && forall i | 0 <= i < |s.saves| :: SaveSettled(s.saves[i])
    requires p < |s.picks| && !s.picks[p].settled
    ensures exists input :: Rank(Step(s, input)) < Rank(s)
  {
    var first := FirstOpen(seq(|s.picks|, j requires 0 <= j < |s.picks| => !s.picks[j].settled), p);
    PickProgress(s, first);
  }

  /** Unless everything has settled, some entry can take a step: no queue waits for itself. */
  lemma Progress(s: State)
    requires Links(s) && !Quiescent(s)
    ensures exists input :: Rank(Step(s, input)) < Rank(s)
  {
    if i :| 0 <= i < |s.saves| && !SaveSettled(s.saves[i]) {
      SomeSaveProgress(s, i);
    } else if k :| 0 <= k < |s.mutations| && !MutationSettled(s.mutations[k]) {
      SomeMutationProgress(s, k);
    } else {
      var p :| 0 <= p < |s.picks| && !s.picks[p].settled;
      SomePickProgress(s, p);
    }
  }

  function RunFrom(s: State, inputs: seq<Input>): State
    decreases |inputs|
  {
    if inputs == [] then s else RunFrom(Step(s, inputs[0]), inputs[1..])
  }

  lemma {:induction false} RunSplits(file: File, inputs: seq<Input>, more: seq<Input>)
    ensures Run(file, inputs + more) == RunFrom(Run(file, inputs), more)
    decreases |more|
  {
    if more == [] {
      assert inputs + more == inputs;
    } else {
      assert (inputs + [more[0]])[..|inputs|] == inputs;
      assert inputs + more == inputs + [more[0]] + more[1..];
      RunSplits(file, inputs + [more[0]], more[1..]);
    }
  }

  lemma {:induction false} Drain(s: State) returns (more: seq<Input>)
    requires Links(s)
    ensures Quiescent(RunFrom(s, more))
    decreases Rank(s)
  {
    if Quiescent(s) {
      more := [];
    } else {
      Progress(s);
      var input :| Rank(Step(s, input)) < Rank(s);
      LinksStep(s, input);
      var rest := Drain(Step(s, input));
      more := [input] + rest;
    }
  }

  /** From every reachable state, failed steps behind it or not, both queues can run empty. */
  lemma EveryRunCanDrain(file: File, inputs: seq<Input>) returns (more: seq<Input>)
    ensures Quiescent(Run(file, inputs + more))
  {
    RunInv(file, inputs);
    more := Drain(Run(file, inputs));
    RunSplits(file, inputs, more);
  }
}
