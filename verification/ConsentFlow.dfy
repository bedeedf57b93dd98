/**
 The grant protocol and the consent store together: what `getNodeExecutionConsent` finds is
 what the store queues have put in the file, and an Allow for an uploaded plugin enqueues
 its `setNodeExecutionConsent`.

 A consent read takes the contents of the file at one moment and hands them to the waiting
 request at a later one; anything may happen in between.
 */
module ConsentFlow {
  import opened Wrappers
  import opened StoreFormat
  import opened NodeGrants
  import Grants = NodeGrantProtocol
  import Store = StoreQueues
  import Proofs = StoreQueueProofs

  type RequestId = Grants.RequestId

  /** `found` holds the outcome of consent reads on their way to their request. */
  datatype State = State(grants: Grants.State, store: Store.State, found: map<RequestId, bool>)

  datatype Input =
    | GrantInput(grantInput: Grants.Input)
    | StoreInput(storeInput: Store.Input)
    | LooksUp(r: RequestId, ok: bool)
    | Resumes(r: RequestId)
    | Answers(r: RequestId, response: int, shown: Consent)
    | Clears(id: PluginId)

  predicate IsReading(s: State, r: RequestId) {
    r in s.grants.requests && s.grants.requests[r].stage.ReadingConsent?
  }

  /** The read itself: a store file holding `null` makes it throw. */
  predicate ReadThrows(s: State, input: Input) {
    input.LooksUp? && IsReading(s, input.r) && input.r !in s.found && input.ok && s.store.file == Some(Null)
  }

  /** What the input means for the grant protocol. */
  function GrantPart(s: State, input: Input): Option<Grants.Input> {
    match input
    case GrantInput(i) =>
      if i.ConsentRead? || i.ConsentReadThrows? || i.DialogAnswer? || i.ClearConsent? then None else Some(i)
    case LooksUp(r, _) => if ReadThrows(s, input) then Some(Grants.ConsentReadThrows(r)) else None
    case Resumes(r) => if r in s.found then Some(Grants.ConsentRead(r, s.found[r])) else None
    case Answers(r, response, _) => Some(Grants.DialogAnswer(r, response))
    case Clears(id) => Some(Grants.ClearConsent(id))
    case StoreInput(_) => None
  }

  /** What the input means for the store: an Allow that minted for an uploaded plugin is persisted. */
  function StorePart(s: State, input: Input): Option<Store.Input> {
    match input
    case StoreInput(i) => if i.CallMutate? then None else Some(i)
    case Answers(r, response, shown) =>
      var e := Grants.Step(s.grants, Grants.DialogAnswer(r, response)).1;
      if e.GrantMinted? && r in s.grants.requests && !s.grants.requests[r].builtIn
      then Some(Store.CallMutate(Store.SetConsent(e.id, shown))) else None
    case Clears(id) => if SafePluginId(id) then Some(Store.CallMutate(Store.ClearConsent(id))) else None
    case _ => None
  }

  function FoundAfter(s: State, input: Input): map<RequestId, bool> {
    match input
    case LooksUp(r, ok) =>
      if IsReading(s, r) && r !in s.found && !ReadThrows(s, input)
      then s.found[r := ok && s.grants.requests[r].id in ConsentsIn(s.store.file)] else s.found
    case Resumes(r) => s.found - {r}
    case _ => s.found
  }

  function Fed(g: Grants.State, input: Option<Grants.Input>): Grants.State {
    if input.Some? then Grants.Step(g, input.value).0 else g
  }

  function Stored(q: Store.State, input: Option<Store.Input>): Store.State {
    if input.Some? then Store.Step(q, input.value) else q
  }

  function Step(s: State, input: Input): State {
    State(Fed(s.grants, GrantPart(s, input)), Stored(s.store, StorePart(s, input)), FoundAfter(s, input))
  }

  /** A run keeps what it has fed to either side. */
  datatype Trace = Trace(state: State, grantInputs: seq<Grants.Input>, storeInputs: seq<Store.Input>)

  function Seq<T>(input: Option<T>): seq<T> {
    if input.Some? then [input.value] else []
  }

  function Run(file: File, inputs: seq<Input>): Trace {
    if inputs == [] then Trace(State(Grants.Init, Store.Init(file), map[]), [], [])
    else
      var t := Run(file, inputs[..|inputs| - 1]);
      var input := inputs[|inputs| - 1];
      Trace(Step(t.state, input), t.grantInputs + Seq(GrantPart(t.state, input)), t.storeInputs + Seq(StorePart(t.state, input)))
  }

  function EventLog(t: Trace): seq<Grants.Event> {
    Grants.Run(t.grantInputs).1
  }

  /** The event that the input adds to the log, if it reaches the grant protocol. */
  function Events(s: State, input: Input): seq<Grants.Event> {
    var g := GrantPart(s, input);
    if g.Some? then [Grants.Step(s.grants, g.value).1] else []
  }

  lemma EventLogStep(file: File, inputs: seq<Input>)
    requires inputs != []
    ensures var t := Run(file, inputs[..|inputs| - 1]);
            EventLog(Run(file, inputs)) == EventLog(t) + Events(t.state, inputs[|inputs| - 1])
  {
    var t, input := Run(file, inputs[..|inputs| - 1]), inputs[|inputs| - 1];
    SidesRun(file, inputs[..|inputs| - 1]);
    var g := GrantPart(t.state, input);
    if g.Some? {
      GrantsSnoc(t.grantInputs, g.value);
    } else {
      assert t.grantInputs + [] == t.grantInputs;
    }
  }

  lemma GrantsSnoc(inputs: seq<Grants.Input>, input: Grants.Input)
    ensures var (s, log) := Grants.Run(inputs);
            Grants.Run(inputs + [input]) == (Grants.Step(s, input).0, log + [Grants.Step(s, input).1])
  {
    assert (inputs + [input])[..|inputs|] == inputs;
  }

  lemma StoreSnoc(file: File, inputs: seq<Store.Input>, input: Store.Input)
    ensures Store.Run(file, inputs + [input]) == Store.Step(Store.Run(file, inputs), input)
  {
    assert (inputs + [input])[..|inputs|] == inputs;
  }

  /** Either side runs as if it were alone, so every theorem about it holds here. */
  lemma {:induction false} SidesRun(file: File, inputs: seq<Input>)
    ensures var t := Run(file, inputs);
            t.state.grants == Grants.Run(t.grantInputs).0 && t.state.store == Store.Run(file, t.storeInputs)
  {
    if inputs != [] {
      var front, input := inputs[..|inputs| - 1], inputs[|inputs| - 1];
      var t := Run(file, front);
      SidesRun(file, front);
      var g, q := GrantPart(t.state, input), StorePart(t.state, input);
      if g.Some? {
        GrantsSnoc(t.grantInputs, g.value);
      } else {
        assert t.grantInputs + [] == t.grantInputs;
      }
      if q.Some? {
        StoreSnoc(file, t.storeInputs, q.value);
      } else {
        assert t.storeInputs + [] == t.storeInputs;
      }
    }
  }

  /** Every input reaches the side it is for, and only that; a clear reaches both. */
  lemma InputsReachTheirSides(s: State, input: Input)
    ensures var s' := Step(s, input);
            && (input.GrantInput? && !input.grantInput.ConsentRead? && !input.grantInput.ConsentReadThrows?
                && !input.grantInput.DialogAnswer? && !input.grantInput.ClearConsent? ==>
                  s' == s.(grants := Grants.Step(s.grants, input.grantInput).0))
            && (input.StoreInput? && !input.storeInput.CallMutate? ==> s' == s.(store := Store.Step(s.store, input.storeInput)))
            && (input.Answers? ==> s'.grants == Grants.Step(s.grants, Grants.DialogAnswer(input.r, input.response)).0 && s'.found == s.found)
            && (input.Clears? && SafePluginId(input.id) ==>
                  && input.id !in s'.grants.tables.grants && s'.found == s.found
                  && s'.store == Store.Step(s.store, Store.CallMutate(Store.ClearConsent(input.id))))
            && (input.Clears? && !SafePluginId(input.id) ==> s' == s)
            && (input.LooksUp? || input.Resumes? ==> s'.store == s.store)
            && (input.Resumes? ==> input.r !in s'.found)
  {
  }

  /** On a store file holding `null` a look-up fails its request, which then mints nothing. */
  lemma NullStoreFailsLookup(s: State, r: RequestId)
    requires IsReading(s, r) && r !in s.found && s.store.file == Some(Null)
    ensures var s' := Step(s, LooksUp(r, true));
            r !in s'.grants.requests && r !in s'.found && s'.grants.tables == s.grants.tables
  {
  }

  /** A look-up whose read fails otherwise finds no consent, whatever the file holds. */
  lemma FailedLookupFindsNothing(s: State, r: RequestId)
    requires IsReading(s, r) && r !in s.found
    ensures Step(s, LooksUp(r, false)) == s.(found := s.found[r := false])
  {
  }

  /** A request looks its consent up once; without one that reads, nothing is looked up. */
  lemma LooksUpOnce(s: State, r: RequestId, ok: bool)
    requires !IsReading(s, r) || r in s.found
    ensures Step(s, LooksUp(r, ok)) == s
  {
  }

  // --------------------------------------------- where stored consents come from

  /** Stored from the start, or allowed in a dialog of the run. */
  function AllowedIds(file: File, log: seq<Grants.Event>): set<PluginId> {
    ConsentsIn(file).Keys + (set j | 0 <= j < |log| && log[j].GrantMinted? && log[j].viaDialog :: log[j].id)
  }

  /** Nothing the store holds, reads or is about to write names another id. */
  ghost predicate Sourced(q: Store.State, allowed: set<PluginId>) {
    && ConsentsIn(q.file).Keys <= allowed
    && (forall k | 0 <= k < |q.mutations| ::
          && (q.mutations[k].op.SetConsent? ==> q.mutations[k].op.id in allowed)
          && (q.mutations[k].stage.MHasRead? ==> q.mutations[k].stage.consents.Keys <= allowed))
    && (forall i | 0 <= i < |q.saves| && q.saves[i].key == CONSENT_KEY :: ParseBlob(Some(q.saves[i].data)).Keys <= allowed)
  }

  lemma SourcedMore(q: Store.State, allowed: set<PluginId>, more: set<PluginId>)
    requires Sourced(q, allowed) && allowed <= more
    ensures Sourced(q, more)
  {
  }

  lemma SourcedApply(q: Store.State, k: nat, allowed: set<PluginId>)
    requires Sourced(q, allowed) && k < |q.mutations| && q.mutations[k].stage.MHasRead?
    ensures Sourced(Store.StepMutation(q, k), allowed)
  {
    var m := q.mutations[k];
    BlobRoundTrip(Store.Apply(m.op, m.stage.consents));
  }

  lemma SourcedReads(q: Store.State, k: nat, ok: bool, allowed: set<PluginId>)
    requires Sourced(q, allowed)
    ensures Sourced(Store.Step(q, Store.MutationReads(k, ok)), allowed)
  {
  }

  lemma SourcedFrame(q: Store.State, q': Store.State, allowed: set<PluginId>)
    requires Sourced(q, allowed) && ConsentsIn(q'.file).Keys <= allowed
    requires Proofs.SavesMoveOn(q.saves, q'.saves) && |q'.mutations| == |q.mutations|
    requires forall i | |q.saves| <= i < |q'.saves| :: q'.saves[i].key != CONSENT_KEY
    requires forall k | 0 <= k < |q.mutations| ::
               q'.mutations[k].op == q.mutations[k].op && (q'.mutations[k].stage.MHasRead? ==> q'.mutations[k] == q.mutations[k])
    ensures Sourced(q', allowed)
  {
  }

  lemma SettlesFrame(q: Store.State, k: nat)
    ensures var q' := Store.Step(q, Store.MutationSettles(k));
            && q'.file == q.file && q'.saves == q.saves && |q'.mutations| == |q.mutations|
            && forall j | 0 <= j < |q.mutations| ::
                 q'.mutations[j].op == q.mutations[j].op && (q'.mutations[j].stage.MHasRead? ==> q'.mutations[j] == q.mutations[j])
  {
  }

  lemma SourcedRename(file: File, q: Store.State, i: nat, allowed: set<PluginId>)
    requires Proofs.SaveInv(file, q) && Sourced(q, allowed)
    ensures ConsentsIn(Store.Step(q, Store.SaveRenames(i)).file).Keys <= allowed
  {
    if i < |q.saves| && q.saves[i].stage.TmpWritten? {
      Proofs.CommitEffect(file, q, i);
    }
  }

  lemma SourcedStep(file: File, q: Store.State, input: Store.Input, allowed: set<PluginId>)
    requires Proofs.SaveInv(file, q) && Sourced(q, allowed)
    requires input.CallMutate? && input.op.SetConsent? ==> input.op.id in allowed
    ensures Sourced(Store.Step(q, input), allowed)
  {
    match input
    case CallMutate(_) =>
    case MutationReads(k, ok) => SourcedReads(q, k, ok, allowed);
    case MutationApplies(k) =>
      if k < |q.mutations| && q.mutations[k].stage.MHasRead? {
        SourcedApply(q, k, allowed);
      }
    case MutationSettles(k) =>
      SettlesFrame(q, k);
      SourcedFrame(q, Store.Step(q, input), allowed);
    case SaveRenames(i) =>
      SourcedRename(file, q, i, allowed);
      SourcedUntouched(q, input, allowed);
    case _ =>
      Proofs.OnlyRenamesMoveTheFile(q, input);
      SourcedUntouched(q, input, allowed);
  }

  /** Inputs that touch no mutation. */
  lemma SourcedUntouched(q: Store.State, input: Store.Input, allowed: set<PluginId>)
    requires Sourced(q, allowed) && !Proofs.TouchesMutations(input)
    requires ConsentsIn(Store.Step(q, input).file).Keys <= allowed
    ensures Sourced(Store.Step(q, input), allowed)
  {
    Proofs.SavesMoveOnStep(q, input);
    Proofs.NewSaveKeys(q, input);
    Proofs.UntouchedMutations(q, input);
    SourcedFrame(q, Store.Step(q, input), allowed);
  }

  ghost predicate FoundOk(s: State, allowed: set<PluginId>) {
    forall r | r in s.found :: IsReading(s, r) && (s.found[r] ==> s.grants.requests[r].id in allowed)
  }

  lemma FoundStep(s: State, input: Input, allowed: set<PluginId>)
    requires Grants.Inv(s.grants) && FoundOk(s, allowed) && ConsentsIn(s.store.file).Keys <= allowed
    ensures FoundOk(Step(s, input), allowed)
  {
    var s' := Step(s, input);
    var g := GrantPart(s, input);
    forall r | r in s'.found
      ensures IsReading(s', r) && (s'.found[r] ==> s'.grants.requests[r].id in allowed)
    {
      assert IsReading(s, r);
      if g.Some? {
        Grants.OtherInputsLeaveReading(s.grants, g.value, r);
      }
    }
  }

  lemma AllowedGrows(file: File, log: seq<Grants.Event>, more: seq<Grants.Event>)
    ensures AllowedIds(file, log) <= AllowedIds(file, log + more)
    ensures forall j | 0 <= j < |more| && more[j].GrantMinted? && more[j].viaDialog :: more[j].id in AllowedIds(file, log + more)
  {
    var longer := log + more;
    assert forall j | 0 <= j < |log| :: longer[j] == log[j];
    forall j | 0 <= j < |more| && more[j].GrantMinted? && more[j].viaDialog
      ensures more[j].id in AllowedIds(file, longer)
    {
      assert longer[|log| + j] == more[j];
    }
  }

  /** What is set by this input was allowed by it. */
  lemma SetWasAllowed(s: State, input: Input)
    ensures var q := StorePart(s, input);
            q.Some? && q.value.CallMutate? && q.value.op.SetConsent? ==>
            exists j :: 0 <= j < |Events(s, input)| && Events(s, input)[j].GrantMinted? && Events(s, input)[j].viaDialog
                        && Events(s, input)[j].id == q.value.op.id
  {
    if input.Answers? {
      assert |Events(s, input)| == 1 && Events(s, input)[0] == Grants.Step(s.grants, Grants.DialogAnswer(input.r, input.response)).1;
    }
  }

  lemma SourcedInput(file: File, s: State, input: Input, log: seq<Grants.Event>)
    requires Grants.Inv(s.grants) && Proofs.SaveInv(file, s.store)
    requires Sourced(s.store, AllowedIds(file, log)) && FoundOk(s, AllowedIds(file, log))
    ensures var allowed := AllowedIds(file, log + Events(s, input));
            Sourced(Step(s, input).store, allowed) && FoundOk(Step(s, input), allowed)
  {
    var allowed, allowed' := AllowedIds(file, log), AllowedIds(file, log + Events(s, input));
    AllowedGrows(file, log, Events(s, input));
    FoundStep(s, input, allowed);
    SourcedMore(s.store, allowed, allowed');
    var q := StorePart(s, input);
    if q.Some? {
      SetWasAllowed(s, input);
      SourcedStep(file, s.store, q.value, allowed');
    }
  }

  lemma {:induction false} RunSourced(file: File, inputs: seq<Input>)
    ensures var t := Run(file, inputs);
            var allowed := AllowedIds(file, EventLog(t));
            Sourced(t.state.store, allowed) && FoundOk(t.state, allowed)
  {
    if inputs != [] {
      var front := inputs[..|inputs| - 1];
      var t := Run(file, front);
      RunSourced(file, front);
      SidesRun(file, front);
      Grants.RunInv(t.grantInputs);
      Proofs.RunInv(file, t.storeInputs);
      SourcedInput(file, t.state, inputs[|inputs| - 1], EventLog(t));
      EventLogStep(file, inputs);
    }
  }

  // ------------------------------------------------------------------- theorems

  /** A read answers "stored" only for an id that was stored from the start or allowed in a dialog of the run. */
  lemma FoundMeansAllowed(file: File, inputs: seq<Input>, r: RequestId)
    requires var s := Run(file, inputs).state; r in s.found && s.found[r]
    ensures var t := Run(file, inputs);
            IsReading(t.state, r) && t.state.grants.requests[r].id in AllowedIds(file, EventLog(t))
  {
    RunSourced(file, inputs);
  }

  /**
   No grant without a person: a mint that asked nobody is of an id whose consent was stored
   from the start or allowed in an earlier dialog -- whatever failed, interleaved or was lost.
   */
  lemma {:induction false} SilentMintWasAllowed(file: File, inputs: seq<Input>, k: nat)
    requires IsSilentMint(EventLog(Run(file, inputs)), k)
    ensures var log := EventLog(Run(file, inputs)); k < |log| && log[k].GrantMinted? && log[k].id in AllowedIds(file, log[..k])
  {
    var front, input := inputs[..|inputs| - 1], inputs[|inputs| - 1];
    var log, longer := EventLog(Run(file, front)), EventLog(Run(file, inputs));
    EventLogStep(file, inputs);
    if k < |log| {
      assert longer[..k] == log[..k];
      SilentMintWasAllowed(file, front, k);
    } else {
      assert longer[..k] == log;
      SilentMintWasFound(file, front, input);
    }
  }

  predicate IsSilentMint(log: seq<Grants.Event>, k: nat) {
    k < |log| && log[k].GrantMinted? && !log[k].viaDialog
  }

  lemma SilentMintWasFound(file: File, inputs: seq<Input>, input: Input)
    requires IsSilentMint(Events(Run(file, inputs).state, input), 0)
    ensures var t := Run(file, inputs); Events(t.state, input)[0].id in AllowedIds(file, EventLog(t))
  {
    var s := Run(file, inputs).state;
    assert input.Resumes? && input.r in s.found && s.found[input.r];
    FoundMeansAllowed(file, inputs, input.r);
  }

  /**
   Which consents a read finds: unless consents were lost to a failed read, exactly those
   whose last effective set or clear, in call order, was a set, or that were stored from the
   start and never touched.
   */
  lemma LookupIff(file: File, inputs: seq<Input>, r: RequestId, ok: bool)
    requires var t := Run(file, inputs);
             && Proofs.NeverLosesConsents(file, t.storeInputs)
             && IsReading(t.state, r) && r !in t.state.found && t.state.store.file != Some(Null)
    ensures var t := Run(file, inputs);
            var s := Step(t.state, LooksUp(r, ok));
            && r in s.found
            && (s.found[r] <==>
                ok && Proofs.LastEffectSets(ConsentsIn(file), t.state.store.mutations, t.state.store.saves, t.state.grants.requests[r].id))
  {
    var t := Run(file, inputs);
    SidesRun(file, inputs);
    Proofs.FoldedUntilLoss(file, t.storeInputs);
    Proofs.InFoldIffLastEffectSets(ConsentsIn(file), t.state.store.mutations, t.state.store.saves, t.state.grants.requests[r].id);
  }

  function RunFrom(s: State, inputs: seq<Input>): State
    decreases |inputs|
  {
    if inputs == [] then s else RunFrom(Step(s, inputs[0]), inputs[1..])
  }

  /** The part of the inputs that reaches the grant protocol. */
  function GrantParts(s: State, inputs: seq<Input>): seq<Grants.Input>
    decreases |inputs|
  {
    if inputs == [] then [] else Seq(GrantPart(s, inputs[0])) + GrantParts(Step(s, inputs[0]), inputs[1..])
  }

  lemma GrantsRunCons(g: Grants.State, input: Option<Grants.Input>, rest: seq<Grants.Input>)
    ensures Grants.RunFrom(g, Seq(input) + rest) == Grants.RunFrom(Fed(g, input), rest)
  {
    if input.Some? {
      assert ([input.value] + rest)[1..] == rest;
    } else {
      assert [] + rest == rest;
    }
  }

  lemma {:induction false} FoundWaits(s: State, inputs: seq<Input>, r: RequestId)
    requires Grants.Inv(s.grants) && IsReading(s, r) && r in s.found
    requires forall i | 0 <= i < |inputs| :: inputs[i] != Resumes(r)
    ensures var s' := RunFrom(s, inputs);
            && r in s'.found && s'.found[r] == s.found[r]
            && s'.grants == Grants.RunFrom(s.grants, GrantParts(s, inputs))
            && !Grants.ReadSettles(GrantParts(s, inputs), r)
    decreases |inputs|
  {
    if inputs != [] {
      var g := GrantPart(s, inputs[0]);
      var s1 := Step(s, inputs[0]);
      if g.Some? {
        assert !Grants.SettlesRead(g.value, r);
        Grants.OtherInputsLeaveReading(s.grants, g.value, r);
        Grants.InvStep(s.grants, g.value);
      }
      assert forall i | 0 <= i < |inputs| - 1 :: inputs[1..][i] == inputs[i + 1];
      FoundWaits(s1, inputs[1..], r);
      GrantsRunCons(s.grants, g, GrantParts(s1, inputs[1..]));
      var rest, all := GrantParts(s1, inputs[1..]), GrantParts(s, inputs);
      forall i | 0 <= i < |all|
        ensures !Grants.SettlesRead(all[i], r)
      {
        if g.Some? && i > 0 {
          assert all[i] == rest[i - 1];
        }
      }
    }
  }

  /**
   A clear that comes after the look-up is too late: whatever inputs follow, clears of the id
   and their writes included, a consent that was found mints exactly if the window ends up
   alive on the URL of the request.
   */
  lemma ClearAfterLookupIsTooLate(s: State, inputs: seq<Input>, r: RequestId)
    requires Grants.Inv(s.grants) && IsReading(s, r) && r in s.found
    requires forall i | 0 <= i < |inputs| :: inputs[i] != Resumes(r)
    ensures var s' := RunFrom(s, inputs);
            var q := s.grants.requests[r];
            var page := Grants.PageAfter(s.grants.windows[q.sender], q.sender, GrantParts(s, inputs));
            && GrantPart(s', Resumes(r)).Some?
            && (Grants.Step(s'.grants, GrantPart(s', Resumes(r)).value).1.GrantMinted? <==>
                s.found[r] && !page.destroyed && page.url == q.requestUrl)
  {
    FoundWaits(s, inputs, r);
    Grants.AskOnceSeesOnlyTheUrl(s.grants, GrantParts(s, inputs), r, s.found[r]);
  }

  /**
   A clear while the dialog is open does not answer it: an Allow that then mints enqueues its
   consent behind the clear, so that the set is the last word.
   */
  lemma AllowAfterClearPersistsAgain(s: State, r: RequestId, shown: Consent)
    requires Grants.Inv(s.grants) && r in s.grants.requests && s.grants.requests[r].stage.InDialog?
    ensures var q := s.grants.requests[r];
            var cleared := Step(s, Clears(q.id));
            var s' := Step(cleared, Answers(r, 0, shown));
            var minted := Grants.Step(cleared.grants, Grants.DialogAnswer(r, 0)).1.GrantMinted?;
            && (minted <==> Grants.SenderValid(s.grants, q) && q.sender in cleared.grants.tables.cleanups)
            && s'.store.mutations ==
               s.store.mutations + [Store.Mutation(Store.ClearConsent(q.id), true, Store.MWaiting)]
               + (if minted && !q.builtIn then [Store.Mutation(Store.SetConsent(q.id, shown), true, Store.MWaiting)] else [])
  {
  }
}
