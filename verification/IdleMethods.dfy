/**
 Choosing, losing and regaining the Wayland idle helper (electron/idle-time-handler.ts),
 under polls that do not overlap and a clock that does not run backwards.

 Every await is a suspension that some later input resumes; each input runs one stretch of
 code to the next await and reports what happened in it.
 */
module IdleMethods {
  import opened Wrappers

  const FAILURE_THRESHOLD := 3
  const RETRY_INTERVAL := 60000
  const DEMOTION_COOLDOWN := 300000

  type Millis = int
  type ChildId = nat

  datatype Method = PowerMonitor | GnomeDBus | WaylandIdleNotify | Xprintidle | Loginctl | NoMethod

  datatype Environment = Environment(isWayland: bool, isGnomeWayland: bool, isSnap: bool, helperTimeout: Millis)

  /** `_methodDetectionPromise`: null, pending with the candidates still to test, or resolved. */
  datatype Detection = Absent | Detecting(candidates: seq<Method>, onHelper: bool) | Resolved(chosen: Method)

  datatype Poll = NoPoll | AwaitsMethod | AwaitsHelper | AwaitsCommand

  datatype State = State(
    env: Environment,
    now: Millis,
    working: Method,
    detection: Detection,
    process: Option<ChildId>,
    ready: bool,
    starting: Option<ChildId>,   // the child whose readiness promise is pending
    idleSince: Option<Millis>,
    failures: nat,
    promoting: bool,
    lastRetry: Millis,           // 0 is "never", as in the source
    lastDemotion: Millis,
    nextChild: ChildId,
    poll: Poll)

  datatype Event =
    | Spawned(at: Millis)
    | Attempted(at: Millis)
    | Failed(at: Millis)
    | Demoted(at: Millis)
    | CountReset

  type Log = seq<Event>

  datatype Input =
    | Tick(to: Millis)
    | PollStarts
    | TestNext(works: bool, pathExists: bool)
    | PollGetsMethod(pathExists: bool)
    | CommandDone
    | ReadyLine(child: ChildId)
    | IdleLine(child: ChildId)
    | ResumedLine(child: ChildId)
    | SystemResumes
    | ReadyTimeout(child: ChildId)
    | ChildFails(child: ChildId)
    | ChildExits(child: ChildId)

  predicate CoolingDown(s: State) {
    s.lastDemotion != 0 && s.now - s.lastDemotion < DEMOTION_COOLDOWN
  }

  /** `_buildWaylandCandidates`. */
  function Candidates(s: State): seq<Method> {
    (if s.env.isGnomeWayland then [GnomeDBus] else [])
    + (if CoolingDown(s) then [] else [WaylandIdleNotify])
    + [Xprintidle]
    + (if s.env.isSnap then [] else [Loginctl])
  }

  function StartDetection(s: State): State {
    if s.env.isWayland then s.(detection := Detecting(Candidates(s), false))
    else s.(working := PowerMonitor, detection := Resolved(PowerMonitor))
  }

  function Init(env: Environment, now: Millis): State {
    StartDetection(State(env, now, NoMethod, Absent, None, false, None, None, 0, false, 0, 0, 0, NoPoll))
  }

  /** `_ensureWaylandIdleHelperStarted` up to its await: a known answer, or the promise to wait for. */
  datatype Helper = Answer(ok: bool) | Wait

  function EnsureStarted(s: State, pathExists: bool): (State, Helper, Log) {
    if s.ready && s.process.Some? then (s, Answer(true), [])
    else if s.starting.Some? then (s, Wait, [])
    else if !pathExists then (s, Answer(false), [])
    else
      (s.(process := Some(s.nextChild), starting := Some(s.nextChild), ready := false, idleSince := None,
          nextChild := s.nextChild + 1),
       Wait, [Spawned(s.now)])
  }

  /** `_handleWaylandIdleHelperFailure`. */
  function HandleFailure(s: State): (State, Log) {
    if s.failures + 1 < FAILURE_THRESHOLD then (s.(failures := s.failures + 1), [Failed(s.now)])
    else (s.(failures := 0, lastDemotion := s.now, working := NoMethod, detection := Absent), [Failed(s.now), Demoted(s.now)])
  }

  /** The rest of a `waylandIdleNotify` poll once the helper's answer is there. */
  function FinishPoll(s: State, ok: bool): (State, Log) {
    var s' := s.(poll := NoPoll);
    if !ok then HandleFailure(s')
    else if s.idleSince.None? then (s', [])
    else (s'.(failures := 0), [CountReset])
  }

  function FinishPromotion(s: State, ok: bool): State {
    if ok then s.(promoting := false, working := WaylandIdleNotify, detection := Resolved(WaylandIdleNotify), lastDemotion := 0)
    else s.(promoting := false)
  }

  /** A candidate's test has its answer. */
  function FinishTest(s: State, works: bool): State
    requires s.detection.Detecting? && s.detection.candidates != []
  {
    if works then s.(working := s.detection.candidates[0], detection := Resolved(s.detection.candidates[0]))
    else s.(detection := Detecting(s.detection.candidates[1..], false))
  }

  /** `_maybePromoteToWaylandIdleNotify`. */
  function MaybePromote(s: State, current: Method, pathExists: bool): (State, Log) {
    if !s.env.isWayland || current.GnomeDBus? || current.WaylandIdleNotify? || s.promoting then (s, [])
    else if CoolingDown(s) then (s, [])
    else if s.lastRetry != 0 && s.now - s.lastRetry < RETRY_INTERVAL then (s, [])
    else
      var (s1, helper, log) := EnsureStarted(s.(lastRetry := s.now, promoting := true), pathExists);
      (if helper.Wait? then s1 else FinishPromotion(s1, helper.ok), [Attempted(s.now)] + log)
  }

  function PollWithMethod(s: State, pathExists: bool): (State, Log)
    requires s.detection.Resolved?
  {
    var current := s.detection.chosen;
    var (s1, log1) := MaybePromote(s, current, pathExists);
    match current
    case WaylandIdleNotify =>
      var (s2, helper, log2) := EnsureStarted(s1, pathExists);
      if helper.Wait? then (s2.(poll := AwaitsHelper), log1 + log2)
      else
        var (s3, log3) := FinishPoll(s2, helper.ok);
        (s3, log1 + log2 + log3)
    case PowerMonitor => (s1.(poll := NoPoll), log1)
    case NoMethod => (s1.(poll := NoPoll), log1)
    case _ => (s1.(poll := AwaitsCommand), log1)
  }

  /** The readiness promise settles: whoever waits for it goes on. */
  function Settle(s: State, ok: bool): (State, Log) {
    var s1 := s.(starting := None);
    if s1.detection.Detecting? && s1.detection.onHelper && s1.detection.candidates != [] then (FinishTest(s1, ok), [])
    else if s1.promoting then (FinishPromotion(s1, ok), [])
    else if s1.poll.AwaitsHelper? then FinishPoll(s1, ok)
    else (s1, [])
  }

  /** `_resetWaylandIdleHelperState` for the child that ended, then `settle(false)`. */
  function ChildEnds(s: State, child: ChildId): (State, Log) {
    var s1 := if s.process == Some(child) then s.(process := None, ready := false, idleSince := None) else s;
    if s.starting == Some(child) then Settle(s1, false) else (s1, [])
  }

  function StepDetection(s: State, works: bool, pathExists: bool): (State, Log) {
    if !s.detection.Detecting? || s.detection.onHelper then (s, [])
    else if s.detection.candidates == [] then (s.(working := NoMethod, detection := Resolved(NoMethod)), [])
    else if s.detection.candidates[0] != WaylandIdleNotify then (FinishTest(s, works), [])
    else
      var (s1, helper, log) := EnsureStarted(s, pathExists);
      if helper.Wait? then (s1.(detection := s.detection.(onHelper := true)), log) else (FinishTest(s1, helper.ok), log)
  }

  function Step(s: State, input: Input): (State, Log) {
    match input
    case Tick(to) => (if to > s.now then s.(now := to) else s, [])
    case PollStarts =>
      if !s.poll.NoPoll? then (s, [])
      else ((if s.detection.Absent? then StartDetection(s) else s).(poll := AwaitsMethod), [])
    case TestNext(works, pathExists) => StepDetection(s, works, pathExists)
    case PollGetsMethod(pathExists) =>
      if s.poll.AwaitsMethod? && s.detection.Resolved? then PollWithMethod(s, pathExists) else (s, [])
    case CommandDone => (if s.poll.AwaitsCommand? then s.(poll := NoPoll) else s, [])
    case ReadyLine(child) =>
      var s1 := s.(ready := true, failures := 0);
      if s.starting == Some(child) then
        var (s2, log) := Settle(s1, true);
        (s2, [CountReset] + log)
      else (s1, [CountReset])
    case IdleLine(_) => (s.(idleSince := Some(s.now - s.env.helperTimeout)), [])
    case ResumedLine(_) => (s.(idleSince := None), [])
    case SystemResumes => (s.(idleSince := None), [])
    case ReadyTimeout(child) => if s.starting == Some(child) then ChildEnds(s, child) else (s, [])
    case ChildFails(child) => ChildEnds(s, child)
    case ChildExits(child) => ChildEnds(s, child)
  }

  function Run(env: Environment, start: Millis, inputs: seq<Input>): (State, Log) {
    if inputs == [] then (Init(env, start), [])
    else
      var (s, log) := Run(env, start, inputs[..|inputs| - 1]);
      var (s', more) := Step(s, inputs[|inputs| - 1]);
      (s', log + more)
  }

  // ---------------------------------------------------------------- invariants

  /** Who may wait for what, and which child is tracked. */
  ghost predicate Shape(s: State) {
    && s.failures < FAILURE_THRESHOLD
    && (s.starting.Some? ==> s.process == s.starting)
    && (s.process.Some? ==> s.ready || s.starting.Some?)
    && (s.promoting ==> s.detection.Resolved? && !s.detection.chosen.WaylandIdleNotify?)
    && (s.poll.AwaitsHelper? ==> s.detection == Resolved(WaylandIdleNotify))
    && (s.detection.Detecting? ==> s.poll.NoPoll? || s.poll.AwaitsMethod?)
    && (s.detection.Detecting? && s.detection.onHelper ==> s.detection.candidates != [] && s.detection.candidates[0] == WaylandIdleNotify)
    && (s.detection.Absent? ==> s.poll.NoPoll?)
    && (s.poll.AwaitsCommand? ==> s.detection.Resolved?)
  }

  lemma ShapeSettle(s: State, ok: bool)
    requires Shape(s.(starting := None))
    ensures Shape(Settle(s, ok).0)
  {
  }

  lemma ShapeEnds(s: State, child: ChildId)
    requires Shape(s)
    ensures Shape(ChildEnds(s, child).0)
  {
    if s.starting == Some(child) {
      ShapeSettle(s.(process := None, ready := false, idleSince := None), false);
    }
  }

  lemma ShapePromote(s: State, pathExists: bool)
    requires Shape(s) && s.detection.Resolved?
    ensures var s' := MaybePromote(s, s.detection.chosen, pathExists).0;
            Shape(s') && s'.poll == s.poll && (s.detection.chosen.WaylandIdleNotify? ==> s' == s)
            && (s'.detection == s.detection || s'.detection == Resolved(WaylandIdleNotify))
  {
  }

  lemma ShapePoll(s: State, pathExists: bool)
    requires Shape(s) && s.detection.Resolved?
    ensures Shape(PollWithMethod(s, pathExists).0)
  {
    ShapePromote(s, pathExists);
  }

  lemma ShapeDetection(s: State, works: bool, pathExists: bool)
    requires Shape(s)
    ensures Shape(StepDetection(s, works, pathExists).0)
  {
  }

  lemma {:induction false} ShapeStep(s: State, input: Input)
    requires Shape(s)
    ensures Shape(Step(s, input).0)
  {
    match input
    case TestNext(works, pathExists) => ShapeDetection(s, works, pathExists);
    case PollGetsMethod(pathExists) =>
      if s.detection.Resolved? {
        ShapePoll(s, pathExists);
      }
    case ReadyLine(child) =>
      if s.starting == Some(child) {
        ShapeSettle(s.(ready := true, failures := 0), true);
      }
    case ReadyTimeout(child) => ShapeEnds(s, child);
    case ChildFails(child) => ShapeEnds(s, child);
    case ChildExits(child) => ShapeEnds(s, child);
    case _ =>
  }

  /** Every demotion so far is at least a cooldown ago. */
  ghost predicate Cool(log: Log, now: Millis) {
    forall i | 0 <= i < |log| && log[i].Demoted? :: log[i].at + DEMOTION_COOLDOWN <= now
  }

  /** The helper is in use, or may yet be started or promoted to. */
  predicate MayUseHelper(s: State) {
    || s.detection == Resolved(WaylandIdleNotify)
    || (s.detection.Detecting? && WaylandIdleNotify in s.detection.candidates)
    || s.promoting
  }

  /** Wherever the helper may still be started, every demotion has cooled off. */
  ghost predicate Cooled(s: State, log: Log) {
    && 0 < s.now
    && 0 <= s.lastDemotion <= s.now
    && (s.lastDemotion == 0 || MayUseHelper(s) ==> Cool(log, s.now))
    && (s.lastDemotion != 0 ==> forall i | 0 <= i < |log| && log[i].Demoted? :: log[i].at <= s.lastDemotion)
  }

  lemma NotCoolingMeansCool(s: State, log: Log)
    requires Cooled(s, log) && !CoolingDown(s)
    ensures Cool(log, s.now)
  {
  }

  /** A spawn reports the current time, follows no demotion of its step, replaces no tracked helper, and happens only when cooled off. */
  lemma SpawnsOnlyWhenCool(s: State, log: Log, input: Input, j: nat)
    requires Shape(s) && Cooled(s, log) && j < |Step(s, input).1| && Step(s, input).1[j].Spawned?
    ensures Step(s, input).1[j].at == s.now && Cool(log, s.now)
    ensures forall i | 0 <= i < j :: !Step(s, input).1[i].Demoted?
    ensures s.process.None?
  {
    if !CoolingDown(s) {
      NotCoolingMeansCool(s, log);
    }
  }

  /** How one event changes the number of failures since the last reset or demotion. */
  function CountAfter(n: nat, e: Event): nat {
    match e
    case Failed(_) => n + 1
    case Demoted(_) => 0
    case CountReset => 0
    case _ => n
  }

  /** The forms a report can take; a demotion comes right after a failure, and last. */
  predicate Reports(more: Log) {
    || more == []
    || (|more| == 1 && !more[0].Demoted?)
    || (|more| == 2 && more[0].Failed? && more[1].Demoted?)
    || (|more| == 2 && !more[0].Failed? && !more[0].Demoted? && !more[1].Failed? && !more[1].Demoted?)
  }

  predicate Demotes(more: Log) {
    |more| == 2 && more[1].Demoted?
  }

  /**
   What is true of every stretch of code: the count follows the report, the third failure
   demotes, a demotion is stamped and ends all use of the helper, and without one the stamp
   is cleared and the helper comes into use only when nothing is cooling down.
   */
  ghost predicate Facts(s: State, s': State, more: Log) {
    && Reports(more)
    && s.now <= s'.now
    && (more == [] ==> s'.failures == s.failures)
    && (|more| == 1 ==> s'.failures == CountAfter(s.failures, more[0]))
    && (|more| == 2 ==> s'.failures == CountAfter(CountAfter(s.failures, more[0]), more[1]))
    && (|more| > 0 && more[0].Failed? ==> (|more| == 2 <==> s.failures == FAILURE_THRESHOLD - 1))
    && if Demotes(more) then
         s'.now == s.now == s'.lastDemotion == more[1].at && !MayUseHelper(s')
       else
         && (s'.lastDemotion == s.lastDemotion || s'.lastDemotion == 0)
         && (s'.lastDemotion != s.lastDemotion || MayUseHelper(s') ==> MayUseHelper(s) || !CoolingDown(s))
  }

  lemma PollEndFacts(s: State, ok: bool)
    requires s.failures < FAILURE_THRESHOLD && s.detection == Resolved(WaylandIdleNotify) && !s.promoting
    ensures Facts(s, FinishPoll(s, ok).0, FinishPoll(s, ok).1)
    ensures ok ==> FinishPoll(s, ok).1 == [] || FinishPoll(s, ok).1 == [CountReset]
  {
  }

  lemma SettleFacts(s: State, ok: bool)
    requires Shape(s.(starting := None))
    ensures Facts(s, Settle(s, ok).0, Settle(s, ok).1)
    ensures ok ==> Settle(s, ok).1 == [] || Settle(s, ok).1 == [CountReset]
  {
    var s1 := s.(starting := None);
    if s1.poll.AwaitsHelper? {
      PollEndFacts(s1, ok);
    }
  }

  lemma EndFacts(s: State, child: ChildId)
    requires Shape(s)
    ensures Facts(s, ChildEnds(s, child).0, ChildEnds(s, child).1)
  {
    if s.starting == Some(child) {
      SettleFacts(s.(process := None, ready := false, idleSince := None), false);
    }
  }

  lemma PollFacts(s: State, pathExists: bool)
    requires Shape(s) && s.detection.Resolved?
    ensures Facts(s, PollWithMethod(s, pathExists).0, PollWithMethod(s, pathExists).1)
  {
    if s.detection.chosen.WaylandIdleNotify? {
      var (s2, helper, log2) := EnsureStarted(s, pathExists);
      if helper.Answer? {
        PollEndFacts(s2, helper.ok);
        assert log2 == [] && [] + [] + FinishPoll(s2, helper.ok).1 == FinishPoll(s2, helper.ok).1;
      }
    }
  }

  lemma DetectionFacts(s: State, works: bool, pathExists: bool)
    requires Shape(s)
    ensures Facts(s, StepDetection(s, works, pathExists).0, StepDetection(s, works, pathExists).1)
  {
  }

  lemma ReadyFacts(s: State, child: ChildId)
    requires Shape(s)
    ensures Facts(s, Step(s, ReadyLine(child)).0, Step(s, ReadyLine(child)).1)
  {
    if s.starting == Some(child) {
      SettleFacts(s.(ready := true, failures := 0), true);
    }
  }

  lemma ChildFacts(s: State, input: Input)
    requires Shape(s) && (input.ReadyTimeout? || input.ChildFails? || input.ChildExits?)
    ensures Facts(s, Step(s, input).0, Step(s, input).1)
  {
    EndFacts(s, input.child);
  }

  lemma StepFacts(s: State, input: Input)
    requires Shape(s)
    ensures Facts(s, Step(s, input).0, Step(s, input).1)
  {
    if input.TestNext? {
      DetectionFacts(s, input.works, input.pathExists);
    } else if input.PollGetsMethod? && s.detection.Resolved? {
      PollFacts(s, input.pathExists);
    } else if input.ReadyLine? {
      ReadyFacts(s, input.child);
    } else if input.ReadyTimeout? || input.ChildFails? || input.ChildExits? {
      ChildFacts(s, input);
    }
  }

  lemma CooledStep(s: State, log: Log, input: Input)
    requires Shape(s) && Cooled(s, log)
    ensures Cooled(Step(s, input).0, log + Step(s, input).1)
  {
    StepFacts(s, input);
    var (s', more) := Step(s, input);
    CooledMore(s, log, s', more);
  }

  lemma CooledMore(s: State, log: Log, s': State, more: Log)
    requires Cooled(s, log) && Facts(s, s', more)
    ensures Cooled(s', log + more)
  {
    var longer := log + more;
    forall i | 0 <= i < |longer|
      ensures longer[i] == if i < |log| then log[i] else more[i - |log|]
    {
    }
    if !CoolingDown(s) {
      NotCoolingMeansCool(s, log);
    }
  }

  lemma {:induction false} RunInv(env: Environment, start: Millis, inputs: seq<Input>)
    requires start > 0
    ensures Shape(Run(env, start, inputs).0) && Cooled(Run(env, start, inputs).0, Run(env, start, inputs).1)
  {
    if inputs != [] {
      var front, last := inputs[..|inputs| - 1], inputs[|inputs| - 1];
      RunInv(env, start, front);
      var (s, log) := Run(env, start, front);
      ShapeStep(s, last);
      CooledStep(s, log, last);
    }
  }

  // ------------------------------------------------------------------- theorems

  /** Five minutes without a helper: no spawn comes sooner than that after any earlier demotion. */
  lemma {:induction false} NoSpawnDuringCooldown(env: Environment, start: Millis, inputs: seq<Input>, i: nat, k: nat)
    requires start > 0
    requires i < k < |Run(env, start, inputs).1|
    requires Run(env, start, inputs).1[i].Demoted? && Run(env, start, inputs).1[k].Spawned?
    ensures Run(env, start, inputs).1[i].at + DEMOTION_COOLDOWN <= Run(env, start, inputs).1[k].at
  {
    var front, last := inputs[..|inputs| - 1], inputs[|inputs| - 1];
    var (s, log) := Run(env, start, front);
    if k < |log| {
      NoSpawnDuringCooldown(env, start, front, i, k);
    } else {
      RunInv(env, start, front);
      SpawnsOnlyWhenCool(s, log, last, k - |log|);
    }
  }

  /** The stamp of the last attempt is the latest attempt in the log. */
  ghost predicate RetryStamp(s: State, log: Log) {
    && 0 <= s.lastRetry <= s.now && 0 < s.now
    && forall i | 0 <= i < |log| && log[i].Attempted? :: 0 < log[i].at <= s.lastRetry
  }

  lemma SettleNeverAttempts(s: State, ok: bool)
    ensures var (s', more) := Settle(s, ok);
            s'.now == s.now && s'.lastRetry == s.lastRetry && forall j | 0 <= j < |more| :: !more[j].Attempted?
  {
  }

  lemma PollAttempt(s: State, pathExists: bool)
    requires s.detection.Resolved?
    ensures var (s', more) := PollWithMethod(s, pathExists);
            && s.now == s'.now
            && (forall j | 0 < j < |more| :: !more[j].Attempted?)
            && (if |more| > 0 && more[0].Attempted?
                then more[0].at == s.now == s'.lastRetry && (s.lastRetry == 0 || s.lastRetry + RETRY_INTERVAL <= s.now)
                else s'.lastRetry == s.lastRetry)
  {
  }

  /** An attempt is the first thing a step reports, stamps the current time, and was due. */
  lemma AttemptReport(s: State, input: Input)
    ensures var (s', more) := Step(s, input);
            && s.now <= s'.now
            && (forall j | 0 < j < |more| :: !more[j].Attempted?)
            && (if |more| > 0 && more[0].Attempted?
                then more[0].at == s.now == s'.lastRetry && (s.lastRetry == 0 || s.lastRetry + RETRY_INTERVAL <= s.now)
                else s'.lastRetry == s.lastRetry)
  {
    match input
    case PollGetsMethod(pathExists) =>
      if s.detection.Resolved? {
        PollAttempt(s, pathExists);
      }
    case ReadyLine(child) => SettleNeverAttempts(s.(ready := true, failures := 0), true);
    case ReadyTimeout(child) => EndNeverAttempts(s, child);
    case ChildFails(child) => EndNeverAttempts(s, child);
    case ChildExits(child) => EndNeverAttempts(s, child);
    case _ =>
  }

  lemma EndNeverAttempts(s: State, child: ChildId)
    ensures var (s', more) := ChildEnds(s, child);
            s'.now == s.now && s'.lastRetry == s.lastRetry && forall j | 0 <= j < |more| :: !more[j].Attempted?
  {
  }

  lemma RetryStampStep(s: State, log: Log, input: Input)
    requires RetryStamp(s, log)
    ensures RetryStamp(Step(s, input).0, log + Step(s, input).1)
  {
    AttemptReport(s, input);
    var (s', more) := Step(s, input);
    var longer := log + more;
    forall i | 0 <= i < |longer| && longer[i].Attempted?
      ensures 0 < longer[i].at <= s'.lastRetry
    {
      assert longer[i] == if i < |log| then log[i] else more[i - |log|];
    }
  }

  lemma {:induction false} RunRetryStamp(env: Environment, start: Millis, inputs: seq<Input>)
    requires start > 0
    ensures RetryStamp(Run(env, start, inputs).0, Run(env, start, inputs).1)
  {
    if inputs != [] {
      RunRetryStamp(env, start, inputs[..|inputs| - 1]);
      var (s, log) := Run(env, start, inputs[..|inputs| - 1]);
      RetryStampStep(s, log, inputs[|inputs| - 1]);
    }
  }

  /** Promotion attempts are at least a minute apart. */
  lemma {:induction false} AttemptsAreSpaced(env: Environment, start: Millis, inputs: seq<Input>, i: nat, k: nat)
    requires start > 0
    requires i < k < |Run(env, start, inputs).1|
    requires Run(env, start, inputs).1[i].Attempted? && Run(env, start, inputs).1[k].Attempted?
    ensures Run(env, start, inputs).1[i].at + RETRY_INTERVAL <= Run(env, start, inputs).1[k].at
  {
    var front, last := inputs[..|inputs| - 1], inputs[|inputs| - 1];
    var (s, log) := Run(env, start, front);
    RunRetryStamp(env, start, front);
    AttemptReport(s, last);
    if k < |log| {
      AttemptsAreSpaced(env, start, front, i, k);
    } else {
      assert Step(s, last).1[k - |log|].Attempted?;
    }
  }

  /** Failures in the log since the last reset or demotion. */
  function FailuresSince(log: Log): nat {
    if log == [] then 0
    else
      match log[|log| - 1]
      case Failed(_) => FailuresSince(log[..|log| - 1]) + 1
      case Demoted(_) => 0
      case CountReset => 0
      case _ => FailuresSince(log[..|log| - 1])
  }

  lemma FailuresSinceMore(log: Log, more: Log)
    requires |more| <= 2
    ensures |more| == 0 ==> FailuresSince(log + more) == FailuresSince(log)
    ensures |more| == 1 ==> FailuresSince(log + more) == CountAfter(FailuresSince(log), more[0])
    ensures |more| == 2 ==> FailuresSince(log + more) == CountAfter(CountAfter(FailuresSince(log), more[0]), more[1])
  {
    if |more| == 0 {
      assert log + more == log;
    } else if |more| == 1 {
      assert (log + more)[..|log|] == log;
    } else {
      assert (log + more)[..|log| + 1] == log + more[..1];
      assert (log + more[..1])[..|log|] == log;
    }
  }

  lemma {:induction false} CountIsFailuresSince(env: Environment, start: Millis, inputs: seq<Input>)
    requires start > 0
    ensures Run(env, start, inputs).0.failures == FailuresSince(Run(env, start, inputs).1) < FAILURE_THRESHOLD
  {
    RunInv(env, start, inputs);
    if inputs != [] {
      var front, last := inputs[..|inputs| - 1], inputs[|inputs| - 1];
      CountIsFailuresSince(env, start, front);
      RunInv(env, start, front);
      var (s, log) := Run(env, start, front);
      StepFacts(s, last);
      FailuresSinceMore(log, Step(s, last).1);
    }
  }

  /** The event behind a failure is a demotion exactly if the failure is the third. */
  ghost predicate ThirdDemotes(log: Log, k: nat) {
    k < |log| &&
    ((k + 1 < |log| && log[k + 1].Demoted?) <==> FailuresSince(log[..k]) == FAILURE_THRESHOLD - 1)
  }

  /** What is reported later does not change the verdict on a failure: a report never starts with a demotion. */
  lemma ThirdDemotesStays(log: Log, more: Log, k: nat)
    requires ThirdDemotes(log, k) && Reports(more)
    ensures ThirdDemotes(log + more, k)
  {
    var all := log + more;
    assert all[..k] == log[..k];
    assert k + 1 < |log| ==> all[k + 1] == log[k + 1];
    assert k + 1 == |log| && more != [] ==> all[k + 1] == more[0] && !more[0].Demoted?;
  }

  /** A report of a failure starts with it, and demotes exactly if two failures were outstanding. */
  lemma ThirdDemotesInReport(log: Log, more: Log, k: nat)
    requires Reports(more) && |log| <= k < |log + more| && (log + more)[k].Failed?
    requires |more| > 0 && more[0].Failed? ==> (|more| == 2 <==> FailuresSince(log) == FAILURE_THRESHOLD - 1)
    ensures ThirdDemotes(log + more, k)
  {
    var all := log + more;
    assert all[k] == more[k - |log|] && k == |log|;
    assert all[..k] == log;
    assert |more| == 2 ==> all[k + 1] == more[1];
  }

  /**
   Three strikes: at most two failures are outstanding between steps, and a failure is
   followed by a demotion exactly if it is the third since the last reset or demotion.
   */
  lemma {:induction false} DemotionIsThirdFailure(env: Environment, start: Millis, inputs: seq<Input>, k: nat)
    requires start > 0 && k < |Run(env, start, inputs).1| && Run(env, start, inputs).1[k].Failed?
    ensures ThirdDemotes(Run(env, start, inputs).1, k)
  {
    var front, last := inputs[..|inputs| - 1], inputs[|inputs| - 1];
    var (s, log) := Run(env, start, front);
    RunInv(env, start, front);
    StepFacts(s, last);
    CountIsFailuresSince(env, start, front);
    if k < |log| {
      DemotionIsThirdFailure(env, start, front, k);
      ThirdDemotesStays(log, Step(s, last).1, k);
    } else {
      ThirdDemotesInReport(log, Step(s, last).1, k);
    }
  }

  ghost predicate DemotionsFollowFailures(log: Log) {
    forall k | 0 <= k < |log| && log[k].Demoted? :: k > 0 && log[k - 1].Failed?
  }

  lemma FollowMore(log: Log, more: Log)
    requires DemotionsFollowFailures(log) && Reports(more)
    ensures DemotionsFollowFailures(log + more)
  {
    var longer := log + more;
    forall k | 0 <= k < |longer| && longer[k].Demoted?
      ensures k > 0 && longer[k - 1].Failed?
    {
      if k < |log| {
        assert longer[k] == log[k] && longer[k - 1] == log[k - 1];
      } else {
        assert longer[k] == more[k - |log|];
      }
    }
  }

  /** Demotions come from failures only. */
  lemma {:induction false} DemotionFollowsFailure(env: Environment, start: Millis, inputs: seq<Input>)
    requires start > 0
    ensures DemotionsFollowFailures(Run(env, start, inputs).1)
  {
    if inputs != [] {
      var front, last := inputs[..|inputs| - 1], inputs[|inputs| - 1];
      DemotionFollowsFailure(env, start, front);
      RunInv(env, start, front);
      var (s, log) := Run(env, start, front);
      StepFacts(s, last);
      FollowMore(log, Step(s, last).1);
    }
  }

  // --------------------------------------------------------- what changes what

  /** The readiness of the starting child settles with this input. */
  function Settles(s: State, input: Input): Option<bool> {
    match input
    case ReadyLine(child) => if s.starting == Some(child) then Some(true) else None
    case ReadyTimeout(child) => if s.starting == Some(child) then Some(false) else None
    case ChildFails(child) => if s.starting == Some(child) then Some(false) else None
    case ChildExits(child) => if s.starting == Some(child) then Some(false) else None
    case _ => None
  }

  /** What is known of the helper at once: a ready child answers yes, a missing binary no, and a starting child not yet. */
  function Known(s: State, pathExists: bool): Option<bool> {
    if s.ready && s.process.Some? then Some(true)
    else if s.starting.None? && !pathExists then Some(false)
    else None
  }

  predicate DetectionAsks(s: State, input: Input) {
    && input.TestNext? && s.detection.Detecting? && !s.detection.onHelper
    && s.detection.candidates != [] && s.detection.candidates[0] == WaylandIdleNotify
  }

  predicate PollAsks(s: State, input: Input) {
    input.PollGetsMethod? && s.poll.AwaitsMethod? && s.detection == Resolved(WaylandIdleNotify)
  }

  predicate PromotionAsks(s: State, input: Input) {
    && input.PollGetsMethod? && s.poll.AwaitsMethod? && s.detection.Resolved?
    && s.env.isWayland && s.detection.chosen !in {GnomeDBus, WaylandIdleNotify} && !s.promoting
    && !(s.lastDemotion != 0 && s.now < s.lastDemotion + 300000)
    && !(s.lastRetry != 0 && s.now < s.lastRetry + 60000)
  }

  /** A child is started: someone asks, none is ready or starting, and the binary is there. */
  predicate Starts(s: State, input: Input) {
    && ((DetectionAsks(s, input) && input.pathExists) || ((PollAsks(s, input) || PromotionAsks(s, input)) && input.pathExists))
    && !(s.ready && s.process.Some?) && s.starting.None?
  }

  /** The answer about the helper with which a poll ends, a promotion ends, or the test of a candidate. */
  function PollAnswer(s: State, input: Input): Option<bool> {
    if PollAsks(s, input) then Known(s, input.pathExists) else if s.poll.AwaitsHelper? then Settles(s, input) else None
  }

  function PromotionAnswer(s: State, input: Input): Option<bool> {
    if PromotionAsks(s, input) then Known(s, input.pathExists) else if s.promoting then Settles(s, input) else None
  }

  function TestAnswer(s: State, input: Input): Option<bool> {
    if !s.detection.Detecting? || s.detection.candidates == [] then None
    else if s.detection.onHelper then Settles(s, input)
    else if DetectionAsks(s, input) then Known(s, input.pathExists)
    else if input.TestNext? then Some(input.works)
    else None
  }

  /** The child, its readiness and the idle time it reported. */
  ghost predicate HelperLaw(s: State, input: Input) {
    && (var s' := Step(s, input).0;
       if Starts(s, input) then
         && s'.process == s'.starting == Some(s.nextChild) && s'.nextChild == s.nextChild + 1
         && !s'.ready && s'.idleSince.None?
       else
         var ended := if input.ReadyTimeout? then Settles(s, input).Some? else input.ChildFails? || input.ChildExits?;
         var gone := ended && s.process == Some(input.child);
         && s'.nextChild == s.nextChild
         && s'.starting == (if Settles(s, input).Some? then None else s.starting)
         && s'.process == (if gone then None else s.process)
         && s'.ready == (input.ReadyLine? || (s.ready && !gone))
         && s'.idleSince == if input.IdleLine? then Some(s.now - s.env.helperTimeout)
                            else if input.ResumedLine? || input.SystemResumes? || gone then None else s.idleSince)
    && ((exists e :: e in Step(s, input).1 && e.Spawned?) <==> Starts(s, input))
  }

  lemma HelperOnPoll(s: State, input: Input)
    requires Shape(s) && input.PollGetsMethod?
    ensures HelperLaw(s, input)
  {
    if Starts(s, input) {
      assert Spawned(s.now) in Step(s, input).1;
    }
  }

  lemma HelperOtherwise(s: State, input: Input)
    requires Shape(s) && !input.PollGetsMethod?
    ensures HelperLaw(s, input)
  {
    if Starts(s, input) {
      assert Spawned(s.now) in Step(s, input).1;
    }
  }

  lemma HelperFollowsInputs(s: State, input: Input)
    requires Shape(s)
    ensures HelperLaw(s, input)
  {
    if input.PollGetsMethod? {
      HelperOnPoll(s, input);
    } else {
      HelperOtherwise(s, input);
    }
  }

  /** Polls answered no count up to the third, which demotes; a ready child, or a yes while idle, counts from zero again. */
  ghost predicate FailuresLaw(s: State, input: Input) {
    var (s', more) := Step(s, input);
    && s'.failures == (if PollAnswer(s, input) == Some(false) then (s.failures + 1) % 3
                       else if input.ReadyLine? || (PollAnswer(s, input) == Some(true) && s.idleSince.Some?) then 0
                       else s.failures)
    && (Failed(s.now) in more <==> PollAnswer(s, input) == Some(false))
    && (Demoted(s.now) in more <==> PollAnswer(s, input) == Some(false) && s.failures == 2)
    && (CountReset in more <==> input.ReadyLine? || (PollAnswer(s, input) == Some(true) && s.idleSince.Some?))
  }

  lemma FailuresOnPoll(s: State, input: Input)
    requires Shape(s) && input.PollGetsMethod?
    ensures FailuresLaw(s, input)
  {
  }

  lemma FailuresOtherwise(s: State, input: Input)
    requires Shape(s) && !input.PollGetsMethod?
    ensures FailuresLaw(s, input)
  {
  }

  lemma FailuresFollowInputs(s: State, input: Input)
    requires Shape(s)
    ensures FailuresLaw(s, input)
  {
    if input.PollGetsMethod? {
      FailuresOnPoll(s, input);
    } else {
      FailuresOtherwise(s, input);
    }
  }

  /** The third failure sends the session back to detection, a promotion to the helper, a test to its candidate or on to the next. */
  ghost predicate DetectionLaw(s: State, input: Input) {
    var s' := Step(s, input).0;
    var after := (s'.detection, s'.working, s'.lastDemotion);
    if PollAnswer(s, input) == Some(false) && s.failures == 2 then after == (Absent, NoMethod, s.now)
    else if PromotionAnswer(s, input) == Some(true) then after == (Resolved(WaylandIdleNotify), WaylandIdleNotify, 0)
    else
      s'.lastDemotion == s.lastDemotion &&
      if TestAnswer(s, input).Some? then
        var c := s.detection.candidates;
        if TestAnswer(s, input).value then s'.detection == Resolved(c[0]) && s'.working == c[0]
        else s'.detection == Detecting(c[1..], false) && s'.working == s.working
      else if DetectionAsks(s, input) then s'.detection == s.detection.(onHelper := true) && s'.working == s.working
      else if input.TestNext? && s.detection == Detecting([], false) then s'.detection == Resolved(NoMethod) && s'.working == NoMethod
      else if input.PollStarts? && s.detection.Absent? then
        if s.env.isWayland then s'.detection == Detecting(Candidates(s), false) && s'.working == s.working
        else s'.detection == Resolved(PowerMonitor) && s'.working == PowerMonitor
      else s'.detection == s.detection && s'.working == s.working
  }

  lemma DetectionOnPoll(s: State, input: Input)
    requires Shape(s) && input.PollGetsMethod?
    ensures DetectionLaw(s, input)
  {
  }

  lemma DetectionOnTest(s: State, input: Input)
    requires Shape(s) && input.TestNext?
    ensures DetectionLaw(s, input)
  {
  }

  predicate FromChild(input: Input) {
    input.ReadyLine? || input.ReadyTimeout? || input.ChildFails? || input.ChildExits?
  }

  lemma DetectionOnChild(s: State, input: Input)
    requires Shape(s) && FromChild(input)
    ensures DetectionLaw(s, input)
  {
  }

  lemma DetectionOtherwise(s: State, input: Input)
    requires Shape(s) && !input.PollGetsMethod? && !input.TestNext? && !FromChild(input)
    ensures DetectionLaw(s, input)
  {
  }

  lemma DetectionFollowsInputs(s: State, input: Input)
    requires Shape(s)
    ensures DetectionLaw(s, input)
  {
    if input.PollGetsMethod? {
      DetectionOnPoll(s, input);
    } else if input.TestNext? {
      DetectionOnTest(s, input);
    } else if FromChild(input) {
      DetectionOnChild(s, input);
    } else {
      DetectionOtherwise(s, input);
    }
  }

  /** Where the one poll stands. */
  ghost predicate PollLaw(s: State, input: Input) {
    var s' := Step(s, input).0;
    s'.poll ==
    if input.PollStarts? && s.poll.NoPoll? then AwaitsMethod
    else if input.PollGetsMethod? && s.poll.AwaitsMethod? && s.detection.Resolved? then
      if s.detection.chosen == WaylandIdleNotify then (if PollAnswer(s, input).Some? then NoPoll else AwaitsHelper)
      else if s.detection.chosen in {PowerMonitor, NoMethod} then NoPoll
      else AwaitsCommand
    else if PollAnswer(s, input).Some? || (input.CommandDone? && s.poll.AwaitsCommand?) then NoPoll
    else s.poll
  }

  lemma PollOnPoll(s: State, input: Input)
    requires Shape(s) && input.PollGetsMethod?
    ensures PollLaw(s, input)
  {
  }

  lemma PollOtherwise(s: State, input: Input)
    requires Shape(s) && !input.PollGetsMethod?
    ensures PollLaw(s, input)
  {
  }

  lemma PollFollowsInputs(s: State, input: Input)
    requires Shape(s)
    ensures PollLaw(s, input)
  {
    if input.PollGetsMethod? {
      PollOnPoll(s, input);
    } else {
      PollOtherwise(s, input);
    }
  }

  ghost predicate PromotionLaw(s: State, input: Input) {
    var (s', more) := Step(s, input);
    && (Attempted(s.now) in more <==> PromotionAsks(s, input))
    && s'.lastRetry == (if PromotionAsks(s, input) then s.now else s.lastRetry)
    && (s'.promoting <==> (s.promoting || PromotionAsks(s, input)) && PromotionAnswer(s, input).None?)
    && s'.now == (if input.Tick? && input.to > s.now then input.to else s.now)
    && s'.env == s.env
  }

  lemma PromotionOnPoll(s: State, input: Input)
    requires Shape(s) && input.PollGetsMethod?
    ensures PromotionLaw(s, input)
  {
  }

  lemma PromotionOtherwise(s: State, input: Input)
    requires Shape(s) && !input.PollGetsMethod?
    ensures PromotionLaw(s, input)
  {
  }

  lemma PromotionFollowsInputs(s: State, input: Input)
    requires Shape(s)
    ensures PromotionLaw(s, input)
  {
    if input.PollGetsMethod? {
      PromotionOnPoll(s, input);
    } else {
      PromotionOtherwise(s, input);
    }
  }

  /** Outside Wayland there is nothing to detect. */
  lemma StartOfSession(env: Environment, now: Millis)
    ensures var s := Init(env, now);
            && (if env.isWayland then s.detection == Detecting(Candidates(s), false) && s.working == NoMethod
                else s.detection == Resolved(PowerMonitor) && s.working == PowerMonitor)
            && s.process.None? && !s.ready && s.starting.None? && s.idleSince.None? && s.failures == 0 && !s.promoting
            && s.lastRetry == 0 && s.lastDemotion == 0 && s.now == now && s.env == env && s.poll.NoPoll?
  {
  }

  /** The tests' answers, in order, until detection is through, and the state then. */
  function UntilDetected(s: State, inputs: seq<Input>): (State, seq<bool>)
    decreases |inputs|
  {
    if inputs == [] || !s.detection.Detecting? then (s, [])
    else
      var (s', answers) := UntilDetected(Step(s, inputs[0]).0, inputs[1..]);
      (s', (if TestAnswer(s, inputs[0]).Some? then [TestAnswer(s, inputs[0]).value] else []) + answers)
  }

  function RunFrom(s: State, inputs: seq<Input>): State
    decreases |inputs|
  {
    if inputs == [] then s else RunFrom(Step(s, inputs[0]).0, inputs[1..])
  }

  /** It follows the inputs, and stops at the end of them or as soon as detection is through. */
  lemma {:induction false} UntilDetectedFollows(s: State, inputs: seq<Input>) returns (n: nat)
    ensures n <= |inputs| && UntilDetected(s, inputs).0 == RunFrom(s, inputs[..n])
    ensures n < |inputs| ==> !RunFrom(s, inputs[..n]).detection.Detecting?
    ensures forall k | 0 <= k < n :: RunFrom(s, inputs[..k]).detection.Detecting?
    decreases |inputs|
  {
    if inputs == [] || !s.detection.Detecting? {
      n := 0;
    } else {
      var s1 := Step(s, inputs[0]).0;
      var m := UntilDetectedFollows(s1, inputs[1..]);
      n := m + 1;
      forall k | 0 < k <= n
        ensures RunFrom(s, inputs[..k]) == RunFrom(s1, inputs[1..][..k - 1])
      {
        assert inputs[..k][1..] == inputs[1..][..k - 1];
      }
    }
  }

  /** Of the candidates `c`, the answers so far say no to all but perhaps the last, and detection stands accordingly. */
  ghost predicate TakenInOrder(c: seq<Method>, s': State, answers: seq<bool>) {
    && |answers| <= |c|
    && (forall i | 0 <= i < |answers| - 1 :: !answers[i])
    && (s'.detection.Detecting? <==> s'.detection != Resolved(NoMethod) && true !in answers)
    && (s'.detection.Detecting? ==> s'.detection.candidates == c[|answers|..])
    && (!s'.detection.Detecting? ==> s'.detection == Resolved(s'.working))
    && (true in answers ==> s'.working == c[|answers| - 1])
    && (s'.detection == Resolved(NoMethod) ==> |answers| == |c| && true !in answers)
  }

  lemma OneMoreNo(c: seq<Method>, s': State, answers: seq<bool>)
    requires c != [] && TakenInOrder(c[1..], s', answers)
    ensures TakenInOrder(c, s', [false] + answers)
  {
    var all := [false] + answers;
    assert c[1..][|answers|..] == c[|all|..];
    assert forall i | 1 <= i < |all| :: all[i] == answers[i - 1];
    assert true in all <==> true in answers;
  }

  /**
   Detection takes the first candidate whose test says yes -- whatever else happens in
   between, and also when the answer about the helper comes late -- and no method if and
   only if all of them said no.
   */
  lemma {:induction false} DetectionTakesTheFirstThatWorks(s: State, inputs: seq<Input>)
    requires Shape(s) && s.detection.Detecting? && NoMethod !in s.detection.candidates
    ensures TakenInOrder(s.detection.candidates, UntilDetected(s, inputs).0, UntilDetected(s, inputs).1)
    decreases |inputs|
  {
    if inputs != [] {
      var s1 := Step(s, inputs[0]).0;
      ShapeStep(s, inputs[0]);
      OneTest(s, inputs[0]);
      if s1.detection.Detecting? {
        DetectionTakesTheFirstThatWorks(s1, inputs[1..]);
        var (s', answers) := UntilDetected(s1, inputs[1..]);
        if TestAnswer(s, inputs[0]).Some? {
          OneMoreNo(s.detection.candidates, s', answers);
        } else {
          assert [] + answers == answers;
        }
      }
    }
  }

  /** While detecting, an input brings a test's answer, opens the helper's, finds nothing left, or leaves detection alone. */
  lemma OneTest(s: State, input: Input)
    requires Shape(s) && s.detection.Detecting?
    ensures var c := s.detection.candidates;
            var s' := Step(s, input).0;
            if TestAnswer(s, input).Some? then
              if TestAnswer(s, input).value then s'.detection == Resolved(c[0]) && s'.working == c[0]
              else s'.detection == Detecting(c[1..], false)
            else if c == [] && input.TestNext? then s'.detection == Resolved(NoMethod) && s'.working == NoMethod
            else s'.detection.Detecting? && s'.detection.candidates == c
  {
    DetectionFollowsInputs(s, input);
  }

  // ------------------------------------------------------- the object and its history

  /** A stamp that is set names an event of the history. */
  ghost predicate Stamped(s: State, log: Log) {
    && (s.lastDemotion != 0 ==> Demoted(s.lastDemotion) in log)
    && (s.lastRetry != 0 ==> Attempted(s.lastRetry) in log)
  }

  ghost predicate History(s: State, log: Log) {
    && Shape(s) && Cooled(s, log) && RetryStamp(s, log) && Stamped(s, log)
    && s.failures == FailuresSince(log)
  }

  lemma StampedStep(s: State, log: Log, input: Input)
    requires Shape(s) && Stamped(s, log)
    ensures Stamped(Step(s, input).0, log + Step(s, input).1)
  {
    StepFacts(s, input);
    AttemptReport(s, input);
    var (s', more) := Step(s, input);
    assert Demotes(more) ==> more[1] == Demoted(s'.lastDemotion);
  }

  lemma {:induction false} RunHistory(env: Environment, start: Millis, inputs: seq<Input>)
    requires start > 0
    ensures History(Run(env, start, inputs).0, Run(env, start, inputs).1)
  {
    RunInv(env, start, inputs);
    RunRetryStamp(env, start, inputs);
    CountIsFailuresSince(env, start, inputs);
    if inputs != [] {
      var front := inputs[..|inputs| - 1];
      RunHistory(env, start, front);
      StampedStep(Run(env, start, front).0, Run(env, start, front).1, inputs[|inputs| - 1]);
    }
  }

  ghost predicate RecentDemotion(log: Log, now: Millis) {
    exists e :: e in log && e.Demoted? && now < e.at + DEMOTION_COOLDOWN
  }

  /** The one stamp tells the whole history of demotions, although a promotion resets it. */
  lemma CoolingIsRecent(s: State, log: Log)
    requires History(s, log)
    ensures CoolingDown(s) <==> RecentDemotion(log, s.now)
    ensures CoolingDown(s) <==> !Cool(log, s.now)
  {
    if CoolingDown(s) {
      var i :| 0 <= i < |log| && log[i] == Demoted(s.lastDemotion);
      assert log[i].at + DEMOTION_COOLDOWN > s.now;
    } else {
      NotCoolingMeansCool(s, log);
    }
  }

  /** In every run the handler is cooling down exactly while some demotion is less than five minutes old. */
  lemma CoolingIffRecentDemotion(env: Environment, start: Millis, inputs: seq<Input>)
    requires start > 0
    ensures var (s, log) := Run(env, start, inputs); CoolingDown(s) <==> RecentDemotion(log, s.now)
  {
    RunHistory(env, start, inputs);
    CoolingIsRecent(Run(env, start, inputs).0, Run(env, start, inputs).1);
  }

  /** The order in which methods are tried. */
  function Preference(m: Method): nat {
    match m
    case PowerMonitor => 0
    case GnomeDBus => 1
    case WaylandIdleNotify => 2
    case Xprintidle => 3
    case Loginctl => 4
    case NoMethod => 5
  }

  /** Which methods are tried. */
  lemma CandidatesIff(s: State, m: Method)
    ensures m in Candidates(s) <==>
            match m
            case GnomeDBus => s.env.isGnomeWayland
            case WaylandIdleNotify => !CoolingDown(s)
            case Xprintidle => true
            case Loginctl => !s.env.isSnap
            case _ => false
  {
    var gnome := if s.env.isGnomeWayland then [GnomeDBus] else [];
    var helper := if CoolingDown(s) then [] else [WaylandIdleNotify];
    var login := if s.env.isSnap then [] else [Loginctl];
    assert m in Candidates(s) <==> m in gnome || m in helper || m == Xprintidle || m in login;
  }

  /** They are tried in one fixed order, without repeats. */
  lemma CandidatesInOrder(s: State)
    ensures var c := Candidates(s); forall i, j | 0 <= i < j < |c| :: Preference(c[i]) < Preference(c[j])
  {
    var gnome := if s.env.isGnomeWayland then [GnomeDBus] else [];
    var helper := if CoolingDown(s) then [] else [WaylandIdleNotify];
    var login := if s.env.isSnap then [] else [Loginctl];
    assert Candidates(s) == gnome + helper + [Xprintidle] + login;
  }

  ghost predicate AllCool(demotions: set<Millis>, now: Millis) {
    forall d | d in demotions :: d + DEMOTION_COOLDOWN <= now
  }

  ghost predicate AllSpaced(attempts: set<Millis>, now: Millis) {
    forall a | a in attempts :: a + RETRY_INTERVAL <= now
  }

  /** Starting the helper keeps the shape, tracks a new child only if there is none, and answers at once if it can. */
  lemma ShapeEnsureStarted(s: State, pathExists: bool)
    requires Shape(s)
    ensures var (s', helper, more) := EnsureStarted(s, pathExists);
            && Shape(s') && MayUseHelper(s') == MayUseHelper(s)
            && (s'.process != s.process ==> s.process.None?)
            && (if helper.Wait? then s'.starting.Some? else s' == s && helper.ok == s.process.Some?)
  {
  }

  lemma ShapeHandleFailure(s: State)
    requires Shape(s) && s.detection == Resolved(WaylandIdleNotify) && s.poll.NoPoll?
    ensures var (s', more) := HandleFailure(s);
            Shape(s') && (MayUseHelper(s') <==> s.failures < FAILURE_THRESHOLD - 1)
  {
  }

  /**
   The handler object; each method is one synchronous stretch of its code.  The object
   remembers two stamps, and forgets one of them on promotion; the ghost sets remember
   every demotion and every attempt, and the contracts speak of those.
   */
  class IdleTimeHandler {
    const env: Environment
    var now: Millis
    var workingMethod: Method
    var methodDetection: Detection
    var helperProcess: Option<ChildId>
    var helperReady: bool
    var helperStarting: Option<ChildId>
    var idleSince: Option<Millis>
    var failureCount: nat
    var promoting: bool
    var lastRetry: Millis
    var lastDemotion: Millis
    var nextChild: ChildId
    var poll: Poll
    ghost var demotions: set<Millis>
    ghost var attempts: set<Millis>

    ghost function View(): State
      reads this
    {
      State(env, now, workingMethod, methodDetection, helperProcess, helperReady, helperStarting, idleSince,
            failureCount, promoting, lastRetry, lastDemotion, nextChild, poll)
    }

    /** The stamps stand for the whole history. */
    ghost predicate Valid()
      reads this
    {
      && Shape(View())
      && 0 < now && 0 <= lastDemotion <= now && 0 <= lastRetry <= now
      && (forall d | d in demotions :: d <= now && (lastDemotion != 0 ==> d <= lastDemotion))
      && (lastDemotion != 0 ==> lastDemotion in demotions)
      && (lastDemotion == 0 || MayUseHelper(View()) ==> AllCool(demotions, now))
      && (forall a | a in attempts :: 0 < a <= lastRetry)
      && (lastRetry != 0 ==> lastRetry in attempts)
    }

    constructor (environment: Environment, start: Millis)
      requires start > 0
      ensures Valid() && View() == Init(environment, start) && demotions == {} && attempts == {}
    {
      env, now, demotions, attempts := environment, start, {}, {};
      helperProcess, helperReady, helperStarting, idleSince := None, false, None, None;
      failureCount, promoting, lastRetry, lastDemotion, nextChild, poll := 0, false, 0, 0, 0, NoPoll;
      if environment.isWayland {
        workingMethod := NoMethod;
        methodDetection := Detecting(Candidates(Init(environment, start)), false);
      } else {
        workingMethod, methodDetection := PowerMonitor, Resolved(PowerMonitor);
      }
    }

    /** Cooling down means: some demotion of the session is less than five minutes old. */
    method IsCoolingDown() returns (cooling: bool)
      requires Valid()
      ensures cooling <==> !AllCool(demotions, now)
      ensures cooling == CoolingDown(View())
    {
      cooling := lastDemotion != 0 && now - lastDemotion < DEMOTION_COOLDOWN;
    }

    /** The helper is a candidate exactly if no demotion of the session is recent. */
    method BuildWaylandCandidates() returns (candidates: seq<Method>)
      requires Valid()
      ensures WaylandIdleNotify in candidates <==> AllCool(demotions, now)
      ensures GnomeDBus in candidates <==> env.isGnomeWayland
      ensures Loginctl in candidates <==> !env.isSnap
      ensures Xprintidle in candidates
      ensures candidates == Candidates(View())
    {
      candidates := [];
      if env.isGnomeWayland {
        candidates := candidates + [GnomeDBus];
      }
      var cooling := IsCoolingDown();
      if !cooling {
        candidates := candidates + [WaylandIdleNotify];
      }
      candidates := candidates + [Xprintidle];
      if !env.isSnap {
        candidates := candidates + [Loginctl];
      }
    }

    /** At most one child is tracked: a new one starts only when there is none, and with every demotion cooled off. */
    method EnsureWaylandIdleHelperStarted(pathExists: bool) returns (helper: Helper)
      requires Valid() && (MayUseHelper(View()) || !CoolingDown(View()))
      modifies this`helperProcess, this`helperReady, this`helperStarting, this`idleSince, this`nextChild
      ensures Valid()
      ensures helperProcess != old(helperProcess) ==> old(helperProcess).None? && AllCool(demotions, now)
      ensures if helper.Wait? then helperStarting.Some? else helper.ok == helperProcess.Some?
      ensures (View(), helper) == (EnsureStarted(old(View()), pathExists).0, EnsureStarted(old(View()), pathExists).1)
    {
      ShapeEnsureStarted(View(), pathExists);
      ghost var after := EnsureStarted(View(), pathExists);
      if helperReady && helperProcess.Some? {
        helper := Answer(true);
      } else if helperStarting.Some? {
        helper := Wait;
      } else if !pathExists {
        helper := Answer(false);
      } else {
        helperStarting := Some(nextChild);
        helperProcess := Some(nextChild);
        nextChild := nextChild + 1;
        helperReady := false;
        idleSince := None;
        helper := Wait;
      }
      assert View() == after.0 && helper == after.1;
    }

    /** A failed poll of the helper: on the third outstanding failure it is demoted, and out of use until cooled off. */
    method HandleWaylandIdleHelperFailure()
      requires Valid() && methodDetection == Resolved(WaylandIdleNotify) && poll.NoPoll?
      modifies this`failureCount, this`lastDemotion, this`demotions, this`workingMethod, this`methodDetection
      ensures Valid()
      ensures var demotes := old(failureCount) == FAILURE_THRESHOLD - 1;
              && demotions == old(demotions) + (if demotes then {now} else {})
              && (demotes <==> !MayUseHelper(View()))
      ensures View() == HandleFailure(old(View())).0
    {
      ShapeHandleFailure(View());
      ghost var after := HandleFailure(View());
      failureCount := failureCount + 1;
      if failureCount >= FAILURE_THRESHOLD {
        failureCount := 0;
        lastDemotion := now;
        demotions := demotions + {now};
        workingMethod := NoMethod;
        methodDetection := Absent;
      }
      assert View() == after.0;
    }

    /**
     A promotion is attempted exactly if the session could use the helper and does not, no
     attempt is under way or less than a minute old, and no demotion is recent.
     */
    method MaybePromoteToWaylandIdleNotify(current: Method, pathExists: bool)
      requires Valid() && methodDetection == Resolved(current)
      modifies this
      ensures Valid() && demotions == old(demotions)
      ensures var due := && env.isWayland && !current.GnomeDBus? && !current.WaylandIdleNotify? && !old(promoting)
                         && AllCool(demotions, now) && AllSpaced(old(attempts), now);
              attempts == if due then old(attempts) + {now} else old(attempts)
      ensures View() == MaybePromote(old(View()), current, pathExists).0
    {
      if !env.isWayland || current.GnomeDBus? || current.WaylandIdleNotify? || promoting {
        return;
      }
      var cooling := IsCoolingDown();
      if cooling {
        return;
      }
      if lastRetry != 0 && now - lastRetry < RETRY_INTERVAL {
        return;
      }
      lastRetry := now;
      attempts := attempts + {now};
      promoting := true;
      TryPromoteToWaylandIdleNotify(pathExists);
    }

    method TryPromoteToWaylandIdleNotify(pathExists: bool)
      requires Valid() && promoting
      modifies this
      ensures Valid() && demotions == old(demotions) && attempts == old(attempts)
      ensures View() ==
              var (s, helper, _) := EnsureStarted(old(View()), pathExists);
              if helper.Wait? then s else FinishPromotion(s, helper.ok)
    {
      var helper := EnsureWaylandIdleHelperStarted(pathExists);
      if helper.Answer? {
        OnPromotionAnswer(helper.ok);
      }
    }

    /** The promotion ends; with a working helper, the helper is the method and every demotion has cooled off. */
    method OnPromotionAnswer(works: bool)
      requires Valid() && promoting
      modifies this`promoting, this`workingMethod, this`methodDetection, this`lastDemotion
      ensures Valid() && !promoting && AllCool(demotions, now)
      ensures methodDetection == if works then Resolved(WaylandIdleNotify) else old(methodDetection)
      ensures View() == FinishPromotion(old(View()), works)
    {
      if works {
        workingMethod := WaylandIdleNotify;
        methodDetection := Resolved(WaylandIdleNotify);
        lastDemotion := 0;
      }
      promoting := false;
    }
  }
}
