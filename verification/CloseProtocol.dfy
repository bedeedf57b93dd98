/** Closing the main window: `appCloseHandler` and the quit request of electron/main-window.ts. */
module CloseProtocol {
  import opened Wrappers

  type TimerId = nat

  datatype State = State(
    windowOpen: bool,
    hidden: bool,
    ids: seq<string>,           // registered before-close actions
    isQuiting: bool,
    isQuitRequested: bool,
    resetTimer: Option<TimerId>,      // `quitRequestResetTimer`
    pendingTimers: set<TimerId>,      // timeouts the event loop will still fire
    nextTimer: TimerId,
    minimizeToTray: bool,
    trayAvailable: bool)

  datatype Input =
    | Register(id: string)
    | Unregister(id: string)
    | BeforeCloseDone(id: string)
    | UserCloses
    | CloseWinAndQuit
    | QuitApp
    | TimerFires(t: TimerId)
    | Configure(minimizeToTray: bool, trayAvailable: bool)
    | ShowsAgain

  datatype Event =
    | HiddenToTray
    | Notified(ids: seq<string>)
    | QuitBegan(pending: seq<string>, explicit: bool)
    | LetThrough
    | Requested(t: TimerId)
    | Expired(t: TimerId)

  type Log = seq<Event>

  const Init := State(true, false, [], false, false, None, {}, 0, false, false)

  /** `clearTimeout` on the timer in hand. */
  function Disarmed(s: State): set<TimerId> {
    if s.resetTimer.Some? then s.pendingTimers - {s.resetTimer.value} else s.pendingTimers
  }

  function SetIsQuitRequested(s: State, flag: bool): State {
    if flag then
      s.(isQuitRequested := true, resetTimer := Some(s.nextTimer), pendingTimers := Disarmed(s) + {s.nextTimer},
         nextTimer := s.nextTimer + 1)
    else s.(isQuitRequested := false, resetTimer := None, pendingTimers := Disarmed(s))
  }

  /** The callback of a timeout does not ask which request it was armed for. */
  function Expire(s: State, t: TimerId): (State, Log) {
    if t !in s.pendingTimers then (s, [])
    else (s.(isQuitRequested := false, resetTimer := None, pendingTimers := s.pendingTimers - {t}), [Expired(t)])
  }

  function Without(ids: seq<string>, id: string): seq<string> {
    if ids == [] then []
    else if ids[0] == id then Without(ids[1..], id)
    else [ids[0]] + Without(ids[1..], id)
  }

  /** `short` is `long` with some elements left out, the others in order. */
  predicate IsSubsequence(short: seq<string>, long: seq<string>) {
    short == [] ||
    (long != [] && ((short[0] == long[0] && IsSubsequence(short[1..], long[1..])) || IsSubsequence(short, long[1..])))
  }

  lemma {:induction false} WithoutIsSubsequence(ids: seq<string>, id: string)
    ensures IsSubsequence(Without(ids, id), ids)
  {
    if ids != [] {
      var rest := Without(ids[1..], id);
      WithoutIsSubsequence(ids[1..], id);
      assert ([ids[0]] + rest)[1..] == rest;
    }
  }

  lemma {:induction false} WithoutCounts(ids: seq<string>, id: string, x: string)
    ensures multiset(Without(ids, id))[x] == if x == id then 0 else multiset(ids)[x]
  {
    if ids != [] {
      WithoutCounts(ids[1..], id, x);
      assert multiset(ids) == multiset{ids[0]} + multiset(ids[1..]) by { assert ids == [ids[0]] + ids[1..]; }
    }
  }

  /** Exactly the occurrences of `id` go: every other one stays, as often as it was, and in order. */
  lemma WithoutLeavesTheOthers(ids: seq<string>, id: string)
    ensures IsSubsequence(Without(ids, id), ids)
    ensures forall x :: multiset(Without(ids, id))[x] == if x == id then 0 else multiset(ids)[x]
    ensures forall x :: x in Without(ids, id) <==> x in ids && x != id
  {
    WithoutIsSubsequence(ids, id);
    var kept := Without(ids, id);
    forall x
      ensures multiset(kept)[x] == if x == id then 0 else multiset(ids)[x]
      ensures x in kept <==> x in ids && x != id
    {
      WithoutCounts(ids, id, x);
      assert x in kept <==> x in multiset(kept);
      assert x in ids <==> x in multiset(ids);
    }
  }

  /** `mainWin.close()`: the close handler, and `closed` if the event is not prevented. */
  function Close(s: State): (State, Log)
    decreases !s.isQuiting
  {
    if !s.windowOpen then (s, [])
    else if s.isQuiting then (SetIsQuitRequested(s, false).(windowOpen := false), [LetThrough])
    else if s.minimizeToTray && !s.isQuitRequested && s.trayAvailable then (s.(hidden := true), [HiddenToTray])
    else if s.ids != [] then (s, [Notified(s.ids)])
    else
      var (s', log) := Close(s.(isQuiting := true));
      (s', [QuitBegan(s.ids, false)] + log)
  }

  /** `quitApp()`: an explicit decision, whatever is registered. */
  function ExplicitQuit(s: State): (State, Log) {
    var (s', log) := Close(s.(isQuiting := true));
    (s', [QuitBegan(s.ids, true)] + log)
  }

  function Step(s: State, input: Input): (State, Log) {
    match input
    case Register(id) => (s.(ids := s.ids + [id]), [])
    case Unregister(id) => (s.(ids := Without(s.ids, id)), [])
    case BeforeCloseDone(id) =>
      var s' := s.(ids := Without(s.ids, id));
      if s'.ids == [] then Close(s') else (s', [])
    case UserCloses => Close(s)
    case CloseWinAndQuit =>
      if s.windowOpen then
        var (s', log) := Close(SetIsQuitRequested(s, true));
        (s', [Requested(s.nextTimer)] + log)
      else ExplicitQuit(s)
    case QuitApp => ExplicitQuit(s)
    case TimerFires(t) => Expire(s, t)
    case Configure(minimize, available) => (s.(minimizeToTray := minimize, trayAvailable := available), [])
    case ShowsAgain => (s.(hidden := false), [])
  }

  function Run(inputs: seq<Input>): (State, Log) {
    if inputs == [] then (Init, [])
    else
      var (s, log) := Run(inputs[..|inputs| - 1]);
      var (s', more) := Step(s, inputs[|inputs| - 1]);
      (s', log + more)
  }

  /** The flag stands for one pending timeout, the one in hand; no other is on its way. */
  predicate TimersOk(s: State) {
    && (s.isQuitRequested <==> s.resetTimer.Some?)
    && s.pendingTimers == (if s.resetTimer.Some? then {s.resetTimer.value} else {})
    && (s.resetTimer.Some? ==> s.resetTimer.value < s.nextTimer)
  }

  /** The handler in place; `mainWin.close()` re-enters `OnClose`. */
  class CloseHandler {
    var windowOpen: bool
    var hidden: bool
    var ids: seq<string>
    var isQuiting: bool
    var isQuitRequested: bool
    var quitRequestResetTimer: Option<TimerId>
    var pendingTimers: set<TimerId>
    var nextTimer: TimerId
    var minimizeToTray: bool
    var trayAvailable: bool

    ghost function View(): State
      reads this
    {
      State(windowOpen, hidden, ids, isQuiting, isQuitRequested, quitRequestResetTimer, pendingTimers, nextTimer,
            minimizeToTray, trayAvailable)
    }

    ghost predicate Valid()
      reads this
    {
      TimersOk(View())
    }

    method ClearTimeout(t: TimerId)
      modifies this`pendingTimers
      ensures pendingTimers == old(pendingTimers) - {t}
    {
      pendingTimers := pendingTimers - {t};
    }

    method SetTimeout() returns (t: TimerId)
      modifies this`pendingTimers, this`nextTimer
      ensures t == old(nextTimer) && nextTimer == t + 1 && pendingTimers == old(pendingTimers) + {t}
    {
      t := nextTimer;
      nextTimer := nextTimer + 1;
      pendingTimers := pendingTimers + {t};
    }

    /** Whatever timeout was on its way is cancelled; a new request has its full time. */
    method SetQuitRequested(flag: bool)
      requires Valid()
      modifies this`isQuitRequested, this`quitRequestResetTimer, this`pendingTimers, this`nextTimer
      ensures Valid() && isQuitRequested == flag
      ensures pendingTimers !! old(pendingTimers)
      ensures flag ==> old(nextTimer) in pendingTimers
      ensures View() == SetIsQuitRequested(old(View()), flag)
    {
      if quitRequestResetTimer.Some? {
        ClearTimeout(quitRequestResetTimer.value);
      }
      isQuitRequested := flag;
      if flag {
        var t := SetTimeout();
        quitRequestResetTimer := Some(t);
      } else {
        quitRequestResetTimer := None;
      }
    }

    /** The callback; it can only be that of the request in force. */
    method OnTimeout(t: TimerId)
      requires Valid() && t in pendingTimers
      modifies this`isQuitRequested, this`quitRequestResetTimer, this`pendingTimers
      ensures Valid() && !isQuitRequested && pendingTimers == {} && old(quitRequestResetTimer) == Some(t)
      ensures View() == Expire(old(View()), t).0
    {
      pendingTimers := pendingTimers - {t};
      isQuitRequested := false;
      quitRequestResetTimer := None;
    }

    /** Exactly this id goes, however often it is there; the others stay, as often and in order. */
    method RemoveId(id: string)
      modifies this`ids
      ensures IsSubsequence(ids, old(ids))
      ensures forall x :: multiset(ids)[x] == if x == id then 0 else multiset(old(ids))[x]
      ensures forall x :: x in ids <==> x in old(ids) && x != id
      ensures ids == Without(old(ids), id)
    {
      var kept: seq<string> := [];
      for i := 0 to |ids|
        invariant ids == old(ids)
        invariant Without(ids, id) == kept + Without(ids[i..], id)
      {
        assert ids[i..][1..] == ids[i + 1..];
        if ids[i] != id {
          kept := kept + [ids[i]];
        }
      }
      assert ids[|ids|..] == [];
      assert kept == Without(ids, id);
      WithoutLeavesTheOthers(ids, id);
      ids := kept;
    }

    method QuitAfterActions() returns (log: Log)
      requires Valid() && windowOpen && !isQuiting
      modifies this
      ensures Valid()
      ensures (View(), log) == Close(old(View()).(isQuiting := true))
      decreases !isQuiting, 0
    {
      isQuiting := true;
      log := OnClose();
    }

    /** The depth of re-entry is bounded: beginning to quit is the only thing that re-enters. */
    method OnClose() returns (log: Log)
      requires Valid()
      modifies this
      ensures Valid()
      ensures (View(), log) == Close(old(View()))
      decreases !isQuiting, 1
    {
      if !windowOpen {
        return [];
      }
      if isQuiting {
        SetQuitRequested(false);
        windowOpen := false;
        return [LetThrough];
      }
      if minimizeToTray && !isQuitRequested {
        if trayAvailable {
          hidden := true;
          return [HiddenToTray];
        }
      }
      if |ids| > 0 {
        return [Notified(ids)];
      }
      log := QuitAfterActions();
      log := [QuitBegan([], false)] + log;
    }

    method OnBeforeCloseDone(id: string) returns (log: Log)
      requires Valid()
      modifies this
      ensures Valid()
      ensures (View(), log) == Step(old(View()), BeforeCloseDone(id))
    {
      RemoveId(id);
      log := [];
      if |ids| == 0 {
        log := OnClose();
      }
    }
  }

  // ------------------------------------------------------------------- theorems

  /** By the log alone: the quit request in force, by the timeout it armed. */
  function OpenRequest(log: Log): Option<TimerId> {
    if log == [] then None
    else
      match log[|log| - 1]
      case Requested(t) => Some(t)
      case Expired(_) => None
      case LetThrough => None
      case _ => OpenRequest(log[..|log| - 1])
  }

  /** The timer in hand is the open request's; quitting leaves a trace; a closed window was let through while quitting. */
  ghost predicate Inv(s: State, log: Log) {
    && TimersOk(s) && s.resetTimer == OpenRequest(log)
    && (s.isQuiting <==> exists i :: 0 <= i < |log| && log[i].QuitBegan?)
    && (forall i | 0 <= i < |log| && log[i].QuitBegan? && !log[i].explicit :: log[i].pending == [])
    && (forall i | 0 <= i < |log| && log[i].LetThrough? :: exists j :: 0 <= j < i && log[j].QuitBegan?)
    && (!s.windowOpen ==> s.isQuiting)
  }

  /** What a close reports, and what it leaves. */
  lemma CloseReports(s: State)
    ensures var (s', log) := Close(s);
            && (s'.isQuiting <==> s.isQuiting || (log == [QuitBegan([], false), LetThrough]))
            && (log == [] || log == [LetThrough] || log == [HiddenToTray] || log == [Notified(s.ids)] || log == [QuitBegan([], false), LetThrough])
            && (log == [LetThrough] ==> s.isQuiting)
            && (log == [] <==> !s.windowOpen)
            && (!s'.windowOpen ==> s'.isQuiting || !s.windowOpen)
            && s'.ids == s.ids
  {
  }

  /** One more event. */
  lemma InvEvent(s: State, log: Log, s': State, e: Event)
    requires Inv(s, log) && TimersOk(s')
    requires match e
             case Requested(t) => s'.resetTimer == Some(t)
             case Expired(_) => s'.resetTimer == None
             case LetThrough => s'.resetTimer == None && s.isQuiting
             case QuitBegan(pending, explicit) => s'.resetTimer == s.resetTimer && (explicit || pending == [])
             case _ => s'.resetTimer == s.resetTimer
    requires s'.isQuiting <==> s.isQuiting || e.QuitBegan?
    requires !s'.windowOpen ==> s'.isQuiting
    ensures Inv(s', log + [e])
  {
    var longer := log + [e];
    assert longer[..|log|] == log && longer[|log|] == e;
    assert forall i | 0 <= i < |log| :: longer[i] == log[i];
    if s.isQuiting {
      var i :| 0 <= i < |log| && log[i].QuitBegan?;
      assert longer[i].QuitBegan?;
    }
    forall i | 0 <= i < |longer| && longer[i].LetThrough?
      ensures exists j :: 0 <= j < i && longer[j].QuitBegan?
    {
      var j :| 0 <= j < i && j < |log| && log[j].QuitBegan?;
      assert longer[j].QuitBegan?;
    }
  }

  lemma InvClose(s: State, log: Log)
    requires Inv(s, log)
    ensures Inv(Close(s).0, log + Close(s).1)
    decreases !s.isQuiting
  {
    if !s.windowOpen {
      assert log + [] == log;
    } else if s.isQuiting {
      InvEvent(s, log, Close(s).0, LetThrough);
    } else if s.minimizeToTray && !s.isQuitRequested && s.trayAvailable {
      InvEvent(s, log, Close(s).0, HiddenToTray);
    } else if s.ids != [] {
      InvEvent(s, log, s, Notified(s.ids));
    } else {
      InvQuit(s, log, false);
    }
  }

  /** Quitting begins, and the window is closed. */
  lemma InvQuit(s: State, log: Log, explicit: bool)
    requires Inv(s, log) && (explicit || s.ids == [])
    requires s.isQuiting ==> explicit
    ensures var (s', more) := Close(s.(isQuiting := true)); Inv(s', log + ([QuitBegan(s.ids, explicit)] + more))
    decreases !s.isQuiting, 1
  {
    var s1, e := s.(isQuiting := true), QuitBegan(s.ids, explicit);
    InvEvent(s, log, s1, e);
    var (s', more) := Close(s1);
    if s1.windowOpen {
      InvEvent(s1, log + [e], s', LetThrough);
    }
    assert log + ([e] + more) == (log + [e]) + more;
    assert more == [] ==> (log + [e]) + more == log + [e];
  }

  lemma InvRequest(s: State, log: Log)
    requires Inv(s, log)
    ensures Inv(Step(s, CloseWinAndQuit).0, log + Step(s, CloseWinAndQuit).1)
  {
    if s.windowOpen {
      var s1, e := SetIsQuitRequested(s, true), Requested(s.nextTimer);
      InvEvent(s, log, s1, e);
      InvClose(s1, log + [e]);
      assert log + ([e] + Close(s1).1) == (log + [e]) + Close(s1).1;
    } else {
      InvQuit(s, log, true);
    }
  }

  lemma InvDone(s: State, log: Log, id: string)
    requires Inv(s, log)
    ensures Inv(Step(s, BeforeCloseDone(id)).0, log + Step(s, BeforeCloseDone(id)).1)
  {
    var trimmed := s.(ids := Without(s.ids, id));
    if trimmed.ids == [] {
      InvClose(trimmed, log);
    } else {
      assert log + [] == log;
    }
  }

  lemma InvTimer(s: State, log: Log, t: TimerId)
    requires Inv(s, log)
    ensures Inv(Expire(s, t).0, log + Expire(s, t).1)
  {
    if t in s.pendingTimers {
      InvEvent(s, log, Expire(s, t).0, Expired(t));
    } else {
      assert log + [] == log;
    }
  }

  lemma InvStep(s: State, log: Log, input: Input)
    requires Inv(s, log)
    ensures Inv(Step(s, input).0, log + Step(s, input).1)
  {
    if input.UserCloses? {
      InvClose(s, log);
    } else if input.CloseWinAndQuit? {
      InvRequest(s, log);
    } else if input.QuitApp? {
      InvQuit(s, log, true);
    } else if input.BeforeCloseDone? {
      InvDone(s, log, input.id);
    } else if input.TimerFires? {
      InvTimer(s, log, input.t);
    } else {
      InvQuiet(s, log, input);
    }
  }

  /** Registrations, settings and showing again report nothing. */
  lemma InvQuiet(s: State, log: Log, input: Input)
    requires Inv(s, log) && (input.Register? || input.Unregister? || input.Configure? || input.ShowsAgain?)
    ensures Inv(Step(s, input).0, log + Step(s, input).1)
  {
    assert log + Step(s, input).1 == log;
  }

  lemma {:induction false} RunInv(inputs: seq<Input>)
    ensures Inv(Run(inputs).0, Run(inputs).1)
  {
    if inputs != [] {
      var front, last := inputs[..|inputs| - 1], inputs[|inputs| - 1];
      RunInv(front);
      InvStep(Run(front).0, Run(front).1, last);
    }
  }

  /**
   In every run the flag is up exactly while a quit request is in force -- asked for, and
   since then neither expired nor overtaken by the end of the window -- and the only timeout
   then on its way is the one armed for that request.
   */
  lemma FlagIffTimer(inputs: seq<Input>)
    ensures var (s, log) := Run(inputs);
            && (s.isQuitRequested <==> OpenRequest(log).Some?)
            && s.pendingTimers == (if OpenRequest(log).Some? then {OpenRequest(log).value} else {})
  {
    RunInv(inputs);
  }

  lemma {:induction false} ExpiryHasAStep(inputs: seq<Input>, k: nat)
    requires k < |Run(inputs).1| && Run(inputs).1[k].Expired?
    ensures exists n :: 0 <= n < |inputs| && inputs[n] == TimerFires(Run(inputs).1[k].t) &&
                        Run(inputs).1[k].t in Run(inputs[..n]).0.pendingTimers && Run(inputs).1[..k] == Run(inputs[..n]).1
  {
    var m := |inputs| - 1;
    var front := inputs[..m];
    var (s, log) := Run(front);
    var more := Step(s, inputs[m]).1;
    if k < |log| {
      ExpiryHasAStep(front, k);
      var n :| 0 <= n < m && front[n] == TimerFires(log[k].t) && log[k].t in Run(front[..n]).0.pendingTimers && log[..k] == Run(front[..n]).1;
      assert front[..n] == inputs[..n] && Run(inputs).1[..k] == log[..k];
    } else {
      OnlyTimersExpire(s, inputs[m]);
      assert k == |log| && Run(inputs).1[..k] == log;
    }
  }

  lemma OnlyTimersExpire(s: State, input: Input)
    ensures var more := Step(s, input).1;
            (exists i :: 0 <= i < |more| && more[i].Expired?) ==>
            input.TimerFires? && input.t in s.pendingTimers && more == [Expired(input.t)]
  {
    CloseReports(s);
    CloseReports(s.(isQuiting := true));
    CloseReports(SetIsQuitRequested(s, true));
    if input.BeforeCloseDone? {
      CloseReports(s.(ids := Without(s.ids, input.id)));
    }
  }

  /** A timeout that fires is that of the request in force: asking again gives the full time again. */
  lemma ExpiryEndsTheLatestRequest(inputs: seq<Input>, k: nat)
    requires k < |Run(inputs).1| && Run(inputs).1[k].Expired?
    ensures OpenRequest(Run(inputs).1[..k]) == Some(Run(inputs).1[k].t)
  {
    ExpiryHasAStep(inputs, k);
    var n :| 0 <= n < |inputs| && inputs[n] == TimerFires(Run(inputs).1[k].t) &&
             Run(inputs).1[k].t in Run(inputs[..n]).0.pendingTimers && Run(inputs).1[..k] == Run(inputs[..n]).1;
    FlagIffTimer(inputs[..n]);
  }

  /**
   The window is let go only after quitting began, and unless `quitApp()` began it, that was
   at a moment when no before-close action was registered.
   */
  lemma {:induction false} LetThroughOnlyAfterActions(inputs: seq<Input>, k: nat)
    requires k < |Run(inputs).1| && Run(inputs).1[k].LetThrough?
    ensures exists i :: 0 <= i < k && Run(inputs).1[i].QuitBegan? &&
                        (Run(inputs).1[i].explicit || Run(inputs).1[i].pending == [])
  {
    RunInv(inputs);
    var log := Run(inputs).1;
    var i :| 0 <= i < k && log[i].QuitBegan?;
    assert log[i].explicit || log[i].pending == [];
  }

  /** A close without a live quit request hides instead of quitting exactly if minimise-to-tray has a tray. */
  lemma PlainCloseHidesIff(s: State)
    requires s.windowOpen && !s.isQuiting && !s.isQuitRequested
    ensures var (s', log) := Close(s);
            && (log == [HiddenToTray] <==> s.minimizeToTray && s.trayAvailable)
            && (log == [HiddenToTray] ==> s'.hidden && s'.windowOpen)
            && (s'.isQuiting <==> !(s.minimizeToTray && s.trayAvailable) && s.ids == [])
  {
    CloseReports(s);
  }

  /**
   When the last before-close action reports done, the app quits if and only if the tray does
   not take the close -- so a requested quit whose actions outlast the request ends in the tray.
   */
  lemma LastActionQuitsIff(s: State, id: string)
    requires s.windowOpen && !s.isQuiting && forall x | x in s.ids :: x == id
    ensures var s' := Step(s, BeforeCloseDone(id)).0;
            !s'.windowOpen <==> s.isQuitRequested || !s.minimizeToTray || !s.trayAvailable
  {
    NothingLeft(s.ids, id);
    CloseReports(s.(ids := []));
  }

  lemma NothingLeft(ids: seq<string>, id: string)
    ensures Without(ids, id) == [] <==> forall x | x in ids :: x == id
  {
    WithoutLeavesTheOthers(ids, id);
    if Without(ids, id) != [] {
      assert Without(ids, id)[0] in Without(ids, id);
    }
  }

  lemma SlowActionsTurnQuitIntoHide(s: State, id: string)
    requires s.windowOpen && !s.isQuiting && s.ids == [id] && s.minimizeToTray && s.trayAvailable
    ensures var asked := Step(s, CloseWinAndQuit);
            var expired := Step(asked.0, TimerFires(s.nextTimer)).0;
            && asked.1 == [Requested(s.nextTimer), Notified([id])]
            && Step(asked.0, BeforeCloseDone(id)).1 == [QuitBegan([], false), LetThrough]
            && Step(expired, BeforeCloseDone(id)).1 == [HiddenToTray]
  {
    assert [id][1..] == [] && Without([id], id) == [];
    var asked := SetIsQuitRequested(s, true);
    assert Close(asked) == (asked, [Notified([id])]);
    assert [Requested(s.nextTimer)] + [Notified([id])] == [Requested(s.nextTimer), Notified([id])];
    assert Step(s, CloseWinAndQuit) == (asked, [Requested(s.nextTimer), Notified([id])]);
    var done := asked.(ids := []);
    assert Close(done).1 == [QuitBegan([], false)] + Close(done.(isQuiting := true)).1;
    assert Close(Expire(asked, s.nextTimer).0.(ids := [])).1 == [HiddenToTray];
  }

  // -------------------------------------------------------- what the inputs say

  /** The input takes `id` off the list: it reported done, or was unregistered. */
  predicate TakesOff(input: Input, id: string) {
    input == Unregister(id) || input == BeforeCloseDone(id)
  }

  /** By the inputs alone: `id` was registered, and nothing has taken it off since. */
  ghost predicate AtWork(inputs: seq<Input>, id: string) {
    exists i :: 0 <= i < |inputs| && inputs[i] == Register(id) && forall j | i < j < |inputs| :: !TakesOff(inputs[j], id)
  }

  lemma AtWorkStep(inputs: seq<Input>, input: Input, id: string)
    ensures AtWork(inputs + [input], id) <==> input == Register(id) || (AtWork(inputs, id) && !TakesOff(input, id))
  {
    var longer := inputs + [input];
    assert forall i | 0 <= i < |inputs| :: longer[i] == inputs[i];
    if input == Register(id) {
      assert longer[|inputs|] == Register(id);
    } else if AtWork(inputs, id) && !TakesOff(input, id) {
      var i :| 0 <= i < |inputs| && inputs[i] == Register(id) && forall j | i < j < |inputs| :: !TakesOff(inputs[j], id);
      assert longer[i] == Register(id);
    }
    if AtWork(longer, id) && input != Register(id) {
      var i :| 0 <= i < |longer| && longer[i] == Register(id) && forall j | i < j < |longer| :: !TakesOff(longer[j], id);
      assert inputs[i] == Register(id) && !TakesOff(longer[|inputs|], id);
    }
  }

  /** How often `id` was registered since it was last taken off. */
  function TimesAtWork(inputs: seq<Input>, id: string): nat {
    if inputs == [] then 0
    else
      var last, before := inputs[|inputs| - 1], inputs[..|inputs| - 1];
      if last == Register(id) then 1 + TimesAtWork(before, id)
      else if TakesOff(last, id) then 0
      else TimesAtWork(before, id)
  }

  lemma CloseLeavesAlone(s: State)
    ensures var s' := Close(s).0;
            s'.ids == s.ids && s'.minimizeToTray == s.minimizeToTray && s'.trayAvailable == s.trayAvailable
  {
  }

  /** The state in which the close handler runs, if the input leads there. */
  function WhenClosing(s: State, input: Input): State {
    match input
    case BeforeCloseDone(id) => s.(ids := Without(s.ids, id))
    case CloseWinAndQuit => if s.windowOpen then SetIsQuitRequested(s, true) else s.(isQuiting := true)
    case QuitApp => s.(isQuiting := true)
    case _ => s
  }

  lemma StepIds(s: State, input: Input)
    ensures Step(s, input).0.ids == IdsAfter(s.ids, input)
  {
    if input.UserCloses? || input.CloseWinAndQuit? || input.QuitApp? || input.BeforeCloseDone? {
      CloseLeavesAlone(WhenClosing(s, input));
    } else {
      QuietIds(s, input);
    }
  }

  lemma QuietIds(s: State, input: Input)
    requires !(input.UserCloses? || input.CloseWinAndQuit? || input.QuitApp? || input.BeforeCloseDone?)
    ensures Step(s, input).0.ids == IdsAfter(s.ids, input)
  {
  }

  /** The list holds exactly the ids at work, each as often as it was registered. */
  lemma {:induction false} ListIsWhoIsAtWork(inputs: seq<Input>, id: string)
    ensures id in Run(inputs).0.ids <==> AtWork(inputs, id)
    ensures multiset(Run(inputs).0.ids)[id] == TimesAtWork(inputs, id)
  {
    if inputs != [] {
      var front, last := inputs[..|inputs| - 1], inputs[|inputs| - 1];
      ListIsWhoIsAtWork(front, id);
      assert inputs == front + [last];
      AtWorkStep(front, last, id);
      CountStep(Run(front).0, last, id);
    }
  }

  lemma CountStep(s: State, input: Input, id: string)
    ensures var s' := Step(s, input).0;
            && (id in s'.ids <==> input == Register(id) || (id in s.ids && !TakesOff(input, id)))
            && multiset(s'.ids)[id] == if input == Register(id) then 1 + multiset(s.ids)[id]
                                       else if TakesOff(input, id) then 0 else multiset(s.ids)[id]
  {
    StepIds(s, input);
    CountIds(s.ids, input, id);
  }

  /** What the input makes of the list. */
  function IdsAfter(ids: seq<string>, input: Input): seq<string> {
    match input
    case Register(id) => ids + [id]
    case Unregister(id) => Without(ids, id)
    case BeforeCloseDone(id) => Without(ids, id)
    case _ => ids
  }

  lemma CountIds(ids: seq<string>, input: Input, id: string)
    ensures var ids' := IdsAfter(ids, input);
            && (id in ids' <==> input == Register(id) || (id in ids && !TakesOff(input, id)))
            && multiset(ids')[id] == if input == Register(id) then 1 + multiset(ids)[id]
                                     else if TakesOff(input, id) then 0 else multiset(ids)[id]
  {
    if input.Register? {
      assert multiset(ids + [input.id]) == multiset(ids) + multiset{input.id};
    } else if input.Unregister? || input.BeforeCloseDone? {
      WithoutLeavesTheOthers(ids, input.id);
    }
  }

  /** The settings in force: those of the last change, off at the start. */
  function TraySettings(inputs: seq<Input>): (bool, bool) {
    if inputs == [] then (false, false)
    else
      match inputs[|inputs| - 1]
      case Configure(minimize, available) => (minimize, available)
      case _ => TraySettings(inputs[..|inputs| - 1])
  }

  lemma StepSettings(s: State, input: Input)
    ensures var s' := Step(s, input).0;
            (s'.minimizeToTray, s'.trayAvailable) ==
            if input.Configure? then (input.minimizeToTray, input.trayAvailable) else (s.minimizeToTray, s.trayAvailable)
  {
    CloseLeavesAlone(WhenClosing(s, input));
  }

  lemma {:induction false} SettingsAreTheLastChange(inputs: seq<Input>)
    ensures (Run(inputs).0.minimizeToTray, Run(inputs).0.trayAvailable) == TraySettings(inputs)
  {
    if inputs != [] {
      SettingsAreTheLastChange(inputs[..|inputs| - 1]);
      StepSettings(Run(inputs[..|inputs| - 1]).0, inputs[|inputs| - 1]);
    }
  }

  /** An open, not yet quitting window is closed by: the window's own close button, the last action done, a requested quit. */
  predicate ClosesWindow(input: Input) {
    input.UserCloses? || input.CloseWinAndQuit? || input.BeforeCloseDone?
  }

  /** The tray takes a close that nobody asked to be a quit. */
  predicate TrayTakes(inputs: seq<Input>, input: Input) {
    TraySettings(inputs) == (true, true) && !input.CloseWinAndQuit? && OpenRequest(Run(inputs).1).None?
  }

  /**
   Exactly when a window is let go: on `quitApp()`, or on a close that the tray does not take
   with no before-close action at work -- at work by the inputs: registered, and neither
   reported done nor unregistered since.
   */
  lemma LetGoIff(inputs: seq<Input>, input: Input)
    requires Run(inputs).0.windowOpen && !Run(inputs).0.isQuiting
    ensures !Run(inputs + [input]).0.windowOpen <==>
            input.QuitApp? ||
            (ClosesWindow(input) && !TrayTakes(inputs, input) && forall id :: !AtWork(inputs + [input], id))
  {
    var s := Run(inputs).0;
    assert (inputs + [input])[..|inputs|] == inputs;
    RunInv(inputs);
    SettingsAreTheLastChange(inputs);
    StepIds(s, input);
    NobodyAtWork(inputs + [input]);
    LetGoStep(s, input);
  }

  lemma NobodyAtWork(inputs: seq<Input>)
    ensures Run(inputs).0.ids == [] <==> forall id :: !AtWork(inputs, id)
  {
    forall id
      ensures id in Run(inputs).0.ids <==> AtWork(inputs, id)
    {
      ListIsWhoIsAtWork(inputs, id);
    }
    if Run(inputs).0.ids != [] {
      assert Run(inputs).0.ids[0] in Run(inputs).0.ids;
    }
  }

  lemma LetGoStep(s: State, input: Input)
    requires s.windowOpen && !s.isQuiting
    ensures !Step(s, input).0.windowOpen <==>
            input.QuitApp? ||
            (ClosesWindow(input) && Step(s, input).0.ids == []
             && !(s.minimizeToTray && s.trayAvailable && !input.CloseWinAndQuit? && !s.isQuitRequested))
  {
    StepIds(s, input);
    CloseReports(s);
    CloseReports(SetIsQuitRequested(s, true));
    if input.BeforeCloseDone? {
      CloseReports(s.(ids := Without(s.ids, input.id)));
    }
  }

  /** While an action is at work, only an explicit quit ends the window, and another action reporting done does nothing at all. */
  lemma NotLetGoWhileAtWork(inputs: seq<Input>, input: Input, id: string)
    requires Run(inputs).0.windowOpen && !Run(inputs).0.isQuiting
    requires AtWork(inputs + [input], id) && !input.QuitApp?
    ensures Run(inputs + [input]).0.windowOpen && !Run(inputs + [input]).0.isQuiting
    ensures input.BeforeCloseDone? ==>
              Run(inputs + [input]).1 == Run(inputs).1 && Run(inputs + [input]).0.hidden == Run(inputs).0.hidden
  {
    var s := Run(inputs).0;
    LetGoIff(inputs, input);
    assert (inputs + [input])[..|inputs|] == inputs;
    QuittingOnlyWhenLetGo(s, input);
    ListIsWhoIsAtWork(inputs + [input], id);
    StepIds(s, input);
    assert Run(inputs).1 + [] == Run(inputs).1;
  }

  lemma QuittingOnlyWhenLetGo(s: State, input: Input)
    requires s.windowOpen && !s.isQuiting
    ensures Step(s, input).0.isQuiting <==> !Step(s, input).0.windowOpen
  {
    CloseReports(s);
    CloseReports(SetIsQuitRequested(s, true));
    if input.BeforeCloseDone? {
      CloseReports(s.(ids := Without(s.ids, input.id)));
    }
  }

  /** A request is reported exactly when the quit is requested of an open window, and ends with its own timeout. */
  lemma RequestsFollowInputs(s: State, input: Input, t: TimerId)
    ensures Requested(t) in Step(s, input).1 <==> input.CloseWinAndQuit? && s.windowOpen && t == s.nextTimer
    ensures Expired(t) in Step(s, input).1 <==> input == TimerFires(t) && t in s.pendingTimers
  {
    CloseReports(WhenClosing(s, input));
  }

  /** The window is hidden exactly if it was hidden to the tray and not shown again since. */
  function HiddenByLog(inputs: seq<Input>): bool {
    inputs != [] &&
    var front := inputs[..|inputs| - 1];
    if inputs[|inputs| - 1].ShowsAgain? then false
    else HiddenToTray in Step(Run(front).0, inputs[|inputs| - 1]).1 || HiddenByLog(front)
  }

  lemma {:induction false} HiddenUntilShownAgain(inputs: seq<Input>)
    ensures Run(inputs).0.hidden <==> HiddenByLog(inputs)
  {
    if inputs != [] {
      HiddenUntilShownAgain(inputs[..|inputs| - 1]);
      StepHides(Run(inputs[..|inputs| - 1]).0, inputs[|inputs| - 1]);
    }
  }

  lemma StepHides(s: State, input: Input)
    ensures Step(s, input).0.hidden <==> !input.ShowsAgain? && (s.hidden || HiddenToTray in Step(s, input).1)
  {
    CloseHides(WhenClosing(s, input));
  }

  lemma CloseHides(s: State)
    ensures Close(s).0.hidden <==> s.hidden || HiddenToTray in Close(s).1
  {
  }
}
