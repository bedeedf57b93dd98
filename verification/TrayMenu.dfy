/**
 The tray's context menu and the cache that avoids redrawing it (electron/indicator.ts).
 A menu is what the user sees and can click: the message line, and per task of today the
 label, which entry it switches to and whether it is checked.
 */
module TrayMenu {
  import opened Wrappers
  import opened Decimals

  datatype Task = Task(id: string, title: string, timeEstimate: int, timeSpent: int)

  /** The session values that arrive with every task update. */
  datatype Session = Session(
    isPomodoroEnabled: bool, pomodoroTime: int, isFocusModeEnabled: bool, focusTime: int, focusModeMode: string)

  datatype Item = Item(text: string, taskId: string, checked: bool)
  datatype Menu = Menu(message: string, items: seq<Item>)

  /** What the cache keeps of a task list: ids and full titles. */
  datatype Digest = Digest(id: string, title: string)

  datatype State = State(
    trayAlive: bool,
    shown: Menu,                        // the last menu handed to the tray
    todayTasks: seq<Task>,
    isRunning: bool,
    currentTaskId: Option<string>,
    lastCurrentTask: Option<Task>,
    session: Session,
    lastMsg: Option<string>,            // None is `undefined`
    lastIsRunning: Option<bool>,
    lastCurrentTaskId: Option<Option<string>>,
    lastToday: Option<seq<Digest>>)

  // ------------------------------------------------------------------ messages

  function FormatTime(ms: int): string {
    var hours := ms / 3600000;
    var minutes := (ms - hours * 3600000) / 60000;
    if hours > 0 && minutes > 0 then ToDecimal(hours) + "h " + ToDecimal(minutes) + "m"
    else if hours > 0 then ToDecimal(hours) + "h"
    else if minutes > 0 then ToDecimal(minutes) + "m"
    else "0m"
  }

  function ProgressMessage(elapsed: int): string {
    FormatTime(elapsed)
  }

  function ProgressMessageWithRest(elapsed: int, rest: int, prefix: string): string {
    if rest / 60000 == 0 then FormatTime(elapsed)
    else FormatTime(elapsed) + " (" + prefix + FormatTime(rest) + ")"
  }

  /** `createIndicatorMessage` with the countdown switched on, as the menu always asks for it. */
  function MenuMessage(task: Task, session: Session): string {
    if task.title == "" then ""
    else if session.isFocusModeEnabled && session.focusModeMode != "" && session.focusModeMode != "Flowtime" then
      ProgressMessage(session.focusTime)
    else if session.isFocusModeEnabled && session.focusModeMode == "Flowtime" then
      if task.timeEstimate != 0 then
        var rest := task.timeEstimate - task.timeSpent;
        ProgressMessageWithRest(task.timeSpent, if rest > 0 then rest else 0, "-")
      else ProgressMessage(task.timeSpent)
    else if session.isPomodoroEnabled then ProgressMessage(session.pomodoroTime)
    else if task.timeEstimate != 0 then
      var rest := task.timeEstimate - task.timeSpent;
      if rest >= 0 then ProgressMessageWithRest(task.timeSpent, rest, "-")
      else ProgressMessageWithRest(task.timeSpent, -rest, "+")
    else if task.timeSpent != 0 then ProgressMessage(task.timeSpent)
    else ""
  }

  /** Less than a minute either way is not worth showing. */
  function Balance(difference: int, showOverrun: bool): string {
    if difference >= 60000 then " (-" + FormatTime(difference) + ")"
    else if difference <= -60000 && showOverrun then " (+" + FormatTime(-difference) + ")"
    else ""
  }

  lemma BalanceText(time: string, spent: string)
    ensures spent + " (" + "-" + time + ")" == spent + (" (-" + time + ")")
    ensures spent + " (" + "+" + time + ")" == spent + (" (+" + time + ")")
  {
  }

  lemma BalanceShown(spent: int, left: int)
    ensures ProgressMessageWithRest(spent, if left > 0 then left else 0, "-") == FormatTime(spent) + Balance(left, false)
    ensures (if left >= 0 then ProgressMessageWithRest(spent, left, "-") else ProgressMessageWithRest(spent, -left, "+")) ==
            FormatTime(spent) + Balance(left, true)
  {
    BalanceText(FormatTime(left), FormatTime(spent));
    BalanceText(FormatTime(-left), FormatTime(spent));
    assert FormatTime(spent) + "" == FormatTime(spent);
  }

  /** In flowtime the time spent, with what is left of the estimate; over it, the time alone. */
  lemma FlowtimeMessage(task: Task, session: Session)
    requires task.title != "" && session.isFocusModeEnabled && session.focusModeMode == "Flowtime"
    ensures MenuMessage(task, session) ==
            if task.timeEstimate == 0 then FormatTime(task.timeSpent)
            else FormatTime(task.timeSpent) + Balance(task.timeEstimate - task.timeSpent, false)
  {
    BalanceShown(task.timeSpent, task.timeEstimate - task.timeSpent);
  }

  /** In any other focus mode the time of the session; without a title, nothing. */
  lemma FocusMessage(task: Task, session: Session)
    ensures task.title == "" ==> MenuMessage(task, session) == ""
    ensures task.title != "" && session.isFocusModeEnabled && session.focusModeMode !in {"", "Flowtime"} ==>
              MenuMessage(task, session) == FormatTime(session.focusTime)
  {
  }

  /** Outside focus mode the pomodoro's time, else the time spent with what is left of the estimate or over it, if any time was. */
  lemma PlainMessage(task: Task, session: Session)
    requires task.title != "" && (!session.isFocusModeEnabled || session.focusModeMode == "")
    ensures MenuMessage(task, session) ==
            if session.isPomodoroEnabled then FormatTime(session.pomodoroTime)
            else if task.timeEstimate != 0 then FormatTime(task.timeSpent) + Balance(task.timeEstimate - task.timeSpent, true)
            else if task.timeSpent != 0 then FormatTime(task.timeSpent)
            else ""
  {
    BalanceShown(task.timeSpent, task.timeEstimate - task.timeSpent);
  }

  function CurrentMessage(s: State): string {
    if s.lastCurrentTask.Some? then MenuMessage(s.lastCurrentTask.value, s.session) else ""
  }

  function Text(msg: Option<string>): string {
    if msg.Some? then msg.value else ""
  }

  function Digests(tasks: seq<Task>): (d: seq<Digest>)
    ensures |d| == |tasks|
    ensures forall i | 0 <= i < |d| :: d[i] == Digest(tasks[i].id, tasks[i].title)
  {
    seq(|tasks|, i requires 0 <= i < |tasks| => Digest(tasks[i].id, tasks[i].title))
  }

  function Label(title: string): string {
    if |title| > 40 then title[..37] + "..." else title
  }

  /** Titles of up to 40 characters stay, longer ones are cut to that length, dots included. */
  lemma LabelFits(title: string)
    ensures |Label(title)| <= 40
    ensures if |title| <= 40 then Label(title) == title else |Label(title)| == 40 && Label(title) == title[..37] + "..."
  {
  }

  function Items(today: seq<Digest>, isRunning: bool, currentTaskId: Option<string>): (items: seq<Item>)
    ensures |items| == |today|
    ensures forall i | 0 <= i < |items| ::
              items[i] == Item(Label(today[i].title), today[i].id, currentTaskId == Some(today[i].id) && isRunning)
  {
    seq(|today|, i requires 0 <= i < |today| =>
      Item(Label(today[i].title), today[i].id, currentTaskId == Some(today[i].id) && isRunning))
  }

  /** `createContextMenu(msg)` in the current state. */
  function ContextMenu(s: State, msg: string): Menu {
    Menu(msg, Items(Digests(s.todayTasks), s.isRunning, s.currentTaskId))
  }

  /** What a redraw after every event would show. */
  function IdealMenu(s: State): Menu {
    ContextMenu(s, CurrentMessage(s))
  }

  predicate IsNumeral(s: string) {
    s != "" && forall i | 0 <= i < |s| :: IsDigit(s[i])
  }

  /** A numeral in front of a letter can be read back. */
  lemma NumeralsInFront(a: string, x: string, b: string, y: string)
    requires IsNumeral(a) && IsNumeral(b) && x != "" && y != "" && !IsDigit(x[0]) && !IsDigit(y[0])
    requires a + x == b + y
    ensures a == b && x == y
  {
    assert (a + x)[|a|] == x[0] && (b + y)[|b|] == y[0];
    assert forall i | 0 <= i < |a| :: IsDigit((a + x)[i]);
    assert forall i | 0 <= i < |b| :: IsDigit((b + y)[i]);
    assert |a| == |b|;
    assert a == (a + x)[..|a|] && b == (b + y)[..|b|];
    assert x == (a + x)[|a|..] && y == (b + y)[|b|..];
  }

  /** Minutes below an hour, `0m` included. */
  function MinutesText(minutes: nat): string {
    ToDecimal(minutes) + "m"
  }

  lemma MinutesTextInjective(a: nat, b: nat)
    requires MinutesText(a) == MinutesText(b)
    ensures a == b
  {
    NumeralsInFront(ToDecimal(a), "m", ToDecimal(b), "m");
    ToDecimalInjective(a, b);
  }

  /** The text without hours, and what follows the hours otherwise. */
  lemma FormatTimeParts(ms: nat)
    ensures var hours, minutes := ms / 3600000, ms / 60000 % 60;
            FormatTime(ms) ==
            if hours == 0 then MinutesText(minutes)
            else ToDecimal(hours) + (if minutes > 0 then "h " + MinutesText(minutes) else "h")
  {
    var hours, minutes := ms / 3600000, ms / 60000 % 60;
    MinuteArithmetic(ms);
    assert ToDecimal(0) == "0";
    if hours > 0 && minutes > 0 {
      assert ToDecimal(hours) + "h " + ToDecimal(minutes) + "m" == ToDecimal(hours) + ("h " + MinutesText(minutes));
    }
  }

  lemma MinuteArithmetic(ms: nat)
    ensures (ms - ms / 3600000 * 3600000) / 60000 == ms / 60000 % 60
    ensures ms / 60000 == ms / 3600000 * 60 + ms / 60000 % 60
  {
    var minutes := ms / 60000;
    assert ms == minutes * 60000 + ms % 60000;
    assert minutes == minutes / 60 * 60 + minutes % 60;
    assert ms == minutes / 60 * 3600000 + (minutes % 60 * 60000 + ms % 60000);
    assert ms / 3600000 == minutes / 60;
  }

  /** Times are shown alike exactly if they are the same number of whole minutes. */
  lemma FormatTimeShowsWholeMinutes(a: nat, b: nat)
    ensures FormatTime(a) == FormatTime(b) <==> a / 60000 == b / 60000
  {
    FormatTimeParts(a);
    FormatTimeParts(b);
    MinuteArithmetic(a);
    MinuteArithmetic(b);
    if FormatTime(a) == FormatTime(b) {
      SameTextSameParts(a / 3600000, a / 60000 % 60, b / 3600000, b / 60000 % 60);
    }
  }

  function TimeText(hours: nat, minutes: nat): string {
    if hours == 0 then MinutesText(minutes)
    else ToDecimal(hours) + (if minutes > 0 then "h " + MinutesText(minutes) else "h")
  }

  lemma SameTextSameParts(hours: nat, minutes: nat, hours': nat, minutes': nat)
    requires TimeText(hours, minutes) == TimeText(hours', minutes')
    ensures hours == hours' && minutes == minutes'
  {
    var n, n' := if hours == 0 then minutes else hours, if hours' == 0 then minutes' else hours';
    var rest := if hours == 0 then "m" else if minutes > 0 then "h " + MinutesText(minutes) else "h";
    var rest' := if hours' == 0 then "m" else if minutes' > 0 then "h " + MinutesText(minutes') else "h";
    assert rest[0] != '0' && rest'[0] != '0';
    NumeralsInFront(ToDecimal(n), rest, ToDecimal(n'), rest');
    ToDecimalInjective(n, n');
    if hours > 0 && minutes > 0 {
      assert rest[2..] == MinutesText(minutes);
      assert minutes' > 0 && rest'[2..] == MinutesText(minutes');
      MinutesTextInjective(minutes, minutes');
    }
  }

  // -------------------------------------------------------------------- handlers

  /** The cached redraw shared by the handlers for task updates and progress. */
  function Redrawn(s: State, msg: string): State {
    var today := Digests(s.todayTasks);
    if || s.lastMsg != Some(msg) || s.lastIsRunning != Some(s.isRunning)
       || s.lastCurrentTaskId != Some(s.currentTaskId) || s.lastToday != Some(today)
    then s.(shown := ContextMenu(s, msg), lastMsg := Some(msg), lastIsRunning := Some(s.isRunning),
            lastCurrentTaskId := Some(s.currentTaskId), lastToday := Some(today))
    else s
  }

  function TaskUpdated(s: State, task: Option<Task>, session: Session): State {
    var s' := s.(isRunning := task.Some?, currentTaskId := if task.Some? then Some(task.value.id) else None,
                 lastCurrentTask := task, session := session);
    if s.trayAlive then Redrawn(s', CurrentMessage(s')) else s'
  }

  function ProgressTick(s: State): State {
    if s.lastCurrentTask.Some? && s.trayAlive then Redrawn(s, CurrentMessage(s)) else s
  }

  function TodayUpdated(s: State, tasks: seq<Task>): State {
    var s' := s.(todayTasks := tasks);
    if s.trayAlive && Some(Digests(tasks)) != s.lastToday
    then s'.(shown := ContextMenu(s', Text(s.lastMsg)), lastToday := Some(Digests(tasks)))
    else s'
  }

  /** `syncTray` draws unconditionally and leaves the cache alone. */
  function SyncTray(s: State): State {
    s.(shown := ContextMenu(s, if s.lastCurrentTask.Some? then CurrentMessage(s) else Text(s.lastMsg)))
  }

  function Refresh(s: State): State {
    if s.trayAlive then SyncTray(s) else s
  }

  function EnsureIndicator(s: State): State {
    if s.trayAlive then s else SyncTray(s.(trayAlive := true))
  }

  function BeforeQuit(s: State): State {
    s.(trayAlive := false)
  }

  // ------------------------------------------------------- while one tray lives

  datatype Event =
    | OnTask(task: Option<Task>, session: Session)
    | OnProgress
    | OnToday(tasks: seq<Task>)
    | OnRefresh
    | OnEnsure

  function Step(s: State, e: Event): State {
    match e
    case OnTask(task, session) => TaskUpdated(s, task, session)
    case OnProgress => ProgressTick(s)
    case OnToday(tasks) => TodayUpdated(s, tasks)
    case OnRefresh => Refresh(s)
    case OnEnsure => EnsureIndicator(s)
  }

  function Run(s: State, events: seq<Event>): State
    decreases |events|
  {
    if events == [] then s else Run(Step(s, events[0]), events[1..])
  }

  /** Menu lines a digest stands for, check marks aside: titles are cut, so digests say more. */
  function Lines(today: seq<Digest>): seq<Item> {
    Items(today, false, None)
  }

  /** Each cached value is unset, or describes the state as it is now. */
  predicate CacheInSync(s: State) {
    && Text(s.lastMsg) == CurrentMessage(s)
    && (s.lastCurrentTaskId.None? || s.lastCurrentTaskId.value == s.currentTaskId)
    && (s.lastToday.None? || Lines(s.lastToday.value) == Lines(Digests(s.todayTasks)))
  }

  /** What holds in every state the handlers can produce: fields that are set together. */
  predicate Consistent(s: State) {
    && s.isRunning == s.lastCurrentTask.Some?
    && s.currentTaskId == (if s.lastCurrentTask.Some? then Some(s.lastCurrentTask.value.id) else None)
    && (s.lastMsg.Some? <==> s.lastIsRunning.Some?)
    && (s.lastMsg.Some? <==> s.lastCurrentTaskId.Some?)
    && (s.lastIsRunning.Some? ==> s.lastIsRunning.value == s.lastCurrentTaskId.value.Some?)
    && (s.lastCurrentTaskId == Some(None) ==> s.lastMsg == Some(""))
  }

  lemma ConsistentStep(s: State, e: Event)
    requires Consistent(s)
    ensures Consistent(Step(s, e)) && Consistent(BeforeQuit(s))
  {
  }

  lemma SameLinesSameMenu(a: seq<Digest>, b: seq<Digest>, isRunning: bool, currentTaskId: Option<string>)
    requires Lines(a) == Lines(b)
    ensures Items(a, isRunning, currentTaskId) == Items(b, isRunning, currentTaskId)
  {
    forall i | 0 <= i < |a|
      ensures Items(a, isRunning, currentTaskId)[i] == Items(b, isRunning, currentTaskId)[i]
    {
      assert Lines(a)[i] == Lines(b)[i];
    }
  }

  lemma SameMenuSameLines(a: seq<Digest>, b: seq<Digest>, isRunning: bool, currentTaskId: Option<string>)
    ensures Items(a, isRunning, currentTaskId) == Items(b, isRunning, currentTaskId) ==> Lines(a) == Lines(b)
  {
    var x, y := Items(a, isRunning, currentTaskId), Items(b, isRunning, currentTaskId);
    if x == y {
      forall i | 0 <= i < |a|
        ensures Lines(a)[i] == Lines(b)[i]
      {
        assert x[i] == y[i];
      }
    }
  }

  ghost predicate MenuCurrent(s: State) {
    Consistent(s) && s.trayAlive && s.shown == IdealMenu(s) && CacheInSync(s)
  }

  lemma MenuCurrentStep(s: State, e: Event)
    requires MenuCurrent(s)
    ensures MenuCurrent(Step(s, e))
  {
    var s' := Step(s, e);
    ConsistentStep(s, e);
    if e.OnToday? && s'.shown == s.shown && s.lastToday == Some(Digests(e.tasks)) {
      SameLinesSameMenu(s.lastToday.value, Digests(s.todayTasks), s.isRunning, s.currentTaskId);
    }
  }

  lemma {:induction false} InSyncStaysCurrent(s: State, events: seq<Event>)
    requires MenuCurrent(s)
    ensures Run(s, events).shown == IdealMenu(Run(s, events))
    decreases |events|
  {
    if events != [] {
      MenuCurrentStep(s, events[0]);
      InSyncStaysCurrent(Step(s, events[0]), events[1..]);
    }
  }

  /**
   Against flicker: without an estimate or a focus session, an update that only moves the
   time spent hands a new menu to the tray exactly if the whole minutes change.
   */
  lemma TickRedrawsIffMinuteTurns(s: State, before: Task, after: Task, session: Session)
    requires MenuCurrent(s) && s.lastCurrentTask == Some(before) && s.session == session
    requires s.lastMsg.Some? && s.lastToday == Some(Digests(s.todayTasks))
    requires !session.isFocusModeEnabled && !session.isPomodoroEnabled && before.timeEstimate == 0
    requires before.timeSpent > 0 && after.timeSpent > 0
    requires after == before.(timeSpent := after.timeSpent) && before.title != ""
    ensures Redraws(s, OnTask(Some(after), session)) <==> before.timeSpent / 60000 != after.timeSpent / 60000
  {
    FormatTimeShowsWholeMinutes(before.timeSpent, after.timeSpent);
  }

  /** The event hands a menu to the tray and refills the cache. */
  predicate Redraws(s: State, e: Event) {
    Step(s, e).lastMsg != s.lastMsg || Step(s, e).shown != s.shown
  }

  ghost predicate AlwaysIdeal(s: State) {
    forall events :: Run(s, events).shown == IdealMenu(Run(s, events))
  }

  lemma RunOne(s: State, e: Event)
    ensures Run(s, [e]) == Step(s, e)
  {
    assert [e][1..] == [];
    assert Run(Step(s, e), []) == Step(s, e);
  }

  lemma RunTwo(s: State, e: Event, f: Event)
    ensures Run(s, [e, f]) == Step(Step(s, e), f)
  {
    assert [e, f][1..] == [f];
    RunOne(Step(s, e), f);
  }

  /** A cached message that is not the current one comes back with the next today list. */
  lemma StaleMessageShows(s: State)
    requires !s.trayAlive && Consistent(s) && Text(s.lastMsg) != CurrentMessage(s)
    ensures !AlwaysIdeal(EnsureIndicator(s))
  {
    var c := EnsureIndicator(s);
    var tasks := if s.lastToday == Some([]) then [Task("", "", 0, 0)] else [];
    assert |Digests(tasks)| == |tasks|;
    RunOne(c, OnToday(tasks));
    assert Run(c, [OnToday(tasks)]).shown.message == Text(s.lastMsg);
  }

  /** A today list that the cache remembers from before the tray was recreated is not drawn. */
  lemma StaleTodayShows(s: State)
    requires !s.trayAlive && Consistent(s) && Text(s.lastMsg) == CurrentMessage(s)
    requires s.lastToday.Some? && Lines(s.lastToday.value) != Lines(Digests(s.todayTasks))
    ensures !AlwaysIdeal(EnsureIndicator(s))
  {
    var c := EnsureIndicator(s);
    var d := s.lastToday.value;
    var tasks := seq(|d|, i requires 0 <= i < |d| => Task(d[i].id, d[i].title, 0, 0));
    assert Digests(tasks) == d;
    RunOne(c, OnToday(tasks));
    var after := Run(c, [OnToday(tasks)]);
    SameMenuSameLines(d, Digests(s.todayTasks), s.isRunning, s.currentTaskId);
    assert after.shown.items == Items(Digests(s.todayTasks), s.isRunning, s.currentTaskId);
    assert IdealMenu(after).items == Items(d, s.isRunning, s.currentTaskId);
  }

  /** A task update that gives exactly the values the cache remembers. */
  function RememberedTask(s: State): Option<Task>
    requires s.lastCurrentTaskId.Some?
  {
    match s.lastCurrentTaskId.value
    case None => None
    case Some(id) =>
      if s.lastCurrentTask.Some? then Some(s.lastCurrentTask.value.(id := id)) else Some(Task(id, "", 0, 0))
  }

  lemma RememberedTaskFits(s: State)
    requires Consistent(s) && Text(s.lastMsg) == CurrentMessage(s) && s.lastCurrentTaskId.Some?
    ensures var task := RememberedTask(s);
            && s.lastMsg == Some(if task.Some? then MenuMessage(task.value, s.session) else "")
            && s.lastIsRunning == Some(task.Some?)
            && s.lastCurrentTaskId == Some(if task.Some? then Some(task.value.id) else None)
  {
  }

  /** A list of one task that the cache does not hold. */
  function FreshList(s: State, id: string): (tasks: seq<Task>)
    ensures |tasks| == 1 && tasks[0].id == id && s.lastToday != Some(Digests(tasks))
  {
    var a, b := [Task(id, "a", 0, 0)], [Task(id, "b", 0, 0)];
    assert Digests(a)[0] != Digests(b)[0];
    if s.lastToday == Some(Digests(a)) then b else a
  }

  /** Switching back to what the cache remembers leaves the check mark where it was. */
  lemma StaleTaskShows(s: State)
    requires !s.trayAlive && Consistent(s) && Text(s.lastMsg) == CurrentMessage(s)
    requires s.lastCurrentTaskId.Some? && s.lastCurrentTaskId.value != s.currentTaskId
    ensures !AlwaysIdeal(EnsureIndicator(s))
  {
    var c := EnsureIndicator(s);
    var task := RememberedTask(s);
    RememberedTaskFits(s);
    var id := if s.currentTaskId.Some? then s.currentTaskId.value else s.lastCurrentTaskId.value.value;
    var tasks := FreshList(s, id);
    var c1 := Step(c, OnToday(tasks));
    TodayDrawn(c, tasks);
    RememberedTaskNotRedrawn(c1, task);
    RunTwo(c, OnToday(tasks), OnTask(task, s.session));
    assert c1.shown.items[0].checked == s.currentTaskId.Some?;
  }

  /** A today list that the cache does not hold is drawn, and everything else stays. */
  lemma TodayDrawn(s: State, tasks: seq<Task>)
    requires s.trayAlive && s.lastToday != Some(Digests(tasks))
    ensures var s' := Step(s, OnToday(tasks));
            && s'.shown == Menu(Text(s.lastMsg), Items(Digests(tasks), s.isRunning, s.currentTaskId))
            && s' == s.(todayTasks := tasks, shown := s'.shown, lastToday := Some(Digests(tasks)))
  {
  }

  /** A task that gives exactly the cached values changes the state but not the menu. */
  lemma RememberedTaskNotRedrawn(s: State, task: Option<Task>)
    requires s.trayAlive && s.lastToday == Some(Digests(s.todayTasks)) && |s.todayTasks| > 0
    requires s.lastMsg == Some(if task.Some? then MenuMessage(task.value, s.session) else "")
    requires s.lastIsRunning == Some(task.Some?)
    requires s.lastCurrentTaskId == Some(if task.Some? then Some(task.value.id) else None)
    ensures var s' := Step(s, OnTask(task, s.session));
            && s'.shown == s.shown
            && IdealMenu(s').items[0].checked == (task.Some? && task.value.id == s.todayTasks[0].id)
  {
    assert Digests(s.todayTasks)[0].id == s.todayTasks[0].id;
  }

  /**
   A tray created in state `s` shows, after every sequence of events, what a redraw on each
   event would show -- if and only if the cache left over from before describes `s`.
   */
  lemma CacheRefinesRedrawIff(s: State)
    requires !s.trayAlive && Consistent(s)
    ensures AlwaysIdeal(EnsureIndicator(s)) <==> CacheInSync(s)
  {
    if CacheInSync(s) {
      forall events
        ensures Run(EnsureIndicator(s), events).shown == IdealMenu(Run(EnsureIndicator(s), events))
      {
        InSyncStaysCurrent(EnsureIndicator(s), events);
      }
    } else if Text(s.lastMsg) != CurrentMessage(s) {
      StaleMessageShows(s);
    } else if s.lastCurrentTaskId.Some? && s.lastCurrentTaskId.value != s.currentTaskId {
      StaleTaskShows(s);
    } else {
      StaleTodayShows(s);
    }
  }

  /** The first tray of a process starts with an unset cache and no task: it is always current. */
  lemma FirstTrayIsAlwaysCurrent(s: State)
    requires !s.trayAlive && !s.isRunning && s.currentTaskId.None? && s.lastCurrentTask.None? && s.lastMsg.None?
    requires s.lastIsRunning.None? && s.lastCurrentTaskId.None? && s.lastToday.None?
    ensures AlwaysIdeal(EnsureIndicator(s))
  {
    CacheRefinesRedrawIff(s);
  }

  // ------------------------------------------------------------- what the events say

  function TodayAfter(today: seq<Task>, events: seq<Event>): seq<Task>
    decreases |events|
  {
    if events == [] then today
    else TodayAfter(if events[0].OnToday? then events[0].tasks else today, events[1..])
  }

  function TaskAfter(task: Option<Task>, events: seq<Event>): Option<Task>
    decreases |events|
  {
    if events == [] then task else TaskAfter(if events[0].OnTask? then events[0].task else task, events[1..])
  }

  function SessionAfter(session: Session, events: seq<Event>): Session
    decreases |events|
  {
    if events == [] then session else SessionAfter(if events[0].OnTask? then events[0].session else session, events[1..])
  }

  lemma StepRemembers(s: State, e: Event)
    ensures var s' := Step(s, e);
            && s'.todayTasks == (if e.OnToday? then e.tasks else s.todayTasks)
            && s'.lastCurrentTask == (if e.OnTask? then e.task else s.lastCurrentTask)
            && s'.session == (if e.OnTask? then e.session else s.session)
  {
  }

  /** What is remembered of the events: the last task, session and today list that arrived. */
  ghost predicate Remembers(s: State, events: seq<Event>, s': State) {
    && s'.todayTasks == TodayAfter(s.todayTasks, events)
    && s'.lastCurrentTask == TaskAfter(s.lastCurrentTask, events)
    && s'.session == SessionAfter(s.session, events)
  }

  lemma RememberOneMore(s: State, events: seq<Event>, s': State)
    requires events != [] && Remembers(Step(s, events[0]), events[1..], s')
    ensures Remembers(s, events, s')
  {
    StepRemembers(s, events[0]);
  }

  lemma {:induction false} StateFollowsEvents(s: State, events: seq<Event>)
    requires Consistent(s)
    ensures Remembers(s, events, Run(s, events)) && Consistent(Run(s, events))
    decreases |events|
  {
    if events != [] {
      ConsistentStep(s, events[0]);
      StateFollowsEvents(Step(s, events[0]), events[1..]);
      RememberOneMore(s, events, Run(s, events));
    }
  }

  /** The menu for a task, its session and a today list: the message, and per entry its label, id and check mark. */
  function MenuFor(task: Option<Task>, session: Session, today: seq<Task>): Menu {
    Menu(if task.Some? then MenuMessage(task.value, session) else "",
         seq(|today|, i requires 0 <= i < |today| =>
           Item(Label(today[i].title), today[i].id, task.Some? && task.value.id == today[i].id)))
  }

  /**
   Straight from the events: while a tray lives whose cache was in sync, the menu is the one
   for the last task, session and today list that arrived, whatever was left undrawn.
   */
  lemma MenuShowsTheLatest(s: State, events: seq<Event>)
    requires !s.trayAlive && Consistent(s) && CacheInSync(s)
    ensures Run(EnsureIndicator(s), events).shown ==
            MenuFor(TaskAfter(s.lastCurrentTask, events), SessionAfter(s.session, events), TodayAfter(s.todayTasks, events))
  {
    var c := EnsureIndicator(s);
    ConsistentStep(s, OnEnsure);
    StateFollowsEvents(c, events);
    CacheRefinesRedrawIff(s);
    var s' := Run(c, events);
    assert s'.shown == IdealMenu(s');
    assert IdealMenu(s').items == MenuFor(s'.lastCurrentTask, s'.session, s'.todayTasks).items;
  }

  /** Refreshing redraws a living tray, current unless an old message is left over; ensuring does not, and revives a dead one. */
  lemma RefreshAndEnsure(s: State)
    ensures s.trayAlive ==>
              Step(s, OnEnsure) == s &&
              (Step(s, OnRefresh).shown == IdealMenu(s) <==> s.lastCurrentTask.Some? || Text(s.lastMsg) == "") &&
              Step(s, OnRefresh).shown.items == IdealMenu(s).items
    ensures !s.trayAlive ==>
              Step(s, OnRefresh) == s && Step(s, OnEnsure).trayAlive && Step(s, OnEnsure).shown.items == IdealMenu(s).items
    ensures !BeforeQuit(s).trayAlive && BeforeQuit(s) == s.(trayAlive := false)
  {
    assert SyncTray(s).shown == ContextMenu(s, if s.lastCurrentTask.Some? then CurrentMessage(s) else Text(s.lastMsg));
  }

  /** Without a tray nothing is drawn and the cache keeps what it had. */
  lemma NothingDrawnWithoutTray(s: State, e: Event)
    requires !s.trayAlive && !e.OnEnsure?
    ensures var s' := Step(s, e);
            && s'.shown == s.shown && !s'.trayAlive
            && s'.lastMsg == s.lastMsg && s'.lastIsRunning == s.lastIsRunning
            && s'.lastCurrentTaskId == s.lastCurrentTaskId && s'.lastToday == s.lastToday
  {
  }

  // ------------------------------------------------------------------- the module in place

  /** A task update or progress tick on a living tray leaves the cache in sync, however stale it was. */
  lemma RedrawSyncsCache(s: State, e: Event)
    requires s.trayAlive && (e.OnTask? || (e.OnProgress? && s.lastCurrentTask.Some?))
    ensures CacheInSync(Step(s, e))
  {
  }

  /** The unconditional redraw shows the current message unless an old one is left over with no task. */
  lemma SyncDrawsCurrentIff(s: State)
    ensures SyncTray(s).shown == IdealMenu(SyncTray(s)) <==> s.lastCurrentTask.Some? || Text(s.lastMsg) == ""
  {
  }

  /** A new tray starts out current exactly if the cache it inherits is in sync. */
  lemma NewTrayIsCurrentIff(s: State)
    requires !s.trayAlive && Consistent(s)
    ensures MenuCurrent(EnsureIndicator(s)) <==> CacheInSync(s)
  {
    SyncDrawsCurrentIff(s.(trayAlive := true));
  }

  /** The module variables of the source and the tray; each handler runs without interruption. */
  class Indicator {
    var trayAlive: bool
    var shown: Menu
    var todayTasks: seq<Task>
    var isRunning: bool
    var currentTaskId: Option<string>
    var lastCurrentTask: Option<Task>
    var session: Session
    var lastMsg: Option<string>
    var lastIsRunning: Option<bool>
    var lastCurrentTaskId: Option<Option<string>>
    var lastToday: Option<seq<Digest>>

    ghost function View(): State
      reads this
    {
      State(trayAlive, shown, todayTasks, isRunning, currentTaskId, lastCurrentTask, session,
            lastMsg, lastIsRunning, lastCurrentTaskId, lastToday)
    }

    /** The loop over today's tasks: one entry each, in order, checked for the running one. */
    method CreateContextMenu(msg: string) returns (menu: Menu)
      ensures menu == ContextMenu(View(), msg)
    {
      var items: seq<Item> := [];
      for i := 0 to |todayTasks|
        invariant |items| == i
        invariant forall k | 0 <= k < i ::
                    items[k] == Item(Label(todayTasks[k].title), todayTasks[k].id,
                                     currentTaskId == Some(todayTasks[k].id) && isRunning)
      {
        var t := todayTasks[i];
        items := items + [Item(Label(t.title), t.id, currentTaskId == Some(t.id) && isRunning)];
      }
      menu := Menu(msg, items);
    }

    /** The comparison and redraw that two handlers share: the cache then holds the values of now, redrawn or not. */
    method RedrawIfChanged(msg: string)
      modifies this`shown, this`lastMsg, this`lastIsRunning, this`lastCurrentTaskId, this`lastToday
      ensures lastMsg == Some(msg) && lastIsRunning == Some(isRunning) && lastCurrentTaskId == Some(currentTaskId)
      ensures lastToday == Some(Digests(todayTasks))
      ensures View() == Redrawn(old(View()), msg)
    {
      var today := Digests(todayTasks);
      if || lastMsg != Some(msg) || lastIsRunning != Some(isRunning)
         || lastCurrentTaskId != Some(currentTaskId) || lastToday != Some(today) {
        shown := CreateContextMenu(msg);
        lastMsg := Some(msg);
        lastIsRunning := Some(isRunning);
        lastCurrentTaskId := Some(currentTaskId);
        lastToday := Some(today);
      }
    }

    method OnCurrentTaskUpdated(task: Option<Task>, newSession: Session)
      modifies this
      ensures old(MenuCurrent(View())) ==> MenuCurrent(View())
      ensures trayAlive ==> CacheInSync(View())
      ensures View() == Step(old(View()), OnTask(task, newSession))
    {
      ghost var was := View();
      if MenuCurrent(was) {
        MenuCurrentStep(was, OnTask(task, newSession));
      }
      isRunning := task.Some?;
      currentTaskId := if task.Some? then Some(task.value.id) else None;
      lastCurrentTask := task;
      session := newSession;
      var msg := if task.Some? then MenuMessage(task.value, newSession) else "";
      if trayAlive {
        RedrawSyncsCache(was, OnTask(task, newSession));
        RedrawIfChanged(msg);
      }
      assert View() == Step(was, OnTask(task, newSession));
    }

    method OnSetProgressBar()
      modifies this
      ensures old(MenuCurrent(View())) ==> MenuCurrent(View())
      ensures trayAlive && lastCurrentTask.Some? ==> CacheInSync(View())
      ensures View() == Step(old(View()), OnProgress)
    {
      ghost var was := View();
      if MenuCurrent(was) {
        MenuCurrentStep(was, OnProgress);
      }
      if lastCurrentTask.Some? && trayAlive {
        RedrawSyncsCache(was, OnProgress);
        RedrawIfChanged(MenuMessage(lastCurrentTask.value, session));
      }
      assert View() == Step(was, OnProgress);
    }

    method OnTodayTasksUpdated(tasks: seq<Task>)
      modifies this
      ensures old(MenuCurrent(View())) ==> MenuCurrent(View())
      ensures trayAlive ==> lastToday == Some(Digests(todayTasks))
      ensures View() == Step(old(View()), OnToday(tasks))
    {
      ghost var was := View();
      if MenuCurrent(was) {
        MenuCurrentStep(was, OnToday(tasks));
      }
      todayTasks := tasks;
      if trayAlive {
        var today := Digests(tasks);
        if Some(today) != lastToday {
          shown := CreateContextMenu(Text(lastMsg));
          lastToday := Some(today);
        }
      }
      assert View() == Step(was, OnToday(tasks));
    }

    method Sync()
      modifies this`shown
      ensures shown == IdealMenu(View()) <==> lastCurrentTask.Some? || Text(lastMsg) == ""
      ensures View() == SyncTray(old(View()))
    {
      SyncDrawsCurrentIff(View());
      var msg := if lastCurrentTask.Some? then MenuMessage(lastCurrentTask.value, session) else Text(lastMsg);
      shown := CreateContextMenu(msg);
    }

    method Ensure()
      modifies this`trayAlive, this`shown
      ensures trayAlive
      ensures old(!trayAlive && Consistent(View())) ==> (MenuCurrent(View()) <==> old(CacheInSync(View())))
      ensures View() == EnsureIndicator(old(View()))
    {
      ghost var was := View();
      if !trayAlive && Consistent(was) {
        NewTrayIsCurrentIff(was);
      }
      if !trayAlive {
        trayAlive := true;
        Sync();
      }
      assert View() == EnsureIndicator(was);
    }
  }
}
