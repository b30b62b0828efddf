/**
 * The Pomodoro timer: seconds left in the current phase, whether the
 * countdown runs, whether the phase is a break, and the number of work
 * sessions completed since the timer was mounted.
 *
 * The functions on TimerView state what each handler does; class Timer holds
 * the four fields and its methods are proved to do exactly that. The
 * one-second interval is an explicit Tick, and the effect that reacts to the
 * countdown reaching zero is an explicit Settle.
 */
module PomodoroTimer {
  import opened Types
  import opened JsNumber
  import S = Store
  import StoreHook

  datatype TimerView = TimerView(timeLeft: int, isRunning: bool, isBreak: bool, pomodoroCount: nat)

  /** The state on mounting: a full work phase, stopped, no sessions yet. */
  function Mounted(ts: TimerSettings): (v: TimerView)
    ensures v.timeLeft == ts.workDuration * 60
    ensures !v.isRunning && !v.isBreak && v.pomodoroCount == 0
  {
    TimerView(ts.workDuration * 60, false, false, 0)
  }

  /** `if (activeTaskId)`: null and the empty string are both falsy. */
  predicate Truthy(id: Option<string>) {
    id.Some? && id.value != ""
  }

  /**
   * The long-break test, `count > 0 && (count + 1) % interval === 0`. With an
   * interval of 0 the remainder is NaN, which equals nothing.
   */
  predicate IsLongBreak(count: nat, interval: int) {
    count > 0 && interval != 0 && (count + 1) % interval == 0
  }

  function BreakDuration(count: nat, ts: TimerSettings): int {
    if IsLongBreak(count, ts.longBreakInterval) then ts.longBreakDuration else ts.shortBreakDuration
  }

  /** `resetTimer(duration)`: the phase starts over, stopped. */
  function Reset(v: TimerView, duration: int): (w: TimerView)
    ensures w.timeLeft == duration * 60 && !w.isRunning
    ensures w.isBreak == v.isBreak && w.pomodoroCount == v.pomodoroCount
  {
    v.(timeLeft := duration * 60, isRunning := false)
  }

  /**
   * `handleComplete`: a finished work phase counts a session and starts the
   * break it earned; a finished break starts a work phase. Either way the
   * timer stops.
   */
  function Completed(v: TimerView, ts: TimerSettings): (w: TimerView)
    ensures !w.isRunning && w.isBreak == !v.isBreak
    ensures !v.isBreak ==> w.pomodoroCount == v.pomodoroCount + 1
    ensures !v.isBreak ==> w.timeLeft == BreakDuration(v.pomodoroCount, ts) * 60
    ensures v.isBreak ==> w.pomodoroCount == v.pomodoroCount && w.timeLeft == ts.workDuration * 60
  {
    if !v.isBreak then Reset(v.(pomodoroCount := v.pomodoroCount + 1, isBreak := true), BreakDuration(v.pomodoroCount, ts))
    else Reset(v.(isBreak := false), ts.workDuration)
  }

  /** What completing a phase does to the store: `incrementPomodoro` on the active task, after work only. */
  function StoreAfterCompletion(v: TimerView, s: S.State): (r: S.State)
    ensures !v.isBreak && Truthy(s.activeTaskId) ==> r == S.IncrementPomodoro(s, s.activeTaskId.value)
    ensures v.isBreak || !Truthy(s.activeTaskId) ==> r == s
  {
    if !v.isBreak && Truthy(s.activeTaskId) then S.IncrementPomodoro(s, s.activeTaskId.value) else s
  }

  /** One second of the interval: it only exists while running with time left. */
  function Ticked(v: TimerView): (w: TimerView)
    ensures v.isRunning && v.timeLeft > 0 ==> w == v.(timeLeft := v.timeLeft - 1)
    ensures !(v.isRunning && v.timeLeft > 0) ==> w == v
    ensures v.timeLeft >= 0 ==> w.timeLeft >= 0
  {
    if v.isRunning && v.timeLeft > 0 then v.(timeLeft := v.timeLeft - 1) else v
  }

  /** The Start/Pause button. */
  function Toggled(v: TimerView): (w: TimerView)
    ensures w.isRunning != v.isRunning
    ensures w.timeLeft == v.timeLeft && w.isBreak == v.isBreak && w.pomodoroCount == v.pomodoroCount
  {
    v.(isRunning := !v.isRunning)
  }

  /**
   * The Skip button: during a break it starts work itself, during work it
   * completes the phase. Both amount to completing the phase.
   */
  function Skipped(v: TimerView, ts: TimerSettings): (w: TimerView)
    ensures w == Completed(v, ts)
  {
    if v.isBreak then Reset(v.(isBreak := false), ts.workDuration) else Completed(v, ts)
  }

  class Timer {
    const store: StoreHook.StoreObject
    var timeLeft: int
    var isRunning: bool
    var isBreak: bool
    var pomodoroCount: nat

    function View(): TimerView
      reads this
    {
      TimerView(timeLeft, isRunning, isBreak, pomodoroCount)
    }

    constructor (store: StoreHook.StoreObject)
      ensures this.store == store
      ensures View() == Mounted(store.state.timerSettings)
    {
      this.store := store;
      timeLeft := store.state.timerSettings.workDuration * 60;
      isRunning := false;
      isBreak := false;
      pomodoroCount := 0;
    }

    method ResetTimer(duration: int)
      modifies this
      ensures View() == Reset(old(View()), duration)
    {
      timeLeft := duration * 60;
      isRunning := false;
    }

    method HandleComplete()
      modifies this, store
      ensures View() == Completed(old(View()), old(store.state).timerSettings)
      ensures store.state == StoreAfterCompletion(old(View()), old(store.state))
    {
      if !isBreak {
        var count := pomodoroCount;
        pomodoroCount := pomodoroCount + 1;
        var active := store.state.activeTaskId;
        if active.Some? && active.value != "" {
          store.IncrementPomodoro(active.value);
        }
        var ts := store.state.timerSettings;
        var duration := if IsLongBreak(count, ts.longBreakInterval) then ts.longBreakDuration else ts.shortBreakDuration;
        isBreak := true;
        ResetTimer(duration);
      } else {
        isBreak := false;
        ResetTimer(store.state.timerSettings.workDuration);
      }
    }

    /** The interval callback, one second elapsed. */
    method Tick()
      modifies this
      ensures View() == Ticked(old(View()))
    {
      if isRunning && timeLeft > 0 {
        timeLeft := timeLeft - 1;
      }
    }

    /**
     * The effect's other branch: when no second is being counted down and
     * nothing is left, the phase completes. A running countdown at zero
     * counts nothing, so zero is the whole test.
     */
    method Settle()
      modifies this, store
      ensures old(timeLeft) == 0 ==> View() == Completed(old(View()), old(store.state).timerSettings)
      ensures old(timeLeft) == 0 ==> store.state == StoreAfterCompletion(old(View()), old(store.state))
      ensures old(timeLeft) != 0 ==> View() == old(View()) && store.state == old(store.state)
    {
      if timeLeft == 0 {
        HandleComplete();
      }
    }

    method StartPause()
      modifies this
      ensures View() == Toggled(old(View()))
    {
      isRunning := !isRunning;
    }

    method Skip()
      modifies this, store
      ensures View() == Skipped(old(View()), old(store.state).timerSettings)
      ensures store.state == StoreAfterCompletion(old(View()), old(store.state))
    {
      if isBreak {
        isBreak := false;
        ResetTimer(store.state.timerSettings.workDuration);
      } else {
        HandleComplete();
      }
    }
  }

  // ---------------------------------------------------------------------------
  // The timer and the store together, over a sequence of user and clock events

  datatype Event = Second | StartPausePressed | SkipPressed

  /**
   * One event: a second is a tick followed by the effect's check for zero.
   * An event counts at most one session, and the store changes exactly when
   * a session is counted while a task is active.
   */
  function Step(v: TimerView, s: S.State, e: Event): (r: (TimerView, S.State))
    ensures r.0.pomodoroCount == v.pomodoroCount || r.0.pomodoroCount == v.pomodoroCount + 1
    ensures r.1 == if r.0.pomodoroCount == v.pomodoroCount + 1 && Truthy(s.activeTaskId)
                   then S.IncrementPomodoro(s, s.activeTaskId.value) else s
    ensures e == StartPausePressed ==> r == (Toggled(v), s)
  {
    match e
    case Second =>
      var t := Ticked(v);
      if t.timeLeft == 0 then (Completed(t, s.timerSettings), StoreAfterCompletion(t, s)) else (t, s)
    case StartPausePressed => (Toggled(v), s)
    case SkipPressed => (Skipped(v, s.timerSettings), StoreAfterCompletion(v, s))
  }

  function Run(v: TimerView, s: S.State, events: seq<Event>): (TimerView, S.State)
    decreases |events|
  {
    if events == [] then (v, s)
    else
      var (v1, s1) := Step(v, s, events[0]);
      Run(v1, s1, events[1..])
  }

  function Seconds(n: nat): seq<Event> {
    seq(n, _ => Second)
  }

  /**
   * With an active task, every work session the timer counts is one more
   * session in the statistics, one more on the active task and one work
   * duration more of focus time; nothing else in the store changes.
   */
  lemma {:induction false} SessionsReachStore(v: TimerView, s: S.State, events: seq<Event>)
    requires Truthy(s.activeTaskId)
    ensures var (w, r) := Run(v, s, events);
      var n := w.pomodoroCount - v.pomodoroCount;
      && n >= 0
      && r.statistics.pomodorosCompleted == s.statistics.pomodorosCompleted + n
      && r.statistics.totalWorkMinutes == s.statistics.totalWorkMinutes + n * s.timerSettings.workDuration
      && r.statistics.tasksCompleted == s.statistics.tasksCompleted
      && r.activeTaskId == s.activeTaskId && r.timerSettings == s.timerSettings && r.theme == s.theme
      && |r.tasks| == |s.tasks|
      && forall i :: 0 <= i < |s.tasks| ==>
           r.tasks[i] == if s.tasks[i].id == s.activeTaskId.value
                         then s.tasks[i].(pomodorosCompleted := s.tasks[i].pomodorosCompleted + n)
                         else s.tasks[i]
    decreases |events|
  {
    if events != [] {
      var (v1, s1) := Step(v, s, events[0]);
      SessionsReachStore(v1, s1, events[1..]);
      var (w, r) := Run(v1, s1, events[1..]);
      var n1 := w.pomodoroCount - v1.pomodoroCount;
      var d := v1.pomodoroCount - v.pomodoroCount;
      assert d == 0 || d == 1;
      assert d == 0 ==> s1 == s;
      assert d == 1 ==> s1 == S.IncrementPomodoro(s, s.activeTaskId.value);
      assert (n1 + d) * s.timerSettings.workDuration == n1 * s.timerSettings.workDuration + d * s.timerSettings.workDuration;
    }
  }

  /** Without an active task the timer never touches the store. */
  lemma {:induction false} NoActiveTaskNoStoreChange(v: TimerView, s: S.State, events: seq<Event>)
    requires !Truthy(s.activeTaskId)
    ensures Run(v, s, events).1 == s
    decreases |events|
  {
    if events != [] {
      var (v1, s1) := Step(v, s, events[0]);
      NoActiveTaskNoStoreChange(v1, s1, events[1..]);
    }
  }

  /** With no negative duration configured, the countdown never goes below zero. */
  lemma {:induction false} TimeLeftNeverNegative(v: TimerView, s: S.State, events: seq<Event>)
    requires v.timeLeft >= 0
    requires s.timerSettings.workDuration >= 0
    requires s.timerSettings.shortBreakDuration >= 0 && s.timerSettings.longBreakDuration >= 0
    ensures Run(v, s, events).0.timeLeft >= 0
    decreases |events|
  {
    if events != [] {
      var (v1, s1) := Step(v, s, events[0]);
      assert s1.timerSettings == s.timerSettings;
      TimeLeftNeverNegative(v1, s1, events[1..]);
    }
  }

  /** While running with time left, k seconds take exactly k seconds off and touch nothing else. */
  lemma {:induction false} CountsDown(v: TimerView, s: S.State, k: nat)
    requires v.isRunning && v.timeLeft > k
    ensures Run(v, s, Seconds(k)) == (v.(timeLeft := v.timeLeft - k), s)
    decreases k
  {
    if k > 0 {
      var v1 := v.(timeLeft := v.timeLeft - 1);
      assert Step(v, s, Second) == (v1, s);
      assert Seconds(k)[1..] == Seconds(k - 1);
      CountsDown(v1, s, k - 1);
    }
  }

  /**
   * A running work phase with d seconds left ends after exactly d seconds,
   * in the break it earned, with one more session counted and one
   * `incrementPomodoro` when a task is active.
   */
  lemma {:induction false} WorkPhaseEndsOnTime(v: TimerView, s: S.State, d: nat)
    requires v.isRunning && !v.isBreak && v.timeLeft == d && d >= 1
    ensures var (w, r) := Run(v, s, Seconds(d));
      && w.isBreak && !w.isRunning
      && w.pomodoroCount == v.pomodoroCount + 1
      && w.timeLeft == BreakDuration(v.pomodoroCount, s.timerSettings) * 60
      && r == StoreAfterCompletion(v, s)
    decreases d
  {
    if d == 1 {
      assert Seconds(1)[1..] == [];
    } else {
      var v1 := v.(timeLeft := d - 1);
      assert Step(v, s, Second) == (v1, s);
      assert Seconds(d)[1..] == Seconds(d - 1);
      WorkPhaseEndsOnTime(v1, s, d - 1);
    }
  }

  /**
   * After `resetTimer` with the work duration, Start and that many minutes of
   * seconds end the work phase: the timer stops in the break it earned, with
   * one more session, and the store gets that session's report.
   */
  lemma ResetWorkPhaseRunsToCompletion(v: TimerView, s: S.State)
    requires !v.isBreak && s.timerSettings.workDuration >= 1
    ensures var d := s.timerSettings.workDuration * 60;
      var (w, r) := Run(Reset(v, s.timerSettings.workDuration), s, [StartPausePressed] + Seconds(d));
      && w.isBreak && !w.isRunning
      && w.pomodoroCount == v.pomodoroCount + 1
      && w.timeLeft == BreakDuration(v.pomodoroCount, s.timerSettings) * 60
      && r == StoreAfterCompletion(v, s)
  {
    var d := s.timerSettings.workDuration * 60;
    var v0 := Reset(v, s.timerSettings.workDuration);
    var v1 := Toggled(v0);
    assert ([StartPausePressed] + Seconds(d))[1..] == Seconds(d);
    assert Run(v0, s, [StartPausePressed] + Seconds(d)) == Run(v1, s, Seconds(d));
    WorkPhaseEndsOnTime(v1, s, d);
  }

  /**
   * The break schedule. With an interval of two or more, the break after a
   * session is long exactly when the sessions so far are a multiple of the
   * interval; with an interval of one, every break is long except the first.
   */
  lemma LongBreakSchedule(count: nat, interval: int)
    ensures interval >= 2 ==> (IsLongBreak(count, interval) <==> (count + 1) % interval == 0)
    ensures interval == 1 ==> (IsLongBreak(count, interval) <==> count > 0)
    ensures interval == 0 ==> !IsLongBreak(count, interval)
  {
  }

  /** With the default settings, sessions 4, 8, ... earn 15 minutes and the others 5. */
  lemma DefaultSchedule(k: nat)
    requires k >= 1
    ensures BreakDuration(k - 1, S.Initial().timerSettings) == if k % 4 == 0 then 15 else 5
  {
  }

  // ---------------------------------------------------------------------------
  // The mm:ss display

  /** `Math.floor(timeLeft / 60)` and `timeLeft % 60`. */
  function ClockParts(timeLeft: int): (p: (int, int))
    ensures timeLeft >= 0 ==> 0 <= p.1 < 60 && p.0 >= 0 && p.0 * 60 + p.1 == timeLeft
  {
    (FloorDiv(timeLeft, 60), JsRem60(timeLeft))
  }

  /** The rendered countdown, each part padded to two characters. */
  function Clock(timeLeft: int): string {
    var (minutes, seconds) := ClockParts(timeLeft);
    PadStart2(JsString(minutes)) + ":" + PadStart2(JsString(seconds))
  }

  /**
   * `text` is digits, a colon and exactly two digits, and read as minutes
   * and seconds it is `t` seconds.
   */
  predicate ReadsBack(text: string, t: int) {
    && |text| >= 5 && text[|text| - 3] == ':'
    && AllDigits(text[..|text| - 3]) && AllDigits(text[|text| - 2..])
    && DecimalValue(text[..|text| - 3]) * 60 + DecimalValue(text[|text| - 2..]) == t
  }

  /** Minutes and a two-digit seconds part joined by a colon read back as their total. */
  lemma SplitAtColon(mm: string, ss: string)
    requires AllDigits(mm) && |mm| >= 2 && AllDigits(ss) && |ss| == 2
    ensures ReadsBack(mm + ":" + ss, DecimalValue(mm) * 60 + DecimalValue(ss))
  {
    var text := mm + ":" + ss;
    assert |text| == |mm| + 3 && text[|mm|] == ':';
    assert text[..|text| - 3] == mm by {
      assert text[..|mm|] == mm;
    }
    assert text[|text| - 2..] == ss by {
      assert text[|mm| + 1..] == ss;
    }
  }

  /**
   * For a countdown that is not negative, the display is digits, a colon and
   * exactly two digits, and reading it back as minutes and seconds gives the
   * seconds left.
   */
  lemma ClockReadsBack(timeLeft: int)
    requires timeLeft >= 0
    ensures ReadsBack(Clock(timeLeft), timeLeft)
  {
    var p := ClockParts(timeLeft);
    var minutes: nat, seconds: nat := p.0, p.1;
    var mm := PadStart2(DecimalString(minutes));
    var ss := PadStart2(DecimalString(seconds));
    PaddedRoundTrip(minutes);
    PaddedRoundTrip(seconds);
    SplitAtColon(mm, ss);
    assert Clock(timeLeft) == mm + ":" + ss;
  }
}
