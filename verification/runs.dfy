/**
 Sequences of user actions and interval pulses applied to the timer.

 The component arms its one-second interval exactly while `isRunning` holds,
 so a pulse of the clock is a `Tick` when running and nothing otherwise. A run
 folds a list of events over a state and counts the alerts it sounded.
 */
module Runs {
  import opened Pomodoro
  import TimeFormat
  import opened Sequences

  datatype Event =
    | BreakDown
    | BreakUp
    | SessionDown
    | SessionUp
    | StartStopPressed
    | ResetPressed
    | Second

  datatype RunOutcome = RunOutcome(timer: Timer, beeps: nat)

  /** One event: a button handler, or one second of the interval. */
  function Step(t: Timer, e: Event): (o: TickOutcome)
    ensures o.beeped <==> e == Second && t.isRunning && t.timeLeft == 0
    ensures e == Second && !t.isRunning ==> o.timer == t
    ensures t.isRunning && e != ResetPressed && e != StartStopPressed ==>
      o.timer.breakLength == t.breakLength && o.timer.sessionLength == t.sessionLength
      && o.timer.isRunning
    ensures Valid(t) ==> Valid(o.timer)
    ensures Valid(t) && SessionBounded(t) ==> SessionBounded(o.timer)
  {
    match e
    case BreakDown => TickOutcome(BreakDecrement(t), false)
    case BreakUp => TickOutcome(BreakIncrement(t), false)
    case SessionDown => TickOutcome(SessionDecrement(t), false)
    case SessionUp => TickOutcome(SessionIncrement(t), false)
    case StartStopPressed => TickOutcome(StartStop(t), false)
    case ResetPressed => TickOutcome(Reset(t), false)
    case Second => if t.isRunning then Tick(t) else TickOutcome(t, false)
  }

  /** Applies the events in order; `beeps` counts the alerts sounded. */
  function Run(t: Timer, events: seq<Event>): (o: RunOutcome)
    ensures o.beeps <= |events|
    ensures Valid(t) ==> Valid(o.timer)
    ensures Valid(t) && SessionBounded(t) ==> SessionBounded(o.timer)
    decreases |events|
  {
    if |events| == 0 then RunOutcome(t, 0)
    else
      var first := Step(t, events[0]);
      var rest := Run(first.timer, events[1..]);
      RunOutcome(rest.timer, rest.beeps + if first.beeped then 1 else 0)
  }

  /** Running two lists back to back is running their concatenation. */
  lemma {:induction false} RunAppend(t: Timer, a: seq<Event>, b: seq<Event>)
    ensures var first := Run(t, a); var second := Run(first.timer, b);
      Run(t, a + b) == RunOutcome(second.timer, first.beeps + second.beeps)
    decreases |a|
  {
    if |a| > 0 {
      assert (a + b)[0] == a[0];
      assert (a + b)[1..] == a[1..] + b;
      RunAppend(Step(t, a[0]).timer, a[1..], b);
    } else {
      assert a + b == b;
    }
  }

  /** While running, `n` seconds with at least `n` left count down silently. */
  lemma {:induction false} CountdownSilent(t: Timer, n: nat)
    requires t.isRunning && n <= t.timeLeft
    ensures Run(t, Repeat(Second, n)) == RunOutcome(t.(timeLeft := t.timeLeft - n), 0)
    decreases n
  {
    if n > 0 {
      var next := t.(timeLeft := t.timeLeft - 1);
      assert Repeat(Second, n)[1..] == Repeat(Second, n - 1);
      CountdownSilent(next, n - 1);
    } else {
      assert t.(timeLeft := t.timeLeft - 0) == t;
    }
  }

  /**
   A running phase with `k` seconds left ends after exactly `k + 1` seconds:
   "00:00" is shown for one second, then a single alert sounds, the phase
   flips, and the countdown reloads from the new phase's length while the
   timer keeps running.
   */
  lemma PhaseEnds(t: Timer)
    requires t.isRunning && t.timeLeft >= 0
    ensures var o := Run(t, Repeat(Second, t.timeLeft + 1));
      && o.beeps == 1
      && o.timer.isRunning
      && o.timer.isSession == !t.isSession
      && o.timer.timerLabel == PhaseLabel(o.timer.isSession)
      && o.timer.timeLeft == PhaseSeconds(t, o.timer.isSession)
      && o.timer.breakLength == t.breakLength && o.timer.sessionLength == t.sessionLength
  {
    var k := t.timeLeft;
    RepeatSnoc(Second, k);
    RunAppend(t, Repeat(Second, k), [Second]);
    CountdownSilent(t, k);
  }

  /** The mounted widget shows "25:00". */
  lemma InitialDisplay()
    ensures TimeFormat.FormatTime(Initial().timeLeft) == "25:00"
  {
    TimeFormat.FormatTimeExample(1500, 2, 5, 0, 0);
  }

  /** Ten minutes on the clock shows "10:00". */
  lemma TenMinutesDisplay()
    ensures TimeFormat.FormatTime(10 * TimeFormat.SecondsPerMinute) == "10:00"
  {
    TimeFormat.FormatTimeExample(600, 1, 0, 0, 0);
  }

  /**
   From the mounted state, start and let 1500 seconds pass: the display reads
   "00:00", still in the session and without an alert; one more second sounds
   the single alert and enters a five-minute break.
   */
  lemma DefaultSessionRunsOut()
    ensures var o := Run(Initial(), [StartStopPressed] + Repeat(Second, 1500));
      o.beeps == 0 && o.timer.isSession && o.timer.timeLeft == 0
      && TimeFormat.FormatTime(o.timer.timeLeft) == "00:00"
    ensures var o := Run(Initial(), [StartStopPressed] + Repeat(Second, 1501));
      && o.beeps == 1 && o.timer.isRunning && !o.timer.isSession
      && o.timer.timerLabel == "Break" && o.timer.timeLeft == 300
  {
    var started := StartStop(Initial());
    assert Run(Initial(), [StartStopPressed]) == RunOutcome(started, 0);
    TimeFormat.FormatTimeExample(0, 0, 0, 0, 0);
    RunAppend(Initial(), [StartStopPressed], Repeat(Second, 1500));
    CountdownSilent(started, 1500);
    RunAppend(Initial(), [StartStopPressed], Repeat(Second, 1501));
    PhaseEnds(started);
  }

  /** While stopped, `n` presses of session-down from `s` minutes leave `s - n` minutes on a full countdown. */
  lemma {:induction false} SessionDownPresses(t: Timer, n: nat)
    requires !t.isRunning && 1 <= n < t.sessionLength
    ensures Run(t, Repeat(SessionDown, n))
      == RunOutcome(t.(sessionLength := t.sessionLength - n,
                       timeLeft := (t.sessionLength - n) * TimeFormat.SecondsPerMinute), 0)
    decreases n
  {
    var next := SessionDecrement(t);
    assert Repeat(SessionDown, n)[1..] == Repeat(SessionDown, n - 1);
    if n > 1 {
      SessionDownPresses(next, n - 1);
    }
  }

  /** Setting the session to 10 minutes while stopped shows 10:00 at once, without starting. */
  lemma SessionEditShowsImmediately()
    ensures var o := Run(Initial(), Repeat(SessionDown, 15));
      && o.timer.sessionLength == 10 && o.timer.timeLeft == 600 && !o.timer.isRunning
      && TimeFormat.FormatTime(o.timer.timeLeft) == "10:00"
  {
    var t := Initial();
    SessionDownPresses(t, 15);
    assert Run(t, Repeat(SessionDown, 15)).timer == t.(sessionLength := 10, timeLeft := 600);
    TenMinutesDisplay();
  }

  /** Every state reachable from mount satisfies the invariants, and its display is `MM:SS`. */
  lemma ReachableStatesValid(events: seq<Event>)
    ensures var t := Run(Initial(), events).timer;
      Valid(t) && SessionBounded(t) && |TimeFormat.FormatTime(t.timeLeft)| == 5
  {
  }

  /**
   The countdown is NOT bounded by the current phase's length during a break:
   stopping right after a break begins and shortening the break leaves more
   time on the clock than the break now lasts, and more than either length.
   The event list: 24 session-down presses (session 1 minute), start, 61
   seconds (the session runs out and a 5-minute break begins), stop, break-down.
   */
  lemma BreakCountdownCanExceedLengths()
    ensures var o := Run(Initial(),
                         Repeat(SessionDown, 24) + [StartStopPressed] + Repeat(Second, 61)
                         + [StartStopPressed, BreakDown]);
      && Valid(o.timer) && !o.timer.isSession && !o.timer.isRunning
      && o.timer.breakLength == 4 && o.timer.sessionLength == 1
      && o.timer.timeLeft == 300
      && o.timer.timeLeft > Max(o.timer.breakLength, o.timer.sessionLength) * TimeFormat.SecondsPerMinute
  {
    var a := Repeat(SessionDown, 24);
    var b := [StartStopPressed];
    var c := Repeat(Second, 61);
    var d := [StartStopPressed, BreakDown];
    var t0 := Initial();
    SessionDownPresses(t0, 24);
    var t1 := t0.(sessionLength := 1, timeLeft := 60);
    RunAppend(t0, a, b);
    var t2 := StartStop(t1);
    assert Run(t1, b) == RunOutcome(t2, 0);
    RunAppend(t0, a + b, c);
    PhaseEnds(t2);
    var t3 := Run(t2, c).timer;
    RunAppend(t0, a + b + c, d);
    assert Run(t3, d).timer == BreakDecrement(StartStop(t3));
  }
}
