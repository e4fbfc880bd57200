/**
 The Pomodoro timer's state and its transitions (the handlers of src/App.js).

 The component keeps six pieces of React state; here they are one immutable
 record, and every handler is a pure function from the current record to the
 next one. Integer fields are `int`, not a range type, so that the handlers'
 guards (`breakLength > 1`, `sessionLength < 60`, `prev > 0`) are modelled on
 every value, including ones the running widget never reaches.
 */
module Pomodoro {
  import opened TimeFormat

  const MinLength := 1
  const MaxLength := 60
  const DefaultBreak := 5
  const DefaultSession := 25

  datatype Timer = Timer(
    breakLength: int,     // minutes
    sessionLength: int,   // minutes
    timerLabel: string,
    timeLeft: int,        // seconds
    isRunning: bool,
    isSession: bool)

  /** What a tick produced: the next state, and whether the alert sounded. */
  datatype TickOutcome = TickOutcome(timer: Timer, beeped: bool)

  /** The label the display shows for a phase. */
  function PhaseLabel(isSession: bool): string {
    if isSession then "Session" else "Break"
  }

  /** The countdown a phase starts from, in seconds. */
  function PhaseSeconds(t: Timer, isSession: bool): int {
    (if isSession then t.sessionLength else t.breakLength) * SecondsPerMinute
  }

  /** The state invariant: lengths in range, countdown within 0..60 minutes, label agrees with the phase. */
  predicate Valid(t: Timer) {
    && MinLength <= t.breakLength <= MaxLength
    && MinLength <= t.sessionLength <= MaxLength
    && 0 <= t.timeLeft <= MaxLength * SecondsPerMinute
    && t.timerLabel == PhaseLabel(t.isSession)
  }

  /** During a session the countdown never exceeds the session length. */
  predicate SessionBounded(t: Timer) {
    t.isSession ==> t.timeLeft <= t.sessionLength * SecondsPerMinute
  }

  function Max(a: int, b: int): int {
    if a >= b then a else b
  }

  function Min(a: int, b: int): int {
    if a <= b then a else b
  }

  /** The state the component mounts with (the `useState` initial values). */
  function Initial(): (t: Timer)
    ensures Valid(t) && SessionBounded(t)
    ensures !t.isRunning && t.isSession
    ensures t.timeLeft == PhaseSeconds(t, true)
  {
    Timer(5, 25, "Session", 25 * 60, false, true)
  }

  /** `handleBreakDecrement`. */
  function BreakDecrement(t: Timer): (r: Timer)
    ensures t.isRunning ==> r == t
    ensures !t.isRunning && MinLength <= t.breakLength ==> r.breakLength == Max(t.breakLength - 1, MinLength)
    ensures t.breakLength < MinLength ==> r == t
    ensures r == t.(breakLength := r.breakLength)
    ensures Valid(t) ==> Valid(r)
    ensures SessionBounded(t) ==> SessionBounded(r)
  {
    if !t.isRunning && t.breakLength > 1 then t.(breakLength := t.breakLength - 1) else t
  }

  /** `handleBreakIncrement`. */
  function BreakIncrement(t: Timer): (r: Timer)
    ensures t.isRunning ==> r == t
    ensures !t.isRunning && t.breakLength <= MaxLength ==> r.breakLength == Min(t.breakLength + 1, MaxLength)
    ensures t.breakLength > MaxLength ==> r == t
    ensures r == t.(breakLength := r.breakLength)
    ensures Valid(t) ==> Valid(r)
    ensures SessionBounded(t) ==> SessionBounded(r)
  {
    if !t.isRunning && t.breakLength < 60 then t.(breakLength := t.breakLength + 1) else t
  }

  /**
   `handleSessionDecrement`: when it acts, the countdown is reloaded with the
   new session length whatever the current phase is.
   */
  function SessionDecrement(t: Timer): (r: Timer)
    ensures t.isRunning || t.sessionLength <= MinLength ==> r == t
    ensures !t.isRunning && t.sessionLength > MinLength ==>
      && r.sessionLength == t.sessionLength - 1
      && r.timeLeft == PhaseSeconds(r, true)
    ensures r == t.(sessionLength := r.sessionLength, timeLeft := r.timeLeft)
    ensures Valid(t) ==> Valid(r)
    ensures SessionBounded(t) ==> SessionBounded(r)
  {
    if !t.isRunning && t.sessionLength > 1 then
      t.(sessionLength := t.sessionLength - 1, timeLeft := (t.sessionLength - 1) * 60)
    else t
  }

  /** `handleSessionIncrement`, likewise regardless of the phase. */
  function SessionIncrement(t: Timer): (r: Timer)
    ensures t.isRunning || t.sessionLength >= MaxLength ==> r == t
    ensures !t.isRunning && t.sessionLength < MaxLength ==>
      && r.sessionLength == t.sessionLength + 1
      && r.timeLeft == PhaseSeconds(r, true)
    ensures r == t.(sessionLength := r.sessionLength, timeLeft := r.timeLeft)
    ensures Valid(t) ==> Valid(r)
    ensures SessionBounded(t) ==> SessionBounded(r)
  {
    if !t.isRunning && t.sessionLength < 60 then
      t.(sessionLength := t.sessionLength + 1, timeLeft := (t.sessionLength + 1) * 60)
    else t
  }

  /** `handleStartStop`: flips the running flag and nothing else. */
  function StartStop(t: Timer): (r: Timer)
    ensures r.isRunning == !t.isRunning
    ensures r.(isRunning := t.isRunning) == t
    ensures Valid(t) ==> Valid(r)
    ensures SessionBounded(t) ==> SessionBounded(r)
  {
    t.(isRunning := !t.isRunning)
  }

  /** `handleReset`: a stopped, full-length session with the default lengths. */
  function Reset(t: Timer): (r: Timer)
    ensures Valid(r) && SessionBounded(r)
    ensures !r.isRunning && r.isSession
    ensures r.breakLength == DefaultBreak && r.sessionLength == DefaultSession
    ensures r.timeLeft == PhaseSeconds(r, true)
  {
    Timer(5, 25, "Session", 25 * 60, false, true)
  }

  /**
   The updater the one-second interval applies to `timeLeft`. At zero the alert
   sounds, the phase flips, and the countdown reloads from the length of the
   phase being entered; otherwise the countdown drops by one, floored at zero.
   */
  function Tick(t: Timer): (o: TickOutcome)
    ensures o.beeped <==> t.timeLeft == 0
    ensures t.timeLeft > 0 ==> o.timer == t.(timeLeft := t.timeLeft - 1)
    ensures t.timeLeft < 0 ==> o.timer == t.(timeLeft := 0)
    ensures t.timeLeft == 0 ==>
      && o.timer.isSession == !t.isSession
      && o.timer.timerLabel == PhaseLabel(o.timer.isSession)
      && o.timer.timeLeft == PhaseSeconds(t, o.timer.isSession)
      && o.timer == t.(isSession := o.timer.isSession, timerLabel := o.timer.timerLabel,
                       timeLeft := o.timer.timeLeft)
    ensures Valid(t) ==> Valid(o.timer)
    ensures Valid(t) && SessionBounded(t) ==> SessionBounded(o.timer)
  {
    var prev := t.timeLeft;
    if prev == 0 then
      if t.isSession then
        TickOutcome(t.(timerLabel := "Break", isSession := false, timeLeft := t.breakLength * 60), true)
      else
        TickOutcome(t.(timerLabel := "Session", isSession := true, timeLeft := t.sessionLength * 60), true)
    else
      TickOutcome(t.(timeLeft := if prev > 0 then prev - 1 else 0), false)
  }

  /** Reset lands on exactly the state the component mounts with, from anywhere. */
  lemma ResetRestoresInitial(t: Timer)
    ensures Reset(t) == Initial()
  {
  }

  lemma ResetIdempotent(t: Timer)
    ensures Reset(Reset(t)) == Reset(t)
  {
  }

  lemma StartStopInvolution(t: Timer)
    ensures StartStop(StartStop(t)) == t
  {
  }

  /** Away from the bounds, the two break steppers undo each other while stopped. */
  lemma BreakSteppersInverse(t: Timer)
    requires !t.isRunning
    ensures MinLength <= t.breakLength < MaxLength ==> BreakDecrement(BreakIncrement(t)) == t
    ensures MinLength < t.breakLength <= MaxLength ==> BreakIncrement(BreakDecrement(t)) == t
  {
  }

  /**
   Away from the bounds, the two session steppers undo each other while
   stopped, except that the countdown is left reloaded to a full session.
   */
  lemma SessionSteppersInverse(t: Timer)
    requires !t.isRunning
    ensures MinLength <= t.sessionLength < MaxLength ==>
      SessionDecrement(SessionIncrement(t)) == t.(timeLeft := PhaseSeconds(t, true))
    ensures MinLength < t.sessionLength <= MaxLength ==>
      SessionIncrement(SessionDecrement(t)) == t.(timeLeft := PhaseSeconds(t, true))
  {
  }

  /** Two ticks at zero in a row are not possible: the tick after an alert is silent. */
  lemma NoDoubleBeep(t: Timer)
    requires Valid(t)
    ensures Tick(t).beeped ==> !Tick(Tick(t).timer).beeped
  {
  }
}
