# Pomodoro "25 + 5" clock — a Dafny model of its state machine and display

The widget holds a break length and a session length in minutes (1 to 60
each), a countdown in seconds, a running flag, a phase flag (`isSession`) and
the phase label shown to the user. Four stepper buttons change the lengths
while the clock is stopped. A start/stop button flips the running flag. A reset
button restores the mount-time state. While the clock runs, a one-second
interval counts down. When it finds the countdown at zero, it sounds an alert,
switches phase and reloads the countdown from the new phase's length. The
countdown is shown as `mm:ss`.

The model has three modules, plus a shared `Sequences.Repeat` helper (`sequences.dfy`):

- `TimeFormat` (`time_format.dfy`) is the `mm:ss` formatter. It is built from
  models of `toString` and `padStart`, and it is read back by an independent
  parser (`ParseClock`).
- `Pomodoro` (`timer.dfy`) holds the state as one immutable `Timer` record.
  Each handler and the interval's updater is a pure function over it. The
  updater is `Tick`; it returns the next state and a `beeped` flag in place
  of playing audio.
- `Runs` (`runs.dfy`) folds lists of button presses and clock seconds over a
  state. A second is a `Tick` only while running, because the interval exists
  only then. It proves the invariants of every reachable state and the
  end-to-end scenarios.

## Behaviour of the code worth knowing

- The session steppers reload the countdown to the new session length in
  either phase, including during a break (src/App.js:39 and :45). The
  contracts of `Pomodoro.SessionDecrement` and `Pomodoro.SessionIncrement`
  keep the phase and set `timeLeft` to the new session length in both phases.
- The countdown is not bounded by the current lengths. Stop right after a
  break begins, then shorten the break: the countdown is left above the break
  length. It is above both lengths when the session is shorter than the
  shortened break; `Runs.BreakCountdownCanExceedLengths` builds such a
  reachable state. What does hold is proved instead: the countdown stays in
  [0, 3600], and during a session it never exceeds the session length
  (`Pomodoro.SessionBounded`).

## Model

| member | source | states |
|---|---|---|
| TimeFormat.Decimal | src/App.js:18-21 | `toString` of a non-negative integer is a non-empty digit string with no leading zero. The parser reads it back as the same number. It has one digit below 10 and at most two below 100. |
| TimeFormat.PadStart | src/App.js:18-21 | `padStart` with a one-character fill never truncates. Its result is as long as the larger of the input and the width, ends with the input, and is fill before that. |
| TimeFormat.ZeroPadKeepsValue | src/App.js:18-21 | Zero-padding a digit string leaves it a digit string with the same value. |
| TimeFormat.TwoDigits | src/App.js:18-21 | A field `n.toString().padStart(2, "0")` is a digit string that reads as n. It is two characters below 100, and longer with no leading zero from 100 on. |
| TimeFormat.FormatTime | src/App.js:17-23 | The display ends in a colon followed by two digits. The text before the colon reads as `secs / 60` and the last two digits read as `secs % 60`. The display is exactly five characters iff the time is under 100 minutes. Parsing the display gives back the number of seconds it was made from. |
| TimeFormat.FormatTimeNoLeadingZero | src/App.js:17-23 | From 100 minutes on, the minutes are printed in full, so the display does not start with a zero. |
| TimeFormat.FormatTimeInjective | src/App.js:17-23 | Two different second counts never produce the same display. |
| TimeFormat.FormatTimeDigits | src/App.js:17-23 | Below 100 minutes the display has length 5 and a colon at index 2. Its four digits are the tens and units of the minutes and of the seconds. |
| TimeFormat.FormatTimeSpelled | src/App.js:17-23 | Below 100 minutes the display is spelled out character by character from the minutes and seconds. |
| TimeFormat.FormatTimeExample | src/App.js:17-23 | A display below 100 minutes, from its four digits. For example 0 shows "00:00", 59 shows "00:59", 60 shows "01:00" and 3599 shows "59:59". |
| Pomodoro.Initial | src/App.js:7-12 | The mount state is valid and stopped. It is in the Session phase with a full session on the clock. |
| Pomodoro.BreakDecrement | src/App.js:26-30 | While running, nothing changes. While stopped, a length n of at least 1 becomes max(n-1, 1). Only `breakLength` ever changes, and the invariants are preserved. |
| Pomodoro.BreakIncrement | src/App.js:31-35 | While running, nothing changes. While stopped, a length n of at most 60 becomes min(n+1, 60). Only `breakLength` ever changes, and the invariants are preserved. |
| Pomodoro.SessionDecrement | src/App.js:36-41 | While running or at 1 minute, nothing changes. Otherwise the session becomes n-1 and the countdown is reloaded to that many minutes, in either phase. Phase, label and break length are untouched, and the invariants are preserved. |
| Pomodoro.SessionIncrement | src/App.js:42-47 | While running or at 60 minutes, nothing changes. Otherwise the session becomes n+1 and the countdown is reloaded to that many minutes, in either phase. Phase, label and break length are untouched, and the invariants are preserved. |
| Pomodoro.StartStop | src/App.js:85-87 | Negates `isRunning` and changes nothing else. |
| Pomodoro.StartStopInvolution | src/App.js:85-87 | Pressing start/stop twice gives back the original state. |
| Pomodoro.Reset | src/App.js:90-101 | From any state, the result is valid and stopped, in the Session phase with a 5-minute break and a 25-minute session, and a full session on the clock. |
| Pomodoro.ResetRestoresInitial | src/App.js:90-96 | Reset gives exactly the mount state (src/App.js:7-12) from any state. |
| Pomodoro.ResetIdempotent | src/App.js:90-96 | Resetting twice is the same as resetting once. |
| Pomodoro.BreakSteppersInverse | src/App.js:26-35 | While stopped and away from the bounds, break increment and decrement undo each other. |
| Pomodoro.SessionSteppersInverse | src/App.js:36-47 | While stopped and away from the bounds, session increment and decrement undo each other, except that the countdown is left at a full session. |
| Pomodoro.Tick | src/App.js:54-72 | The alert sounds iff the countdown is at 0. Above 0 the countdown drops by one and nothing else changes. Below 0 it is floored to 0. At 0 the phase flips and the label matches the new phase. The countdown then reloads from the length of the phase entered, and lengths and running flag are untouched. The invariants are preserved. |
| Pomodoro.NoDoubleBeep | src/App.js:54-72 | In a valid state, the tick after an alert is silent. |
| Runs.Step | src/App.js:50-77 | A second while stopped changes nothing, because the interval only exists while running. Only a running second at 0 sounds the alert. While running, no event except start/stop and reset changes a length or stops the clock. Every event preserves the invariants. |
| Runs.Run | src/App.js:50-101 | Any list of events preserves the invariants, and sounds at most one alert per event. |
| Runs.CountdownSilent | src/App.js:71 | While running, n seconds with at least n left lower the countdown by n. Nothing else changes and no alert sounds. |
| Runs.PhaseEnds | src/App.js:54-72 | A running phase with k seconds left ends after exactly k+1 seconds, with one alert. The phase and label flip, the countdown reloads from the new phase's length, and the clock keeps running. |
| Runs.InitialDisplay | src/App.js:10-23 | The mounted widget shows "25:00". |
| Runs.TenMinutesDisplay | src/App.js:17-23 | Ten minutes on the clock shows "10:00". |
| Runs.DefaultSessionRunsOut | src/App.js:54-72 | From the mount state: start, then 1500 seconds. The display is "00:00", still in the session, with no alert. One more second gives exactly one alert and a running 300-second break labelled "Break". |
| Runs.SessionDownPresses | src/App.js:36-41 | While stopped, n session-down presses from s > n minutes leave s-n minutes with a full countdown, and change nothing else. |
| Runs.SessionEditShowsImmediately | src/App.js:36-41 | From the mount state, setting the session to 10 minutes shows "10:00" (600 seconds) at once, without starting. |
| Runs.ReachableStatesValid | src/App.js:7-101 | Every state reachable from mount has lengths in [1, 60], a countdown in [0, 3600], and a label that agrees with the phase. During a session the countdown is at most the session length, and the display is five characters. |
| Runs.BreakCountdownCanExceedLengths | src/App.js:26-69 | A reachable stopped break state has break 4, session 1 and 300 seconds on the clock. That is more than either length allows. |

## Left out

- Rendering, styling and the buttons' `disabled` attributes (src/App.js:104-229) are presentation. The handlers' own guards already refuse edits while running.
- The interval plumbing is left out: `useEffect`, `setInterval`/`clearInterval`, the interval handle and the re-subscription on dependency changes (src/App.js:50-53, 73-82). A clock second is an explicit `Second` event, applied only while running.
- Audio calls (`play`, `pause`, `currentTime`) are foreign browser calls. The alert is the `beeped` flag of `Tick`. Reset's pause-and-rewind of the audio has no counterpart in the model.
- React semantics are left out: batched state updates, stale closures, and updaters run twice under strict mode. Every handler reads the current state.
- TimeFormat.Decimal: models `toString` on unbounded integers. JavaScript numbers are doubles: `toString` switches to exponent form from 10^21, and integers above 2^53 are not exact. The countdown never exceeds 3600 seconds (`Runs.ReachableStatesValid`), far below both limits.
- TimeFormat.FormatTime: defined on non-negative seconds only. JavaScript's signed output for negative input is not modelled, because the countdown is proved never to go negative (`Runs.ReachableStatesValid`). The minutes field inherits the range limit of `TimeFormat.Decimal`: from 6 * 10^22 seconds JavaScript would print the minutes in exponent form, and above 2^53 minutes the digits are not exact; the model does neither.
