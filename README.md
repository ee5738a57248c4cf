# Countdown timer: a verified model

The app is a single screen with a visual countdown. A ring shows the fraction of
the countdown left and a text shows the seconds left. Three buttons (H, M, S)
choose a unit. Two buttons, - and +, change the configured duration by that
unit. One button toggles between Begin and Stop. All of this state lives in the
`MyApp` composable as five `mutableStateOf` holders: `progress`,
`countdownStart` (milliseconds), `timeLeft` (whole seconds), `timerRunning` and
`timeUnit`. The click handlers and the `CountDownTimer` callbacks `onTick` and
`onFinish` update these holders in place.

The project has four modules:

- `Timer` (timer.dfy) describes the state as a value, `TimerState`. It has one
  function per handler or callback. `Apply` applies one screen event, and a tap
  on a control that is not on screen leaves the state unchanged. `Run` applies a
  sequence of events. `Inv` says that the duration is a positive Kotlin `Int`.
  `Settled` says that while the app is idle, the ring is full and the text shows
  the whole duration.
- `TimerProperties` (timer_properties.dfy) proves facts that involve several
  handlers or several events. It also holds three example sessions from start-up
  and the `Int` overflow of the + button (see Findings).
- `Controller` (controller.dfy) models the same five holders as the fields of a
  class, `CountdownController`. Each handler is a method that updates the fields
  in place. Each method's contract equates the new `State()` with the matching
  `Timer` function applied to the old state.
- `DurationFormat` (format.dfy) models `formatDuration`. Below 60 seconds it is
  Kotlin's decimal `Long.toString()`. The platform's
  `DateUtils.formatElapsedTime` is passed in as a function parameter and is not
  interpreted.

Three facts about the code shape the model:

- The unit and +/- controls are rendered only while the timer is not running
  (MainActivity.kt:171). The model therefore ignores taps on them while running.
- The tick handler does not clamp the progress (MainActivity.kt:121-122). The
  model proves it lies in [0, 1] only for ticks that report at most the duration.
- From 60 seconds on, the text comes from a platform library
  (MainActivity.kt:102). The model leaves that text open.

## Model

| member | source | states |
|---|---|---|
| Timer.StepMillis | app/src/main/java/com/example/androiddevchallenge/MainActivity.kt:229 | the step of a unit is a positive whole number of seconds, at most one hour |
| Timer.UnitsNest | app/src/main/java/com/example/androiddevchallenge/MainActivity.kt:241 | SECOND is 1000 ms, a MINUTE step is 60 SECOND steps, an HOUR step is 60 MINUTE steps |
| Timer.Init | app/src/main/java/com/example/androiddevchallenge/MainActivity.kt:107-111 | the start-up state is idle, its duration is valid, and it shows exactly the duration's seconds (10 s) with a full ring |
| Timer.SelectUnit | app/src/main/java/com/example/androiddevchallenge/MainActivity.kt:176-211 | an H/M/S tap sets the unit and changes nothing else |
| Timer.Decrement | app/src/main/java/com/example/androiddevchallenge/MainActivity.kt:227-235 | - is rejected (state unchanged) exactly when the duration is at most one step; otherwise it removes exactly one step and the text becomes the new duration in whole seconds, rounded down; a valid duration stays valid |
| Timer.Increment | app/src/main/java/com/example/androiddevchallenge/MainActivity.kt:240-245 | + adds exactly one step exactly when the sum still fits in an Int, and otherwise changes nothing; the text follows the duration; a valid duration stays valid |
| Timer.AddInt32 | app/src/main/java/com/example/androiddevchallenge/MainActivity.kt:243 | Kotlin Int addition: the true sum when it fits, the sum minus 2^32 when it overflows upward |
| Timer.DivInt32 | app/src/main/java/com/example/androiddevchallenge/MainActivity.kt:233 | Kotlin Int division truncates toward zero, for either sign of the dividend; it gives the text in every handler that divides the duration, including Stop and expiry on a negative duration |
| Timer.IncrementAsWritten | app/src/main/java/com/example/androiddevchallenge/MainActivity.kt:241-244 | the app's own + handler: the duration becomes the 32-bit wrapped sum, the text becomes that duration divided by 1000 with truncation toward zero, and nothing else changes |
| Timer.PressButton | app/src/main/java/com/example/androiddevchallenge/MainActivity.kt:253-265 | the button flips the running flag and never changes the duration or the unit; Begin leaves the ring and the text as they were; Stop leaves a settled idle screen |
| Timer.Tick | app/src/main/java/com/example/androiddevchallenge/MainActivity.kt:120-124 | a tick makes progress times the duration equal to the reported milliseconds; the text is the reported milliseconds in whole seconds, rounded down; the duration, unit and running flag are unchanged |
| Timer.Finish | app/src/main/java/com/example/androiddevchallenge/MainActivity.kt:126-131 | expiry leaves the app idle and settled, with the duration and unit unchanged |
| Timer.Apply | app/src/main/java/com/example/androiddevchallenge/MainActivity.kt:171-251 | every event keeps the duration valid; the duration or unit changes only if the controls were on screen, i.e. the app was idle |
| Timer.Run | app/src/main/java/com/example/androiddevchallenge/MainActivity.kt:108 | from any valid state, including the 10000 ms at start-up, every sequence of taps and timer callbacks keeps the duration between 1 ms and Int.MAX_VALUE |
| TimerProperties.RunningFreezesConfig | app/src/main/java/com/example/androiddevchallenge/MainActivity.kt:171 | while running, events other than Stop and expiry leave the app running with its duration and unit unchanged |
| TimerProperties.StopMatchesFinish | app/src/main/java/com/example/androiddevchallenge/MainActivity.kt:126-131 | Stop while running and expiry give the same state: idle, full ring, text equal to the duration in seconds |
| TimerProperties.StartTicksThenStopRestores | app/src/main/java/com/example/androiddevchallenge/MainActivity.kt:254-264 | from a settled idle state, Begin then any ticks then Stop or expiry restore exactly the starting state |
| TimerProperties.TickWithinCountdown | app/src/main/java/com/example/androiddevchallenge/MainActivity.kt:120-124 | a tick that reports at most the duration keeps the progress in [0, 1] and the text between 0 and the duration's seconds; the text is the whole seconds of progress times the duration |
| TimerProperties.DecrementUndoesIncrement | app/src/main/java/com/example/androiddevchallenge/MainActivity.kt:229-244 | on a state that shows its duration, - undoes a + that did not reach the Int bound |
| TimerProperties.IncrementUndoesDecrement | app/src/main/java/com/example/androiddevchallenge/MainActivity.kt:231-244 | on a state that shows its duration, + undoes a - that was not rejected |
| TimerProperties.SettledStep | app/src/main/java/com/example/androiddevchallenge/MainActivity.kt:126-131 | every handler keeps the idle screen consistent (full ring, whole duration shown), except a tick that arrives while idle |
| TimerProperties.RunStaysSettled | app/src/main/java/com/example/androiddevchallenge/MainActivity.kt:107-131 | in any run where the timer reports only while running, an idle app always shows a full ring and the whole duration |
| TimerProperties.PlusTapsAdd | app/src/main/java/com/example/androiddevchallenge/MainActivity.kt:241-244 | while idle, n taps on + add exactly n steps as long as the total fits in an Int |
| TimerProperties.ReachableByHourTaps | app/src/main/java/com/example/androiddevchallenge/MainActivity.kt:241-244 | choosing H and tapping + n times from start-up gives an idle app with 10000 ms plus n hours, as long as that fits in an Int |
| TimerProperties.AsWrittenOverflowBlocksMinus | app/src/main/java/com/example/androiddevchallenge/MainActivity.kt:231-244 | once the app's + overflows, the duration is the sum minus 2^32, negative and invalid, and the text is negative; - can no longer reduce it, and a further + adds one step without wrapping |
| TimerProperties.IncrementAsWrittenOverflows | app/src/main/java/com/example/androiddevchallenge/MainActivity.kt:243 | from start-up, H and 596 taps on + reach 2145610000 ms, still an Int; the app's 597th tap turns it into -2145757296 ms, shown as -2145757 s; after that, 596 more taps on the app's + leave the duration negative and the 597th makes it positive |
| TimerProperties.IncrementsAsWrittenAdd | app/src/main/java/com/example/androiddevchallenge/MainActivity.kt:241-244 | n taps on the app's own + add exactly n steps, even from a negative duration, as long as every partial sum fits in an Int |
| TimerProperties.IncrementMatchesAsWritten | app/src/main/java/com/example/androiddevchallenge/MainActivity.kt:241-244 | the corrected + equals the app's + whenever the app's sum does not overflow; when it does overflow, the app's duration goes negative and the corrected + changes nothing |
| TimerProperties.ExampleTickThenExpire | app/src/main/java/com/example/androiddevchallenge/MainActivity.kt:120-131 | example session: 10 s, Begin, a tick at 5000 ms gives progress 0.5 and 5 s; then expiry gives back the start-up state |
| TimerProperties.ExampleMinutePlus | app/src/main/java/com/example/androiddevchallenge/MainActivity.kt:241-244 | example session: unit M then + from start-up gives 70000 ms and 70 s |
| TimerProperties.ExampleHourMinusRejected | app/src/main/java/com/example/androiddevchallenge/MainActivity.kt:229-234 | example session: unit H then - from start-up is rejected: still 10000 ms and 10 s |
| Controller.CountdownController.constructor | app/src/main/java/com/example/androiddevchallenge/MainActivity.kt:107-111 | the fields start as the start-up state |
| Controller.CountdownController.SelectUnit | app/src/main/java/com/example/androiddevchallenge/MainActivity.kt:176-211 | in place, the fields become Timer.SelectUnit of their old values; callable only while idle |
| Controller.CountdownController.Decrement | app/src/main/java/com/example/androiddevchallenge/MainActivity.kt:227-235 | in place, the fields become Timer.Decrement of their old values, and the duration stays valid |
| Controller.CountdownController.Increment | app/src/main/java/com/example/androiddevchallenge/MainActivity.kt:240-245 | in place, the fields become Timer.Increment of their old values, and the duration stays valid |
| Controller.CountdownController.PressButton | app/src/main/java/com/example/androiddevchallenge/MainActivity.kt:253-265 | in place, the fields become Timer.PressButton of their old values |
| Controller.CountdownController.OnTick | app/src/main/java/com/example/androiddevchallenge/MainActivity.kt:120-124 | in place, the fields become Timer.Tick of their old values |
| Controller.CountdownController.OnFinish | app/src/main/java/com/example/androiddevchallenge/MainActivity.kt:126-131 | in place, the fields become Timer.Finish of their old values |
| Controller.SessionTickThenExpire | app/src/main/java/com/example/androiddevchallenge/MainActivity.kt:118-131 | driving one object through Begin, a 5000 ms tick and expiry shows 0.5 and 5 s, then the start-up state again |
| DurationFormat.NatToString | app/src/main/java/com/example/androiddevchallenge/MainActivity.kt:100 | the decimal text of a number is a non-empty run of digits with no leading zero; it starts with '0' exactly for 0; it has one digit exactly below 10 and at most two below 100 |
| DurationFormat.NatToStringRoundTrip | app/src/main/java/com/example/androiddevchallenge/MainActivity.kt:100 | reading the decimal text back gives the number |
| DurationFormat.LongToString | app/src/main/java/com/example/androiddevchallenge/MainActivity.kt:100 | `Long.toString()` is the digits of a non-negative number, or a minus sign before the digits of a negative number's magnitude; it is never padded with a leading zero, and a decimal reader gets the number back in both cases |
| DurationFormat.FormatDuration | app/src/main/java/com/example/androiddevchallenge/MainActivity.kt:99-103 | under a minute, the text is the bare number of seconds: one or two digits, no leading zero, no colon, and it reads back to the seconds; a negative count gets a minus sign before its unpadded magnitude; from a minute on, the text is what the platform formatter returns |
| DurationFormat.FormatFive | app/src/main/java/com/example/androiddevchallenge/MainActivity.kt:99-100 | five seconds are shown as "5" |

## Findings

| source | as written | input that shows it | evidently intended | confidence | as-written member | corrected member |
|---|---|---|---|---|---|---|
| app/src/main/java/com/example/androiddevchallenge/MainActivity.kt:243 | `countdownStart.value + value` is Kotlin `Int` addition, with no upper bound | from start-up, tap H and then + 597 times: 2145610000 + 3600000 wraps to -2145757296 ms, and the text shows -2145757; the guard of - then rejects every tap, so only further + taps can bring it back: 596 more leave it negative, the 597th makes it positive | the duration stays a positive `Int`, as the guard on - keeps it from below | medium, not executed | TimerProperties.IncrementAsWrittenOverflows | Timer.Increment |

`Timer.Increment` is the app's + handler with one extra guard: it does nothing
when the sum would exceed `Int.MAX_VALUE`. This mirrors the guard on -. The
class and the event runner use this corrected version.
`TimerProperties.IncrementMatchesAsWritten` proves that it agrees with the
app's version on every input that does not overflow.

## Left out

- The window and status-bar set-up (`SystemUi`), the layout, the colours, the
  0.3 colour threshold of the ring and the 3600-second font-size threshold:
  these are presentation only.
- `MainActivity.onCreate` and the preview functions: they only wire the screen
  to the platform.
- The scheduling of the platform `CountDownTimer`, including its 10 ms interval,
  `start()` and `cancel()`, is not modelled. Ticks and expiry are explicit calls
  that carry the remaining milliseconds.
- The `timer` object is rebuilt on every recomposition, so a Stop may cancel an
  instance that was never started. The model therefore does not tie ticks to the
  running flag, and it makes no claim that Stop cancels anything. The settled
  idle-screen properties assume ticks arrive only while running.
- `progress` is a `Float` in the app. The model keeps it as an exact Dafny
  `real`, so rounding of the float division is not modelled.
- `DateUtils.formatElapsedTime` is a platform library whose output (padding,
  locale) is not visible here. It is a function parameter of
  `FormatDuration`, so nothing is stated about the text for a minute or more
  beyond that it is the platform's.
- Timer.Tick: requires the reported milliseconds to be between 0 and
  `Int.MAX_VALUE`. Every timer is built from an `Int` duration, so the platform
  never reports more. Within that range, the `toInt()` of the seconds cannot
  truncate.
- Timer.Increment: it differs from the app's handler above `Int.MAX_VALUE` minus
  one step, where it changes nothing. This is deliberate, and Findings explains
  why.
- Timer.Apply: a tap on + goes through the corrected Timer.Increment, so its
  guarantee that the duration stays a positive `Int` holds for the corrected
  model only; the app's own + can make it negative (Findings).
- Timer.Run: it applies Timer.Apply, so the same holds for its guarantee over
  every event sequence.
- Controller.CountdownController.Increment: it performs the corrected +, so it
  too changes nothing where the app's sum would wrap.
- Controller.CountdownController.SelectUnit, Decrement, Increment: they require
  the app to be idle, because their buttons exist only on the idle screen.
