/** The countdown state machine that the `MyApp` composable keeps in five
    `mutableStateOf` holders, written as values: one function per click handler
    or timer callback, an event type for everything that can reach the screen,
    and the properties the screen relies on. */
module Timer {

  /** Largest value of a Kotlin `Int`, the type that holds the duration. */
  const IntMax: int := 0x7fff_ffff

  /** The increment size chosen with the H / M / S buttons. */
  datatype TimeUnit = Hour | Minute | Second

  /** Milliseconds added or removed by one tap of + or - for unit `u`:
      always a positive whole number of seconds. */
  function StepMillis(u: TimeUnit): (r: int)
    ensures 1000 <= r <= 3600000 && r % 1000 == 0
  {
    if u == Second then 1000 else if u == Minute then 60000 else 3600000
  }

  /** The three increments nest: a minute is sixty seconds, an hour sixty minutes. */
  lemma UnitsNest()
    ensures StepMillis(Minute) == 60 * StepMillis(Second)
    ensures StepMillis(Hour) == 60 * StepMillis(Minute)
    ensures StepMillis(Second) == 1000
  {
  }

  /** The observable state of the screen. */
  datatype TimerState = TimerState(
    progress: real,        // fraction of the countdown left (a Float in the app)
    countdownStart: int,   // configured duration, in milliseconds
    timeLeft: int,         // whole seconds shown as text
    timerRunning: bool,    // true between Begin and Stop / expiry
    timeUnit: TimeUnit)    // increment used by + and -

  /** What every reachable state satisfies: the duration is a positive Int. */
  predicate Inv(s: TimerState)
  {
    1 <= s.countdownStart <= IntMax
  }

  /** While idle, the ring is full and the text shows the whole duration. */
  predicate Settled(s: TimerState)
  {
    !s.timerRunning ==> s.progress == 1.0 && s.timeLeft == DivInt32(s.countdownStart, 1000)
  }

  /** The state the app starts in: ten seconds, unit SECOND, idle. */
  function Init(): (s: TimerState)
    ensures Inv(s) && Settled(s) && !s.timerRunning
    ensures s.timeLeft * 1000 == s.countdownStart
  {
    TimerState(1.0, 10000, 10, false, Second)
  }

  // ---------------------------------------------------------------------------
  // Handlers, one per button or callback

  /** The H, M and S buttons: only the unit changes. */
  function SelectUnit(s: TimerState, u: TimeUnit): (r: TimerState)
    ensures r.timeUnit == u
    ensures r.(timeUnit := s.timeUnit) == s
  {
    s.(timeUnit := u)
  }

  /** The - button: removes one step, unless that would leave no time at all. */
  function Decrement(s: TimerState): (r: TimerState)
    ensures Inv(s) ==> Inv(r)
    ensures s.countdownStart <= StepMillis(s.timeUnit) <==> r == s
    ensures s.countdownStart > StepMillis(s.timeUnit) ==>
              r.countdownStart + StepMillis(s.timeUnit) == s.countdownStart &&
              r.timeLeft * 1000 <= r.countdownStart < r.timeLeft * 1000 + 1000
    ensures r.progress == s.progress && r.timerRunning == s.timerRunning
    ensures r.timeUnit == s.timeUnit
  {
    var value := StepMillis(s.timeUnit);
    if s.countdownStart > value then
      var d := s.countdownStart - value;
      s.(countdownStart := d, timeLeft := DivInt32(d, 1000))
    else
      s
  }

  /** The + button, as the app evidently intends it: adds one step, unless the
      duration would no longer fit in an Int (see IncrementAsWritten). */
  function Increment(s: TimerState): (r: TimerState)
    ensures Inv(s) ==> Inv(r)
    ensures s.countdownStart <= IntMax - StepMillis(s.timeUnit) <==>
              r.countdownStart == s.countdownStart + StepMillis(s.timeUnit)
    ensures s.countdownStart > IntMax - StepMillis(s.timeUnit) ==> r == s
    ensures Inv(s) && r.countdownStart != s.countdownStart ==>
              r.timeLeft * 1000 <= r.countdownStart < r.timeLeft * 1000 + 1000
    ensures r.progress == s.progress && r.timerRunning == s.timerRunning
    ensures r.timeUnit == s.timeUnit
  {
    var value := StepMillis(s.timeUnit);
    if s.countdownStart <= IntMax - value then
      var d := s.countdownStart + value;
      s.(countdownStart := d, timeLeft := DivInt32(d, 1000))
    else
      s
  }

  /** Kotlin `Int` addition: the sum wrapped around to 32 bits. */
  function AddInt32(a: int, b: int): (r: int)
    ensures -IntMax - 1 <= r <= IntMax
    ensures -IntMax - 1 <= a + b <= IntMax ==> r == a + b
    ensures IntMax < a + b <= 2 * IntMax ==> r == a + b - 2 * (IntMax + 1)
  {
    (a + b + (IntMax + 1)) % (2 * (IntMax + 1)) - (IntMax + 1)
  }

  /** Kotlin `Int` division by a positive divisor: truncates toward zero. */
  function DivInt32(a: int, b: int): (r: int)
    requires b > 0
    ensures a >= 0 ==> r * b <= a < r * b + b
    ensures a < 0 ==> r * b - b < a <= r * b
  {
    if a >= 0 then a / b else -((-a) / b)
  }

  /** The + handler exactly as the app writes it: the step is added with no
      upper-bound check, so a large enough duration wraps around to a negative
      Int. Corrected by Increment. */
  function IncrementAsWritten(s: TimerState): (r: TimerState)
    ensures r.countdownStart == AddInt32(s.countdownStart, StepMillis(s.timeUnit))
    ensures r.timeLeft == DivInt32(r.countdownStart, 1000)
    ensures r.progress == s.progress && r.timerRunning == s.timerRunning
    ensures r.timeUnit == s.timeUnit
  {
    var value := StepMillis(s.timeUnit);
    var d := AddInt32(s.countdownStart, value);
    s.(countdownStart := d, timeLeft := DivInt32(d, 1000))
  }

  /** The Begin / Stop button. Begin only raises the running flag; Stop resets
      the ring and the text to the full duration. */
  function PressButton(s: TimerState): (r: TimerState)
    ensures r.timerRunning == !s.timerRunning
    ensures r.countdownStart == s.countdownStart && r.timeUnit == s.timeUnit
    ensures !s.timerRunning ==> r.progress == s.progress && r.timeLeft == s.timeLeft
    ensures s.timerRunning ==> Settled(r)
  {
    if s.timerRunning then
      s.(timerRunning := false, progress := 1.0, timeLeft := DivInt32(s.countdownStart, 1000))
    else
      s.(timerRunning := true)
  }

  /** `CountDownTimer.onTick`: progress becomes the remaining fraction of the
      duration and the text the remaining whole seconds, rounded down. */
  function Tick(s: TimerState, millisUntilFinished: int): (r: TimerState)
    requires Inv(s) && 0 <= millisUntilFinished <= IntMax
    ensures r.progress * (s.countdownStart as real) == millisUntilFinished as real
    ensures r.timeLeft * 1000 <= millisUntilFinished < r.timeLeft * 1000 + 1000
    ensures r.countdownStart == s.countdownStart && r.timeUnit == s.timeUnit
    ensures r.timerRunning == s.timerRunning
  {
    var value := millisUntilFinished as real / s.countdownStart as real;
    s.(progress := value, timeLeft := millisUntilFinished / 1000)
  }

  /** `CountDownTimer.onFinish`: back to idle with the full duration shown. */
  function Finish(s: TimerState): (r: TimerState)
    ensures !r.timerRunning && Settled(r)
    ensures r.countdownStart == s.countdownStart && r.timeUnit == s.timeUnit
  {
    s.(timerRunning := false, progress := 1.0, timeLeft := DivInt32(s.countdownStart, 1000))
  }

  // ---------------------------------------------------------------------------
  // Events reaching the screen

  /** A tap on a control, or a callback of the countdown timer. */
  datatype Event =
    | TapUnit(unit: TimeUnit)
    | TapMinus
    | TapPlus
    | TapButton
    | TimerTick(millis: int)
    | TimerFinish

  /** A timer is built from an Int duration, so it never reports more than that. */
  predicate EventOk(e: Event)
  {
    e.TimerTick? ==> 0 <= e.millis <= IntMax
  }

  predicate AllOk(evs: seq<Event>)
  {
    forall i :: 0 <= i < |evs| ==> EventOk(evs[i])
  }

  /** The unit and the +/- controls are on screen only while idle. */
  predicate ControlsShown(s: TimerState)
  {
    !s.timerRunning
  }

  /** One event. A tap on a control that is not on screen cannot happen, so it
      leaves the state as it is; callbacks are not tied to the running flag. */
  function Apply(s: TimerState, e: Event): (r: TimerState)
    requires Inv(s) && EventOk(e)
    ensures Inv(r)
    ensures (r.countdownStart != s.countdownStart || r.timeUnit != s.timeUnit) ==>
              ControlsShown(s)
  {
    match e
    case TapUnit(u) => if ControlsShown(s) then SelectUnit(s, u) else s
    case TapMinus => if ControlsShown(s) then Decrement(s) else s
    case TapPlus => if ControlsShown(s) then Increment(s) else s
    case TapButton => PressButton(s)
    case TimerTick(m) => Tick(s, m)
    case TimerFinish => Finish(s)
  }

  /** A sequence of events, in order. */
  function Run(s: TimerState, evs: seq<Event>): (r: TimerState)
    requires Inv(s) && AllOk(evs)
    ensures Inv(r)
    decreases |evs|
  {
    if evs == [] then s else Run(Apply(s, evs[0]), evs[1..])
  }
}
