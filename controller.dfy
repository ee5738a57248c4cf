/** The five `mutableStateOf` holders of `MyApp` as the fields of one object,
    with one method per click handler and timer callback. Each method updates
    the fields in place and is specified by the matching function of Timer. */
module Controller {
  import opened Timer

  class CountdownController {
    var progress: real
    var countdownStart: int
    var timeLeft: int
    var timerRunning: bool
    var timeUnit: TimeUnit

    /** The fields as one value. */
    function State(): TimerState
      reads this
    {
      TimerState(progress, countdownStart, timeLeft, timerRunning, timeUnit)
    }

    ghost predicate Valid()
      reads this
    {
      Inv(State())
    }

    /** The `remember { mutableStateOf(...) }` initial values. */
    constructor ()
      ensures Valid() && State() == Init()
    {
      progress := 1.0;
      countdownStart := 10000;
      timeLeft := 10;
      timerRunning := false;
      timeUnit := Second;
    }

    /** The H, M and S buttons, rendered only while idle. */
    method SelectUnit(u: TimeUnit)
      requires Valid() && !timerRunning
      modifies this
      ensures Valid()
      ensures State() == Timer.SelectUnit(old(State()), u)
    {
      timeUnit := u;
    }

    /** The - button, rendered only while idle. */
    method Decrement()
      requires Valid() && !timerRunning
      modifies this
      ensures Valid()
      ensures State() == Timer.Decrement(old(State()))
    {
      var value := StepMillis(timeUnit);
      if countdownStart > value {
        countdownStart := countdownStart - value;
        timeLeft := DivInt32(countdownStart, 1000);
      }
    }

    /** The + button, rendered only while idle; corrected so that the duration
        stays an Int (Timer.IncrementAsWritten is the app's own version). */
    method Increment()
      requires Valid() && !timerRunning
      modifies this
      ensures Valid()
      ensures State() == Timer.Increment(old(State()))
    {
      var value := StepMillis(timeUnit);
      if countdownStart <= IntMax - value {
        countdownStart := countdownStart + value;
        timeLeft := DivInt32(countdownStart, 1000);
      }
    }

    /** The Begin / Stop button. Starting the platform timer and cancelling it
        are not modelled: ticks arrive as calls of OnTick. */
    method PressButton()
      requires Valid()
      modifies this
      ensures Valid()
      ensures State() == Timer.PressButton(old(State()))
    {
      if timerRunning {
        timerRunning := false;
        progress := 1.0;
        timeLeft := DivInt32(countdownStart, 1000);
      } else {
        timerRunning := true;
      }
    }

    /** `CountDownTimer.onTick`. */
    method OnTick(millisUntilFinished: int)
      requires Valid() && 0 <= millisUntilFinished <= IntMax
      modifies this
      ensures Valid()
      ensures State() == Timer.Tick(old(State()), millisUntilFinished)
    {
      var value := millisUntilFinished as real / countdownStart as real;
      progress := value;
      timeLeft := millisUntilFinished / 1000;
    }

    /** `CountDownTimer.onFinish`. */
    method OnFinish()
      requires Valid()
      modifies this
      ensures Valid()
      ensures State() == Timer.Finish(old(State()))
    {
      timerRunning := false;
      progress := 1.0;
      timeLeft := DivInt32(countdownStart, 1000);
    }
  }

  /** A session driven through the object: start-up, Begin, a tick at 5000 ms,
      then expiry, observed only through the methods' contracts. */
  method SessionTickThenExpire() returns (half: real, shown: int, back: TimerState)
    ensures half == 0.5 && shown == 5
    ensures back == Init()
  {
    var c := new CountdownController();
    c.PressButton();
    c.OnTick(5000);
    half, shown := c.progress, c.timeLeft;
    c.OnFinish();
    back := c.State();
  }
}
