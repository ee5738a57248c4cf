/** Properties of the countdown state machine that relate several handlers or
    several events: how runs compose, what a running countdown cannot change,
    what Stop and expiry restore, and the integer overflow of the + button. */
module TimerProperties {
  import opened Timer

  /** Running two event sequences one after the other is running their concatenation. */
  lemma {:induction false} RunAppend(s: TimerState, a: seq<Event>, b: seq<Event>)
    requires Inv(s) && AllOk(a) && AllOk(b)
    ensures AllOk(a + b)
    ensures Run(s, a + b) == Run(Run(s, a), b)
    decreases |a|
  {
    assert AllOk(a + b) by {
      forall i | 0 <= i < |a + b| ensures EventOk((a + b)[i]) {
        if i < |a| { assert (a + b)[i] == a[i]; } else { assert (a + b)[i] == b[i - |a|]; }
      }
    }
    if a != [] {
      assert (a + b)[0] == a[0];
      assert (a + b)[1..] == a[1..] + b;
      assert AllOk(a[1..]) by {
        forall i | 0 <= i < |a[1..]| ensures EventOk(a[1..][i]) { assert a[1..][i] == a[i + 1]; }
      }
      var t := Apply(s, a[0]);
      RunAppend(t, a[1..], b);
      calc {
        Run(s, a + b);
        Run(t, a[1..] + b);
        Run(Run(t, a[1..]), b);
        Run(Run(s, a), b);
      }
    } else {
      assert a + b == b;
    }
  }

  /** Events that neither press Begin/Stop nor end the countdown. */
  predicate KeepsRunning(evs: seq<Event>)
  {
    forall i :: 0 <= i < |evs| ==> !evs[i].TapButton? && !evs[i].TimerFinish?
  }

  /** While a countdown runs, no event other than Stop or expiry can change the
      duration or the unit: their controls are not on screen. */
  lemma {:induction false} RunningFreezesConfig(s: TimerState, evs: seq<Event>)
    requires Inv(s) && AllOk(evs) && s.timerRunning && KeepsRunning(evs)
    ensures Run(s, evs).timerRunning
    ensures Run(s, evs).countdownStart == s.countdownStart
    ensures Run(s, evs).timeUnit == s.timeUnit
    decreases |evs|
  {
    if evs != [] {
      var t := Apply(s, evs[0]);
      assert t.timerRunning && t.countdownStart == s.countdownStart && t.timeUnit == s.timeUnit;
      assert AllOk(evs[1..]) && KeepsRunning(evs[1..]) by {
        forall i | 0 <= i < |evs[1..]|
          ensures EventOk(evs[1..][i]) && !evs[1..][i].TapButton? && !evs[1..][i].TimerFinish?
        {
          assert evs[1..][i] == evs[i + 1];
        }
      }
      RunningFreezesConfig(t, evs[1..]);
    }
  }

  /** Stop and natural expiry leave the screen in the same state. */
  lemma StopMatchesFinish(s: TimerState)
    requires s.timerRunning
    ensures PressButton(s) == Finish(s)
    ensures !Finish(s).timerRunning && Finish(s).progress == 1.0
    ensures Finish(s).timeLeft == DivInt32(s.countdownStart, 1000)
  {
  }

  /** Begin, any number of ticks, then Stop or expiry: the idle screen is back
      exactly as it was, whatever the ticks reported. */
  lemma StartTicksThenStopRestores(s: TimerState, ticks: seq<Event>, last: Event)
    requires Inv(s) && !s.timerRunning && Settled(s)
    requires AllOk(ticks) && forall i :: 0 <= i < |ticks| ==> ticks[i].TimerTick?
    requires last == TapButton || last == TimerFinish
    ensures AllOk([TapButton] + ticks + [last])
    ensures Run(s, [TapButton] + ticks + [last]) == s
  {
    var begin := [TapButton];
    RunAppend(s, begin, ticks);
    RunAppend(s, begin + ticks, [last]);
    var started := Run(s, begin);
    assert started == s.(timerRunning := true);
    RunningFreezesConfig(started, ticks);
    var ticked := Run(started, ticks);
    assert Run(ticked, [last]) == Apply(ticked, last);
  }

  /** The start of an ordinary countdown: a tick reporting at most the duration
      keeps the ring within [0, 1] and the text at most the configured seconds,
      and the text is the ring's fraction of the duration, in whole seconds. */
  lemma TickWithinCountdown(s: TimerState, millis: int)
    requires Inv(s) && 0 <= millis <= s.countdownStart
    ensures 0.0 <= Tick(s, millis).progress <= 1.0
    ensures 0 <= Tick(s, millis).timeLeft <= s.countdownStart / 1000
    ensures Tick(s, millis).timeLeft ==
              ((Tick(s, millis).progress * s.countdownStart as real).Floor) / 1000
  {
    FractionWithinUnit(millis as real, s.countdownStart as real);
  }

  /** A part of a positive whole is a fraction in [0, 1]. */
  lemma FractionWithinUnit(part: real, whole: real)
    requires 0.0 <= part <= whole && whole > 0.0
    ensures 0.0 <= part / whole <= 1.0
  {
    var p := part / whole;
    assert (1.0 - p) * whole == whole - part;
  }

  /** - undoes + as long as + did not hit the Int bound. */
  lemma DecrementUndoesIncrement(s: TimerState)
    requires Inv(s) && s.timeLeft == DivInt32(s.countdownStart, 1000)
    requires s.countdownStart <= IntMax - StepMillis(s.timeUnit)
    ensures Decrement(Increment(s)) == s
  {
  }

  /** + undoes a - that was not rejected. */
  lemma IncrementUndoesDecrement(s: TimerState)
    requires Inv(s) && s.timeLeft == DivInt32(s.countdownStart, 1000)
    requires s.countdownStart > StepMillis(s.timeUnit)
    ensures Increment(Decrement(s)) == s
  {
  }

  /** Every event sequence in which the timer reports only while running. */
  predicate TicksWhileRunning(s: TimerState, evs: seq<Event>)
    requires Inv(s) && AllOk(evs)
    decreases |evs|
  {
    evs == [] ||
    ((evs[0].TimerTick? ==> s.timerRunning) &&
     TicksWhileRunning(Apply(s, evs[0]), evs[1..]))
  }

  /** One event keeps the idle screen consistent, unless it is a tick that
      arrives while idle. */
  lemma SettledStep(s: TimerState, e: Event)
    requires Inv(s) && EventOk(e) && Settled(s)
    requires e.TimerTick? ==> s.timerRunning
    ensures Settled(Apply(s, e))
  {
  }

  /** Whenever the app is idle the ring is full and the text shows the whole
      duration, in every run in which the timer reports only while running. */
  lemma {:induction false} RunStaysSettled(s: TimerState, evs: seq<Event>)
    requires Inv(s) && AllOk(evs) && Settled(s) && TicksWhileRunning(s, evs)
    ensures Settled(Run(s, evs))
    decreases |evs|
  {
    if evs != [] {
      SettledStep(s, evs[0]);
      assert AllOk(evs[1..]) by {
        forall i | 0 <= i < |evs[1..]| ensures EventOk(evs[1..][i]) {
          assert evs[1..][i] == evs[i + 1];
        }
      }
      RunStaysSettled(Apply(s, evs[0]), evs[1..]);
    }
  }

  /** `n` taps on +. */
  function PlusTaps(n: nat): (evs: seq<Event>)
    ensures |evs| == n && AllOk(evs)
    ensures forall i :: 0 <= i < n ==> evs[i] == TapPlus
  {
    seq(n, _ => TapPlus)
  }

  /** While idle, `n` taps on + add `n` steps, as long as the sum fits in an Int. */
  lemma {:induction false} PlusTapsAdd(s: TimerState, n: nat)
    requires Inv(s) && !s.timerRunning
    requires s.countdownStart + n * StepMillis(s.timeUnit) <= IntMax
    ensures Run(s, PlusTaps(n)).countdownStart == s.countdownStart + n * StepMillis(s.timeUnit)
    ensures Run(s, PlusTaps(n)).timeUnit == s.timeUnit
    ensures !Run(s, PlusTaps(n)).timerRunning
    decreases n
  {
    if n > 0 {
      var t := Increment(s);
      assert PlusTaps(n)[1..] == PlusTaps(n - 1);
      PlusTapsAdd(t, n - 1);
    }
  }

  /** Selecting H and tapping + `n` times from start-up gives an idle app whose
      duration is 10000 ms plus `n` hours, as long as that fits in an Int. */
  lemma ReachableByHourTaps(n: nat)
    requires 10000 + n * StepMillis(Hour) <= IntMax
    ensures AllOk([TapUnit(Hour)] + PlusTaps(n))
    ensures Run(Init(), [TapUnit(Hour)] + PlusTaps(n)).countdownStart ==
              10000 + n * StepMillis(Hour)
    ensures Run(Init(), [TapUnit(Hour)] + PlusTaps(n)).timeUnit == Hour
    ensures !Run(Init(), [TapUnit(Hour)] + PlusTaps(n)).timerRunning
  {
    RunAppend(Init(), [TapUnit(Hour)], PlusTaps(n));
    PlusTapsAdd(Init().(timeUnit := Hour), n);
  }

  /** Once the app's + overflows, the duration is negative and the text shows
      a negative number of seconds. The guard of - then rejects every tap, so -
      can no longer reduce it; only further + taps, which now add without
      wrapping, bring it back up. */
  lemma AsWrittenOverflowBlocksMinus(s: TimerState)
    requires Inv(s) && s.countdownStart > IntMax - StepMillis(s.timeUnit)
    ensures IncrementAsWritten(s).countdownStart ==
              s.countdownStart + StepMillis(s.timeUnit) - 2 * (IntMax + 1)
    ensures IncrementAsWritten(s).countdownStart < 0 && !Inv(IncrementAsWritten(s))
    ensures IncrementAsWritten(s).timeLeft < 0
    ensures Decrement(IncrementAsWritten(s)) == IncrementAsWritten(s)
    ensures IncrementAsWritten(IncrementAsWritten(s)).countdownStart ==
              IncrementAsWritten(s).countdownStart + StepMillis(s.timeUnit)
  {
  }

  /** `n` taps on the app's own +, with the controls on screen. */
  function IncrementsAsWritten(s: TimerState, n: nat): (r: TimerState)
    ensures r.timeUnit == s.timeUnit && r.timerRunning == s.timerRunning
    decreases n
  {
    if n == 0 then s else IncrementsAsWritten(IncrementAsWritten(s), n - 1)
  }

  /** The app's + adds `n` steps without wrapping as long as every partial sum
      stays an Int, even from a negative duration. */
  lemma {:induction false} IncrementsAsWrittenAdd(s: TimerState, n: nat)
    requires -IntMax - 1 <= s.countdownStart
    requires s.countdownStart + n * StepMillis(s.timeUnit) <= IntMax
    ensures IncrementsAsWritten(s, n).countdownStart ==
              s.countdownStart + n * StepMillis(s.timeUnit)
    decreases n
  {
    if n > 0 {
      var step := StepMillis(s.timeUnit);
      assert s.countdownStart + step <= s.countdownStart + n * step;
      IncrementsAsWrittenAdd(IncrementAsWritten(s), n - 1);
    }
  }

  /** From start-up, select H and tap + 597 times: the first 596 taps still fit
      in an Int (2145610000 ms), and the app's 597th turns the duration into
      -2145757296 ms, shown as -2145757 s. The app's + then needs 597 more taps
      to make the duration positive again: after 596 it is still negative. */
  lemma IncrementAsWrittenOverflows()
    ensures 10000 + 596 * StepMillis(Hour) <= IntMax < 10000 + 597 * StepMillis(Hour)
    ensures AllOk([TapUnit(Hour)] + PlusTaps(596))
    ensures Run(Init(), [TapUnit(Hour)] + PlusTaps(596)).countdownStart == 2145610000
    ensures IncrementAsWritten(Run(Init(), [TapUnit(Hour)] + PlusTaps(596))).countdownStart
              == -2145757296
    ensures IncrementAsWritten(Run(Init(), [TapUnit(Hour)] + PlusTaps(596))).timeLeft
              == -2145757
    ensures IncrementsAsWritten(IncrementAsWritten(Run(Init(), [TapUnit(Hour)] + PlusTaps(596))), 596)
              .countdownStart < 0
    ensures IncrementsAsWritten(IncrementAsWritten(Run(Init(), [TapUnit(Hour)] + PlusTaps(596))), 597)
              .countdownStart > 0
  {
    ReachableByHourTaps(596);
    var wrapped := IncrementAsWritten(Run(Init(), [TapUnit(Hour)] + PlusTaps(596)));
    IncrementsAsWrittenAdd(wrapped, 596);
    IncrementsAsWrittenAdd(wrapped, 597);
  }

  /** The corrected + agrees with the app whenever the app's sum does not
      overflow, and otherwise keeps the duration. */
  lemma IncrementMatchesAsWritten(s: TimerState)
    requires Inv(s)
    ensures s.countdownStart <= IntMax - StepMillis(s.timeUnit) ==>
              Increment(s) == IncrementAsWritten(s)
    ensures s.countdownStart > IntMax - StepMillis(s.timeUnit) ==>
              IncrementAsWritten(s).countdownStart < 0 && Increment(s) == s
  {
  }

  // ---------------------------------------------------------------------------
  // Example sessions

  /** Ten seconds, Begin, a tick at 5000 ms: half the ring and 5 s; then expiry
      brings back the idle screen with 10 s. */
  lemma ExampleTickThenExpire()
    ensures Run(Init(), [TapButton, TimerTick(5000)]).progress == 0.5
    ensures Run(Init(), [TapButton, TimerTick(5000)]).timeLeft == 5
    ensures Run(Init(), [TapButton, TimerTick(5000), TimerFinish]) == Init()
  {
  }

  /** Unit M, then +: 70000 ms and 70 s. */
  lemma ExampleMinutePlus()
    ensures Run(Init(), [TapUnit(Minute), TapPlus]).countdownStart == 70000
    ensures Run(Init(), [TapUnit(Minute), TapPlus]).timeLeft == 70
  {
  }

  /** Unit H, then -: rejected, still 10000 ms. */
  lemma ExampleHourMinusRejected()
    ensures Run(Init(), [TapUnit(Hour), TapMinus]).countdownStart == 10000
    ensures Run(Init(), [TapUnit(Hour), TapMinus]).timeLeft == 10
  {
  }
}
