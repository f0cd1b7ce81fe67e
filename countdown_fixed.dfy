/**
  The countdown hook as it is evidently meant to behave: a firing tests the
  live `timeLeft` rather than a stale capture and never takes it below zero,
  `pause` empties `intervalRef`, and `start` does nothing while a timer is
  referenced. With these three changes at most one timer ever runs, it is
  the referenced one, `pause` and the unmount cleanup stop it, and the
  countdown ends at zero.
*/
module CountDownFixed {
  import opened CountDown

  /** `start`, guarded: a second start while a timer is referenced is ignored. */
  function FixedStart(s: State, id: TimerId): (r: State)
    requires id !in s.running
    ensures r.duration == s.duration && r.interval == s.interval
    ensures r.timeLeft == s.timeLeft
    ensures s.intervalRef.Some? ==> r.running == s.running && r.intervalRef == s.intervalRef
    ensures s.intervalRef.None? ==> r.running.Keys == s.running.Keys + {id} && r.intervalRef == Some(id)
  {
    if s.intervalRef.Some? then s else AfterStart(s, id)
  }

  /** `pause` that also forgets the timer it cleared. */
  function FixedPause(s: State): (r: State)
    ensures r.duration == s.duration && r.interval == s.interval
    ensures r.timeLeft == s.timeLeft
    ensures r.intervalRef == None
    ensures r.running.Keys == s.running.Keys - Referenced(s)
  {
    AfterPause(s).(intervalRef := None)
  }

  /** A firing that tests the live value and stops at zero. */
  function FixedTick(s: State, id: TimerId): (r: State)
    requires id in s.running
    ensures r.duration == s.duration && r.interval == s.interval
    ensures s.timeLeft > 0 ==> r.running == s.running && r.intervalRef == s.intervalRef
    ensures s.timeLeft > 0 ==> r.timeLeft >= 0
    ensures s.timeLeft > 0 && s.interval > 0 ==> r.timeLeft < s.timeLeft
    ensures s.timeLeft > 0 && s.timeLeft >= s.interval ==> r.timeLeft == s.timeLeft - s.interval
    ensures 0 < s.timeLeft < s.interval ==> r.timeLeft == 0
    ensures s.timeLeft <= 0 ==> r == FixedPause(s)
  {
    if s.timeLeft > 0 then
      s.(timeLeft := if s.timeLeft > s.interval then s.timeLeft - s.interval else 0)
    else
      FixedPause(s)
  }

  function FixedReset(s: State): (r: State)
    ensures r.duration == s.duration && r.interval == s.interval
    ensures r.timeLeft == s.duration
    ensures r.intervalRef == None
    ensures r.running.Keys == s.running.Keys - Referenced(s)
    ensures forall k :: k in r.running ==> r.running[k] == s.running[k]
  {
    FixedPause(s).(timeLeft := s.duration)
  }

  function FixedStep(s: State, e: Event): State
    requires Enabled(s, e)
  {
    match e
    case Start(id) => FixedStart(s, id)
    case Tick(id) => FixedTick(s, id)
    case Pause => FixedPause(s)
    case Reset => FixedReset(s)
    case Unmount => FixedPause(s)
  }

  predicate FixedFeasible(s: State, es: seq<Event>)
    decreases |es|
  {
    |es| == 0 || (Enabled(s, es[0]) && FixedFeasible(FixedStep(s, es[0]), es[1..]))
  }

  function FixedRun(s: State, es: seq<Event>): State
    requires FixedFeasible(s, es)
    decreases |es|
  {
    if |es| == 0 then s else FixedRun(FixedStep(s, es[0]), es[1..])
  }

  /**
    The corrected hook's invariant: the running timers are exactly the
    referenced one (or none), and neither `duration` nor `timeLeft` is
    negative.
  */
  predicate FixedInv(s: State)
  {
    s.running.Keys == Referenced(s) && 0 <= s.timeLeft && 0 <= s.duration
  }

  lemma FixedInitialInv(o: Options)
    requires o.duration.Some? ==> o.duration.value >= 0
    ensures FixedInv(Initial(o))
  {
  }

  lemma FixedStepKeepsInv(s: State, e: Event)
    requires FixedInv(s) && Enabled(s, e)
    ensures FixedInv(FixedStep(s, e))
  {
  }

  /** Every event sequence keeps the invariant: no timer leaks, no negative time. */
  lemma {:induction false} FixedInvAlongTrace(s: State, es: seq<Event>)
    requires FixedInv(s) && FixedFeasible(s, es)
    ensures FixedInv(FixedRun(s, es))
    decreases |es|
  {
    if |es| > 0 {
      FixedStepKeepsInv(s, es[0]);
      FixedInvAlongTrace(FixedStep(s, es[0]), es[1..]);
    }
  }

  /** Two starts and a pause leave nothing running. */
  lemma FixedDoubleStartPauseStopsAll(s: State, first: TimerId, second: TimerId)
    requires FixedInv(s)
    requires first !in s.running
    requires second !in FixedStart(s, first).running
    ensures FixedPause(FixedStart(FixedStart(s, first), second)).running == map[]
  {
    FixedStepKeepsInv(s, Start(first));
    FixedStepKeepsInv(FixedStart(s, first), Start(second));
  }

  /** The unmount cleanup stops every timer. */
  lemma FixedUnmountStopsAll(s: State)
    requires FixedInv(s)
    ensures FixedPause(s).running == map[]
  {
  }

  /**
    Each firing either stops the countdown or lowers `timeLeft`, which never
    goes below zero: the countdown always ends.
  */
  lemma FixedTickMakesProgress(s: State, id: TimerId)
    requires FixedInv(s) && id in s.running && s.interval > 0
    ensures var r := FixedTick(s, id);
      r.running == map[] || 0 <= r.timeLeft < s.timeLeft
  {
  }

  /**
    While at least `n` whole intervals remain, `n` firings lower `timeLeft`
    by exactly `n` intervals.
  */
  lemma {:induction false} FixedTicksCountDown(s: State, id: TimerId, n: nat)
    requires FixedInv(s) && id in s.running && s.interval > 0
    requires n * s.interval <= s.timeLeft
    ensures FixedFeasible(s, Ticks(id, n))
    ensures FixedRun(s, Ticks(id, n)) == s.(timeLeft := s.timeLeft - n * s.interval)
    decreases n
  {
    if n > 0 {
      assert n * s.interval == (n - 1) * s.interval + s.interval;
      assert (n - 1) * s.interval >= 0;
      var t := FixedTick(s, id);
      assert t == s.(timeLeft := s.timeLeft - s.interval);
      FixedTicksCountDown(t, id, n - 1);
      assert Ticks(id, n)[1..] == Ticks(id, n - 1);
    }
  }

  /**
    Five seconds in one-second steps: three firings leave 2000, five leave
    0, and the sixth stops the timer with `timeLeft` still 0.
  */
  lemma FixedFiveSecondScenario()
    ensures var s := FixedStart(Initial(Options(Some(5000), None)), 1);
      && FixedFeasible(s, Ticks(1, 3)) && FixedRun(s, Ticks(1, 3)).timeLeft == 2000
      && FixedFeasible(s, Ticks(1, 5)) && FixedRun(s, Ticks(1, 5)).timeLeft == 0
      && 1 in FixedRun(s, Ticks(1, 5)).running
      && FixedTick(FixedRun(s, Ticks(1, 5)), 1).running == map[]
      && FixedTick(FixedRun(s, Ticks(1, 5)), 1).timeLeft == 0
  {
    var s := FixedStart(Initial(Options(Some(5000), None)), 1);
    assert FixedInv(s);
    FixedTicksCountDown(s, 1, 3);
    FixedTicksCountDown(s, 1, 5);
  }
}
