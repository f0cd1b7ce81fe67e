/**
  What the countdown hook guarantees, and fails to guarantee, over any
  sequence of operations and timer firings.
*/
module CountDownProperties {
  import opened CountDown

  /** Running timers that `intervalRef` no longer designates. */
  function Orphans(s: State): set<TimerId>
  {
    s.running.Keys - Referenced(s)
  }

  /** `k` whole intervals of length `i`. */
  function Intervals(k: nat, i: int): int
  {
    k * i
  }

  /**
    The invariant of every reachable state: without a reference no timer
    runs, and (for a positive interval) `timeLeft` lies a whole number of
    intervals below `duration`.
  */
  ghost predicate Reachable(s: State)
  {
    && (s.intervalRef.None? ==> s.running == map[])
    && (s.interval > 0 ==> exists k: nat :: s.duration - s.timeLeft == Intervals(k, s.interval))
  }

  lemma StepKeepsReachable(s: State, e: Event)
    requires Reachable(s) && Enabled(s, e)
    ensures Reachable(Step(s, e))
  {
    match e
    case Tick(id) =>
      if s.running[id] > 0 && s.interval > 0 {
        var k: nat :| s.duration - s.timeLeft == Intervals(k, s.interval);
        assert Intervals(k + 1, s.interval) == Intervals(k, s.interval) + s.interval;
        assert Step(s, e).duration - Step(s, e).timeLeft == Intervals(k + 1, s.interval);
      }
    case Reset =>
      if s.interval > 0 {
        assert Step(s, e).duration - Step(s, e).timeLeft == Intervals(0, s.interval);
      }
    case _ =>
  }

  /** Every state the hook can reach from its first render satisfies the invariant. */
  lemma {:induction false} ReachableAlongTrace(s: State, es: seq<Event>)
    requires Reachable(s) && Feasible(s, es)
    ensures Reachable(Run(s, es))
    decreases |es|
  {
    if |es| > 0 {
      StepKeepsReachable(s, es[0]);
      ReachableAlongTrace(Step(s, es[0]), es[1..]);
    }
  }

  lemma InitialReachable(o: Options)
    ensures Reachable(Initial(o))
  {
    var s := Initial(o);
    assert s.duration - s.timeLeft == Intervals(0, s.interval);
  }

  /** With a positive interval, `timeLeft` never exceeds `duration`. */
  lemma ReachableBelowDuration(s: State)
    requires Reachable(s) && s.interval > 0
    ensures s.timeLeft <= s.duration
  {
    var k: nat :| s.duration - s.timeLeft == Intervals(k, s.interval);
  }

  /**
    Before any `start`, `pause` (and the unmount cleanup) change nothing,
    whatever happened before.
  */
  lemma PauseBeforeAnyStartIsNoOp(o: Options, es: seq<Event>)
    requires Feasible(Initial(o), es)
    requires forall i :: 0 <= i < |es| ==> !es[i].Start?
    ensures Run(Initial(o), es).running == map[]
    ensures AfterPause(Run(Initial(o), es)) == Run(Initial(o), es)
  {
    NoStartNoReference(Initial(o), es);
    InitialReachable(o);
    ReachableAlongTrace(Initial(o), es);
  }

  lemma {:induction false} NoStartNoReference(s: State, es: seq<Event>)
    requires Feasible(s, es)
    requires forall i :: 0 <= i < |es| ==> !es[i].Start?
    ensures Run(s, es).intervalRef == s.intervalRef
    decreases |es|
  {
    if |es| > 0 {
      assert !es[0].Start?;
      NoStartNoReference(Step(s, es[0]), es[1..]);
    }
  }

  /**
    An orphaned timer stays running, with the same capture, and stays an
    orphan, whatever single event comes next.
  */
  lemma StepKeepsOrphans(s: State, e: Event)
    requires Enabled(s, e)
    ensures Orphans(s) <= Orphans(Step(s, e))
    ensures forall k :: k in Orphans(s) ==> Step(s, e).running[k] == s.running[k]
  {
  }

  /** No sequence of operations or firings ever stops an orphaned timer. */
  lemma {:induction false} OrphansOutliveEveryTrace(s: State, es: seq<Event>)
    requires Feasible(s, es)
    ensures Orphans(s) <= Orphans(Run(s, es))
    ensures forall k :: k in Orphans(s) ==> Run(s, es).running[k] == s.running[k]
    decreases |es|
  {
    if |es| > 0 {
      StepKeepsOrphans(s, es[0]);
      OrphansOutliveEveryTrace(Step(s, es[0]), es[1..]);
    }
  }

  /**
    Two starts with no pause between them, then a pause: the second timer
    stops and the first one is still running with its capture.
  */
  lemma DoubleStartPauseLeavesFirst(s: State, first: TimerId, second: TimerId)
    requires first !in s.running
    requires second !in AfterStart(s, first).running
    ensures var r := AfterPause(AfterStart(AfterStart(s, first), second));
      first in r.running && r.running[first] == s.timeLeft && second !in r.running
  {
  }

  /**
    After a double start, the first timer survives every later sequence of
    events, the unmount cleanup included.
  */
  lemma DoubleStartLeaksForever(s: State, first: TimerId, second: TimerId, es: seq<Event>)
    requires first !in s.running
    requires second !in AfterStart(s, first).running
    requires Feasible(AfterStart(AfterStart(s, first), second), es)
    ensures var r := Run(AfterStart(AfterStart(s, first), second), es);
      first in r.running && r.running[first] == s.timeLeft
      && first in AfterUnmount(r).running
  {
    var t := AfterStart(AfterStart(s, first), second);
    assert first in Orphans(t);
    OrphansOutliveEveryTrace(t, es);
  }

  /**
    A timer whose capture is positive never stops itself: after any number
    `n` of its firings it is still running and `timeLeft` has dropped by
    exactly `n` intervals, with nothing else changed.
  */
  lemma {:induction false} PositiveCaptureTicks(s: State, id: TimerId, n: nat)
    requires id in s.running && s.running[id] > 0
    ensures Feasible(s, Ticks(id, n))
    ensures Run(s, Ticks(id, n)) == s.(timeLeft := s.timeLeft - n * s.interval)
    decreases n
  {
    if n > 0 {
      var t := AfterTick(s, id);
      PositiveCaptureTicks(t, id, n - 1);
      assert Ticks(id, n)[1..] == Ticks(id, n - 1);
      assert (n - 1) * s.interval + s.interval == n * s.interval;
    }
  }

  /**
    With a positive interval, a timer started while `timeLeft` was positive
    drives `timeLeft` below zero and is still running afterwards.
  */
  lemma StaleCaptureRunsNegative(s: State, id: TimerId)
    requires id in s.running && s.running[id] > 0
    requires s.interval > 0 && s.timeLeft >= 0
    ensures Feasible(s, Ticks(id, s.timeLeft / s.interval + 1))
    ensures var r := Run(s, Ticks(id, s.timeLeft / s.interval + 1));
      r.timeLeft < 0 && id in r.running
  {
    var q := s.timeLeft / s.interval;
    PositiveCaptureTicks(s, id, q + 1);
    assert s.timeLeft == q * s.interval + s.timeLeft % s.interval;
    assert (q + 1) * s.interval == q * s.interval + s.interval;
  }

  /**
    Five seconds counted down in one-second steps: three firings leave
    2000, five leave 0, and the sixth takes `timeLeft` to -1000 with the
    timer still running.
  */
  lemma FiveSecondScenario()
    ensures var s := AfterStart(Initial(Options(Some(5000), None)), 1);
      && Feasible(s, Ticks(1, 3)) && Run(s, Ticks(1, 3)).timeLeft == 2000
      && Feasible(s, Ticks(1, 5)) && Run(s, Ticks(1, 5)).timeLeft == 0
      && Feasible(s, Ticks(1, 6)) && Run(s, Ticks(1, 6)).timeLeft == -1000
      && 1 in Run(s, Ticks(1, 6)).running
  {
    var s := AfterStart(Initial(Options(Some(5000), None)), 1);
    PositiveCaptureTicks(s, 1, 3);
    PositiveCaptureTicks(s, 1, 5);
    PositiveCaptureTicks(s, 1, 6);
  }

  /**
    A timer whose capture is zero or negative, and which `intervalRef` no
    longer designates, keeps firing: its first firing stops the referenced
    timer, every later one changes nothing, and it is never stopped.
  */
  lemma ExpiredOrphanFiresForever(s: State, id: TimerId)
    requires id in s.running && s.running[id] <= 0
    requires s.intervalRef != Some(id)
    ensures var r := AfterTick(s, id);
      id in r.running && r.timeLeft == s.timeLeft && AfterTick(r, id) == r
  {
  }

  /** The referenced timer whose capture is not positive stops itself when it fires. */
  lemma ExpiredReferencedTimerStops(s: State, id: TimerId)
    requires id in s.running && s.running[id] <= 0
    requires s.intervalRef == Some(id)
    ensures id !in AfterTick(s, id).running
  {
  }

  /** Calling `reset` twice gives the same state as calling it once. */
  lemma ResetIsIdempotent(s: State)
    ensures AfterReset(AfterReset(s)) == AfterReset(s)
  {
  }

  /** The unmount cleanup is exactly `pause`. */
  lemma UnmountIsPause(s: State)
    ensures AfterUnmount(s) == AfterPause(s)
  {
  }
}
