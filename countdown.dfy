/**
  The countdown hook: a remaining time `timeLeft` that starts at `duration`,
  a fixed `interval`, a slot `intervalRef` remembering the most recently
  started repeating timer, and the set of repeating timers the host is still
  running.

  Each running timer's callback is a closure over the value of `timeLeft` at
  the moment `start` was called. Its zero test reads that captured value; its
  decrement reads the live one. The state is therefore a value whose
  `running` map takes each timer id to the capture of its callback.

  The hook's behaviour is given twice: once as functions from a state to the
  state after an operation (`AfterStart`, `AfterTick`, ...), and once as the
  class `Hook`, whose fields the operations update in place and whose methods
  are proved to agree with those functions.
*/
module CountDown {

  datatype Option<T> = None | Some(value: T)

  /**
    The handle the host's `setInterval` returns for a repeating timer. Ids
    are abstract names; the class below hands them out from 1 upwards, as
    browsers do, so a present handle is never 0.
  */
  type TimerId = nat

  const DefaultDuration: int := 60000
  const DefaultInterval: int := 1000

  /** The hook's argument object; a field left undefined takes its default. */
  datatype Options = Options(duration: Option<int>, interval: Option<int>)

  /**
    `running` maps each repeating timer still scheduled to the value of
    `timeLeft` its callback captured when `start` created it.
  */
  datatype State = State(
    duration: int,
    interval: int,
    timeLeft: int,
    intervalRef: Option<TimerId>,
    running: map<TimerId, int>)

  /** The timers `intervalRef` designates: none before the first start, else one. */
  function Referenced(s: State): set<TimerId>
  {
    if s.intervalRef.Some? then {s.intervalRef.value} else {}
  }

  /** The state the hook holds on its first render. */
  function Initial(o: Options): (s: State)
    ensures o.duration.None? ==> s.duration == 60000
    ensures o.duration.Some? ==> s.duration == o.duration.value
    ensures o.interval.None? ==> s.interval == 1000
    ensures o.interval.Some? ==> s.interval == o.interval.value
    ensures s.timeLeft == s.duration
    ensures s.intervalRef == None && s.running == map[]
  {
    var duration := if o.duration.Some? then o.duration.value else DefaultDuration;
    var interval := if o.interval.Some? then o.interval.value else DefaultInterval;
    State(duration, interval, duration, None, map[])
  }

  /**
    `start`: the host schedules a new repeating timer `id` (never one that
    is still running); its callback captures the current `timeLeft`, and
    `intervalRef` is overwritten with `id`. Earlier timers keep running.
  */
  function AfterStart(s: State, id: TimerId): (r: State)
    requires id !in s.running
    ensures r.duration == s.duration && r.interval == s.interval
    ensures r.timeLeft == s.timeLeft
    ensures r.intervalRef == Some(id)
    ensures r.running.Keys == s.running.Keys + {id}
    ensures r.running[id] == s.timeLeft
    ensures forall k :: k in s.running ==> r.running[k] == s.running[k]
  {
    s.(intervalRef := Some(id), running := s.running[id := s.timeLeft])
  }

  /**
    `pause`: clears the timer `intervalRef` designates, if any. The slot
    itself is left as it is, and `timeLeft` is untouched.
  */
  function AfterPause(s: State): (r: State)
    ensures r.duration == s.duration && r.interval == s.interval
    ensures r.timeLeft == s.timeLeft
    ensures r.intervalRef == s.intervalRef
    ensures r.running.Keys == s.running.Keys - Referenced(s)
    ensures forall k :: k in r.running ==> r.running[k] == s.running[k]
    ensures s.intervalRef.None? ==> r == s
  {
    if s.intervalRef.Some? then s.(running := s.running - {s.intervalRef.value}) else s
  }

  /**
    One firing of the running timer `id`: if the value its callback captured
    is positive, the live `timeLeft` drops by `interval`; otherwise the
    callback calls `pause`, which stops whichever timer `intervalRef`
    designates, not necessarily `id`.
  */
  function AfterTick(s: State, id: TimerId): (r: State)
    requires id in s.running
    ensures s.running[id] > 0 ==> r == s.(timeLeft := s.timeLeft - s.interval)
    ensures s.running[id] <= 0 ==> r.timeLeft == s.timeLeft
    ensures s.running[id] <= 0 ==> r.running.Keys == s.running.Keys - Referenced(s)
    ensures r.duration == s.duration && r.interval == s.interval
    ensures r.intervalRef == s.intervalRef
    ensures forall k :: k in r.running ==> r.running[k] == s.running[k]
  {
    if s.running[id] > 0 then s.(timeLeft := s.timeLeft - s.interval) else AfterPause(s)
  }

  /** `reset`: `pause`, then `timeLeft` back to `duration`. */
  function AfterReset(s: State): (r: State)
    ensures r.duration == s.duration && r.interval == s.interval
    ensures r.timeLeft == s.duration
    ensures r.intervalRef == s.intervalRef
    ensures r.running.Keys == s.running.Keys - Referenced(s)
    ensures forall k :: k in r.running ==> r.running[k] == s.running[k]
  {
    AfterPause(s).(timeLeft := s.duration)
  }

  /** The cleanup the hook registers for unmount: it calls `pause`. */
  function AfterUnmount(s: State): (r: State)
    ensures r.duration == s.duration && r.interval == s.interval
    ensures r.timeLeft == s.timeLeft
    ensures r.intervalRef == s.intervalRef
    ensures r.running.Keys == s.running.Keys - Referenced(s)
    ensures forall k :: k in r.running ==> r.running[k] == s.running[k]
  {
    AfterPause(s)
  }

  /** The things that can happen to the hook, in the order the host delivers them. */
  datatype Event = Start(id: TimerId) | Tick(id: TimerId) | Pause | Reset | Unmount

  /** The host only hands out fresh ids and only fires timers that are running. */
  predicate Enabled(s: State, e: Event)
  {
    match e
    case Start(id) => id !in s.running
    case Tick(id) => id in s.running
    case _ => true
  }

  function Step(s: State, e: Event): State
    requires Enabled(s, e)
  {
    match e
    case Start(id) => AfterStart(s, id)
    case Tick(id) => AfterTick(s, id)
    case Pause => AfterPause(s)
    case Reset => AfterReset(s)
    case Unmount => AfterUnmount(s)
  }

  /** Every event of `es` is enabled in the state its predecessors lead to. */
  predicate Feasible(s: State, es: seq<Event>)
    decreases |es|
  {
    |es| == 0 || (Enabled(s, es[0]) && Feasible(Step(s, es[0]), es[1..]))
  }

  function Run(s: State, es: seq<Event>): State
    requires Feasible(s, es)
    decreases |es|
  {
    if |es| == 0 then s else Run(Step(s, es[0]), es[1..])
  }

  /** `n` consecutive firings of timer `id`. */
  function Ticks(id: TimerId, n: nat): seq<Event>
  {
    if n == 0 then [] else [Tick(id)] + Ticks(id, n - 1)
  }

  /**
    The hook as an object with mutable state. `nextId` stands for the host's
    timer table: the next handle `setInterval` gives out.
  */
  class Hook {
    const duration: int
    const interval: int
    var timeLeft: int
    var intervalRef: Option<TimerId>
    var running: map<TimerId, int>
    var nextId: TimerId

    /** The host never hands out a handle that is still running. */
    ghost predicate Valid()
      reads this
    {
      forall k :: k in running ==> k < nextId
    }

    function Model(): State
      reads this
    {
      State(duration, interval, timeLeft, intervalRef, running)
    }

    constructor (o: Options)
      ensures Valid()
      ensures Model() == Initial(o)
    {
      var s := Initial(o);
      duration := s.duration;
      interval := s.interval;
      timeLeft := s.timeLeft;
      intervalRef := None;
      running := map[];
      nextId := 1;
    }

    method Start()
      requires Valid()
      modifies this
      ensures Valid()
      ensures old(nextId) !in old(running)
      ensures Model() == AfterStart(old(Model()), old(nextId))
    {
      var id := nextId;
      nextId := nextId + 1;
      running := running[id := timeLeft];
      intervalRef := Some(id);
    }

    method Pause()
      requires Valid()
      modifies this
      ensures Valid() && nextId == old(nextId)
      ensures Model() == AfterPause(old(Model()))
    {
      if intervalRef.Some? {
        running := running - {intervalRef.value};
      }
    }

    /** The callback of the running timer `id`, fired by the host. */
    method Tick(id: TimerId)
      requires Valid() && id in running
      modifies this
      ensures Valid() && nextId == old(nextId)
      ensures Model() == AfterTick(old(Model()), id)
    {
      if running[id] > 0 {
        timeLeft := timeLeft - interval;
      } else {
        Pause();
      }
    }

    method Reset()
      requires Valid()
      modifies this
      ensures Valid() && nextId == old(nextId)
      ensures Model() == AfterReset(old(Model()))
    {
      Pause();
      timeLeft := duration;
    }

    /** The cleanup run when the component using the hook unmounts. */
    method Unmount()
      requires Valid()
      modifies this
      ensures Valid() && nextId == old(nextId)
      ensures Model() == AfterUnmount(old(Model()))
    {
      Pause();
    }
  }
}
