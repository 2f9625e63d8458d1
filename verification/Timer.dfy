/** Clocks, metrics, and the timer that observes how long it has lived. */
module Timer {
  import opened Basics

  datatype Timespec = Timespec(sec: int, nsec: int) {
    predicate Valid() { 0 <= nsec < SECOND }

    function Nanos(): int { sec * SECOND + nsec }
  }

  /** The arithmetic of the destructor of `ScopeTimer`: the nanosecond fields may borrow. */
  function Elapsed(start: Timespec, now: Timespec): int {
    (now.nsec - start.nsec) + (now.sec - start.sec) * SECOND
  }

  /** The elapsed time is the exact difference, and it is not negative when the clock did not go back. */
  lemma ElapsedIsExact(start: Timespec, now: Timespec)
    requires start.Valid() && now.Valid()
    ensures Elapsed(start, now) == now.Nanos() - start.Nanos()
    ensures now.Nanos() == now.sec * 1_000_000_000 + now.nsec
    ensures (start.sec < now.sec || (start.sec == now.sec && start.nsec <= now.nsec)) <==> 0 <= Elapsed(start, now)
  {
  }

  /** CLOCK_MONOTONIC */
  class Clock {
    var now: Timespec

    constructor (now: Timespec)
      ensures this.now == now
    {
      this.now := now;
    }

    method Advance(d: nat)
      requires now.Valid()
      modifies this
      ensures now.Valid() && now.Nanos() == old(now.Nanos()) + d
    {
      var n := now.nsec + d;
      now := Timespec(now.sec + n / SECOND, n % SECOND);
    }
  }

  class Metric {
    var observations: seq<int>  // nanoseconds

    constructor ()
      ensures observations == []
    {
      observations := [];
    }

    method Observe(elapsed: int)
      modifies this
      ensures observations == old(observations) + [elapsed]
    {
      observations := observations + [elapsed];
    }
  }

  class Counter {
    var value: nat

    constructor ()
      ensures value == 0
    {
      value := 0;
    }

    method Increment()
      modifies this
      ensures value == old(value) + 1
    {
      value := value + 1;
    }
  }

  /** A `ScopeTimer` whose callback observes into `metric`. */
  datatype ScopeTimer = ScopeTimer(start: Timespec, metric: Metric)

  /** The observations of `m` once the timer `t` has been destroyed at `now`. */
  function AfterEnd(t: Option<ScopeTimer>, now: Timespec, m: Metric): seq<int>
    reads m
  {
    if t.Some? && t.value.metric == m then m.observations + [Elapsed(t.value.start, now)] else m.observations
  }

  class Timer {
    var timer: Option<ScopeTimer>

    constructor (metric: Metric?, startCounter: Counter?, clock: Clock)
      modifies startCounter
      ensures timer == if metric == null then None else Some(ScopeTimer(clock.now, metric))
      ensures startCounter != null ==> startCounter.value == old(startCounter.value) + 1
    {
      timer := None;
      new;
      Reset(metric, startCounter, clock);
    }

    /** A running timer ends and observes; with a metric a new one starts. */
    method Reset(metric: Metric?, startCounter: Counter?, clock: Clock)
      modifies this, startCounter, (if timer.Some? then {timer.value.metric} else {})
      ensures timer == if metric == null then None else Some(ScopeTimer(clock.now, metric))
      ensures old(timer).Some? ==>
                var m := old(timer.value.metric);
                m.observations == old(AfterEnd(timer, clock.now, timer.value.metric))
      ensures startCounter != null ==> startCounter.value == old(startCounter.value) + 1
    {
      var ended := timer;
      timer := if metric == null then None else Some(ScopeTimer(clock.now, metric));
      End(ended, clock);
      if startCounter != null {
        startCounter.Increment();
      }
    }

    /** Move assignment: a running timer ends and observes; the other one goes on here. */
    method MoveFrom(other: Timer, clock: Clock)
      modifies this, other, (if timer.Some? then {timer.value.metric} else {})
      ensures other == this ==> timer == old(timer) && (timer.Some? ==> unchanged(old(timer.value.metric)))
      ensures other != this ==>
                && timer == old(other.timer) && other.timer == None
                && (old(timer).Some? ==>
                      var m := old(timer.value.metric);
                      m.observations == old(AfterEnd(timer, clock.now, timer.value.metric)))
    {
      if other != this {
        var ended := timer;
        timer := other.timer;
        other.timer := None;
        End(ended, clock);
      }
    }

    /** The destructor. */
    method Destroy(clock: Clock)
      modifies this, (if timer.Some? then {timer.value.metric} else {})
      ensures timer == None
      ensures old(timer).Some? ==>
                var m := old(timer.value.metric);
                m.observations == old(AfterEnd(timer, clock.now, timer.value.metric))
    {
      var ended := timer;
      timer := None;
      End(ended, clock);
    }

    static method End(ended: Option<ScopeTimer>, clock: Clock)
      modifies if ended.Some? then {ended.value.metric} else {}
      ensures ended.Some? ==> ended.value.metric.observations == old(AfterEnd(ended, clock.now, ended.value.metric))
    {
      if ended.Some? {
        ended.value.metric.Observe(Elapsed(ended.value.start, clock.now));
      }
    }
  }
}
