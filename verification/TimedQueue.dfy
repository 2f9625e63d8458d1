/** A queue that observes how long each element was in it. */
module TimedQueue {
  import opened Basics
  import opened Timer
  import Law = TimerLaw

  // ---- runs of a queue ----

  /** A queue with a metric attached, on its own clock: the elements with the time each came in, the
      waits observed, the push counter, and the values pushed and handed out so far. */
  datatype State<T> = State(
    now: int, items: seq<(T, int)>, observed: seq<int>, pushes: nat, pushed: seq<T>, popped: seq<T>)
  {
    function Values(): (vs: seq<T>)
      ensures |vs| == |items|
    {
      seq(|items|, i requires 0 <= i < |items| => items[i].0)
    }

    function Starts(): (ts: seq<int>)
      ensures |ts| == |items|
    {
      seq(|items|, i requires 0 <= i < |items| => items[i].1)
    }

    /** The queue as a set of running timers. */
    function Timers(): Law.State { Law.State(now, Starts(), observed, pushes) }
  }

  datatype Op<T> = Push(v: T) | Pop | Advance(d: nat)

  predicate Enabled<T>(s: State<T>, op: Op<T>) {
    op.Pop? ==> s.items != []
  }

  function Apply<T>(s: State<T>, op: Op<T>): State<T>
    requires Enabled(s, op)
  {
    match op
    case Push(v) => s.(items := s.items + [(v, s.now)], pushes := s.pushes + 1, pushed := s.pushed + [v])
    case Pop => s.(items := s.items[1..], observed := s.observed + [s.now - s.items[0].1], popped := s.popped + [s.items[0].0])
    case Advance(d) => s.(now := s.now + d)
  }

  predicate Possible<T>(s: State<T>, ops: seq<Op<T>>)
    decreases |ops|
  {
    ops == [] || (Enabled(s, ops[0]) && Possible(Apply(s, ops[0]), ops[1..]))
  }

  function Run<T>(s: State<T>, ops: seq<Op<T>>): State<T>
    requires Possible(s, ops)
    decreases |ops|
  {
    if ops == [] then s else Run(Apply(s, ops[0]), ops[1..])
  }

  function Empty<T>(now: int): State<T> { State(now, [], [], 0, [], []) }

  /** The length of the queue, summed over the time that passes. */
  function LengthOverTime<T>(s: State<T>, ops: seq<Op<T>>): int
    requires Possible(s, ops)
    decreases |ops|
  {
    if ops == [] then 0
    else (if ops[0].Advance? then ops[0].d * |s.items| else 0) + LengthOverTime(Apply(s, ops[0]), ops[1..])
  }

  /** What the timers of the elements do in an operation of the queue. */
  function TimerOp<T>(op: Op<T>): Law.Op {
    match op
    case Push(_) => Law.Begin
    case Pop => Law.Fire(0)
    case Advance(d) => Law.Advance(d)
  }

  lemma ApplyTimers<T>(s: State<T>, op: Op<T>)
    requires Enabled(s, op)
    ensures Law.Enabled(s.Timers(), TimerOp(op))
    ensures Apply(s, op).Timers() == Law.Apply(s.Timers(), TimerOp(op))
  {
    if op.Pop? {
      assert Apply(s, op).Starts() == s.Starts()[..0] + s.Starts()[1..];
    }
  }

  /** First in, first out: the values come out in the order they went in, and the elements have been
      in the queue the longer the nearer they are to the front. */
  ghost predicate Ordered<T>(s: State<T>) {
    && s.pushed == s.popped + s.Values()
    && s.pushes == |s.pushed|
    && |s.observed| == |s.popped|
    && (forall i, j | 0 <= i <= j < |s.items| :: s.items[i].1 <= s.items[j].1 <= s.now)
    && (forall i | 0 <= i < |s.observed| :: 0 <= s.observed[i])
  }

  lemma ApplyKeepsOrder<T>(s: State<T>, op: Op<T>)
    requires Ordered(s) && Enabled(s, op)
    ensures Ordered(Apply(s, op))
  {
    var t := Apply(s, op);
    match op {
      case Push(v) =>
        assert t.Values() == s.Values() + [v];
      case Pop =>
        assert s.Values() == [s.items[0].0] + t.Values();
      case Advance(_) =>
    }
  }

  /** The law of the timers, for the steps of a queue. */
  lemma {:induction false} QueueLaw<T>(s: State<T>, ops: seq<Op<T>>)
    requires Possible(s, ops) && Ordered(s)
    ensures var t := Run(s, ops);
            && Ordered(t)
            && Law.Sum(t.observed) + Law.Ages(t.Timers()) == Law.Sum(s.observed) + Law.Ages(s.Timers()) + LengthOverTime(s, ops)
    decreases |ops|
  {
    hide Ordered, Enabled, Apply, Law.Sum, Law.Ages, Law.Apply;
    if ops != [] {
      ApplyKeepsOrder(s, ops[0]);
      ApplyTimers(s, ops[0]);
      Law.StepLaw(s.Timers(), TimerOp(ops[0]));
      QueueLaw(Apply(s, ops[0]), ops[1..]);
    }
  }

  /** In every run of a queue that starts empty: the waits observed and the ages of the elements still
      queued add up to the length of the queue summed over time; values leave in the order they came;
      every push was counted and every element that left was observed, once, with a wait that is not
      negative. Once the queue is empty the waits alone add up to the length over time. */
  lemma TimedQueueLaw<T>(now: int, ops: seq<Op<T>>)
    requires Possible(Empty(now), ops)
    ensures var t := Run(Empty(now), ops);
            && Ordered(t)
            && Law.Sum(t.observed) + Law.Ages(t.Timers()) == LengthOverTime(Empty(now), ops)
            && |t.observed| == t.pushes - |t.items|
            && (t.items == [] ==> Law.Sum(t.observed) == LengthOverTime(Empty(now), ops) && t.popped == t.pushed)
  {
    hide Run, Possible, LengthOverTime, Ordered, Empty, Law.Sum, Law.Ages;
    EmptyIsOrdered<T>(now);
    QueueLaw(Empty(now), ops);
    Counts(Run(Empty(now), ops));
  }

  lemma EmptyIsOrdered<T>(now: int)
    ensures Ordered(Empty<T>(now)) && Law.Sum(Empty<T>(now).observed) + Law.Ages(Empty<T>(now).Timers()) == 0
  {
  }

  lemma Counts<T>(s: State<T>)
    requires Ordered(s)
    ensures |s.observed| == s.pushes - |s.items|
    ensures s.items == [] ==> s.popped == s.pushed && Law.Ages(s.Timers()) == 0
  {
  }

  /** Popping until nothing is left. */
  function Drain<T>(s: State<T>): State<T>
    decreases |s.items|
  {
    if s.items == [] then s else Drain(Apply(s, Pop))
  }

  function Pops<T>(n: nat): seq<Op<T>> { seq(n, i => Pop) }

  /** Draining is a run of as many pops as there are elements. */
  lemma {:induction false} DrainIsPops<T>(s: State<T>)
    ensures Possible(s, Pops(|s.items|)) && Drain(s) == Run(s, Pops(|s.items|)) && Drain(s).items == []
    ensures Drain(s).pushes == s.pushes && Drain(s).pushed == s.pushed
    ensures LengthOverTime(s, Pops(|s.items|)) == 0
    decreases |s.items|
  {
    if s.items != [] {
      DrainIsPops(Apply(s, Pop));
      assert Pops<T>(|s.items|)[1..] == Pops(|s.items| - 1);
    }
  }

  /** After it everything that was pushed has left, in order, and was observed once; and the waits
      observed have grown by the ages that the elements had. */
  lemma DrainedLaw<T>(s: State<T>)
    requires Ordered(s)
    ensures var t := Drain(s);
            && Ordered(t) && t.items == [] && t.popped == t.pushed == s.pushed && |t.observed| == t.pushes == s.pushes
            && Law.Sum(t.observed) == Law.Sum(s.observed) + Law.Ages(s.Timers())
  {
    hide Drain, Run, Possible, LengthOverTime;
    DrainIsPops(s);
    QueueLaw(s, Pops(|s.items|));
  }

  // ---- the class ----

  function Zip<T>(vs: seq<T>, ts: seq<Timespec>): (r: seq<(T, int)>)
    requires |vs| == |ts|
    ensures |r| == |vs| && forall i | 0 <= i < |r| :: r[i] == (vs[i], ts[i].Nanos())
  {
    seq(|vs|, i requires 0 <= i < |vs| => (vs[i], ts[i].Nanos()))
  }

  /** The two steps of the machine, on what the class holds. */
  lemma PushOfZip<T>(now: Timespec, vs: seq<T>, ts: seq<Timespec>, observed: seq<int>, pushes: nat,
                     pushed: seq<T>, popped: seq<T>, v: T)
    requires |vs| == |ts|
    ensures Apply(State(now.Nanos(), Zip(vs, ts), observed, pushes, pushed, popped), Push(v))
         == State(now.Nanos(), Zip(vs + [v], ts + [now]), observed, pushes + 1, pushed + [v], popped)
  {
    assert Zip(vs + [v], ts + [now]) == Zip(vs, ts) + [(v, now.Nanos())];
  }

  lemma PopOfZip<T>(now: Timespec, vs: seq<T>, ts: seq<Timespec>, observed: seq<int>, pushes: nat,
                    pushed: seq<T>, popped: seq<T>)
    requires |vs| == |ts| && vs != []
    ensures Apply(State(now.Nanos(), Zip(vs, ts), observed, pushes, pushed, popped), Pop)
         == State(now.Nanos(), Zip(vs[1..], ts[1..]), observed + [Elapsed(ts[0], now)], pushes, pushed, popped + [vs[0]])
  {
    assert Zip(vs[1..], ts[1..]) == Zip(vs, ts)[1..];
  }

  class TimedQueue<T> {
    var queue: seq<(T, Timer)>  // a value and the timer of its stay
    const waitTimer: Metric?
    const pushCounter: Counter?
    ghost var pushed: seq<T>    // every value that was pushed
    ghost var popped: seq<T>    // every value that has left

    /** The objects of the elements, which no other element shares. */
    ghost function Timers(): set<Timer>
      reads this
    {
      set i | 0 <= i < |queue| :: queue[i].1
    }

    ghost predicate Valid()
      reads this, Timers()
    {
      && (forall i, j | 0 <= i < j < |queue| :: queue[i].1 != queue[j].1)
      && (forall i | 0 <= i < |queue| ::
            if waitTimer == null then queue[i].1.timer == None
            else queue[i].1.timer.Some? && queue[i].1.timer.value.metric == waitTimer)
    }

    ghost function Values(): (vs: seq<T>)
      reads this
      ensures |vs| == |queue| && forall i | 0 <= i < |queue| :: vs[i] == queue[i].0
    {
      seq(|queue|, i requires 0 <= i < |queue| reads this => queue[i].0)
    }

    /** When the elements came in; known only with a metric attached. */
    ghost function Starts(): (ts: seq<Timespec>)
      requires Valid() && waitTimer != null
      reads this, Timers()
      ensures |ts| == |queue| && forall i | 0 <= i < |queue| :: ts[i] == queue[i].1.timer.value.start
    {
      seq(|queue|, i requires 0 <= i < |queue| reads this, Timers() requires Valid() && waitTimer != null => queue[i].1.timer.value.start)
    }

    predicate Attached() { waitTimer != null && pushCounter != null }

    /** The queue, with a metric and a counter attached, as a state of the machine above. */
    ghost function View(clock: Clock): (s: State<T>)
      requires Valid() && Attached()
      reads this, Timers(), clock, waitTimer, pushCounter
      ensures |s.items| == |queue|
    {
      State(clock.now.Nanos(), Zip(Values(), Starts()), waitTimer.observations, pushCounter.value, pushed, popped)
    }

    constructor (waitTimer: Metric?, pushCounter: Counter?)
      ensures Valid() && queue == [] && this.waitTimer == waitTimer && this.pushCounter == pushCounter
    {
      this.waitTimer, this.pushCounter, queue := waitTimer, pushCounter, [];
      pushed, popped := [], [];
    }

    method PushBack(v: T, clock: Clock)
      requires Valid()
      modifies this, pushCounter
      ensures Valid() && Values() == old(Values()) + [v]
      ensures waitTimer != null ==> Starts() == old(Starts()) + [clock.now]
      ensures pushCounter != null ==> pushCounter.value == old(pushCounter.value) + 1
      ensures fresh(Timers() - old(Timers()))
      ensures pushed == old(pushed) + [v] && popped == old(popped)
      ensures Attached() ==> View(clock) == Apply(old(View(clock)), Push(v))
    {
      hide Zip, Apply, Timespec.Nanos;
      var timer := new Timer(waitTimer, pushCounter, clock);
      queue := queue + [(v, timer)];
      pushed := pushed + [v];
      if Attached() {
        PushOfZip(clock.now, old(Values()), old(Starts()), old(waitTimer.observations), old(pushCounter.value),
                  old(pushed), old(popped), v);
      }
    }

    method PopFront(clock: Clock)
      requires Valid() && queue != []
      modifies this, queue[0].1, waitTimer
      ensures Valid() && Values() == old(Values())[1..] && Timers() <= old(Timers())
      ensures waitTimer != null ==>
                && Starts() == old(Starts())[1..]
                && waitTimer.observations == old(waitTimer.observations) + [Elapsed(old(Starts())[0], clock.now)]
      ensures pushed == old(pushed) && popped == old(popped) + [old(Values())[0]]
      ensures Attached() ==> View(clock) == Apply(old(View(clock)), Pop)
    {
      hide Zip, Apply, Elapsed, Timespec.Nanos;
      var timer := queue[0].1;
      ghost var start := if waitTimer == null then clock.now else timer.timer.value.start;
      assert waitTimer != null ==> Starts()[0] == start;
      popped := popped + [queue[0].0];
      queue := queue[1..];
      timer.Destroy(clock);
      assert waitTimer != null ==>
          waitTimer.observations == old(waitTimer.observations) + [Elapsed(start, clock.now)];
      if Attached() {
        PopOfZip(clock.now, old(Values()), old(Starts()), old(waitTimer.observations), pushCounter.value,
                 pushed, old(popped));
      }
    }

    method ReleaseFront(clock: Clock) returns (out: T)
      requires Valid() && queue != []
      modifies this, queue[0].1, waitTimer
      ensures out == old(Values())[0]
      ensures Valid() && Values() == old(Values())[1..] && Timers() <= old(Timers())
      ensures waitTimer != null ==>
                && Starts() == old(Starts())[1..]
                && waitTimer.observations == old(waitTimer.observations) + [Elapsed(old(Starts())[0], clock.now)]
      ensures pushed == old(pushed) && popped == old(popped) + [old(Values())[0]]
      ensures Attached() ==> View(clock) == Apply(old(View(clock)), Pop)
    {
      out := queue[0].0;
      PopFront(clock);
    }

    method Front() returns (v: T)
      requires queue != []
      ensures v == Values()[0]
    {
      v := queue[0].0;
    }

    method Size() returns (n: nat)
      ensures n == |Values()|
    {
      n := |queue|;
    }

    method IsEmpty() returns (b: bool)
      ensures b <==> Values() == []
    {
      b := queue == [];
    }

    /** The destructor: every element left is observed, from the front, as if it had been popped. So a
        queue that obeyed the law has observed as many waits as there were pushes. */
    method Destroy(clock: Clock)
      requires Valid()
      modifies this, Timers(), waitTimer
      ensures Valid() && Values() == [] && pushed == old(pushed)
      ensures waitTimer != null ==>
                waitTimer.observations == old(waitTimer.observations) + AllElapsed(old(Starts()), clock.now)
      ensures Attached() ==> View(clock) == Drain(old(View(clock)))
      ensures Attached() && old(Attached() && Ordered(View(clock))) ==>
                |waitTimer.observations| == pushCounter.value && popped == pushed
    {
      hide View, Apply, Zip, AllElapsed, Drain, Ordered;
      while queue != []
        invariant Valid() && Timers() <= old(Timers()) && pushed == old(pushed)
        invariant waitTimer != null ==>
                    waitTimer.observations + AllElapsed(Starts(), clock.now)
                    == old(waitTimer.observations + AllElapsed(Starts(), clock.now))
        invariant Attached() ==> Drain(View(clock)) == old(Drain(View(clock)))
        decreases |queue|
      {
        DestroyFront(clock);
      }
      if waitTimer != null {
        assert AllElapsed(Starts(), clock.now) == [] by { AllElapsedNone(clock.now); }
      }
      if Attached() {
        Emptied(clock);
        if old(Ordered(View(clock))) {
          DrainedLaw(old(View(clock)));
        }
      }
    }

    /** What the view of an empty queue shows. */
    lemma Emptied(clock: Clock)
      requires Valid() && Attached() && queue == []
      ensures Drain(View(clock)) == View(clock)
      ensures View(clock).observed == waitTimer.observations && View(clock).pushes == pushCounter.value
      ensures View(clock).pushed == pushed && View(clock).popped == popped
    {
    }

    /** One turn of the destructor. */
    method DestroyFront(clock: Clock)
      requires Valid() && queue != []
      modifies this, queue[0].1, waitTimer
      ensures Valid() && Timers() <= old(Timers()) && |queue| < old(|queue|) && pushed == old(pushed)
      ensures waitTimer != null ==>
                waitTimer.observations + AllElapsed(Starts(), clock.now)
                == old(waitTimer.observations + AllElapsed(Starts(), clock.now))
      ensures Attached() ==> Drain(View(clock)) == old(Drain(View(clock)))
    {
      hide View, Apply, Zip, AllElapsed, Ordered;
      PopFront(clock);
      if waitTimer != null {
        AllElapsedFirst(old(Starts()), clock.now);
      }
    }
  }

  function AllElapsed(starts: seq<Timespec>, now: Timespec): seq<int> {
    seq(|starts|, i requires 0 <= i < |starts| => Elapsed(starts[i], now))
  }

  lemma AllElapsedNone(now: Timespec)
    ensures AllElapsed([], now) == []
  {
  }

  lemma AllElapsedFirst(starts: seq<Timespec>, now: Timespec)
    requires starts != []
    ensures AllElapsed(starts, now) == [Elapsed(starts[0], now)] + AllElapsed(starts[1..], now)
  {
  }
}
