/** What running timers and their observations add up to, in any run and in whatever order they fire. */
module TimerLaw {
  /** Times in nanoseconds. `live` are the start times of the timers that are running. */
  datatype State = State(now: int, live: seq<int>, observed: seq<int>, begun: nat)

  datatype Op =
    | Begin             // a timer starts
    | Fire(k: nat)      // the k-th running timer ends and its time is observed
    | Advance(d: nat)   // time passes

  predicate Enabled(s: State, op: Op) {
    op.Fire? ==> op.k < |s.live|
  }

  function Apply(s: State, op: Op): State
    requires Enabled(s, op)
  {
    match op
    case Begin => s.(live := s.live + [s.now], begun := s.begun + 1)
    case Fire(k) => s.(live := s.live[..k] + s.live[k + 1..], observed := s.observed + [s.now - s.live[k]])
    case Advance(d) => s.(now := s.now + d)
  }

  predicate Possible(s: State, ops: seq<Op>)
    decreases |ops|
  {
    ops == [] || (Enabled(s, ops[0]) && Possible(Apply(s, ops[0]), ops[1..]))
  }

  function Run(s: State, ops: seq<Op>): State
    requires Possible(s, ops)
    decreases |ops|
  {
    if ops == [] then s else Run(Apply(s, ops[0]), ops[1..])
  }

  /** The number of running timers, summed over the time that passes. */
  function Integral(s: State, ops: seq<Op>): int
    requires Possible(s, ops)
    decreases |ops|
  {
    if ops == [] then 0
    else (if ops[0].Advance? then ops[0].d * |s.live| else 0) + Integral(Apply(s, ops[0]), ops[1..])
  }

  function Sum(xs: seq<int>): int {
    if xs == [] then 0 else xs[0] + Sum(xs[1..])
  }

  /** How long the running timers have been running, all together. */
  function Ages(s: State): int {
    |s.live| * s.now - Sum(s.live)
  }

  lemma {:induction false} SumAppend(a: seq<int>, b: seq<int>)
    ensures Sum(a + b) == Sum(a) + Sum(b)
  {
    if a == [] {
      assert a + b == b;
    } else {
      assert (a + b)[1..] == a[1..] + b;
      SumAppend(a[1..], b);
    }
  }

  lemma SumWithout(xs: seq<int>, k: nat)
    requires k < |xs|
    ensures Sum(xs[..k] + xs[k + 1..]) == Sum(xs) - xs[k]
  {
    SumAppend(xs[..k], xs[k + 1..]);
    SumAppend(xs[..k], xs[k..]);
    assert xs == xs[..k] + xs[k..] && xs[k..][1..] == xs[k + 1..];
  }

  /** One step: what is observed and what is still running grow together by the area of the step. */
  lemma StepLaw(s: State, op: Op)
    requires Enabled(s, op)
    ensures var t := Apply(s, op);
            && Sum(t.observed) + Ages(t) == Sum(s.observed) + Ages(s) + (if op.Advance? then op.d * |s.live| else 0)
            && |t.observed| + |t.live| - t.begun == |s.observed| + |s.live| - s.begun
  {
    match op {
      case Begin =>
        SumAppend(s.live, [s.now]);
        assert (|s.live| + 1) * s.now == |s.live| * s.now + s.now;
      case Fire(k) =>
        SumWithout(s.live, k);
        SumAppend(s.observed, [s.now - s.live[k]]);
        assert (|s.live| - 1) * s.now == |s.live| * s.now - s.now;
      case Advance(d) =>
        assert |s.live| * (s.now + d) == |s.live| * s.now + d * |s.live|;
    }
  }

  /** The discrete form of Little's law: over any run, the times observed and the ages of the timers
      still running add up to the number of running timers summed over time; and every timer that
      was begun has fired once or is running. */
  lemma {:induction false} LittlesLaw(s: State, ops: seq<Op>)
    requires Possible(s, ops)
    ensures var t := Run(s, ops);
            && Sum(t.observed) + Ages(t) == Sum(s.observed) + Ages(s) + Integral(s, ops)
            && |t.observed| + |t.live| - t.begun == |s.observed| + |s.live| - s.begun
    decreases |ops|
  {
    hide Enabled, Apply, Sum, Ages;
    if ops != [] {
      StepLaw(s, ops[0]);
      LittlesLaw(Apply(s, ops[0]), ops[1..]);
    }
  }

  /** No timer started in the future, and no negative time was observed. */
  predicate Sane(s: State) {
    && (forall i | 0 <= i < |s.live| :: s.live[i] <= s.now)
    && (forall i | 0 <= i < |s.observed| :: 0 <= s.observed[i])
  }

  lemma {:induction false} RunStaysSane(s: State, ops: seq<Op>)
    requires Possible(s, ops) && Sane(s)
    ensures Sane(Run(s, ops))
    decreases |ops|
  {
    if ops != [] {
      RunStaysSane(Apply(s, ops[0]), ops[1..]);
    }
  }
}
