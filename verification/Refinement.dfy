/** Every call of `send_message` and `recv_message` is a run of the channel machine, and so is every
    sequence of calls; so what is proved of all runs of that machine holds of the code. */
module Refinement {
  import opened Basics
  import opened Wire
  import opened Channel
  import opened Connection
  import opened Transfers

  /** A send that is not refused: the header in one write, then the body, then an error if it failed. */
  function SendSteps(m: Message, put: nat): seq<Label> {
    if put < 4 then [Begin(m), Write(put)]
    else if put < 4 + |m| then [Begin(m), Write(4), Write(put - 4), WriteError]
    else if m == [] then [Begin(m), Write(4)]
    else [Begin(m), Write(4), Write(put - 4)]
  }

  /** The sending end after a call of `send_message`. */
  function Sent(s: Sender, m: Message, put: nat, r: Result<()>): Sender
    requires put <= |Frame(m)|
  {
    if r == Err(InvalidMessageSize) then s
    else s.(wire := s.wire + Frame(m)[..put],
            pc := if r.Ok? then Idle else Broken(m, put),
            completed := if r.Ok? then s.completed + [m] else s.completed,
            bytesSent := if r.Ok? then s.bytesSent + |m| else s.bytesSent,
            spoiled := s.spoiled + |s.Partial()|)
  }

  /** Whatever a call of `send_message` does, the channel can do: same bytes, same result. */
  lemma SendIsARun(p: Callers, c: State, m: Message, put: nat, r: Result<()>) returns (ls: seq<Label>)
    requires SendOutcome(c.s.limit, m, put, r) && !c.s.pc.Sending? && (p.resend || c.s.Partial() == [])
    ensures ls == if r == Err(InvalidMessageSize) then [Begin(m)] else SendSteps(m, put)
    ensures Run(p, c, ls) == Some(c.(s := Sent(c.s, m, put, r)))
  {
    hide Frame, Run;
    RunNil(p, c);
    RunSnoc(p, c, [], c, Begin(m));
    ls := [] + [Begin(m)];
    if r != Err(InvalidMessageSize) {
      var f := Frame(m);
      var c1 := Apply(c, Begin(m));
      var first := if put < 4 then put else 4;
      var c2 := Apply(c1, Write(first));
      assert f[0..first] == f[..first];
      RunSnoc(p, c, ls, c1, Write(first));
      ls := ls + [Write(first)];
      if 4 < |f| && 4 <= put {
        var c3 := Apply(c2, Write(put - 4));
        Extend(c.s.wire, f, 4, put);
        RunSnoc(p, c, ls, c2, Write(put - 4));
        ls := ls + [Write(put - 4)];
        if put < |f| {
          RunSnoc(p, c, ls, c3, WriteError);
          ls := ls + [WriteError];
        }
      } else {
        Extend(c.s.wire, f, 0, first);
      }
    }
  }

  /** The reads of one receive: the header, then what was taken of the body. */
  function ReceiveSteps(taken: nat, failed: bool): seq<Label> {
    (if taken == 0 then [] else if taken <= 4 then [Read(taken)] else [Read(4), Read(taken - 4)])
    + (if failed then [ReadError] else [])
  }

  /** What the header says about the outcome of a receive that got that far. */
  lemma OutcomeHeader(limit: uint32, w: seq<byte>, taken: nat, r: Result<Message>)
    requires ReceiveOutcome(limit, w, taken, r) && 4 <= taken
    ensures r.Ok? ==> WordValue(w[..4]) == |r.value| <= limit && taken == 4 + |r.value| && w[4..taken] == r.value
    ensures r.Err? && r.error != InvalidMessageSize ==> taken < 4 + WordValue(w[..4]) <= 4 + limit
  {
    hide Word, WordValue;
    assert w[..taken][..4] == w[..4];
    if r.Ok? {
      assert w[4..taken] == w[..taken][4..] == Frame(r.value)[4..];
      assert Frame(r.value)[..4] == Word(|r.value|);
      WordBijection(|r.value|, w[..4]);
    }
  }

  /** The first read of a receive. */
  lemma HeaderRead(r: Receiver, w: seq<byte>, first: nat)
    requires r.got == [] && 1 <= first <= 4 && first <= |w|
    ensures var n := if first < 4 then 0 else WordValue(w[..4]);
            Take(r, w[..first]) ==
              if first < 4 then r.(consumed := r.consumed + first, got := w[..first])
              else if n > r.limit then r.(consumed := r.consumed + 4, refused := r.refused + 1, lost := r.lost + 4)
              else if n == 0 then r.(consumed := r.consumed + 4, delivered := r.delivered + [[]])
              else r.(consumed := r.consumed + 4, got := w[..4])
  {
    hide WordValue;
    assert r.got + w[..first] == w[..first] && (first == 4 ==> w[..first][..4] == w[..4] && w[..first][4..] == []);
  }

  /** The second read of a receive, of part of the body or all of it. */
  lemma BodyRead(r: Receiver, w: seq<byte>, taken: nat)
    requires 4 < taken <= |w| && r.got == w[..4] && taken <= 4 + WordValue(w[..4]) <= 4 + r.limit
    ensures taken - 4 <= r.Wanted()
    ensures Take(r, w[4..taken]) ==
              if taken < 4 + WordValue(w[..4]) then r.(consumed := r.consumed + taken - 4, got := w[..taken])
              else r.(consumed := r.consumed + taken - 4, got := [], delivered := r.delivered + [w[4..taken]],
                      bytesRecv := r.bytesRecv + taken - 4)
  {
    hide WordValue;
    assert r.got + w[4..taken] == w[..taken] && w[..taken][..4] == w[..4] && r.got[..4] == r.got;
    assert w[..taken][4..] == w[4..taken];
  }

  /** The receiving end when `recv_message` is called on it. */
  function Entered(r: Receiver): Receiver {
    if r.failed then r.(failed := false, got := [], lost := r.lost + |r.got|) else r
  }

  /** The receiving end after a call of `recv_message` on the bytes `w`. */
  function Received(r: Receiver, w: seq<byte>, taken: nat, v: Result<Message>): Receiver
    requires taken <= |w|
  {
    if v.Ok? then
      r.(consumed := r.consumed + taken, delivered := r.delivered + [v.value], bytesRecv := r.bytesRecv + |v.value|)
    else if v.error == InvalidMessageSize then
      r.(consumed := r.consumed + 4, refused := r.refused + 1, lost := r.lost + 4)
    else
      r.(consumed := r.consumed + taken, got := w[..taken], failed := true)
  }

  /** Whatever a call of `recv_message` does with the bytes in flight, the channel can do. */
  lemma ReceiveIsARun(p: Callers, c: State, taken: nat, v: Result<Message>) returns (ls: seq<Label>)
    requires c.r.consumed <= |c.s.wire| && (c.r.got != [] ==> c.r.failed && p.reread)
    requires ReceiveOutcome(c.r.limit, c.Pipe(), taken, v)
    ensures ls == (if c.r.failed then [Retry] else []) + ReceiveSteps(taken, v.Err? && v.error != InvalidMessageSize)
    ensures Run(p, c, ls) == Some(c.(r := Received(Entered(c.r), c.Pipe(), taken, v)))
  {
    hide Run, Word, WordValue, Frame, Take;
    RunNil(p, c);
    ls := [];
    var d := c;
    if c.r.failed {
      RunSnoc(p, c, ls, d, Retry);
      d, ls := Apply(d, Retry), ls + [Retry];
    }
    assert d == c.(r := Entered(c.r));
    ls := ReadsOfReceive(p, c, ls, d, taken, v);
  }

  lemma ReadsOfReceive(p: Callers, c0: State, before: seq<Label>, c: State, taken: nat, v: Result<Message>)
    returns (ls: seq<Label>)
    requires Run(p, c0, before) == Some(c)
    requires c.r.got == [] && !c.r.failed && c.r.consumed <= |c.s.wire|
    requires ReceiveOutcome(c.r.limit, c.Pipe(), taken, v)
    ensures ls == before + ReceiveSteps(taken, v.Err? && v.error != InvalidMessageSize)
    ensures Run(p, c0, ls) == Some(c.(r := Received(c.r, c.Pipe(), taken, v)))
  {
    hide Run, Word, WordValue, Frame, Take;
    var w := c.Pipe();
    if taken >= 4 {
      OutcomeHeader(c.r.limit, w, taken, v);
    }
    var d := c;
    ls := before;
    if taken > 0 {
      var first := if taken <= 4 then taken else 4;
      HeaderRead(c.r, w, first);
      RunSnoc(p, c0, ls, d, Read(first));
      d, ls := Apply(d, Read(first)), ls + [Read(first)];
      if taken > 4 {
        assert d.r.consumed == c.r.consumed + 4 && d.s == c.s;
        Rest(c.s.wire, c.r.consumed, taken);
        BodyRead(d.r, w, taken);
        RunSnoc(p, c0, ls, d, Read(taken - 4));
        d, ls := Apply(d, Read(taken - 4)), ls + [Read(taken - 4)];
      }
    }
    if v.Err? && v.error != InvalidMessageSize {
      assert taken == 0 ==> w[..0] == [];
      RunSnoc(p, c0, ls, d, ReadError);
      d, ls := Apply(d, ReadError), ls + [ReadError];
    }
  }

  lemma Rest(wire: seq<byte>, from: nat, taken: nat)
    requires 4 <= taken && from + taken <= |wire|
    ensures wire[from + 4..][..taken - 4] == wire[from..][4..taken]
  {
  }

  // ---- sequences of calls ----

  /** A call of `send_message` that put `put` bytes of the frame of `m` on the wire. */
  datatype SendCall = SendCall(m: Message, put: nat, r: Result<()>)

  /** A call of `recv_message` that took `taken` bytes. */
  datatype ReceiveCall = ReceiveCall(taken: nat, r: Result<Message>)

  /** Calls one after the other, each with an outcome that the method allows. */
  predicate Sends(limit: uint32, calls: seq<SendCall>) {
    forall i | 0 <= i < |calls| :: SendOutcome(limit, calls[i].m, calls[i].put, calls[i].r)
  }

  /** What they put on the wire. */
  function Written(calls: seq<SendCall>): seq<byte>
    decreases |calls|
  {
    if calls == [] then []
    else
      var l := calls[|calls| - 1];
      Written(calls[..|calls| - 1]) + (if l.put <= |Frame(l.m)| then Frame(l.m)[..l.put] else [])
  }

  /** The messages of the calls that returned. */
  function SentBy(calls: seq<SendCall>): seq<Message>
    decreases |calls|
  {
    if calls == [] then []
    else
      var l := calls[|calls| - 1];
      SentBy(calls[..|calls| - 1]) + (if l.r.Ok? then [l.m] else [])
  }

  /** What the metrics of the sending end add up to. */
  function ObservedSent(calls: seq<SendCall>): nat
    decreases |calls|
  {
    if calls == [] then 0
    else
      var l := calls[|calls| - 1];
      ObservedSent(calls[..|calls| - 1]) + (if l.r.Ok? then |l.m| else 0)
  }

  /** After a call that threw there is another only if nothing was written in it. */
  predicate CarefulSends(calls: seq<SendCall>) {
    forall i | 0 <= i < |calls| - 1 :: calls[i].r.Err? ==> calls[i].put == 0
  }

  function Taken(calls: seq<ReceiveCall>): nat
    decreases |calls|
  {
    if calls == [] then 0 else Taken(calls[..|calls| - 1]) + calls[|calls| - 1].taken
  }

  /** Calls one after the other on the bytes `w`, each with an outcome that the method allows. */
  predicate Receives(limit: uint32, w: seq<byte>, calls: seq<ReceiveCall>)
    decreases |calls|
  {
    calls == [] ||
      var front, l := calls[..|calls| - 1], calls[|calls| - 1];
      Receives(limit, w, front) && Taken(front) <= |w| && ReceiveOutcome(limit, w[Taken(front)..], l.taken, l.r)
  }

  function ReceivedBy(calls: seq<ReceiveCall>): seq<Message>
    decreases |calls|
  {
    if calls == [] then []
    else
      var l := calls[|calls| - 1];
      ReceivedBy(calls[..|calls| - 1]) + (if l.r.Ok? then [l.r.value] else [])
  }

  /** What the metrics of the receiving end add up to. */
  function ObservedRecv(calls: seq<ReceiveCall>): nat
    decreases |calls|
  {
    if calls == [] then 0
    else
      var l := calls[|calls| - 1];
      ObservedRecv(calls[..|calls| - 1]) + (if l.r.Ok? then |l.r.value| else 0)
  }

  predicate FailedRead(v: Result<Message>) { v.Err? && v.error != InvalidMessageSize }

  /** After a call out of which a read threw there is another only if nothing was read in it. */
  predicate CarefulReceives(calls: seq<ReceiveCall>) {
    forall i | 0 <= i < |calls| - 1 :: FailedRead(calls[i].r) ==> calls[i].taken == 0
  }

  /** The last send threw inside its frame. */
  predicate BrokeOff(calls: seq<SendCall>) {
    calls != [] && calls[|calls| - 1].r.Err? && calls[|calls| - 1].put > 0
  }

  /** Something of `m` was written. */
  predicate WroteSome(calls: seq<SendCall>, m: Message) {
    exists i | 0 <= i < |calls| :: calls[i].m == m && calls[i].put > 0
  }

  /** The sending end after the calls. */
  predicate AfterSends(s: Sender, calls: seq<SendCall>) {
    && !s.pc.Sending?
    && s.wire == Written(calls) && s.completed == SentBy(calls) && s.bytesSent == ObservedSent(calls)
    && (CarefulSends(calls) ==> s.Partial() == [] || BrokeOff(calls))
    && (forall m <- s.Started() :: WroteSome(calls, m))
  }

  lemma OneMoreSend(s: Sender, calls: seq<SendCall>, front: seq<SendCall>, l: SendCall)
    requires calls == front + [l] && AfterSends(s, front) && SendOutcome(s.limit, l.m, l.put, l.r)
    ensures AfterSends(Sent(s, l.m, l.put, l.r), calls)
  {
    hide Frame;
    assert calls[..|calls| - 1] == front && calls[|calls| - 1] == l;
    assert Written(front) + [] == Written(front);
    var t := Sent(s, l.m, l.put, l.r);
    forall m | m in t.Started() ensures WroteSome(calls, m) {
      if m in s.Started() {
        var i :| 0 <= i < |front| && front[i].m == m && front[i].put > 0;
        assert calls[i].m == m;
      } else {
        assert m == l.m && l.put > 0;
      }
    }
  }

  /** Any sequence of calls of `send_message` is a run of the channel. */
  lemma {:induction false} SendsAreARun(p: Callers, c: State, calls: seq<SendCall>) returns (ls: seq<Label>, s: Sender)
    requires c.s == Init(c.s.limit, 0).s && Sends(c.s.limit, calls) && (p.resend || CarefulSends(calls))
    ensures Run(p, c, ls) == Some(c.(s := s)) && s.limit == c.s.limit
    ensures AfterSends(s, calls)
    decreases |calls|
  {
    hide Frame, Run, Sent, Written, SentBy, ObservedSent, WroteSome;
    if calls == [] {
      RunNil(p, c);
      ls, s := [], c.s;
      assert AfterSends(s, []) by { NoSends(s); }
    } else {
      var front, l := calls[..|calls| - 1], calls[|calls| - 1];
      var before, t := SendsAreARun(p, c, front);
      var steps := SendIsARun(p, c.(s := t), l.m, l.put, l.r);
      RunAppend(p, c, before, steps);
      ls, s := before + steps, Sent(t, l.m, l.put, l.r);
      OneMoreSend(t, calls, front, l);
      assert s.limit == t.limit by { SameLimit(t, l.m, l.put, l.r); }
    }
  }

  lemma NoSends(s: Sender)
    requires s == Init(s.limit, 0).s
    ensures AfterSends(s, [])
  {
  }

  lemma SameLimit(s: Sender, m: Message, put: nat, r: Result<()>)
    requires put <= |Frame(m)|
    ensures Sent(s, m, put, r).limit == s.limit
  {
  }

  /** The receiving end after the calls. */
  predicate AfterReceives(r: Receiver, calls: seq<ReceiveCall>) {
    && (r.got != [] ==> r.failed)
    && r.consumed == Taken(calls) && r.delivered == ReceivedBy(calls) && r.bytesRecv == ObservedRecv(calls)
    && (CarefulReceives(calls) && r.got != [] ==>
          calls != [] && FailedRead(calls[|calls| - 1].r) && calls[|calls| - 1].taken > 0)
    && (r.refused == 0 ==> forall i | 0 <= i < |calls| :: calls[i].r != Err(InvalidMessageSize))
  }

  lemma OneMoreReceive(r: Receiver, calls: seq<ReceiveCall>, front: seq<ReceiveCall>, l: ReceiveCall, w: seq<byte>)
    requires calls == front + [l] && AfterReceives(r, front) && ReceiveOutcome(r.limit, w, l.taken, l.r)
    ensures AfterReceives(Received(Entered(r), w, l.taken, l.r), calls)
  {
    hide Frame, Word, WordValue, Incomplete;
    assert calls[..|calls| - 1] == front && calls[|calls| - 1] == l;
    if Received(Entered(r), w, l.taken, l.r).refused == 0 {
      forall i | 0 <= i < |calls| ensures calls[i].r != Err(InvalidMessageSize) {
        assert i < |front| ==> front[i] == calls[i];
      }
    }
  }

  /** Any sequence of calls of `recv_message` is a run of the channel. */
  lemma {:induction false} ReceivesAreARun(p: Callers, c: State, calls: seq<ReceiveCall>)
    returns (ls: seq<Label>, r: Receiver)
    requires c.r == Init(0, c.r.limit).r && Receives(c.r.limit, c.s.wire, calls) && (p.reread || CarefulReceives(calls))
    ensures Run(p, c, ls) == Some(c.(r := r)) && r.limit == c.r.limit && r.consumed <= |c.s.wire|
    ensures AfterReceives(r, calls)
    decreases |calls|
  {
    hide Frame, Run, Word, WordValue, Incomplete, ReceivedBy, ObservedRecv;
    if calls == [] {
      RunNil(p, c);
      ls, r := [], c.r;
      assert AfterReceives(r, []) by { NoReceives(r); }
    } else {
      var front, l := calls[..|calls| - 1], calls[|calls| - 1];
      var before, t := ReceivesAreARun(p, c, front);
      var d := c.(r := t);
      assert d.Pipe() == c.s.wire[Taken(front)..];
      var steps := ReceiveIsARun(p, d, l.taken, l.r);
      RunAppend(p, c, before, steps);
      ls, r := before + steps, Received(Entered(t), d.Pipe(), l.taken, l.r);
      OneMoreReceive(t, calls, front, l, d.Pipe());
    }
  }

  lemma NoReceives(r: Receiver)
    requires r == Init(0, r.limit).r
    ensures AfterReceives(r, [])
  {
  }

  /** The messages returned are a prefix of those whose sends returned; once everything was read, and if
      no send broke off inside its frame, they are the same and both metrics show the same total. */
  predicate InOrder(sends: seq<SendCall>, receives: seq<ReceiveCall>) {
    && ReceivedBy(receives) <= SentBy(sends)
    && (Taken(receives) == |Written(sends)| && !BrokeOff(sends) ==>
          ReceivedBy(receives) == SentBy(sends) && ObservedRecv(receives) == ObservedSent(sends))
  }

  /** The code is first-in first-out: make any sequence of sends and any sequence of receives, the
      outcomes of which are any that the two methods allow and the receives taking from what the sends
      have put on the wire. If after a failed call there was another only where that call had moved no
      byte, and the receiver's limit admits what was sent, then nothing is refused and the messages
      arrive in order. */
  lemma CallsAreFifo(sendLimit: uint32, recvLimit: uint32, sends: seq<SendCall>, receives: seq<ReceiveCall>)
    requires Sends(sendLimit, sends) && Receives(recvLimit, Written(sends), receives)
    requires CarefulSends(sends) && CarefulReceives(receives)
    requires forall i | 0 <= i < |sends| :: sends[i].put > 0 ==> |sends[i].m| <= recvLimit
    ensures InOrder(sends, receives)
    ensures forall i | 0 <= i < |receives| :: receives[i].r != Err(InvalidMessageSize)
  {
    hide Frame, Run, Sends, Receives, Written, SentBy, ReceivedBy, ObservedRecv, ObservedSent, Incomplete;
    var c := Init(sendLimit, recvLimit);
    var ls, s := SendsAreARun(CAREFUL, c, sends);
    var ls', r := ReceivesAreARun(CAREFUL, c.(s := s), receives);
    RunAppend(CAREFUL, c, ls, ls');
    var d := State(s, r);
    assert c.(s := s).(r := r) == d;
    forall m | m in s.Started() ensures |m| <= recvLimit {
      assert WroteSome(sends, m);
    }
    FifoRefinement(sendLimit, recvLimit, ls + ls');
    if Taken(receives) == |Written(sends)| {
      assert d.Pipe() == [];
    }
  }
}
