/** One direction of a connection as a state machine: a sender inside `send_message`, a byte
    pipe, and a receiver inside `recv_message`. A run is any interleaving of their system calls,
    with any chunk sizes and failures the operating system chooses.

    Code that makes no system call is folded into the call before it: `send_message` returns in
    the step that writes its last byte, and `recv_message` checks a header, or returns, in the
    step that reads the last byte it was waiting for. */
module Channel {
  import opened Basics
  import opened Wire

  const MIN_BUFFER_SIZE: uint32 := 1024
  const MAX_BUFFER_SIZE: uint32 := 1024 * 1024 * 1024
  const DEFAULT_BUFFER_SIZE: uint32 := 1024 * 1024 * 256

  datatype Pc =
    | Idle                                // not inside send_message
    | Sending(msg: Message, done: nat)    // `done` bytes of the frame of `msg` are written
    | Broken(msg: Message, done: nat)     // the last send_message threw after that many bytes

  datatype Sender = Sender(
    limit: uint32,             // _max_buffer_size
    pc: Pc,
    completed: seq<Message>,   // sends that returned
    bytesSent: nat,            // total of observe_bytes_sent
    wire: seq<byte>,           // every byte written so far
    spoiled: nat)              // how many of them belong to frames that were given up
  {
    /** The sends that returned, and the one under way or broken off. */
    function Accepted(): seq<Message> {
      if pc.Idle? then completed else completed + [pc.msg]
    }

    /** The sends that returned, and the one of which a part is on the wire. */
    function Started(): seq<Message> {
      if pc.Idle? || pc.done == 0 then completed else completed + [pc.msg]
    }

    /** The part of the current frame that is on the wire. */
    function Partial(): seq<byte> {
      if pc.Idle? || pc.done > |Frame(pc.msg)| then [] else Frame(pc.msg)[..pc.done]
    }
  }

  datatype Receiver = Receiver(
    limit: uint32,             // _max_buffer_size
    consumed: nat,             // how many bytes of the wire are read
    got: seq<byte>,            // the part of the current frame that recv_message has read
    failed: bool,              // the last recv_message threw because a read did
    refused: nat,              // receives that threw InvalidMessageSize
    lost: nat,                 // bytes read in receives that threw, those of the last one excepted
    delivered: seq<Message>,   // receives that returned
    bytesRecv: nat)            // total of observe_bytes_recv
  {
    /** How many more bytes `recv_message` asks for before it looks at what it has. */
    function Wanted(): int {
      if |got| < 4 then 4 - |got| else 4 + WordValue(got[..4]) - |got|
    }
  }

  datatype State = State(s: Sender, r: Receiver) {
    /** Bytes written and not yet read. */
    function Pipe(): seq<byte> {
      if r.consumed <= |s.wire| then s.wire[r.consumed..] else []
    }
  }

  datatype Label =
    | Begin(msg: Message)   // send_message(msg) is called
    | Write(count: nat)     // the pending write takes `count` bytes
    | WriteError            // the pending write throws
    | Read(count: nat)      // the pending read returns `count` bytes
    | ReadError             // the pending read throws
    | Retry                 // recv_message is called again after a read has thrown
  {
    predicate Sends() { Begin? || Write? || WriteError? }
  }

  /** What the callers of the two ends do after an exception: whether `send_message` is called again
      when a part of a frame is on the wire, and `recv_message` when a part of a frame was read. */
  datatype Callers = Callers(resend: bool, reread: bool)

  /** They call again only where nothing of the failed call was written or read. */
  const CAREFUL := Callers(false, false)

  function Init(sendLimit: uint32, recvLimit: uint32): State {
    State(Sender(sendLimit, Idle, [], 0, [], 0), Receiver(recvLimit, 0, [], false, 0, 0, [], 0))
  }

  /** How many bytes the pending write is asked to take: the header goes in one call. */
  function Asked(pc: Pc): int
    requires pc.Sending?
  {
    if pc.done < 4 then 4 - pc.done else |Frame(pc.msg)| - pc.done
  }

  predicate Enabled(c: State, l: Label) {
    match l
    case Begin(_) => !c.s.pc.Sending?
    case Write(k) => c.s.pc.Sending? && k <= Asked(c.s.pc)
    case WriteError => c.s.pc.Sending?
    case Read(k) => !c.r.failed && 1 <= k <= c.r.Wanted() && k <= |c.Pipe()|
    case ReadError => !c.r.failed
    case Retry => c.r.failed
  }

  predicate Allowed(p: Callers, c: State, l: Label) {
    && Enabled(c, l)
    && (l.Begin? ==> p.resend || c.s.Partial() == [])
    && (l.Retry? ==> p.reread || c.r.got == [])
  }

  function Apply(c: State, l: Label): State
    requires Enabled(c, l)
  {
    match l
    case Begin(m) => c.(s := Accept(c.s, m))
    case Write(k) => c.(s := Put(c.s, k))
    case WriteError => c.(s := c.s.(pc := Broken(c.s.pc.msg, c.s.pc.done)))
    case Read(k) => c.(r := Take(c.r, c.Pipe()[..k]))
    case ReadError => c.(r := c.r.(failed := true))
    case Retry => c.(r := c.r.(failed := false, got := [], lost := c.r.lost + |c.r.got|))
  }

  function Accept(s: Sender, m: Message): Sender {
    if |m| > s.limit then s                      // InvalidMessageSize: nothing is written
    else s.(pc := Sending(m, 0), spoiled := s.spoiled + |s.Partial()|)
  }

  function Put(s: Sender, k: nat): Sender
    requires s.pc.Sending? && k <= Asked(s.pc)
  {
    var m, d := s.pc.msg, s.pc.done;
    var w := s.wire + Frame(m)[d..d + k];
    if d < 4 && d + k != 4 then                  // a short header write throws WriteFail
      s.(wire := w, pc := Broken(m, d + k))
    else if d + k < |Frame(m)| then
      s.(wire := w, pc := Sending(m, d + k))
    else
      s.(wire := w, pc := Idle, completed := s.completed + [m], bytesSent := s.bytesSent + |m|)
  }

  function Take(r: Receiver, chunk: seq<byte>): (t: Receiver)
    requires |chunk| <= r.Wanted()
    ensures t.consumed == r.consumed + |chunk|
  {
    var got := r.got + chunk;
    var r' := r.(got := got, consumed := r.consumed + |chunk|);
    if |got| < 4 then r'
    else
      var n := WordValue(got[..4]);
      if n > r.limit then r'.(got := [], refused := r.refused + 1, lost := r.lost + |got|)
      else if |got| < 4 + n then r'
      else
        assert |r.got| >= 4 ==> got[..4] == r.got[..4];
        r'.(got := [], delivered := r.delivered + [got[4..]], bytesRecv := r.bytesRecv + |got| - 4)
  }

  /** The state after the steps `ls`, if each of them was possible and one that the callers take. */
  function Run(p: Callers, c: State, ls: seq<Label>): (r: Option<State>)
    decreases |ls|
  {
    if ls == [] then Some(c)
    else if Allowed(p, c, ls[0]) then Run(p, Apply(c, ls[0]), ls[1..])
    else None
  }

  lemma {:induction false} RunAppend(p: Callers, c: State, a: seq<Label>, b: seq<Label>)
    ensures Run(p, c, a + b) == (var r := Run(p, c, a); if r.Some? then Run(p, r.value, b) else None)
    decreases |a|
  {
    hide Enabled, Apply;
    if a == [] {
      assert a + b == b;
    } else {
      assert (a + b)[0] == a[0] && (a + b)[1..] == a[1..] + b;
      if Allowed(p, c, a[0]) {
        RunAppend(p, Apply(c, a[0]), a[1..], b);
      }
    }
  }

  /** One more step. */
  lemma RunSnoc(p: Callers, c: State, ls: seq<Label>, d: State, l: Label)
    requires Run(p, c, ls) == Some(d) && Allowed(p, d, l)
    ensures Run(p, c, ls + [l]) == Some(Apply(d, l))
  {
    hide Allowed, Apply;
    RunAppend(p, c, ls, [l]);
    assert [l][1..] == [];
  }

  function Total(ms: seq<Message>): nat {
    if ms == [] then 0 else |ms[0]| + Total(ms[1..])
  }

  lemma {:induction false} TotalSnoc(a: seq<Message>, m: Message)
    ensures Total(a + [m]) == Total(a) + |m|
  {
    if a == [] {
      assert a + [m] == [m];
    } else {
      assert (a + [m])[1..] == a[1..] + [m];
      TotalSnoc(a[1..], m);
    }
  }

  lemma {:induction false} WireLength(ms: seq<Message>)
    ensures |Frames(ms)| == Total(ms) + 4 * |ms|
  {
    hide Word;
    if ms != [] {
      WireLength(ms[1..]);
    }
  }

  predicate PcOk(pc: Pc) {
    && (pc.Sending? ==> pc.done < |Frame(pc.msg)| && (pc.done < 4 ==> pc.done == 0))
    && (pc.Broken? ==> pc.done < |Frame(pc.msg)|)
  }

  /** Unless a frame was given up, the wire is the frames of the completed sends and a strict prefix
      of one more; every byte of it is accounted for. */
  predicate SenderOk(s: Sender) {
    && PcOk(s.pc)
    && s.bytesSent == Total(s.completed)
    && |s.wire| == s.bytesSent + 4 * |s.completed| + |s.Partial()| + s.spoiled
    && (s.spoiled == 0 ==> s.wire == Frames(s.completed) + s.Partial())
    && (forall m <- s.Accepted() :: |m| <= s.limit)
  }

  /** Unless it lost something, what the receiver has taken is the frames of the messages it delivered
      and a part of one more; every byte it took is accounted for. */
  predicate ReceiverOk(r: Receiver, wire: seq<byte>) {
    && r.consumed <= |wire|
    && Incomplete(r.got)
    && (|r.got| >= 4 ==> WordValue(r.got[..4]) <= r.limit)
    && r.bytesRecv == Total(r.delivered)
    && r.consumed == r.bytesRecv + 4 * |r.delivered| + |r.got| + r.lost
    && 4 * r.refused <= r.lost
    && (r.lost == 0 ==> wire[..r.consumed] == Frames(r.delivered) + r.got)
  }

  predicate Inv(c: State) {
    SenderOk(c.s) && ReceiverOk(c.r, c.s.wire)
  }

  /** No frame was given up and no byte was lost. */
  predicate Clean(c: State) {
    c.s.spoiled == 0 && c.r.lost == 0
  }

  /** Every message of which something was sent is within the receiver's limit too. */
  predicate Fits(c: State) {
    forall m <- c.s.Started() :: |m| <= c.r.limit
  }

  // ---- the sending end ----

  lemma Extend(a: seq<byte>, f: seq<byte>, i: nat, j: nat)
    requires i <= j <= |f|
    ensures a + f[..i] + f[i..j] == a + f[..j]
    ensures f[..|f|] == f
  {
  }

  lemma PutKeepsTotals(s: Sender, k: nat)
    requires PcOk(s.pc) && s.pc.Sending? && k <= Asked(s.pc) && s.bytesSent == Total(s.completed)
    ensures PcOk(Put(s, k).pc) && Put(s, k).bytesSent == Total(Put(s, k).completed)
    ensures |Put(s, k).wire| - Put(s, k).bytesSent - 4 * |Put(s, k).completed| - |Put(s, k).Partial()|
         == |s.wire| - s.bytesSent - 4 * |s.completed| - |s.Partial()|
  {
    hide Frame, Total;
    TotalSnoc(s.completed, s.pc.msg);
  }

  lemma PutExtendsWire(s: Sender, k: nat)
    requires PcOk(s.pc) && s.pc.Sending? && k <= Asked(s.pc) && s.wire == Frames(s.completed) + s.Partial()
    ensures Put(s, k).wire == Frames(Put(s, k).completed) + Put(s, k).Partial()
  {
    hide Frame, Frames;
    Extend(Frames(s.completed), Frame(s.pc.msg), s.pc.done, s.pc.done + k);
    FramesSnoc(s.completed, s.pc.msg);
    assert Frames(Put(s, k).completed) + [] == Frames(Put(s, k).completed);
  }

  lemma ApplyKeepsSenderOk(c: State, l: Label)
    requires SenderOk(c.s) && Enabled(c, l)
    ensures SenderOk(Apply(c, l).s)
  {
    hide Frame, Frames, Total, Take;
    match l {
      case Begin(m) =>
        assert Frames(c.s.completed) + [] == Frames(c.s.completed);
      case Write(k) =>
        PutKeepsTotals(c.s, k);
        if c.s.spoiled == 0 {
          PutExtendsWire(c.s, k);
        }
        assert Put(c.s, k).Accepted() == c.s.Accepted();
      case WriteError =>
      case Read(_) =>
      case ReadError =>
      case Retry =>
    }
  }

  /** The part of the current send on the wire holds no whole frame. */
  lemma PartialIncomplete(s: Sender)
    requires PcOk(s.pc)
    ensures Incomplete(s.Partial())
  {
    hide Frame, Word, WordValue;
    if !s.pc.Idle? {
      StrictPrefixIncomplete(s.pc.msg, s.pc.done);
    }
  }

  /** Nothing that was completed, written, read or delivered is ever taken back, and as long as no
      frame is given up nothing that was started is. */
  lemma Grows(c: State, l: Label)
    requires Enabled(c, l)
    ensures var c' := Apply(c, l);
            && c.s.completed <= c'.s.completed && c.s.wire <= c'.s.wire
            && c.r.delivered <= c'.r.delivered && c.r.consumed <= c'.r.consumed
            && c'.r.limit == c.r.limit && c'.s.limit == c.s.limit
            && c.s.spoiled <= c'.s.spoiled && c.r.lost <= c'.r.lost
            && (PcOk(c.s.pc) && c'.s.spoiled == c.s.spoiled ==> c.s.Started() <= c'.s.Started())
  {
    hide Frame, Word, WordValue;
  }

  // ---- the receiving end ----

  /** The bytes of a whole frame are the frame of its body. */
  lemma WholeFrame(got: seq<byte>)
    requires 4 <= |got| && |got| == 4 + WordValue(got[..4])
    ensures Frame(got[4..]) == got
  {
    WordBijection(0, got[..4]);
  }

  /** What is left of the current frame after a read, and the counts. */
  lemma TakeKeepsCounts(r: Receiver, wire: seq<byte>, chunk: seq<byte>)
    requires ReceiverOk(r, wire) && |chunk| <= r.Wanted()
    ensures var t := Take(r, chunk);
            && Incomplete(t.got) && (|t.got| >= 4 ==> WordValue(t.got[..4]) <= t.limit)
            && t.bytesRecv == Total(t.delivered)
            && t.consumed == t.bytesRecv + 4 * |t.delivered| + |t.got| + t.lost
            && 4 * t.refused <= t.lost
  {
    hide Frame, Frames, Total, Word, WordValue;
    var got := r.got + chunk;
    if |got| >= 4 {
      TotalSnoc(r.delivered, got[4..]);
    }
  }

  /** A receiver that has lost nothing goes on parsing. */
  lemma TakeParses(r: Receiver, before: seq<byte>, chunk: seq<byte>)
    requires |chunk| <= r.Wanted() && before == Frames(r.delivered) + r.got && Take(r, chunk).lost == r.lost
    requires Incomplete(r.got)
    ensures before + chunk == Frames(Take(r, chunk).delivered) + Take(r, chunk).got
  {
    hide Frame, Frames, Total, Word, WordValue;
    var got := r.got + chunk;
    assert before + chunk == Frames(r.delivered) + got;
    if |got| >= 4 && |got| >= 4 + WordValue(got[..4]) {
      assert |r.got| >= 4 ==> got[..4] == r.got[..4];
      WholeFrame(got);
      FramesSnoc(r.delivered, got[4..]);
      assert Frames(r.delivered + [got[4..]]) + [] == Frames(r.delivered + [got[4..]]);
    }
  }

  lemma TakeKeepsReceiverOk(r: Receiver, wire: seq<byte>, k: nat)
    requires ReceiverOk(r, wire) && 1 <= k <= r.Wanted() && r.consumed + k <= |wire|
    ensures ReceiverOk(Take(r, wire[r.consumed..][..k]), wire)
  {
    hide Frame, Frames, Total, Word, WordValue, Incomplete, Take;
    var chunk := wire[r.consumed..][..k];
    TakeKeepsCounts(r, wire, chunk);
    LosesMore(r, chunk);
    if Take(r, chunk).lost == 0 {
      TakeParses(r, wire[..r.consumed], chunk);
      assert wire[..r.consumed + k] == wire[..r.consumed] + chunk;
    }
  }

  lemma LosesMore(r: Receiver, chunk: seq<byte>)
    requires |chunk| <= r.Wanted()
    ensures r.lost <= Take(r, chunk).lost
  {
    hide WordValue;
  }

  lemma ApplyKeepsInv(c: State, l: Label)
    requires Inv(c) && Enabled(c, l)
    ensures Inv(Apply(c, l))
  {
    hide Frame, Frames, Total, Incomplete, Take, Put, WordValue;
    var c' := Apply(c, l);
    ApplyKeepsSenderOk(c, l);
    Grows(c, l);
    if l.Read? {
      TakeKeepsReceiverOk(c.r, c.s.wire, l.count);
    } else {
      assert c'.s.wire[..c.r.consumed] == c.s.wire[..c.r.consumed];
    }
    if l.Retry? {
      assert Incomplete([]) by { NothingIncomplete(); }
    }
  }

  lemma NothingIncomplete()
    ensures Incomplete([])
  {
  }

  lemma {:induction false} RunKeepsInv(p: Callers, c: State, ls: seq<Label>)
    requires Inv(c) && Run(p, c, ls).Some?
    ensures Inv(Run(p, c, ls).value)
    ensures Run(p, c, ls).value.s.limit == c.s.limit && Run(p, c, ls).value.r.limit == c.r.limit
    decreases |ls|
  {
    hide Inv, Enabled, Apply;
    if ls != [] {
      ApplyKeepsInv(c, ls[0]);
      Grows(c, ls[0]);
      RunKeepsInv(p, Apply(c, ls[0]), ls[1..]);
    }
  }

  lemma InitInv(sendLimit: uint32, recvLimit: uint32)
    ensures Inv(Init(sendLimit, recvLimit))
  {
    assert Frames([]) + [] == [];
  }

  /** Whatever the sender did and whatever bytes came, a receiver that lost nothing has returned
      exactly the frames of what it took. */
  lemma ReceiverParses(p: Callers, sendLimit: uint32, recvLimit: uint32, ls: seq<Label>)
    requires Run(p, Init(sendLimit, recvLimit), ls).Some?
    ensures var c := Run(p, Init(sendLimit, recvLimit), ls).value;
            c.r.lost == 0 ==> c.r.consumed <= |c.s.wire| && Parse(c.s.wire[..c.r.consumed]) == (c.r.delivered, c.r.got)
  {
    hide Enabled, Apply, Incomplete, Parse;
    var c := Run(p, Init(sendLimit, recvLimit), ls).value;
    InitInv(sendLimit, recvLimit);
    RunKeepsInv(p, Init(sendLimit, recvLimit), ls);
    if c.r.lost == 0 {
      UniqueParse(c.r.delivered, c.r.got);
    }
  }

  // ---- careful callers lose nothing ----

  /** As long as nothing was given up or lost, the receiver is somewhere inside the messages sent. */
  lemma Position(s: Sender, r: Receiver)
    requires SenderOk(s) && ReceiverOk(r, s.wire) && s.spoiled == 0 && r.lost == 0
    ensures r.delivered <= s.completed
    ensures r.got + s.wire[r.consumed..] == Frames(s.completed[|r.delivered|..]) + s.Partial()
  {
    hide Frame, Frames, Incomplete;
    PartialIncomplete(s);
    var rest := s.wire[r.consumed..];
    assert Frames(r.delivered) + (r.got + rest) == s.wire[..r.consumed] + rest == s.wire;
    PrefixRead(r.delivered, r.got + rest, s.completed, s.Partial());
  }

  /** A header that has been read is the length of a message of which something was sent. */
  lemma HeaderOfStarted(s: Sender, done: nat, got: seq<byte>) returns (m: Message)
    requires PcOk(s.pc) && done <= |s.completed|
    requires 4 <= |got| && got <= Frames(s.completed[done..]) + s.Partial()
    ensures m in s.Started() && WordValue(got[..4]) == |m|
  {
    hide Word, WordValue;
    var ms := s.completed[done..];
    assert got[..4] == (Frames(ms) + s.Partial())[..4];
    if ms == [] {
      assert Frames(ms) + s.Partial() == s.Partial();
      m := s.pc.msg;
      assert got[..4] == Frame(m)[..4] == Word(|m|);
      assert m == s.Started()[|s.completed|];
    } else {
      m := ms[0];
      assert Frames(ms) + s.Partial() == Frame(m) + (Frames(ms[1..]) + s.Partial());
      FrameFront(m, Frames(ms[1..]) + s.Partial());
      assert m == s.Started()[done];
    }
    WordBijection(|m|, Word(|m|));
  }

  /** A read does not refuse what fits. */
  lemma NothingRefused(c: State, k: nat)
    requires Inv(c) && Clean(c) && Fits(c) && Enabled(c, Read(k))
    ensures Take(c.r, c.Pipe()[..k]).lost == 0
  {
    hide Frame, Frames, Total, Word, WordValue;
    var got := c.r.got + c.Pipe()[..k];
    if |got| >= 4 {
      Position(c.s, c.r);
      assert got <= c.r.got + c.Pipe();
      var m := HeaderOfStarted(c.s, |c.r.delivered|, got);
    }
  }

  /** What all runs of careful callers keep. */
  predicate CleanIfFits(c: State) {
    Inv(c) && (Fits(c) ==> Clean(c))
  }

  lemma CarefulKeepsClean(c: State, l: Label)
    requires CleanIfFits(c) && Allowed(CAREFUL, c, l)
    ensures CleanIfFits(Apply(c, l))
  {
    hide Inv, Take, Put, WordValue, Frame;
    var c' := Apply(c, l);
    ApplyKeepsInv(c, l);
    Grows(c, l);
    assert PcOk(c.s.pc) by { PcOkOf(c); }
    assert c'.s.spoiled == c.s.spoiled by { GivesUpNothing(c, l); }
    if Fits(c') {
      assert Fits(c) by {
        forall m | m in c.s.Started() ensures |m| <= c.r.limit {
          assert m in c'.s.Started();
        }
      }
      if l.Read? {
        NothingRefused(c, l.count);
      }
    }
  }

  lemma PcOkOf(c: State)
    requires Inv(c)
    ensures PcOk(c.s.pc)
  {
  }

  lemma GivesUpNothing(c: State, l: Label)
    requires Allowed(CAREFUL, c, l)
    ensures Apply(c, l).s.spoiled == c.s.spoiled
  {
  }

  lemma {:induction false} CarefulRun(c: State, ls: seq<Label>)
    requires CleanIfFits(c) && Run(CAREFUL, c, ls).Some?
    ensures CleanIfFits(Run(CAREFUL, c, ls).value)
    decreases |ls|
  {
    hide CleanIfFits, Enabled, Apply;
    if ls != [] {
      CarefulKeepsClean(c, ls[0]);
      CarefulRun(Apply(c, ls[0]), ls[1..]);
    }
  }

  /** A call that failed before its first byte can be made again as if it had not been made: a receive
      goes on where it was, a send starts as after a completed one. */
  lemma RetryWithoutLoss(c: State, m: Message)
    requires Inv(c)
    ensures c.r.got == [] && !c.r.failed ==> Apply(Apply(c, ReadError), Retry) == c
    ensures c.s.pc.Sending? && c.s.pc.done == 0 && |m| <= c.s.limit ==>
              Apply(Apply(c, WriteError), Begin(m)) == c.(s := c.s.(pc := Sending(m, 0)))
  {
    hide Frame, Frames, Total, Incomplete, Put, Take;
  }

  // ---- first in, first out ----

  /** The receives that returned are a prefix of the sends that returned, and all of them once no part
      of a frame is on the wire and every byte has been read. */
  predicate FifoState(c: State) {
    && c.r.delivered <= c.s.completed
    && (Drained(c) ==> c.r.delivered == c.s.completed)
  }

  predicate Drained(c: State) {
    c.s.Partial() == [] && c.Pipe() == []
  }

  /** A wire of whole frames that holds no whole frame is empty. */
  lemma LoneFrames(ms: seq<Message>)
    requires Incomplete(Frames(ms))
    ensures ms == []
  {
    hide Frame;
    if ms != [] {
      FrameFront(ms[0], Frames(ms[1..]));
    }
  }

  lemma InvGivesFifo(c: State)
    requires Inv(c) && Clean(c)
    ensures FifoState(c)
    ensures Drained(c) ==> c.r.got == [] && c.r.bytesRecv == c.s.bytesSent
  {
    hide Frame, Frames, Incomplete;
    Position(c.s, c.r);
    if Drained(c) {
      var rest := c.s.completed[|c.r.delivered|..];
      assert c.r.got + c.Pipe() == c.r.got && Frames(rest) + [] == Frames(rest);
      LoneFrames(rest);
      FramesOfNone();
    }
  }

  /** First-in first-out over every interleaving and every chunking, with nothing refused, for any
      messages within both ends' limits, with careful callers; and the byte counts: what the sending
      end observed is the payload of its completed sends, the wire holds four bytes more for each of
      them and a strict prefix of one frame, and once the pipe is drained both ends observed the same. */
  lemma FifoRefinement(sendLimit: uint32, recvLimit: uint32, ls: seq<Label>)
    requires Run(CAREFUL, Init(sendLimit, recvLimit), ls).Some?
    requires Fits(Run(CAREFUL, Init(sendLimit, recvLimit), ls).value)
    ensures var c := Run(CAREFUL, Init(sendLimit, recvLimit), ls).value;
            && FifoState(c) && c.r.refused == 0
            && c.s.wire == Frames(c.s.completed) + c.s.Partial()
            && c.s.bytesSent == Total(c.s.completed) && c.r.bytesRecv == Total(c.r.delivered)
            && |c.s.wire| == c.s.bytesSent + 4 * |c.s.completed| + |c.s.Partial()|
            && c.r.consumed == c.r.bytesRecv + 4 * |c.r.delivered| + |c.r.got|
            && (Drained(c) ==> c.r.bytesRecv == c.s.bytesSent)
  {
    hide Frame, Incomplete, Allowed, Apply, Fits;
    InitInv(sendLimit, recvLimit);
    CarefulRun(Init(sendLimit, recvLimit), ls);
    InvGivesFifo(Run(CAREFUL, Init(sendLimit, recvLimit), ls).value);
  }

  /** In every run, whatever the callers do: if no frame was given up on the wire, then a drained
      channel has delivered every message, in order, exactly when the receiver has lost no byte. */
  lemma DeliveredExactly(p: Callers, sendLimit: uint32, recvLimit: uint32, ls: seq<Label>)
    requires Run(p, Init(sendLimit, recvLimit), ls).Some?
    ensures var c := Run(p, Init(sendLimit, recvLimit), ls).value;
            && (Clean(c) ==> FifoState(c))
            && (c.s.spoiled == 0 && Drained(c) ==> (c.r.delivered == c.s.completed <==> c.r.lost == 0))
  {
    hide Frame, Frames, Total, Incomplete, Allowed, Apply;
    var c := Run(p, Init(sendLimit, recvLimit), ls).value;
    InitInv(sendLimit, recvLimit);
    RunKeepsInv(p, Init(sendLimit, recvLimit), ls);
    if Clean(c) {
      InvGivesFifo(c);
    }
  }

  ghost predicate AlwaysFifo(p: Callers, sendLimit: uint32, recvLimit: uint32) {
    forall ls :: Run(p, Init(sendLimit, recvLimit), ls).Some? ==> FifoState(Run(p, Init(sendLimit, recvLimit), ls).value)
  }

  /** Two ends deliver in order in all their runs exactly when the receiver's limit is not below the
      sender's and neither caller goes on after a call that failed inside a frame. */
  lemma FifoExactly(p: Callers, sendLimit: uint32, recvLimit: uint32)
    requires MIN_BUFFER_SIZE <= sendLimit && MIN_BUFFER_SIZE <= recvLimit
    ensures AlwaysFifo(p, sendLimit, recvLimit) <==> sendLimit <= recvLimit && !p.resend && !p.reread
  {
    hide FifoState, Allowed, Apply, Fits;
    var c := Init(sendLimit, recvLimit);
    if sendLimit <= recvLimit && p == CAREFUL {
      forall ls | Run(p, c, ls).Some? ensures FifoState(Run(p, c, ls).value) {
        InitInv(sendLimit, recvLimit);
        CarefulRun(c, ls);
        RunKeepsInv(p, c, ls);
        LimitsFit(Run(p, c, ls).value);
        InvGivesFifo(Run(p, c, ls).value);
      }
    } else {
      var ls;
      if sendLimit > recvLimit {
        ls := RefusedBodyIsRead(p, sendLimit, recvLimit);
      } else if p.reread {
        ls := HalfReadBodyIsRead(p, sendLimit, recvLimit);
      } else {
        ls := HalfWrittenFrameIsRead(p, sendLimit, recvLimit);
      }
      NeverSentIsNotFifo(Run(p, c, ls).value);
    }
  }

  lemma LimitsFit(c: State)
    requires Inv(c) && c.s.limit <= c.r.limit
    ensures Fits(c)
  {
    assert forall m <- c.s.Started() :: m in c.s.Accepted();
  }

  // ---- runs that deliver what was never sent ----

  /** The receiver returned the message [0], which no send was called with. */
  predicate ZeroFromNowhere(c: State) {
    c.r.delivered == [[0]] && [0] !in c.s.completed
  }

  lemma NeverSentIsNotFifo(c: State)
    requires ZeroFromNowhere(c)
    ensures !FifoState(c)
  {
    assert |c.s.completed| > 0 ==> c.s.completed[0] in c.s.completed;
  }

  /** A message whose body looks like a frame that was never sent. */
  function Decoy(size: uint32): (m: Message)
    requires size > 5
    ensures |m| == size && m[..4] == Word(1) && m[4] == 0
  {
    Word(1) + seq(size - 4, i => 0)
  }

  /** A whole header read at a frame boundary. */
  lemma TakeHeader(r: Receiver, w: seq<byte>)
    requires r.got == [] && |w| == 4 && WordValue(w) != 0
    ensures Take(r, w) == if WordValue(w) > r.limit
                          then r.(consumed := r.consumed + 4, refused := r.refused + 1, lost := r.lost + 4)
                          else r.(consumed := r.consumed + 4, got := w)
  {
    hide WordValue;
    assert r.got + w == w && w[..4] == w;
  }

  /** The whole body read after its header. */
  lemma TakeBody(r: Receiver, b: seq<byte>)
    requires |r.got| == 4 && WordValue(r.got) == |b| && 0 < |b| <= r.limit
    ensures |b| == r.Wanted()
    ensures Take(r, b) == r.(consumed := r.consumed + |b|, got := [],
                             delivered := r.delivered + [b], bytesRecv := r.bytesRecv + |b|)
  {
    hide WordValue;
    var got := r.got + b;
    assert r.got[..4] == r.got && got[..4] == r.got && got[4..] == b;
  }

  /** Sends all of the message `m` on a channel where no send is under way. */
  lemma SendWhole(p: Callers, c0: State, ls: seq<Label>, c: State, m: Message) returns (ls': seq<Label>)
    requires Run(p, c0, ls) == Some(c) && c.s.pc.Idle? && 0 < |m| <= c.s.limit
    ensures Run(p, c0, ls') == Some(c.(s := c.s.(wire := c.s.wire + Frame(m), completed := c.s.completed + [m],
                                                 bytesSent := c.s.bytesSent + |m|)))
  {
    hide Run, Word;
    var c1 := Apply(c, Begin(m));
    RunSnoc(p, c0, ls, c, Begin(m));
    var c2 := Apply(c1, Write(4));
    RunSnoc(p, c0, ls + [Begin(m)], c1, Write(4));
    RunSnoc(p, c0, ls + [Begin(m)] + [Write(4)], c2, Write(|m|));
    assert c.s.wire + Frame(m)[0..4] + Frame(m)[4..4 + |m|] == c.s.wire + Frame(m);
    ls' := ls + [Begin(m)] + [Write(4)] + [Write(|m|)];
  }

  /** Receives the message [0] off the front of what is in the pipe. */
  lemma ReceiveZero(p: Callers, c0: State, ls: seq<Label>, c: State) returns (ls': seq<Label>)
    requires Run(p, c0, ls) == Some(c) && !c.r.failed && c.r.got == [] && c.r.limit >= 1
    requires |c.Pipe()| >= 5 && c.Pipe()[..4] == Word(1) && c.Pipe()[4] == 0
    ensures Run(p, c0, ls') == Some(c.(r := c.r.(consumed := c.r.consumed + 5, delivered := c.r.delivered + [[0]],
                                                 bytesRecv := c.r.bytesRecv + 1)))
  {
    hide Run, Word, WordValue;
    WordBijection(1, Word(1));
    TakeHeader(c.r, Word(1));
    var d := Apply(c, Read(4));
    RunSnoc(p, c0, ls, c, Read(4));
    assert d.Pipe()[..1] == [0];
    TakeBody(d.r, [0]);
    RunSnoc(p, c0, ls + [Read(4)], d, Read(1));
    ls' := ls + [Read(4)] + [Read(1)];
  }

  /** A receiver that refuses a frame does not skip its body. */
  lemma RefusedBodyIsRead(p: Callers, sendLimit: uint32, recvLimit: uint32) returns (ls: seq<Label>)
    requires MIN_BUFFER_SIZE <= recvLimit < sendLimit
    ensures var r := Run(p, Init(sendLimit, recvLimit), ls); r.Some? && ZeroFromNowhere(r.value)
  {
    hide Word, WordValue, Run;
    var n := recvLimit + 1;
    var m := Decoy(n);
    var c0 := Init(sendLimit, recvLimit);
    RunNil(p, c0);
    ls := SendWhole(p, c0, [], c0, m);
    var c := Run(p, c0, ls).value;
    assert c.s.wire == Word(n) + m && c.s.completed == [m];
    WordBijection(n, Word(n));
    assert c.Pipe()[..4] == Word(n);
    TakeHeader(c.r, Word(n));
    var d := Apply(c, Read(4));
    RunSnoc(p, c0, ls, c, Read(4));
    assert d.Pipe() == m;
    ls := ReceiveZero(p, c0, ls + [Read(4)], d);
  }

  /** A receive that fails after the header leaves the body for the next one. */
  lemma HalfReadBodyIsRead(p: Callers, sendLimit: uint32, recvLimit: uint32) returns (ls: seq<Label>)
    requires MIN_BUFFER_SIZE <= recvLimit && MIN_BUFFER_SIZE <= sendLimit && p.reread
    ensures var r := Run(p, Init(sendLimit, recvLimit), ls); r.Some? && ZeroFromNowhere(r.value)
  {
    hide Word, WordValue, Run;
    var m := Decoy(6);
    var c0 := Init(sendLimit, recvLimit);
    RunNil(p, c0);
    ls := SendWhole(p, c0, [], c0, m);
    var c1 := Run(p, c0, ls).value;
    assert c1.s.wire == Word(6) + m && c1.s.completed == [m];
    WordBijection(6, Word(6));
    assert c1.Pipe()[..4] == Word(6);
    TakeHeader(c1.r, Word(6));
    var c2 := Apply(c1, Read(4));
    RunSnoc(p, c0, ls, c1, Read(4));
    var c3 := Apply(c2, ReadError);
    RunSnoc(p, c0, ls + [Read(4)], c2, ReadError);
    var c4 := Apply(c3, Retry);
    RunSnoc(p, c0, ls + [Read(4)] + [ReadError], c3, Retry);
    assert c4.Pipe() == m;
    ls := ReceiveZero(p, c0, ls + [Read(4)] + [ReadError] + [Retry], c4);
  }

  /** A send that fails after the header makes the next frame look like the body. */
  lemma HalfWrittenFrameIsRead(p: Callers, sendLimit: uint32, recvLimit: uint32) returns (ls: seq<Label>)
    requires MIN_BUFFER_SIZE <= recvLimit && MIN_BUFFER_SIZE <= sendLimit && p.resend
    ensures var r := Run(p, Init(sendLimit, recvLimit), ls); r.Some? && ZeroFromNowhere(r.value)
  {
    hide Run, Word, WordValue;
    var c0 := Init(sendLimit, recvLimit);
    RunNil(p, c0);
    ZeroWord();
    assert Frame([5])[0..4] == Word(1) && Frame([])[0..4] == Word(0);
    var c1 := Apply(c0, Begin([5]));
    RunSnoc(p, c0, [], c0, Begin([5]));
    var c2 := Apply(c1, Write(4));
    RunSnoc(p, c0, [] + [Begin([5])], c1, Write(4));
    var c3 := Apply(c2, WriteError);
    RunSnoc(p, c0, [] + [Begin([5])] + [Write(4)], c2, WriteError);
    var c4 := Apply(c3, Begin([]));
    RunSnoc(p, c0, [] + [Begin([5])] + [Write(4)] + [WriteError], c3, Begin([]));
    var c5 := Apply(c4, Write(4));
    RunSnoc(p, c0, [] + [Begin([5])] + [Write(4)] + [WriteError] + [Begin([])], c4, Write(4));
    assert c5.s.wire == Word(1) + Word(0) && c5.s.completed == [[]];
    ls := ReceiveZero(p, c0, [] + [Begin([5])] + [Write(4)] + [WriteError] + [Begin([])] + [Write(4)], c5);
  }

  lemma ZeroWord()
    ensures Word(0) == [0, 0, 0, 0]
  {
  }

  lemma RunNil(p: Callers, c: State)
    ensures Run(p, c, []) == Some(c)
  {
  }

  // ---- progress ----

  /** A step of a run in which the operating system reports no error and every write takes something. */
  predicate Advances(c: State, l: Label) {
    Enabled(c, l) && (l.Read? || (l.Write? && l.count > 0 && (c.s.pc.done < 4 ==> l.count == 4)))
  }

  /** Bytes still to write, counted twice, and bytes still to read. */
  function Ahead(c: State): nat {
    (if c.s.pc.Sending? && c.s.pc.done <= |Frame(c.s.pc.msg)| then 2 * (|Frame(c.s.pc.msg)| - c.s.pc.done) else 0) + |c.Pipe()|
  }

  /** Sends and receives terminate: an error-free run in which no new send begins takes at most
      `Ahead` steps, and it can stop only when everything accepted has been delivered. */
  lemma ErrorFreeProgress(c: State)
    requires Inv(c) && Clean(c) && !c.s.pc.Broken? && !c.r.failed
    ensures forall l | Advances(c, l) :: Ahead(Apply(c, l)) < Ahead(c)
    ensures (forall l :: !Advances(c, l)) ==> c.r.delivered == c.s.completed == c.s.Accepted()
  {
    hide Frame, Frames, Word, WordValue, Incomplete, Apply, Ahead;
    forall l | Advances(c, l) ensures Ahead(Apply(c, l)) < Ahead(c) {
      StepsLeft(c, l);
    }
    if c.s.pc.Sending? {
      assert Advances(c, Write(Asked(c.s.pc)));
    } else if c.Pipe() != [] {
      assert c.r.Wanted() >= 1 by { WantsSomething(c.r); }
      assert Advances(c, Read(1));
    } else {
      InvGivesFifo(c);
    }
  }

  lemma StepsLeft(c: State, l: Label)
    requires PcOk(c.s.pc) && c.r.consumed <= |c.s.wire| && Advances(c, l)
    ensures Ahead(Apply(c, l)) < Ahead(c)
  {
    hide Frame, Word, WordValue;
  }

  lemma WantsSomething(r: Receiver)
    requires Incomplete(r.got)
    ensures r.Wanted() >= 1
  {
  }
}
