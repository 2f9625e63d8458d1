/** What a send, a receive and the system calls in them come to, given what the operating system (or the
    TLS library) answers: functions of the replies, which the methods of the connection are proved to
    compute, and when exactly a call returns, said of the replies alone. */
module Transfers {
  import opened Basics
  import opened Wire
  import opened Channel

  datatype Error =
    | InvalidMessageSize | WriteFail | ReadFail | ConnectionShutDown | SocketFail
    | ProtocolError | TLSError | PortError | ConnectionError

  /** A returned value or a thrown `comm::Exception`. */
  datatype Result<+T> = Ok(value: T) | Err(error: Error)

  datatype Transport = PlainTCP | OverTLS

  /** The answer to one call of `send`: so many bytes are taken, or as many as there were if fewer. */
  datatype SendReply = Took(n: nat) | SendFailed

  datatype SslError = ZeroReturn | WantRead | Syscall | Ssl | OtherError

  /** The answer to one call of `recv`: so many bytes, or as many as fit and there still are; or an
      error, `again` saying that errno is EAGAIN, `ssl` what SSL_get_error says. */
  datatype RecvReply = Gave(n: nat) | RecvFailed(again: bool, ssl: SslError)

  /** How a call went: what it returned or threw, how many bytes moved, how many replies were used. */
  datatype Transfer<+T> = Transfer(r: Result<T>, moved: nat, used: nat)

  function Min(a: nat, b: nat): nat { if a <= b then a else b }

  // ---- sending ----

  /** One `write` of `size` bytes. */
  function WriteOnce(t: Transport, size: nat, replies: seq<SendReply>): (x: Transfer<nat>)
    ensures x.used <= |replies| && x.moved <= size
    ensures if x.r.Ok? then x.r.value == x.moved && x.used == 1 else x.r.error == WriteFail && x.moved == 0
  {
    if replies == [] then Transfer(Err(WriteFail), 0, 0)
    else if replies[0].SendFailed? then Transfer(Err(WriteFail), 0, 1)
    else
      var k := Min(replies[0].n, size);
      if t == OverTLS && k == 0 then Transfer(Err(WriteFail), 0, 1) else Transfer(Ok(k), k, 1)
  }

  /** Writes until `size` bytes are out. */
  function WriteLoop(t: Transport, size: nat, replies: seq<SendReply>): (x: Transfer<()>)
    ensures x.used <= |replies| && x.moved <= size && x.r == (if x.moved == size then Ok(()) else Err(WriteFail))
    decreases |replies|
  {
    if size == 0 then Transfer(Ok(()), 0, 0)
    else
      var w := WriteOnce(t, size, replies);
      if w.r.Err? then Transfer(Err(w.r.error), 0, w.used)
      else
        var rest := WriteLoop(t, size - w.moved, replies[1..]);
        Transfer(rest.r, w.moved + rest.moved, 1 + rest.used)
  }

  /** `send_message` on a connection that has a socket. */
  function SendResult(t: Transport, limit: uint32, m: Message, replies: seq<SendReply>): (x: Transfer<()>)
    ensures x.used <= |replies| && x.moved <= 4 + |m|
  {
    if |m| > limit then Transfer(Err(InvalidMessageSize), 0, 0)
    else
      var h := WriteOnce(t, 4, replies);
      if h.r.Err? then Transfer(Err(h.r.error), 0, h.used)
      else if h.moved != 4 then Transfer(Err(WriteFail), h.moved, 1)
      else
        var body := WriteLoop(t, |m|, replies[1..]);
        Transfer(body.r, 4 + body.moved, 1 + body.used)
  }

  /** A reply that makes a write of one or more bytes throw. */
  predicate WriteThrows(t: Transport, reply: SendReply) {
    reply == SendFailed || (t == OverTLS && reply == Took(0))
  }

  /** The bytes that the replies take, all together. */
  function TookSum(replies: seq<SendReply>): nat {
    if replies == [] then 0 else (if replies[0].Took? then replies[0].n else 0) + TookSum(replies[1..])
  }

  /** The loop fails exactly when a reply that it used makes a write throw, or it has used them all and
      they did not take everything; what is out then is all that the replies took. */
  lemma {:induction false} WriteLoopExactly(t: Transport, size: nat, replies: seq<SendReply>)
    ensures var l := WriteLoop(t, size, replies);
            && l.used <= |replies| && l.moved == Min(size, TookSum(replies[..l.used]))
            && (l.r.Ok? <==> l.moved == size) && (l.r == Ok(()) || l.r == Err(WriteFail))
            && (l.r.Err? <==> || (exists i | 0 <= i < l.used :: WriteThrows(t, replies[i]))
                              || (l.used == |replies| && TookSum(replies[..l.used]) < size))
    decreases |replies|
  {
    hide WriteThrows, TookSum, WriteLoop, WriteOnce;
    WriteStep(t, size, replies);
    FirstWrite(t, replies);
    if size > 0 && replies != [] {
      AnyWriteThrows(t, replies, 1);
      if !WriteThrows(t, replies[0]) {
        var k := Min(replies[0].n, size);
        var rest := WriteLoop(t, size - k, replies[1..]);
        WriteLoopExactly(t, size - k, replies[1..]);
        TookSumCons(replies, rest.used);
        AnyWriteThrows(t, replies, 1 + rest.used);
      }
    }
  }

  /** One turn of the loop. */
  lemma WriteStep(t: Transport, size: nat, replies: seq<SendReply>)
    ensures size == 0 ==> WriteLoop(t, size, replies) == Transfer(Ok(()), 0, 0)
    ensures size > 0 ==>
            var w := WriteOnce(t, size, replies);
            if w.r.Err? then WriteLoop(t, size, replies) == Transfer(Err(w.r.error), 0, w.used)
            else
              && replies != []
              && var rest := WriteLoop(t, size - w.moved, replies[1..]);
              WriteLoop(t, size, replies) == Transfer(rest.r, w.moved + rest.moved, 1 + rest.used)
  {
    hide WriteOnce;
  }

  lemma FirstWrite(t: Transport, replies: seq<SendReply>)
    ensures TookSum(replies[..0]) == 0
    ensures replies != [] && WriteThrows(t, replies[0]) ==>
              TookSum(replies[..1]) == 0 && forall size | size > 0 :: WriteOnce(t, size, replies) == Transfer(Err(WriteFail), 0, 1)
    ensures replies == [] ==> forall size :: WriteOnce(t, size, replies) == Transfer(Err(WriteFail), 0, 0)
    ensures replies != [] && !WriteThrows(t, replies[0]) ==>
              replies[0].Took? && forall size | size > 0 ::
                WriteOnce(t, size, replies) == Transfer(Ok(Min(replies[0].n, size)), Min(replies[0].n, size), 1)
  {
    if replies != [] {
      TookSumCons(replies, 0);
    }
  }

  lemma TookSumCons(replies: seq<SendReply>, n: nat)
    requires n < |replies|
    ensures TookSum(replies[..n + 1]) == (if replies[0].Took? then replies[0].n else 0) + TookSum(replies[1..][..n])
  {
    assert replies[..n + 1][1..] == replies[1..][..n];
  }

  lemma AnyWriteThrows(t: Transport, replies: seq<SendReply>, n: nat)
    requires 0 < n <= |replies|
    ensures (exists i | 0 <= i < n :: WriteThrows(t, replies[i])) <==>
              WriteThrows(t, replies[0]) || exists i | 0 <= i < n - 1 :: WriteThrows(t, replies[1..][i])
  {
    hide WriteThrows;
    assert forall i | 0 <= i < n - 1 :: replies[1..][i] == replies[i + 1];
    assert forall i | 1 <= i < n :: replies[i] == replies[1..][i - 1];
  }

  /** When a send within the limit throws, and that it then throws WriteFail: exactly when its first
      reply took fewer than the 4 bytes of the header, or failed, or there was none; or a later one that
      it used failed, or over TLS took nothing; or none was left while bytes remained. What is on the
      wire is what the replies took. */
  lemma SendThrowsExactly(t: Transport, limit: uint32, m: Message, replies: seq<SendReply>)
    requires |m| <= limit
    ensures var s := SendResult(t, limit, m, replies);
            && s.used <= |replies| && (s.r == Ok(()) || s.r == Err(WriteFail))
            && (s.r == Err(WriteFail) <==>
                  || s.used == 0
                  || !(replies[0].Took? && replies[0].n >= 4)
                  || (exists i | 1 <= i < s.used :: replies[i] == SendFailed || (t == OverTLS && replies[i] == Took(0)))
                  || (s.used == |replies| && TookSum(replies[1..s.used]) < |m|))
            && s.moved == (if s.used == 0 || replies[0].SendFailed? then 0
                           else if replies[0].n < 4 then replies[0].n
                           else 4 + Min(|m|, TookSum(replies[1..s.used])))
  {
    var s := SendResult(t, limit, m, replies);
    if replies != [] && replies[0].Took? && replies[0].n >= 4 {
      var body := WriteLoop(t, |m|, replies[1..]);
      WriteLoopExactly(t, |m|, replies[1..]);
      assert replies[1..s.used] == replies[1..][..body.used];
      assert forall i | 0 <= i < body.used :: replies[1..][i] == replies[i + 1];
      assert forall i | 1 <= i < s.used :: replies[i] == replies[1..][i - 1];
    }
  }

  lemma {:induction false} WriteLoopReturns(t: Transport, size: nat, replies: seq<SendReply>)
    requires |replies| >= size && forall i | 0 <= i < size :: replies[i].Took? && replies[i].n >= 1
    ensures WriteLoop(t, size, replies).r == Ok(()) && WriteLoop(t, size, replies).moved == size
    decreases |replies|
  {
    if size > 0 {
      WriteLoopReturns(t, size - Min(replies[0].n, size), replies[1..]);
    }
  }

  /** So a send within the limit returns, with the whole frame out, if the header goes out at once and
      each further write takes something. */
  lemma SendReturns(t: Transport, limit: uint32, m: Message, replies: seq<SendReply>)
    requires |m| <= limit && |replies| >= 1 + |m| && replies[0].Took? && replies[0].n >= 4
    requires forall i | 1 <= i <= |m| :: replies[i].Took? && replies[i].n >= 1
    ensures SendResult(t, limit, m, replies).r == Ok(()) && SendResult(t, limit, m, replies).moved == 4 + |m|
  {
    WriteLoopReturns(t, |m|, replies[1..]);
  }

  // ---- receiving ----

  /** The read goes on: an SSL_read that timed out. */
  predicate Retries(t: Transport, reply: RecvReply) {
    t == OverTLS && reply == RecvFailed(true, WantRead)
  }

  /** One `read` of `size` bytes when there are `avail` to come. */
  function ReadOnce(t: Transport, size: nat, avail: nat, replies: seq<RecvReply>): (x: Transfer<nat>)
    ensures x.used <= |replies| && x.moved <= size && x.moved <= avail
    ensures if x.r.Ok? then 1 <= x.r.value == x.moved && x.used > 0
            else x.moved == 0 && x.r.error in {ReadFail, ConnectionShutDown}
    ensures t == PlainTCP ==> x.used <= 1
    decreases |replies|
  {
    if replies == [] then Transfer(Err(if t == PlainTCP then ReadFail else ConnectionShutDown), 0, 0)
    else if Retries(t, replies[0]) then
      var rest := ReadOnce(t, size, avail, replies[1..]);
      rest.(used := 1 + rest.used)
    else
      match replies[0]
      case Gave(n) =>
        var k := Min(n, Min(size, avail));
        if k == 0 then Transfer(Err(ConnectionShutDown), 0, 1) else Transfer(Ok(k), k, 1)
      case RecvFailed(again, ssl) =>
        var e := if t == PlainTCP then (if again then ConnectionShutDown else ReadFail)
                 else if ssl == WantRead || ssl == OtherError then ReadFail else ConnectionShutDown;
        Transfer(Err(e), 0, 1)
  }

  /** `recv_and_check` */
  function ReadLoop(t: Transport, size: nat, avail: nat, replies: seq<RecvReply>): (x: Transfer<()>)
    ensures x.used <= |replies| && x.moved <= size && x.moved <= avail && (x.r.Ok? <==> x.moved == size)
    ensures x.r.Err? ==> x.r.error in {ReadFail, ConnectionShutDown}
    ensures t == PlainTCP ==> x.used <= x.moved + (if x.r.Ok? then 0 else 1)
    decreases |replies|
  {
    if size == 0 then Transfer(Ok(()), 0, 0)
    else
      var x := ReadOnce(t, size, avail, replies);
      if x.r.Err? then Transfer(Err(x.r.error), 0, x.used)
      else
        var rest := ReadLoop(t, size - x.moved, avail - x.moved, replies[x.used..]);
        Transfer(rest.r, x.moved + rest.moved, x.used + rest.used)
  }

  /** `recv_message` on a connection that has a socket and whose peer will send the bytes `w`. */
  function ReceiveResult(t: Transport, limit: uint32, w: seq<byte>, replies: seq<RecvReply>): (x: Transfer<Message>)
    ensures x.used <= |replies| && x.moved <= |w|
    ensures t == PlainTCP ==> x.used <= x.moved + (if x.r.Ok? then 0 else 1)
  {
    var h := ReadLoop(t, 4, |w|, replies);
    if h.r.Err? then Transfer(Err(h.r.error), h.moved, h.used)
    else
      var n := WordValue(w[..4]);
      if n > limit then Transfer(Err(InvalidMessageSize), 4, h.used)
      else
        var body := ReadLoop(t, n, |w| - 4, replies[h.used..]);
        Transfer(if body.r.Err? then Err(body.r.error) else Ok(w[4..4 + n]), 4 + body.moved, h.used + body.used)
  }

  /** What a read makes of the replies: it goes on over timeouts of TLS; the reply at which it stops
      decides, and which exception is thrown is told by that reply. */
  lemma {:induction false} ReadOnceExactly(t: Transport, size: nat, avail: nat, replies: seq<RecvReply>)
    ensures var x := ReadOnce(t, size, avail, replies);
            && x.used <= |replies|
            && (forall i | 0 <= i < x.used - 1 :: t == OverTLS && replies[i] == RecvFailed(true, WantRead))
            && (x.used == 0 || (t == OverTLS && replies[x.used - 1] == RecvFailed(true, WantRead)) ==>
                  && x.used == |replies|
                  && x.r == Err(if t == PlainTCP then ReadFail else ConnectionShutDown))
            && (x.used > 0 ==> match replies[x.used - 1]
                  case Gave(n) =>
                    if n == 0 || size == 0 || avail == 0 then x.r == Err(ConnectionShutDown)
                    else x.r == Ok(Min(n, Min(size, avail)))
                  case RecvFailed(again, ssl) =>
                    match t
                    case PlainTCP => x.r == Err(if again then ConnectionShutDown else ReadFail)
                    case OverTLS =>
                      match ssl
                      case ZeroReturn | Syscall | Ssl => x.r == Err(ConnectionShutDown)
                      case OtherError => x.r == Err(ReadFail)
                      case WantRead => !again ==> x.r == Err(ReadFail))
            && x.moved == (if x.r.Ok? then x.r.value else 0) && (x.r.Ok? ==> 1 <= x.moved <= Min(size, avail) && x.used > 0)
    decreases |replies|
  {
    if replies != [] && Retries(t, replies[0]) {
      ReadOnceExactly(t, size, avail, replies[1..]);
      var x := ReadOnce(t, size, avail, replies);
      assert forall i | 1 <= i < x.used :: replies[i] == replies[1..][i - 1];
    }
  }

  /** A reply that makes every read throw. */
  predicate ReadThrows(t: Transport, reply: RecvReply) {
    match reply
    case Gave(n) => n == 0
    case RecvFailed(again, ssl) => !(t == OverTLS && again && ssl == WantRead)
  }

  /** The bytes that the replies give, all together. */
  function GaveSum(replies: seq<RecvReply>): nat {
    if replies == [] then 0 else (if replies[0].Gave? then replies[0].n else 0) + GaveSum(replies[1..])
  }

  /** Why reading `size` bytes fails when `avail` are to come and the replies `used` were used: one of
      them is an error, other than a timeout of TLS, or gives nothing; or the peer closes before the end;
      or there are no more replies and bytes are missing. */
  predicate Starved(t: Transport, size: nat, avail: nat, used: seq<RecvReply>, noneLeft: bool) {
    || (exists reply <- used :: ReadThrows(t, reply))
    || avail < size
    || (noneLeft && GaveSum(used) < size)
  }

  lemma {:induction false} GaveSumAppend(a: seq<RecvReply>, b: seq<RecvReply>)
    ensures GaveSum(a + b) == GaveSum(a) + GaveSum(b)
  {
    if a == [] {
      assert a + b == b;
    } else {
      assert (a + b)[1..] == a[1..] + b;
      GaveSumAppend(a[1..], b);
    }
  }

  lemma {:induction false} SumOfOnce(used: seq<RecvReply>)
    requires forall i | 0 <= i < |used| - 1 :: used[i].RecvFailed?
    ensures GaveSum(used) == if used != [] && used[|used| - 1].Gave? then used[|used| - 1].n else 0
    decreases |used|
  {
    if used != [] {
      SumOfOnce(used[1..]);
    }
  }

  /** What one read contributes to the loop. */
  lemma OnceInLoop(t: Transport, size: nat, avail: nat, replies: seq<RecvReply>)
    requires size > 0
    ensures var x := ReadOnce(t, size, avail, replies);
            var used := replies[..x.used];
            && (x.r.Ok? ==> x.moved == Min(GaveSum(used), Min(size, avail)) && x.moved > 0 && x.used > 0
                            && forall reply <- used :: !ReadThrows(t, reply))
            && (x.r.Err? ==> x.moved == 0 && Min(avail, GaveSum(used)) == 0 && x.r.error in {ReadFail, ConnectionShutDown}
                             && Starved(t, size, avail, used, x.used == |replies|))
  {
    hide ReadOnce, GaveSum;
    var x := ReadOnce(t, size, avail, replies);
    var used := replies[..x.used];
    ReadOnceExactly(t, size, avail, replies);
    SumOfOnce(used);
    if x.used > 0 {
      assert used[x.used - 1] in used;
    }
  }

  lemma StarvedLater(t: Transport, size: nat, avail: nat, a: seq<RecvReply>, b: seq<RecvReply>, noneLeft: bool)
    requires forall reply <- a :: !ReadThrows(t, reply)
    ensures var k := Min(GaveSum(a), Min(size, avail));
            && (Starved(t, size, avail, a + b, noneLeft) <==> Starved(t, size - k, avail - k, b, noneLeft))
            && Min(size, Min(avail, GaveSum(a + b))) == k + Min(size - k, Min(avail - k, GaveSum(b)))
  {
    hide ReadThrows, GaveSum;
    GaveSumAppend(a, b);
    assert forall reply :: reply in a + b <==> reply in a || reply in b;
  }

  /** The loop fills what was asked for unless it is starved, and has then what the replies gave. */
  lemma {:induction false} ReadLoopExactly(t: Transport, size: nat, avail: nat, replies: seq<RecvReply>)
    ensures var l := ReadLoop(t, size, avail, replies);
            && l.moved == Min(size, Min(avail, GaveSum(replies[..l.used])))
            && (l.r.Ok? <==> l.moved == size) && (l.r.Err? ==> l.r.error in {ReadFail, ConnectionShutDown})
            && (l.r.Err? <==> Starved(t, size, avail, replies[..l.used], l.used == |replies|))
    decreases |replies|
  {
    hide GaveSum, ReadOnce, ReadLoop, Starved;
    LoopStep(t, size, avail, replies);
    if size == 0 {
      NothingStarves(t, avail, replies == []);
      assert replies[..0] == [];
    } else {
      var x, l := ReadOnce(t, size, avail, replies), ReadLoop(t, size, avail, replies);
      OnceInLoop(t, size, avail, replies);
      if x.r.Ok? {
        var later := replies[x.used..];
        var rest := ReadLoop(t, size - x.moved, avail - x.moved, later);
        ReadLoopExactly(t, size - x.moved, avail - x.moved, later);
        assert replies[..l.used] == replies[..x.used] + later[..rest.used];
        StarvedLater(t, size, avail, replies[..x.used], later[..rest.used], l.used == |replies|);
      }
    }
  }

  lemma LoopStep(t: Transport, size: nat, avail: nat, replies: seq<RecvReply>)
    ensures size == 0 ==> ReadLoop(t, size, avail, replies) == Transfer(Ok(()), 0, 0)
    ensures size > 0 ==>
              var x := ReadOnce(t, size, avail, replies);
              if x.r.Err? then ReadLoop(t, size, avail, replies) == Transfer(Err(x.r.error), 0, x.used)
              else
                && 0 < x.moved <= size && x.moved <= avail && x.used > 0
                && var rest := ReadLoop(t, size - x.moved, avail - x.moved, replies[x.used..]);
                ReadLoop(t, size, avail, replies) == Transfer(rest.r, x.moved + rest.moved, x.used + rest.used)
  {
    hide ReadOnce;
  }

  lemma NothingStarves(t: Transport, avail: nat, noneLeft: bool)
    ensures !Starved(t, 0, avail, [], noneLeft)
  {
  }

  /** When a receive throws a transport error: exactly when it is starved of the header, or of the body
      that a header within the limit announces. It refuses exactly a whole header above the limit, and
      otherwise returns the body. */
  lemma ReceiveThrowsExactly(t: Transport, limit: uint32, w: seq<byte>, replies: seq<RecvReply>)
    ensures var x, h := ReceiveResult(t, limit, w, replies), ReadLoop(t, 4, |w|, replies).used;
            var noHeader := Starved(t, 4, |w|, replies[..h], h == |replies|);
            && h <= x.used <= |replies|
            && (noHeader ==> x.moved < 4 && x.used == h && (x.r == Err(ReadFail) || x.r == Err(ConnectionShutDown)))
            && (!noHeader ==>
                  && |w| >= 4
                  && var n := WordValue(w[..4]);
                  && var noBody := Starved(t, n, |w| - 4, replies[h..x.used], x.used == |replies|);
                  && (n > limit ==> x == Transfer(Err(InvalidMessageSize), 4, h))
                  && (n <= limit && noBody ==> 4 <= x.moved < 4 + n && (x.r == Err(ReadFail) || x.r == Err(ConnectionShutDown)))
                  && (n <= limit && !noBody ==> |w| >= 4 + n && x.r == Ok(w[4..4 + n]) && x.moved == 4 + n))
  {
    hide ReadLoop, Starved, GaveSum, WordValue;
    var h := ReadLoop(t, 4, |w|, replies).used;
    ReadLoopExactly(t, 4, |w|, replies);
    if !Starved(t, 4, |w|, replies[..h], h == |replies|) {
      var n := WordValue(w[..4]);
      ReadLoopExactly(t, n, |w| - 4, replies[h..]);
      if n <= limit {
        var x := ReceiveResult(t, limit, w, replies);
        assert replies[h..x.used] == replies[h..][..x.used - h];
      }
    }
  }

  lemma {:induction false} ReadLoopReturns(t: Transport, size: nat, avail: nat, replies: seq<RecvReply>)
    requires size <= avail && size <= |replies| && forall i | 0 <= i < size :: replies[i].Gave? && replies[i].n >= 1
    ensures ReadLoop(t, size, avail, replies).r == Ok(()) && ReadLoop(t, size, avail, replies).used <= size
    ensures ReadLoop(t, size, avail, replies).moved == size
    decreases |replies|
  {
    hide ReadLoop;
    LoopStep(t, size, avail, replies);
    if size > 0 {
      var k := Min(replies[0].n, Min(size, avail));
      assert ReadOnce(t, size, avail, replies) == Transfer(Ok(k), k, 1);
      ReadLoopReturns(t, size - k, avail - k, replies[1..]);
    }
  }

  /** So a receive returns the message whose frame comes, if the next replies each give something. */
  lemma ReceiveReturns(t: Transport, limit: uint32, m: Message, rest: seq<byte>, replies: seq<RecvReply>)
    requires |m| <= limit && |replies| >= 4 + |m|
    requires forall i | 0 <= i < 4 + |m| :: replies[i].Gave? && replies[i].n >= 1
    ensures var x := ReceiveResult(t, limit, Frame(m) + rest, replies); x.r == Ok(m) && x.moved == 4 + |m|
  {
    hide ReadLoop, Word, WordValue, Frame;
    var w := Frame(m) + rest;
    FrameFront(m, rest);
    ReadLoopReturns(t, 4, |w|, replies);
    var h := ReadLoop(t, 4, |w|, replies).used;
    assert forall i | 0 <= i < |m| :: replies[h..][i] == replies[h + i];
    ReadLoopReturns(t, |m|, |w| - 4, replies[h..]);
    assert w[..4 + |m|][4..] == w[4..4 + |m|];
  }
}
