/** The classes of the connection layer: a socket, and `Connection` with its two transports. */
module Connection {
  import opened Basics
  import opened Wire
  import opened Channel
  import opened Transfers

  /** One end of an established connection, as the code above it sees it: a byte stream in each
      direction. `incoming` is all that the peer will send from now on before it closes; the replies
      are the environment's choices, and a socket that has none left fails. */
  class Socket {
    var wire: seq<byte>       // every byte taken from this end so far
    var incoming: seq<byte>
    var sendReplies: seq<SendReply>
    var recvReplies: seq<RecvReply>
    const tlsHandshake: bool  // whether the TLS handshake on this socket succeeds

    constructor (incoming: seq<byte>, sendReplies: seq<SendReply>, recvReplies: seq<RecvReply>, tlsHandshake: bool)
      ensures wire == [] && this.incoming == incoming && this.tlsHandshake == tlsHandshake
      ensures this.sendReplies == sendReplies && this.recvReplies == recvReplies
    {
      this.wire, this.incoming, this.tlsHandshake := [], incoming, tlsHandshake;
      this.sendReplies, this.recvReplies := sendReplies, recvReplies;
    }

    method Send(data: seq<byte>) returns (count: int)
      modifies this`wire, this`sendReplies
      ensures sendReplies == Tail(old(sendReplies))
      ensures count == if old(sendReplies) == [] || old(sendReplies)[0].SendFailed? then -1
                       else Min(old(sendReplies)[0].n, |data|)
      ensures wire == old(wire) + (if count < 0 then [] else data[..count])
    {
      count := -1;
      if sendReplies != [] {
        if sendReplies[0].Took? {
          count := Min(sendReplies[0].n, |data|);
          wire := wire + data[..count];
        }
        sendReplies := sendReplies[1..];
      }
    }

    method Recv(buffer: array<byte>, offset: nat, length: nat)
      returns (count: int, again: bool, ssl: SslError)
      requires offset + length <= buffer.Length
      modifies this`incoming, this`recvReplies, buffer
      ensures recvReplies == Tail(old(recvReplies))
      ensures old(recvReplies) == [] ==> count == -1 && !again && ssl == Syscall
      ensures old(recvReplies) != [] ==>
                match old(recvReplies)[0]
                case Gave(n) => count == Min(n, Min(length, |old(incoming)|)) && !again && ssl == ZeroReturn
                case RecvFailed(a, e) => count == -1 && again == a && ssl == e
      ensures incoming == if count < 0 then old(incoming) else old(incoming)[count..]
      ensures buffer[..offset] == old(buffer[..offset])
      ensures count > 0 ==> buffer[offset..offset + count] == old(incoming)[..count]
      ensures count <= 0 ==> buffer[..] == old(buffer[..])
      ensures forall i | offset + length <= i < buffer.Length :: buffer[i] == old(buffer[i])
    {
      count, again, ssl := -1, false, Syscall;
      if recvReplies != [] {
        match recvReplies[0] {
          case Gave(n) =>
            count := Min(n, Min(length, |incoming|));
            ssl := ZeroReturn;
            forall i | 0 <= i < count {
              buffer[offset + i] := incoming[i];
            }
            incoming := incoming[count..];
          case RecvFailed(a, s) =>
            again, ssl := a, s;
        }
        recvReplies := recvReplies[1..];
      }
    }
  }

  class ConnMetrics {
    var bytesSent: nat
    var bytesRecv: nat

    constructor ()
      ensures bytesSent == 0 && bytesRecv == 0
    {
      bytesSent, bytesRecv := 0, 0;
    }

    method ObserveBytesSent(n: nat)
      modifies this`bytesSent
      ensures bytesSent == old(bytesSent) + n
    {
      bytesSent := bytesSent + n;
    }

    method ObserveBytesRecv(n: nat)
      modifies this`bytesRecv
      ensures bytesRecv == old(bytesRecv) + n
    {
      bytesRecv := bytesRecv + n;
    }
  }

  function Tail<T>(s: seq<T>): seq<T> { if s == [] then [] else s[1..] }

  /** What a call of `send_message` amounts to: it returns `r` having put `put` bytes of the frame
      of `m` on the wire. Refused for size, it writes nothing; failing, it leaves a strict prefix. */
  predicate SendOutcome(limit: uint32, m: Message, put: nat, r: Result<()>) {
    && put <= |Frame(m)|
    && (r.Ok? <==> put == |Frame(m)|)
    && (r == Err(InvalidMessageSize) <==> |m| > limit)
    && (r == Err(InvalidMessageSize) ==> put == 0)
    && (r.Err? ==> r.error in {InvalidMessageSize, WriteFail, SocketFail})
  }

  /** What a call of `recv_message` amounts to: it returns `r` having taken `taken` bytes of `w`, all
      that the peer sends. It returns exactly the body of the frame it took; it refuses a length
      above the limit after the 4 bytes of the header; failing, it has not taken a whole frame. */
  predicate ReceiveOutcome(limit: uint32, w: seq<byte>, taken: nat, r: Result<Message>) {
    && taken <= |w|
    && (r.Ok? ==> |r.value| <= limit && w[..taken] == Frame(r.value))
    && (r == Err(InvalidMessageSize) ==> taken == 4 && WordValue(w[..4]) > limit)
    && (r.Err? && r.error != InvalidMessageSize ==>
          && Incomplete(w[..taken])
          && (taken >= 4 ==> WordValue(w[..4]) <= limit)
          && r.error in {ReadFail, ConnectionShutDown, SocketFail})
  }

  /** The first bytes of a frame are those of its header. */
  lemma HeaderPiece(w: seq<byte>, m: Message, j: nat)
    requires j <= 4
    ensures w + Word(|m|)[..j] == w + Frame(m)[..j]
  {
    hide Word;
  }

  /** What follows the header is the body. */
  lemma FramePiece(w: seq<byte>, m: Message, k: nat)
    requires k <= |m|
    ensures w + Frame(m)[..4] + m[..k] == w + Frame(m)[..4 + k]
  {
    hide Word;
    assert Frame(m)[..4] + m[..k] == Frame(m)[..4 + k];
  }

  lemma BodyPiece(w: seq<byte>, m: seq<byte>, i: nat, k: nat)
    requires i + k <= |m|
    ensures w + m[..i] + m[i..][..k] == w + m[..i + k]
  {
    assert m[..i] + m[i..][..k] == m[..i + k];
  }

  /** A receive at the front of a frame of a message within the limit returns that message and takes
      its frame, or fails in transport; a frame above the limit is never received. */
  lemma ReceivedIsSent(limit: uint32, m: Message, rest: seq<byte>, taken: nat, r: Result<Message>)
    requires ReceiveOutcome(limit, Frame(m) + rest, taken, r)
    ensures r.Ok? ==> r.value == m && taken == |Frame(m)| && |m| <= limit
    ensures r == Err(InvalidMessageSize) ==> |m| > limit
  {
    hide Frame, Word, WordValue;
    var w := Frame(m) + rest;
    FrameFront(m, rest);
    if r.Ok? {
      assert Frame(r.value) + w[taken..] == w;
      FramePrefixFree(r.value, w[taken..], m, rest);
    }
  }

  /** Both methods refuse messages of a size exactly when it is above the limit. */
  lemma RefusedForSize(limit: uint32, size: uint32)
    ensures size <= limit <==>
              forall m: Message, put, r | |m| == size && SendOutcome(limit, m, put, r) ::
                r != Err(InvalidMessageSize)
    ensures size <= limit <==>
              forall m: Message, rest, taken, r | |m| == size && ReceiveOutcome(limit, Frame(m) + rest, taken, r) ::
                r != Err(InvalidMessageSize)
  {
    hide Word, WordValue, Frame;
    var m: Message := seq(size, i => 0);
    if size > limit {
      assert SendOutcome(limit, m, 0, Err(InvalidMessageSize));
      FrameFront(m, []);
      assert ReceiveOutcome(limit, Frame(m) + [], 4, Err(InvalidMessageSize));
    }
    forall m: Message, rest, taken, r | |m| == size && ReceiveOutcome(limit, Frame(m) + rest, taken, r)
      ensures r == Err(InvalidMessageSize) ==> size > limit
    {
      ReceivedIsSent(limit, m, rest, taken, r);
    }
  }

  /** A transfer that had `moved` bytes and `used` replies behind it when `x` was still to come. */
  function After<T>(moved: nat, used: nat, x: Transfer<T>): Transfer<T> {
    Transfer(x.r, moved + x.moved, used + x.used)
  }

  /** The limit on messages keeps lengths within `int`. */
  lemma FitsInt32(n: nat)
    requires n <= MAX_BUFFER_SIZE
    ensures ToInt32(n) == n
  {
  }

  lemma Later<T>(s: seq<T>, a: nat, b: nat)
    requires a + b <= |s|
    ensures s[a..][b..] == s[a + b..] && s[a..][..b] == s[a..a + b]
  {
  }

  /** The outcome of a send is one of those allowed; refused for size it uses no reply. */
  lemma SendResultIs(t: Transport, limit: uint32, m: Message, replies: seq<SendReply>)
    ensures var s := SendResult(t, limit, m, replies);
            && SendOutcome(limit, m, s.moved, s.r)
            && (s.r == Err(InvalidMessageSize) ==> s.moved == 0 && s.used == 0)
    ensures SendOutcome(limit, m, 0, Err(if |m| > limit then InvalidMessageSize else SocketFail))
  {
    hide WriteOnce, WriteLoop, Word;
    if |m| <= limit {
      SendThrowsExactly(t, limit, m, replies);
    }
  }

  /** The loop of a send has `sent` bytes and `used` replies behind it, and `left` before it. */
  predicate SentSoFar(t: Transport, size: nat, replies: seq<SendReply>, sent: nat, used: nat, left: seq<SendReply>) {
    && sent <= size && used <= |replies| && left == replies[used..]
    && WriteLoop(t, size, replies) == After(sent, used, WriteLoop(t, size - sent, left))
  }

  lemma NothingSent(t: Transport, size: nat, replies: seq<SendReply>)
    ensures SentSoFar(t, size, replies, 0, 0, replies)
  {
    hide WriteLoop;
  }

  lemma MoreSent(t: Transport, size: nat, replies: seq<SendReply>, sent: nat, used: nat, left: seq<SendReply>)
    requires SentSoFar(t, size, replies, sent, used, left) && sent < size
    ensures var w, l := WriteOnce(t, size - sent, left), WriteLoop(t, size, replies);
            && (w.r.Ok? ==> left != [] && w.used == 1 && SentSoFar(t, size, replies, sent + w.moved, used + 1, left[1..]))
            && (w.r.Err? ==> l == Transfer(Err(w.r.error), sent, used + w.used) && left[w.used..] == replies[l.used..])
  {
    hide WriteLoop, WriteOnce;
    WriteStep(t, size - sent, left);
    Later(replies, used, WriteOnce(t, size - sent, left).used);
  }

  lemma AllSent(t: Transport, size: nat, replies: seq<SendReply>, used: nat, left: seq<SendReply>)
    requires SentSoFar(t, size, replies, size, used, left)
    ensures WriteLoop(t, size, replies) == Transfer(Ok(()), size, used) && left == replies[used..]
  {
    hide WriteLoop;
    WriteStep(t, 0, left);
  }

  /** Where the loop of a receive is: what it has, what is still to come, and the replies used and left. */
  datatype Progress = Progress(filled: seq<byte>, incoming: seq<byte>, used: nat, left: seq<RecvReply>) {
    /** The read that is next. */
    function Step(t: Transport, size: nat): Transfer<nat>
      requires |filled| <= size
    {
      ReadOnce(t, size - |filled|, |incoming|, left)
    }

    function Next(t: Transport, size: nat): Progress
      requires |filled| <= size
    {
      var x := Step(t, size);
      Progress(filled + incoming[..x.moved], incoming[x.moved..], used + x.used, left[x.used..])
    }
  }

  /** The loop that started at `start` is at `p`. */
  predicate Behind(t: Transport, size: nat, start: Progress, p: Progress) {
    && |p.filled| <= size && start.incoming == p.filled + p.incoming
    && p.used <= |start.left| && p.left == start.left[p.used..]
    && ReadLoop(t, size, |start.incoming|, start.left)
       == After(|p.filled|, p.used, ReadLoop(t, size - |p.filled|, |p.incoming|, p.left))
  }

  lemma NothingBehind(t: Transport, size: nat, start: Progress)
    requires start.filled == [] && start.used == 0
    ensures Behind(t, size, start, start)
  {
    hide ReadLoop;
  }

  lemma MoreBehind(t: Transport, size: nat, start: Progress, p: Progress)
    requires Behind(t, size, start, p) && |p.filled| < size && p.Step(t, size).r.Ok?
    ensures Behind(t, size, start, p.Next(t, size))
  {
    hide ReadLoop, ReadOnce;
    var x, q := p.Step(t, size), p.Next(t, size);
    LoopStep(t, size - |p.filled|, |p.incoming|, p.left);
    assert q.left == start.left[q.used..] by { Later(start.left, p.used, x.used); }
    assert q.filled + q.incoming == start.incoming && |q.filled| == |p.filled| + x.moved by {
      Regroup(p.filled, p.incoming, x.moved);
    }
  }

  lemma StoppedBehind(t: Transport, size: nat, start: Progress, p: Progress)
    requires Behind(t, size, start, p) && |p.filled| < size && p.Step(t, size).r.Err?
    ensures var x, l := p.Step(t, size), ReadLoop(t, size, |start.incoming|, start.left);
            && l == Transfer(Err(x.r.error), |p.filled|, p.used + x.used)
            && p.left[x.used..] == start.left[l.used..] && p.incoming == start.incoming[l.moved..]
  {
    hide ReadLoop, ReadOnce;
    LoopStep(t, size - |p.filled|, |p.incoming|, p.left);
    Later(start.left, p.used, p.Step(t, size).used);
  }

  lemma Regroup(a: seq<byte>, b: seq<byte>, k: nat)
    requires k <= |b|
    ensures (a + b[..k]) + b[k..] == a + b && |a + b[..k]| == |a| + k
  {
  }

  lemma AllBehind(t: Transport, size: nat, start: Progress, p: Progress)
    requires Behind(t, size, start, p) && |p.filled| == size
    ensures ReadLoop(t, size, |start.incoming|, start.left) == Transfer(Ok(()), size, p.used)
    ensures p.left == start.left[p.used..] && p.incoming == start.incoming[size..] && p.filled == start.incoming[..size]
  {
    hide ReadLoop;
    LoopStep(t, 0, |p.incoming|, p.left);
  }

  /** A header and `k` more bytes, of the `size` the header announces. */
  lemma Consumed(w: seq<byte>, k: nat, size: uint32)
    requires 4 + k <= |w| && k <= size && size == WordValue(w[..4])
    ensures k < size ==> Incomplete(w[..4 + k])
    ensures k == size ==> w[..4 + k] == Frame(w[4..4 + k])
  {
    hide Word, WordValue;
    assert w[..4 + k][..4] == w[..4] && w[..4 + k][4..] == w[4..4 + k];
    if k == size {
      WholeFrame(w[..4 + k]);
    }
  }

  /** A receive whose header fails, or is above the limit. */
  lemma ResultWithoutBody(t: Transport, limit: uint32, w: seq<byte>, replies: seq<RecvReply>)
    ensures var x, h := ReceiveResult(t, limit, w, replies), ReadLoop(t, 4, |w|, replies);
            && (h.r.Err? ==> x == Transfer(Err(h.r.error), h.moved, h.used))
            && (h.r.Ok? && WordValue(w[..4]) > limit ==> x == Transfer(Err(InvalidMessageSize), 4, h.used))
  {
    hide ReadLoop, Word, WordValue, Frame;
  }

  /** A receive of a body within the limit. */
  lemma ResultWithBody(t: Transport, limit: uint32, w: seq<byte>, replies: seq<RecvReply>, n: uint32)
    requires |w| >= 4 && WordValue(w[..4]) == n <= limit && ReadLoop(t, 4, |w|, replies).r.Ok?
    ensures var x, h := ReceiveResult(t, limit, w, replies), ReadLoop(t, 4, |w|, replies);
            var body := ReadLoop(t, n, |w| - 4, replies[h.used..]);
            && x.moved == 4 + body.moved && x.used == h.used + body.used
            && w[4..][body.moved..] == w[x.moved..] && replies[h.used..][body.used..] == replies[x.used..]
            && (body.r.Err? ==> x.r == Err(body.r.error))
            && (body.r.Ok? ==> x.r == Ok(w[4..][..n]))
  {
    hide ReadLoop, Word, WordValue, Frame;
    var h := ReadLoop(t, 4, |w|, replies);
    var body := ReadLoop(t, n, |w| - 4, replies[h.used..]);
    Later(w, 4, body.moved);
    Later(replies, h.used, body.used);
  }

  /** The outcome of a receive is one of those allowed. */
  lemma ReceiveResultIs(t: Transport, limit: uint32, w: seq<byte>, replies: seq<RecvReply>)
    ensures var x := ReceiveResult(t, limit, w, replies); ReceiveOutcome(limit, w, x.moved, x.r)
  {
    hide ReadLoop, Word, WordValue, Frame;
    var x, h := ReceiveResult(t, limit, w, replies), ReadLoop(t, 4, |w|, replies);
    if h.r.Ok? && WordValue(w[..4]) <= limit {
      Consumed(w, x.moved - 4, WordValue(w[..4]));
    }
  }

  /** What the answer to one SSL_read leads to. */
  lemma OneTLSRead(size: nat, avail: nat, replies: seq<RecvReply>)
    requires size > 0
    ensures replies == [] ==> ReadOnce(OverTLS, size, avail, replies) == Transfer(Err(ConnectionShutDown), 0, 0)
    ensures replies != [] && replies[0].Gave? ==>
              ReadOnce(OverTLS, size, avail, replies)
              == if replies[0].n == 0 || avail == 0 then Transfer(Err(ConnectionShutDown), 0, 1)
                 else Transfer(Ok(Min(replies[0].n, Min(size, avail))), Min(replies[0].n, Min(size, avail)), 1)
    ensures replies != [] && replies[0] == RecvFailed(true, WantRead) ==>
              ReadOnce(OverTLS, size, avail, replies) == After(0, 1, ReadOnce(OverTLS, size, avail, replies[1..]))
    ensures replies != [] && replies[0].RecvFailed? && replies[0] != RecvFailed(true, WantRead) ==>
              ReadOnce(OverTLS, size, avail, replies)
              == Transfer(Err(if replies[0].ssl in {WantRead, OtherError} then ReadFail else ConnectionShutDown), 0, 1)
  {
  }

  class Connection {
    const transport: Transport
    var socket: Socket?      // null once released
    var buffer: array<byte>  // _buffer_str
    var maxBufferSize: uint32
    const metrics: ConnMetrics?

    ghost predicate Valid()
      reads this
    {
      && MIN_BUFFER_SIZE <= maxBufferSize <= MAX_BUFFER_SIZE
      && (transport == OverTLS ==> socket != null)
    }

    /** The socket, if there is one. */
    ghost function Sockets(): set<Socket>
      reads this
    {
      if socket == null then {} else {socket}
    }

    constructor (transport: Transport, socket: Socket?, metrics: ConnMetrics?)
      requires transport == OverTLS ==> socket != null
      ensures Valid() && fresh(buffer)
      ensures this.transport == transport && this.socket == socket && this.metrics == metrics
      ensures maxBufferSize == DEFAULT_BUFFER_SIZE == 268_435_456 && buffer[..] == []
    {
      this.transport, this.socket, this.metrics := transport, socket, metrics;
      maxBufferSize := DEFAULT_BUFFER_SIZE;
      buffer := new byte[0];
    }

    method SetMaxBufferSize(n: uint32)
      requires Valid()
      modifies this`maxBufferSize
      ensures Valid()
      ensures n < 1024 ==> maxBufferSize == 1024
      ensures n > 1_073_741_824 ==> maxBufferSize == 1_073_741_824
      ensures 1024 <= n <= 1_073_741_824 ==> maxBufferSize == n
    {
      maxBufferSize := if MIN_BUFFER_SIZE < n then n else MIN_BUFFER_SIZE;
      maxBufferSize := if maxBufferSize < MAX_BUFFER_SIZE then maxBufferSize else MAX_BUFFER_SIZE;
    }

    /** Whether a message of that size can be sent and received. */
    method CheckMessageSize(size: uint32) returns (ok: bool)
      ensures ok <==>
                forall m: Message, put, r | |m| == size && SendOutcome(maxBufferSize, m, put, r) ::
                  r != Err(InvalidMessageSize)
      ensures ok <==>
                forall m: Message, rest, taken, r
                  | |m| == size && ReceiveOutcome(maxBufferSize, Frame(m) + rest, taken, r) ::
                  r != Err(InvalidMessageSize)
    {
      ok := size <= maxBufferSize;
      RefusedForSize(maxBufferSize, size);
    }

    method ReleaseSocket() returns (s: Socket?)
      requires Valid() && transport == PlainTCP
      modifies this`socket
      ensures Valid() && s == old(socket) && socket == null
    {
      s := socket;
      socket := null;
    }

    /** One `write` call. A length up to the largest limit survives the conversion to `int`. */
    method Write(data: seq<byte>) returns (r: Result<nat>)
      requires Valid() && 0 < |data| <= MAX_BUFFER_SIZE
      modifies Sockets()`wire, Sockets()`sendReplies
      ensures socket == null ==> r == Err(SocketFail)
      ensures socket != null ==>
                && var w := WriteOnce(transport, |data|, old(socket.sendReplies));
                && r == w.r && socket.wire == (if r.Err? then old(socket.wire) else old(socket.wire) + data[..r.value])
                && socket.sendReplies == old(socket.sendReplies)[w.used..]
    {
      if transport == PlainTCP {
        if socket == null {
          return Err(SocketFail);
        }
        var count := socket.Send(data);
        assert data[..0] == [];
        if count < 0 {
          return Err(WriteFail);
        }
        return Ok(count);
      } else {
        var length := ToInt32(|data|);
        var count := socket.Send(data[..length]);
        assert data[..0] == [] && data[..length] == data;
        if count <= 0 {
          return Err(WriteFail);
        }
        return Ok(count);
      }
    }

    /** The loop of `send_message`. */
    method WriteAll(data: seq<byte>) returns (r: Result<nat>, ghost put: nat)
      requires Valid() && socket != null && |data| <= MAX_BUFFER_SIZE
      modifies socket`wire, socket`sendReplies
      ensures var l := WriteLoop(transport, |data|, old(socket.sendReplies));
              && put == l.moved && r == (if l.r.Ok? then Ok(put) else Err(l.r.error))
              && socket.sendReplies == old(socket.sendReplies)[l.used..]
      ensures put <= |data| && socket.wire == old(socket.wire) + data[..put]
    {
      hide WriteOnce, WriteLoop, SentSoFar;
      ghost var replies := socket.sendReplies;
      ghost var used := 0;
      var bytesSent := 0;
      NothingSent(transport, |data|, replies);
      while bytesSent < |data|
        invariant bytesSent <= |data| && socket.wire == old(socket.wire) + data[..bytesSent]
        invariant SentSoFar(transport, |data|, replies, bytesSent, used, socket.sendReplies)
        decreases |data| - bytesSent, |socket.sendReplies|
      {
        MoreSent(transport, |data|, replies, bytesSent, used, socket.sendReplies);
        var ret := Write(data[bytesSent..]);
        if ret.Err? {
          return Err(ret.error), bytesSent;
        }
        BodyPiece(old(socket.wire), data, bytesSent, ret.value);
        bytesSent, used := bytesSent + ret.value, used + 1;
      }
      AllSent(transport, |data|, replies, used, socket.sendReplies);
      return Ok(bytesSent), bytesSent;
    }

    /** `send_message` but for the metrics. */
    method SendFrame(data: Message) returns (r: Result<()>, ghost put: nat)
      requires Valid()
      modifies Sockets()`wire, Sockets()`sendReplies
      ensures socket == null ==> put == 0 && r == Err(if |data| > maxBufferSize then InvalidMessageSize else SocketFail)
      ensures socket != null ==>
                && var s := SendResult(transport, maxBufferSize, data, old(socket.sendReplies));
                && r == s.r && put == s.moved && socket.sendReplies == old(socket.sendReplies)[s.used..]
                && socket.wire == old(socket.wire) + Frame(data)[..put]
    {
      hide Frame, Word, WriteOnce, WriteLoop;
      if |data| > maxBufferSize {
        return Err(InvalidMessageSize), 0;
      }
      var ret0 := Write(Word(|data|));
      if ret0.Err? {
        return Err(ret0.error), 0;
      }
      HeaderPiece(old(socket.wire), data, ret0.value);
      if ret0.value != 4 {
        return Err(WriteFail), ret0.value;
      }
      var ret;
      ret, put := WriteAll(data);
      FramePiece(old(socket.wire), data, put);
      Later(old(socket.sendReplies), 1, WriteLoop(transport, |data|, old(socket.sendReplies)[1..]).used);
      put := 4 + put;
      r := if ret.Err? then Err(ret.error) else Ok(());
    }

    method SendMessage(data: Message) returns (r: Result<()>, ghost put: nat)
      requires Valid()
      modifies Sockets()`wire, Sockets()`sendReplies, metrics
      ensures SendOutcome(maxBufferSize, data, put, r)
      ensures socket != null ==>
                && var s := SendResult(transport, maxBufferSize, data, old(socket.sendReplies));
                && r == s.r && put == s.moved && socket.sendReplies == old(socket.sendReplies)[s.used..]
                && socket.wire == old(socket.wire) + Frame(data)[..put]
      ensures r == Err(InvalidMessageSize) ==> socket == null || unchanged(socket)
      ensures socket == null ==> put == 0 && r == Err(if |data| > maxBufferSize then InvalidMessageSize else SocketFail)
      ensures metrics != null ==> metrics.bytesSent == old(metrics.bytesSent) + (if r.Ok? then |data| else 0)
      ensures metrics != null ==> metrics.bytesRecv == old(metrics.bytesRecv)
    {
      hide Frame, Word, SendResult, SendOutcome;
      SendResultIs(transport, maxBufferSize, data, if socket == null then [] else socket.sendReplies);
      r, put := SendFrame(data);
      if r == Err(InvalidMessageSize) && socket != null {
        assert Frame(data)[..0] == [] && old(socket.sendReplies)[0..] == old(socket.sendReplies);
        assert old(socket.wire) + [] == old(socket.wire);
      }
      if r.Ok? && metrics != null {
        metrics.ObserveBytesSent(|data|);
      }
    }

    /** One `read` call: it returns between 1 and `length` bytes or throws. */
    method Read(buf: array<byte>, offset: nat, length: nat) returns (r: Result<nat>)
      requires Valid() && 0 < length <= MAX_BUFFER_SIZE && offset + length <= buf.Length
      modifies Sockets()`incoming, Sockets()`recvReplies, buf
      ensures buf[..offset] == old(buf[..offset])
      ensures socket == null ==> r == Err(SocketFail)
      ensures socket != null ==>
                && var x := ReadOnce(transport, length, |old(socket.incoming)|, old(socket.recvReplies));
                && r == x.r && socket.recvReplies == old(socket.recvReplies)[x.used..]
                && socket.incoming == old(socket.incoming)[x.moved..]
                && (r.Ok? ==> buf[offset..offset + r.value] == old(socket.incoming)[..r.value])
    {
      if transport == OverTLS {
        r := ReadTLS(buf, offset, length);
        return;
      }
      if socket == null {
        return Err(SocketFail);
      }
      var count, again, _ := socket.Recv(buf, offset, length);
      if count < 0 {
        return Err(if again then ConnectionShutDown else ReadFail);
      } else if count == 0 {
        return Err(ConnectionShutDown);
      }
      return Ok(count);
    }

    /** The `read` of a TLS connection, which goes on when SSL_read has timed out. */
    method ReadTLS(buf: array<byte>, offset: nat, length: nat) returns (r: Result<nat>)
      requires transport == OverTLS && socket != null && 0 < length <= MAX_BUFFER_SIZE && offset + length <= buf.Length
      modifies socket`incoming, socket`recvReplies, buf
      ensures buf[..offset] == old(buf[..offset])
      ensures var x := ReadOnce(transport, length, |old(socket.incoming)|, old(socket.recvReplies));
              && r == x.r && socket.recvReplies == old(socket.recvReplies)[x.used..]
              && socket.incoming == old(socket.incoming)[x.moved..]
              && (r.Ok? ==> buf[offset..offset + r.value] == old(socket.incoming)[..r.value])
    {
      hide ReadOnce, ToInt32;
      assert ToInt32(length) == length by { FitsInt32(length); }
      ghost var used := 0;
      while true
        invariant socket.incoming == old(socket.incoming) && buf[..offset] == old(buf[..offset])
        invariant used <= |old(socket.recvReplies)| && socket.recvReplies == old(socket.recvReplies)[used..]
        invariant ReadOnce(transport, length, |socket.incoming|, old(socket.recvReplies))
               == After(0, used, ReadOnce(transport, length, |socket.incoming|, socket.recvReplies))
        decreases |socket.recvReplies|
      {
        Later(old(socket.recvReplies), used, if socket.recvReplies == [] then 0 else 1);
        OneTLSRead(length, |socket.incoming|, socket.recvReplies);
        var count, again, ssl := socket.Recv(buf, offset, ToInt32(length));
        if count > 0 {
          return Ok(count);
        }
        match ssl {
          case ZeroReturn =>
            return Err(ConnectionShutDown);
          case WantRead =>
            if !again {
              return Err(ReadFail);
            }
          case Syscall =>
            return Err(ConnectionShutDown);
          case Ssl =>
            return Err(ConnectionShutDown);
          case OtherError =>
            return Err(ReadFail);
        }
        used := used + 1;
      }
    }

    /** The `recv_and_check` loop: it fills the first `size` bytes of `buf` or throws. */
    method ReceiveAndCheck(buf: array<byte>, size: nat) returns (r: Result<nat>, ghost taken: nat)
      requires Valid() && socket != null && size <= MAX_BUFFER_SIZE && size <= buf.Length
      modifies socket`incoming, socket`recvReplies, buf
      ensures var l := ReadLoop(transport, size, |old(socket.incoming)|, old(socket.recvReplies));
              && taken == l.moved && r == (if l.r.Ok? then Ok(size) else Err(l.r.error))
              && socket.recvReplies == old(socket.recvReplies)[l.used..]
              && socket.incoming == old(socket.incoming)[taken..]
              && (r.Ok? ==> buf[..size] == old(socket.incoming)[..size])
    {
      hide ReadOnce, ReadLoop, Behind;
      var bytesRecv := 0;
      ghost var start := Progress([], socket.incoming, 0, socket.recvReplies);
      ghost var progress := start;
      NothingBehind(transport, size, start);
      while bytesRecv < size
        invariant bytesRecv <= size && bytesRecv == |progress.filled| && progress.filled == buf[..bytesRecv]
        invariant progress.incoming == socket.incoming && progress.left == socket.recvReplies
        invariant Behind(transport, size, start, progress)
      {
        ghost var before := progress;
        var ret := Read(buf, bytesRecv, size - bytesRecv);
        if ret.Err? {
          StoppedBehind(transport, size, start, before);
          return Err(ret.error), bytesRecv;
        }
        MoreBehind(transport, size, start, before);
        progress := before.Next(transport, size);
        Glue(buf[..], bytesRecv, ret.value);
        bytesRecv := bytesRecv + ret.value;
      }
      AllBehind(transport, size, start, progress);
      return Ok(bytesRecv), bytesRecv;
    }

    /** `_buffer_str.resize(n)`: what fits is kept, what is new is zero. */
    method ResizeBuffer(n: uint32)
      modifies this`buffer
      ensures fresh(buffer) && buffer.Length == n
      ensures forall i | 0 <= i < n :: buffer[i] == if i < old(buffer).Length then old(buffer[i]) else 0
    {
      var kept := buffer[..];
      buffer := new byte[n](i => if 0 <= i < |kept| then kept[i] else 0);
    }

    /** The part of `recv_message` up to the announced size. */
    method ReceiveHeader() returns (r: Result<uint32>, ghost taken: nat)
      requires Valid()
      modifies Sockets()`incoming, Sockets()`recvReplies
      ensures socket == null ==> taken == 0 && r == Err(SocketFail)
      ensures socket != null ==>
                && var w := old(socket.incoming);
                && var l := ReadLoop(transport, 4, |w|, old(socket.recvReplies));
                && taken == l.moved && r == (if l.r.Ok? then Ok(WordValue(w[..4])) else Err(l.r.error))
                && socket.recvReplies == old(socket.recvReplies)[l.used..]
                && socket.incoming == w[taken..]
    {
      hide ReadLoop, WordValue;
      var header := new byte[4];
      var got;
      if socket == null {
        got := Read(header, 0, 4);  // the first turn of the loop
        return Err(got.error), 0;
      }
      got, taken := ReceiveAndCheck(header, 4);
      if got.Err? {
        return Err(got.error), taken;
      }
      if got.value != 4 {
        assert false;  // "Short read msg header"
      }
      assert header[..] == header[..4];
      r := Ok(WordValue(header[..]));
    }

    /** The part of `recv_message` after the header. */
    method ReceiveBody(size: uint32) returns (r: Result<Message>, ghost taken: nat)
      requires Valid() && socket != null && size <= MAX_BUFFER_SIZE
      modifies this`buffer, socket`incoming, socket`recvReplies
      ensures Valid() && fresh(buffer) && buffer.Length == size
      ensures var l := ReadLoop(transport, size, |old(socket.incoming)|, old(socket.recvReplies));
              && taken == l.moved && (l.r.Err? ==> r == Err(l.r.error))
              && (l.r.Ok? ==> r == Ok(old(socket.incoming)[..size]) && buffer[..] == r.value)
              && socket.recvReplies == old(socket.recvReplies)[l.used..]
              && socket.incoming == old(socket.incoming)[taken..]
    {
      hide ReadLoop;
      ResizeBuffer(size);
      var got;
      got, taken := ReceiveAndCheck(buffer, size);
      if got.Err? {
        return Err(got.error), taken;
      }
      if size != got.value {
        assert false;  // "Short read msg body"
      }
      if size != buffer.Length {
        assert false;  // "Short read other"
      }
      ghost var w := old(socket.incoming);
      assert buffer[..] == buffer[..size] == w[..size];
      r := Ok(buffer[..]);
    }

    /** `recv_message` but for the metrics. */
    method ReceiveFrame() returns (r: Result<Message>, ghost taken: nat)
      requires Valid()
      modifies this`buffer, Sockets()`incoming, Sockets()`recvReplies
      ensures Valid()
      ensures socket == null ==> taken == 0 && r == Err(SocketFail) && buffer == old(buffer)
      ensures socket != null ==>
                && var x := ReceiveResult(transport, maxBufferSize, old(socket.incoming), old(socket.recvReplies));
                && r == x.r && taken == x.moved && socket.recvReplies == old(socket.recvReplies)[x.used..]
                && socket.incoming == old(socket.incoming)[taken..]
      ensures r.Ok? ==> buffer[..] == r.value
      ensures buffer == old(buffer) || fresh(buffer)
      ensures r == Err(InvalidMessageSize) ==> buffer == old(buffer)
    {
      hide Word, WordValue, Frame, ReadLoop, ReceiveResult;
      ghost var w := if socket == null then [] else socket.incoming;
      ghost var replies := if socket == null then [] else socket.recvReplies;
      var size;
      size, taken := ReceiveHeader();
      ResultWithoutBody(transport, maxBufferSize, w, replies);
      if size.Err? {
        return Err(size.error), taken;
      }
      if size.value > maxBufferSize {
        return Err(InvalidMessageSize), taken;
      }
      ghost var body: nat;
      r, body := ReceiveBody(size.value);
      ResultWithBody(transport, maxBufferSize, w, replies, size.value);
      taken := 4 + body;
    }

    method RecvMessage() returns (r: Result<Message>, ghost taken: nat)
      requires Valid()
      modifies this`buffer, Sockets()`incoming, Sockets()`recvReplies, metrics
      ensures Valid()
      ensures socket == null ==> taken == 0 && r == Err(SocketFail)
      ensures socket != null ==>
                && var x := ReceiveResult(transport, maxBufferSize, old(socket.incoming), old(socket.recvReplies));
                && r == x.r && taken == x.moved && socket.recvReplies == old(socket.recvReplies)[x.used..]
                && ReceiveOutcome(maxBufferSize, old(socket.incoming), taken, r)
                && socket.incoming == old(socket.incoming)[taken..]
                && (transport == PlainTCP ==> |old(socket.recvReplies)| <= |socket.recvReplies| + taken + (if r.Ok? then 0 else 1))
      ensures r.Ok? ==> socket != null && buffer[..] == r.value
      ensures buffer == old(buffer) || fresh(buffer)
      ensures buffer == old(buffer) ==> unchanged(buffer)
      ensures r == Err(InvalidMessageSize) ==> buffer == old(buffer)
      ensures metrics != null ==>
                && metrics.bytesRecv == old(metrics.bytesRecv) + (if r.Ok? then |r.value| else 0)
                && metrics.bytesSent == old(metrics.bytesSent)
    {
      hide ReceiveResult, ReceiveOutcome;
      if socket != null {
        ReceiveResultIs(transport, maxBufferSize, socket.incoming, socket.recvReplies);
      }
      r, taken := ReceiveFrame();
      if r.Ok? && metrics != null {
        metrics.ObserveBytesRecv(|r.value|);
      }
    }
  }

  lemma Glue(buf: seq<byte>, n: nat, k: nat)
    requires n + k <= |buf|
    ensures buf[..n + k] == buf[..n] + buf[n..n + k]
  {
  }
}
