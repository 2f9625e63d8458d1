/** The two classes that run the handshake: `ConnServer::negotiate_protocol` and `ConnClient::connect`. */
module Negotiation {
  import opened Basics
  import opened Wire
  import opened Channel
  import opened Connection
  import opened Transfers
  import opened Handshake

  const MAX_PORT_NUMBER := 65535

  /** The one send and the one receive of `connect`, and the one receive and the one send of
      `negotiate_protocol`: what they return and how many bytes they put on the wire or take. */
  datatype ClientCalls = ClientCalls(sent: Result<()>, put: nat, response: Result<Message>, taken: nat)

  datatype ServerCalls = ServerCalls(hello: Result<Message>, taken: nat, sent: Result<()>, put: nat) {
    predicate GotHello() { hello.Ok? && |hello.value| == 8 }
  }

  /** How the calls of the client can go, the server sending the bytes `w`. */
  predicate ClientOutcome(greeting: Hello, w: seq<byte>, o: ClientCalls) {
    && SendOutcome(DEFAULT_BUFFER_SIZE, HelloBytes(greeting), o.put, o.sent)
    && (o.sent.Ok? ==> ReceiveOutcome(DEFAULT_BUFFER_SIZE, w, o.taken, o.response))
  }

  /** How the calls of the server can go, the client sending the bytes `w`; there is an answer only to a
      message that has the size of a hello. */
  predicate ServerOutcome(limit: uint32, version: uint32, allowed: uint32, w: seq<byte>, o: ServerCalls) {
    && ReceiveOutcome(limit, w, o.taken, o.hello)
    && (if o.GotHello() then SendOutcome(limit, HelloBytes(Reply(HelloOf(o.hello.value), version, allowed)), o.put, o.sent)
        else o.sent.Err? && o.put == 0)
  }

  /** The two methods below on one connection: the server receives from bytes that start with what the
      client sent, the client from bytes that start with what the server answered, and whatever
      follows. Both hellos are received as they were sent, 12 bytes each, and both ends decide alike. */
  lemma HandshakeOfTheCode(clientAllowed: uint32, serverAllowed: uint32, limit: uint32,
                           toServer: seq<byte>, hello: Message, taken: nat,
                           toClient: seq<byte>, response: Message, taken': nat)
    requires ReceiveOutcome(limit, Frame(HelloBytes(Hello(PROTOCOL_VERSION, clientAllowed))) + toServer, taken, Ok(hello))
    requires |hello| == 8
    requires var reply := Reply(HelloOf(hello), PROTOCOL_VERSION, serverAllowed);
             ReceiveOutcome(DEFAULT_BUFFER_SIZE, Frame(HelloBytes(reply)) + toClient, taken', Ok(response))
    ensures hello == HelloBytes(Hello(PROTOCOL_VERSION, clientAllowed)) && taken == 12
    ensures var reply := Reply(HelloOf(hello), PROTOCOL_VERSION, serverAllowed);
            && response == HelloBytes(reply) && taken' == 12
            && ClientChoice(HelloOf(response)) == ServerChoice(reply)
            && ServerChoice(reply) == (
                 if AllowsTLS(clientAllowed) && AllowsTLS(serverAllowed) then UseTLS
                 else if AllowsTCP(clientAllowed) && AllowsTCP(serverAllowed) then UseTCP else Refuse)
  {
    hide And, HelloBytes, HelloOf, ReceiveOutcome;
    var greeting := Hello(PROTOCOL_VERSION, clientAllowed);
    ReceivedIsSent(limit, HelloBytes(greeting), toServer, taken, Ok(hello));
    HelloInverse(greeting);
    var reply := Reply(greeting, PROTOCOL_VERSION, serverAllowed);
    ReceivedIsSent(DEFAULT_BUFFER_SIZE, HelloBytes(reply), toClient, taken', Ok(response));
    HelloInverse(reply);
    Agreement(greeting, PROTOCOL_VERSION, serverAllowed);
  }

  class ConnServer {
    const allowedProtocols: uint32
    const metrics: ConnMetrics?

    constructor (allowedProtocols: uint32, metrics: ConnMetrics?)
      ensures this.allowedProtocols == allowedProtocols && this.metrics == metrics
    {
      this.allowedProtocols, this.metrics := allowedProtocols, metrics;
    }

    /** Wraps an accepted socket. */
    method Accept(socket: Socket) returns (conn: Connection)
      ensures fresh(conn) && conn.Valid() && conn.transport == PlainTCP && conn.socket == socket
      ensures conn.metrics == metrics && conn.maxBufferSize == DEFAULT_BUFFER_SIZE
    {
      conn := new Connection(PlainTCP, socket, metrics);
    }

    /** The ghost results say how the call went: what the one receive returned and how many bytes it
        took, what the one send returned and how many bytes it put on the wire. */
    method NegotiateProtocol(conn: Connection)
      returns (r: Result<Connection>,
               ghost hello: Result<Message>, ghost taken: nat, ghost sent: Result<()>, ghost put: nat)
      requires conn.Valid() && conn.transport == PlainTCP
      modifies conn, conn.socket, conn.metrics
      ensures conn.Valid()
      ensures old(conn.socket) == null ==> r == Err(SocketFail) && conn.socket == null
      ensures old(conn.socket) != null ==>
                && var s := old(conn.socket);
                && ServerOutcome(old(conn.maxBufferSize), PROTOCOL_VERSION, allowedProtocols, old(conn.socket.incoming),
                                 ServerCalls(hello, taken, sent, put))
                && var x := ReceiveResult(PlainTCP, old(conn.maxBufferSize), old(conn.socket.incoming), old(conn.socket.recvReplies));
                && hello == x.r && taken == x.moved && s.recvReplies == old(conn.socket.recvReplies)[x.used..]
                && s.incoming == old(conn.socket.incoming)[taken..]
                && (hello.Err? || |hello.value| != 8 ==> s.wire == old(conn.socket.wire) && conn.socket == s)
                && (hello.Err? ==> r == Err(hello.error))
                && (hello.Ok? && |hello.value| != 8 ==> r == Err(ProtocolError))
                && (hello.Ok? && |hello.value| == 8 ==>
                      var reply := Reply(HelloOf(hello.value), 1, allowedProtocols);
                      && taken == 12
                      && var y := SendResult(PlainTCP, old(conn.maxBufferSize), HelloBytes(reply), old(conn.socket.sendReplies));
                      && sent == y.r && put == y.moved
                      && s.wire == old(conn.socket.wire) + Frame(HelloBytes(reply))[..put]
                      && sent != Err(InvalidMessageSize)
                      && (sent.Err? ==> r == Err(sent.error) && conn.socket == s)
                      && (sent.Ok? ==> put == 12 && match ServerChoice(reply)
                            case Refuse => r == Err(ProtocolError) && conn.socket == s
                            case UseTLS =>
                              && conn.socket == null
                              && (if s.tlsHandshake then r.Ok? && r.value.transport == OverTLS else r == Err(TLSError))
                            case UseTCP => conn.socket == null && r.Ok? && r.value.transport == PlainTCP))
      ensures r.Ok? ==> fresh(r.value) && r.value.Valid() && r.value.socket == old(conn.socket)
                        && r.value.metrics == metrics && r.value.maxBufferSize == DEFAULT_BUFFER_SIZE
      ensures r.Ok? && conn.metrics != null ==>
                && conn.metrics.bytesRecv == old(conn.metrics.bytesRecv) + 8
                && conn.metrics.bytesSent == old(conn.metrics.bytesSent) + 8
    {
      hide Word, WordValue, And, SendResult, ReceiveResult;
      sent, put := Err(SocketFail), 0;
      var response;
      response, taken := conn.RecvMessage();
      hello := response;
      if response.Err? {
        r := Err(response.error);
        return;
      }
      if |response.value| != 8 {
        r := Err(ProtocolError);
        return;
      }
      assert taken == 12;
      var client := HelloOf(response.value);
      var reply: Hello;
      if client.version != PROTOCOL_VERSION {
        reply := Hello(0, NONE);
      } else {
        reply := Hello(PROTOCOL_VERSION, And(client.protocol, allowedProtocols));
      }
      var ret;
      ret, put := conn.SendMessage(HelloBytes(reply));
      sent := ret;
      if ret.Err? {
        r := Err(ret.error);
        return;
      }
      if reply.version == 0 {
        r := Err(ProtocolError);
        return;
      }
      if And(reply.protocol, TLS) == TLS {
        var socket := conn.ReleaseSocket();
        if !socket.tlsHandshake {
          r := Err(TLSError);
          return;
        }
        var c := new Connection(OverTLS, socket, metrics);
        r := Ok(c);
      } else if And(reply.protocol, TCP) == TCP {
        var socket := conn.ReleaseSocket();
        var c := new Connection(PlainTCP, socket, metrics);
        r := Ok(c);
      } else {
        r := Err(ProtocolError);
      }
    }
  }

  /** How the attempt to reach the server ends, up to the point where there is a connected socket. */
  datatype Dial = NoSocket | OptionFailed | Unreachable | Connected(socket: Socket)

  class ConnClient {
    const port: int
    const allowedProtocols: uint32
    const metrics: ConnMetrics?
    var connection: Connection?  // set by the first call of Connect that succeeds

    constructor (port: int, allowedProtocols: uint32, metrics: ConnMetrics?)
      ensures this.port == port && this.allowedProtocols == allowedProtocols && this.metrics == metrics
      ensures connection == null
    {
      this.port, this.allowedProtocols, this.metrics, connection := port, allowedProtocols, metrics, null;
    }

    /** The connection made by an earlier call is returned as it is. Otherwise the ghost results say
        how the one send and the one receive went; a call that throws leaves no connection behind. */
    method Connect(dial: Dial)
      returns (r: Result<Connection>,
               ghost sent: Result<()>, ghost put: nat, ghost response: Result<Message>, ghost taken: nat)
      requires connection == null && dial.Connected? ==> dial.socket.wire == []
      modifies this`connection, (if connection == null && dial.Connected? then {dial.socket} else {}),
               (if connection == null then {metrics} else {})
      ensures old(connection) != null ==> r == Ok(old(connection)) && connection == old(connection)
      ensures old(connection) == null ==>
                && (r.Err? ==> connection == null)
                && (r.Ok? ==> connection == r.value && fresh(r.value) && r.value.Valid()
                              && r.value.metrics == metrics && r.value.maxBufferSize == DEFAULT_BUFFER_SIZE)
                && (r.Ok? ==> 0 < port <= 65535 && dial.Connected? && r.value.socket == dial.socket)
                && (!(0 < port <= 65535) ==> r == Err(PortError))
                && (0 < port <= 65535 && !dial.Connected? ==>
                      r == Err(if dial.Unreachable? then ConnectionError else SocketFail))
      ensures old(connection) == null && 0 < port <= 65535 && dial.Connected? ==>
                var s, w := dial.socket, old(if dial.Connected? then dial.socket.incoming else []);
                && ClientOutcome(Hello(1, allowedProtocols), w, ClientCalls(sent, put, response, taken))
                && var y := SendResult(PlainTCP, DEFAULT_BUFFER_SIZE, HelloBytes(Hello(1, allowedProtocols)),
                                       old(if dial.Connected? then dial.socket.sendReplies else []));
                && sent == y.r && put == y.moved
                && s.wire == Frame(HelloBytes(Hello(1, allowedProtocols)))[..put]
                && sent != Err(InvalidMessageSize)
                && (sent.Err? ==> r == Err(sent.error) && s.incoming == w)
                && (sent.Ok? ==>
                      && put == 12
                      && var x := ReceiveResult(PlainTCP, DEFAULT_BUFFER_SIZE, w,
                                                old(if dial.Connected? then dial.socket.recvReplies else []));
                      && response == x.r && taken == x.moved
                      && s.incoming == w[taken..]
                      && (response.Err? ==> r == Err(response.error))
                      && (response.Ok? && |response.value| != 8 ==> r == Err(InvalidMessageSize))
                      && (response.Ok? && |response.value| == 8 ==>
                            taken == 12 && match ClientChoice(HelloOf(response.value))
                            case Refuse => r == Err(ProtocolError)
                            case UseTLS => if s.tlsHandshake then r.Ok? && r.value.transport == OverTLS else r == Err(TLSError)
                            case UseTCP => r.Ok? && r.value.transport == PlainTCP))
      ensures old(connection) == null && r.Ok? && metrics != null ==>
                && metrics.bytesSent == old(metrics.bytesSent) + 8
                && metrics.bytesRecv == old(metrics.bytesRecv) + 8
    {
      hide Word, WordValue, And, SendResult, ReceiveResult;
      sent, put, response, taken := Err(SocketFail), 0, Err(SocketFail), 0;
      if connection == null {
        if port <= 0 || port > MAX_PORT_NUMBER {
          r := Err(PortError);
          return;
        }
        match dial {
          case NoSocket | OptionFailed =>
            r := Err(SocketFail);
            return;
          case Unreachable =>
            r := Err(ConnectionError);
            return;
          case Connected(socket) =>
            var tcp := new Connection(PlainTCP, socket, metrics);
            var ret;
            ret, put := tcp.SendMessage(HelloBytes(Hello(PROTOCOL_VERSION, allowedProtocols)));
            sent := ret;
            if ret.Err? {
              r := Err(ret.error);
              return;
            }
            var got;
            got, taken := tcp.RecvMessage();
            response := got;
            if got.Err? {
              r := Err(got.error);
              return;
            }
            if |got.value| != 8 {
              r := Err(InvalidMessageSize);
              return;
            }
            var hello := HelloOf(got.value);
            if hello.version == 0 || hello.protocol == NONE {
              r := Err(ProtocolError);
              return;
            }
            if And(hello.protocol, TLS) == TLS {
              var released := tcp.ReleaseSocket();
              if !released.tlsHandshake {
                r := Err(TLSError);
                return;
              }
              connection := new Connection(OverTLS, released, metrics);
            } else if And(hello.protocol, TCP) == TCP {
              connection := tcp;
            } else {
              r := Err(ProtocolError);
              return;
            }
        }
      }
      r := Ok(connection);
    }
  }
}
