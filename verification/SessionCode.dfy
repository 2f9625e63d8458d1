/** What the code of the two ends can do in a handshake is a run of the session machine, so the session
    results hold of `ConnClient::connect` and `ConnServer::negotiate_protocol`, however their system
    calls go; and what the application sends on the connections they return arrives in order. */
module SessionCode {
  import opened Basics
  import opened Wire
  import opened Channel
  import opened Connection
  import opened Transfers
  import opened Handshake
  import opened Negotiation
  import opened Refinement
  import opened Session

  function Of(client: bool, l: Label): Step { if client then Client(l) else Server(l) }

  function PhaseOf(cfg: Config, x: Session, client: bool): Phase {
    if client then ClientPhase(cfg, x) else ServerPhase(cfg, x)
  }

  /** The direction in which an end sends, and the one in which it receives. */
  function Out(x: Session, client: bool): State { if client then x.toServer else x.toClient }

  function In(x: Session, client: bool): State { if client then x.toClient else x.toServer }

  function WithOut(x: Session, client: bool, s: Sender): Session {
    if client then x.(toServer := x.toServer.(s := s)) else x.(toClient := x.toClient.(s := s))
  }

  function WithIn(x: Session, client: bool, r: Receiver): Session {
    if client then x.(toClient := x.toClient.(r := r)) else x.(toServer := x.toServer.(r := r))
  }

  lemma {:induction false} PlayAppend(cfg: Config, x: Session, ts: seq<Step>, us: seq<Step>)
    requires Play(cfg, x, ts).Some?
    ensures Play(cfg, x, ts + us) == Play(cfg, Play(cfg, x, ts).value, us)
    decreases |ts|
  {
    hide Possible, Next;
    if ts == [] {
      assert ts + us == us;
    } else {
      assert (ts + us)[0] == ts[0] && (ts + us)[1..] == ts[1..] + us;
      PlayAppend(cfg, Next(cfg, x, ts[0]), ts[1..], us);
    }
  }

  /** One more step. */
  lemma Move(cfg: Config, ts: seq<Step>, x: Session, t: Step) returns (ts': seq<Step>)
    requires Reached(cfg, ts, x) && Possible(cfg, x, t)
    ensures ts' == ts + [t] && Reached(cfg, ts', Next(cfg, x, t))
  {
    hide Possible, Next;
    PlayAppend(cfg, Start(), ts, [t]);
    assert [t][1..] == [];
    ts' := ts + [t];
  }

  lemma NextOut(cfg: Config, x: Session, client: bool, l: Label, hello: Message)
    requires PhaseOf(cfg, x, client) == Greet(hello) && !In(x, client).r.failed && l.Sends()
    requires Allowed(CAREFUL, Out(x, client), l) && (l.Begin? ==> Out(x, client).s.pc.Idle? && l.msg == hello)
    ensures Possible(cfg, x, Of(client, l))
    ensures Next(cfg, x, Of(client, l)) == WithOut(x, client, Apply(Out(x, client), l).s)
    ensures Out(Next(cfg, x, Of(client, l)), client) == Apply(Out(x, client), l)
    ensures In(Next(cfg, x, Of(client, l)), client) == In(x, client)
    ensures Apply(Out(x, client), l).s.completed == [] ==> PhaseOf(cfg, Next(cfg, x, Of(client, l)), client) == Greet(hello)
  {
    hide Put, Accept, HelloBytes, HelloOf, And;
  }

  lemma NextIn(cfg: Config, x: Session, client: bool, l: Label)
    requires PhaseOf(cfg, x, client) == Await && !Out(x, client).s.pc.Broken? && !l.Sends() && !l.Retry?
    requires Allowed(CAREFUL, In(x, client), l)
    ensures Possible(cfg, x, Of(client, l))
    ensures Next(cfg, x, Of(client, l)) == WithIn(x, client, Apply(In(x, client), l).r)
    ensures In(Next(cfg, x, Of(client, l)), client) == Apply(In(x, client), l)
    ensures Out(Next(cfg, x, Of(client, l)), client) == Out(x, client)
    ensures Apply(In(x, client), l).r.delivered == [] ==> PhaseOf(cfg, Next(cfg, x, Of(client, l)), client) == Await
  {
    hide Take, HelloBytes, HelloOf, And;
  }

  /** However the send of a hello goes, the session can do the same. */
  lemma HelloSent(cfg: Config, ts: seq<Step>, x: Session, client: bool, hello: Message, put: nat, r: Result<()>)
    returns (ts': seq<Step>)
    requires Reached(cfg, ts, x) && PhaseOf(cfg, x, client) == Greet(hello) && !In(x, client).r.failed
    requires var s := Out(x, client).s; s == Init(DEFAULT_BUFFER_SIZE, 0).s
    requires |hello| == 8 && SendOutcome(DEFAULT_BUFFER_SIZE, hello, put, r)
    ensures Reached(cfg, ts', WithOut(x, client, Sent(Out(x, client).s, hello, put, r)))
  {
    hide Reached, Possible, Next, PhaseOf, Run, Frame;
    var c := Out(x, client);
    var ls := SendIsARun(CAREFUL, c, hello, put, r);
    RunNil(CAREFUL, c);
    NextOut(cfg, x, client, Begin(hello), hello);
    RunSnoc(CAREFUL, c, [], c, Begin(hello));
    ts' := Move(cfg, ts, x, Of(client, Begin(hello)));
    var y := Next(cfg, x, Of(client, Begin(hello)));
    var d := Apply(c, Begin(hello));
    var first := if put < 4 then put else 4;
    NextOut(cfg, y, client, Write(first), hello);
    RunSnoc(CAREFUL, c, [] + [Begin(hello)], d, Write(first));
    ts' := Move(cfg, ts', y, Of(client, Write(first)));
    y, d := Next(cfg, y, Of(client, Write(first))), Apply(d, Write(first));
    assert put < 4 ==> ls == [] + [Begin(hello)] + [Write(first)];
    if 4 <= put {
      NextOut(cfg, y, client, Write(put - 4), hello);
      RunSnoc(CAREFUL, c, [] + [Begin(hello)] + [Write(4)], d, Write(put - 4));
      ts' := Move(cfg, ts', y, Of(client, Write(put - 4)));
      y, d := Next(cfg, y, Of(client, Write(put - 4))), Apply(d, Write(put - 4));
      if put < 12 {
        NextOut(cfg, y, client, WriteError, hello);
        RunSnoc(CAREFUL, c, [] + [Begin(hello)] + [Write(4)] + [Write(put - 4)], d, WriteError);
        ts' := Move(cfg, ts', y, Of(client, WriteError));
        y, d := Next(cfg, y, Of(client, WriteError)), Apply(d, WriteError);
        assert ls == [] + [Begin(hello)] + [Write(4)] + [Write(put - 4)] + [WriteError];
      } else {
        assert ls == [] + [Begin(hello)] + [Write(4)] + [Write(put - 4)];
      }
    }
  }

  /** However the receive of a hello goes, the session can do the same. */
  lemma HelloReceived(cfg: Config, ts: seq<Step>, x: Session, client: bool, taken: nat, v: Result<Message>)
    returns (ts': seq<Step>)
    requires Reached(cfg, ts, x) && PhaseOf(cfg, x, client) == Await && !Out(x, client).s.pc.Broken?
    requires var r := In(x, client).r; r == Init(0, DEFAULT_BUFFER_SIZE).r
    requires ReceiveOutcome(DEFAULT_BUFFER_SIZE, In(x, client).Pipe(), taken, v)
    ensures Reached(cfg, ts', WithIn(x, client, Received(In(x, client).r, In(x, client).Pipe(), taken, v)))
  {
    hide Reached, Possible, Next, PhaseOf, Run, Frame, Word, WordValue, Take;
    var c := In(x, client);
    var w := c.Pipe();
    if taken >= 4 {
      OutcomeHeader(DEFAULT_BUFFER_SIZE, w, taken, v);
    }
    ts' := ts;
    var y, d := x, c;
    if taken > 0 {
      var first := if taken <= 4 then taken else 4;
      HeaderRead(c.r, w, first);
      NextIn(cfg, y, client, Read(first));
      ts' := Move(cfg, ts', y, Of(client, Read(first)));
      y, d := Next(cfg, y, Of(client, Read(first))), Apply(d, Read(first));
      if taken > 4 {
        Rest(c.s.wire, c.r.consumed, taken);
        BodyRead(d.r, w, taken);
        NextIn(cfg, y, client, Read(taken - 4));
        ts' := Move(cfg, ts', y, Of(client, Read(taken - 4)));
        y, d := Next(cfg, y, Of(client, Read(taken - 4))), Apply(d, Read(taken - 4));
      }
    }
    assert d.r == Received(c.r, w, taken, v).(failed := false);
    if FailedRead(v) {
      assert taken == 0 ==> w[..0] == [];
      NextIn(cfg, y, client, ReadError);
      ts' := Move(cfg, ts', y, Of(client, ReadError));
      y, d := Next(cfg, y, Of(client, ReadError)), Apply(d, ReadError);
    }
  }

  /** What comes after a frame that is there makes no difference to its receive. */
  lemma FrontOnly(limit: uint32, m: Message, put: nat, later: seq<byte>, taken: nat, v: Result<Message>)
    requires put <= |Frame(m)| && |m| <= limit && (put < |Frame(m)| ==> later == [])
    requires ReceiveOutcome(limit, Frame(m)[..put] + later, taken, v)
    ensures ReceiveOutcome(limit, Frame(m)[..put], taken, v) && v != Err(InvalidMessageSize)
    ensures v.Ok? ==> v.value == m && put == taken == |Frame(m)|
  {
    hide Frame, Word, WordValue, Incomplete;
    var f, w := Frame(m), Frame(m)[..put] + later;
    if put == |f| {
      assert f[..put] == f;
      ReceivedIsSent(limit, m, later, taken, v);
      if FailedRead(v) && taken >= |f| {
        assert w[..taken] == f + later[..taken - |f|];
        FrameFront(m, later[..taken - |f|]);
        assert false;
      }
      assert taken >= 4 ==> w[..4] == f[..put][..4];
      assert w[..taken] == f[..put][..taken];
    } else {
      assert w == f[..put];
      StrictPrefixIncomplete(m, put);
      if v.Ok? {
        assert w == Frame(v.value) + w[taken..];
        FrameFront(v.value, w[taken..]);
        assert false;
      }
      if taken >= 4 {
        FrameFront(m, []);
        assert w[..4] == (f + [])[..4];
      }
    }
  }

  /** What the server writes in the handshake: nothing unless a hello came. */
  function Answered(cfg: Config, o: ServerCalls): seq<byte> {
    if o.GotHello() && o.put <= 12 then Frame(HelloBytes(cfg.Answer(HelloOf(o.hello.value))))[..o.put] else []
  }

  /** `connect` and `negotiate_protocol` on one connection, each with an outcome that its contract allows
      and each receiving what the other writes, first in the handshake and then, unless it threw,
      `fromClient` and `fromServer`. */
  predicate Connected(cfg: Config, fromClient: seq<byte>, fromServer: seq<byte>, c: ClientCalls, s: ServerCalls) {
    && c.put <= 12 && (c.sent.Err? ==> fromClient == []) && (s.sent.Err? ==> fromServer == [])
    && ClientOutcome(cfg.Greeting(), Answered(cfg, s) + fromServer, c)
    && ServerOutcome(DEFAULT_BUFFER_SIZE, cfg.serverVersion, cfg.serverAllowed,
                     Frame(HelloBytes(cfg.Greeting()))[..c.put] + fromClient, s)
  }

  lemma SentWire(m: Message, put: nat, r: Result<()>)
    requires |m| == 8 && SendOutcome(DEFAULT_BUFFER_SIZE, m, put, r)
    ensures var s := Sent(Init(DEFAULT_BUFFER_SIZE, 0).s, m, put, r);
            && r != Err(InvalidMessageSize) && s.wire == Frame(m)[..put] && |s.wire| == put <= 12
            && (r.Ok? <==> put == 12)
            && s.pc == (if r.Ok? then Idle else Broken(m, put)) && s.completed == (if r.Ok? then [m] else [])
  {
  }

  /** The greeting is sent and received. */
  lemma GreetingIsAPlay(cfg: Config, fromClient: seq<byte>, sent: Result<()>, put: nat, hello: Result<Message>, taken: nat)
    returns (ts: seq<Step>, x: Session)
    requires SendOutcome(DEFAULT_BUFFER_SIZE, HelloBytes(cfg.Greeting()), put, sent) && (sent.Err? ==> fromClient == [])
    requires ReceiveOutcome(DEFAULT_BUFFER_SIZE, Frame(HelloBytes(cfg.Greeting()))[..put] + fromClient, taken, hello)
    ensures Reached(cfg, ts, x) && x.toClient == Start().toClient
    ensures x.toServer.s == Sent(Start().toServer.s, HelloBytes(cfg.Greeting()), put, sent)
    ensures x.toServer.s.wire == Frame(HelloBytes(cfg.Greeting()))[..put]
    ensures x.toServer.r.consumed == taken && x.toServer.r.failed == hello.Err?
    ensures if hello.Ok? then sent.Ok? && x.toServer.r.delivered == [HelloBytes(cfg.Greeting())] == [hello.value]
            else x.toServer.r.delivered == []
  {
    hide Reached, Frame, HelloBytes, HelloOf, And;
    var greeting := HelloBytes(cfg.Greeting());
    PlayNothing(cfg);
    ts := HelloSent(cfg, [], Start(), true, greeting, put, sent);
    x := WithOut(Start(), true, Sent(Start().toServer.s, greeting, put, sent));
    SentWire(greeting, put, sent);
    FrontOnly(DEFAULT_BUFFER_SIZE, greeting, put, fromClient, taken, hello);
    assert x.toServer.Pipe() == Frame(greeting)[..put];
    ts := HelloReceived(cfg, ts, x, false, taken, hello);
    x := WithIn(x, false, Received(x.toServer.r, x.toServer.Pipe(), taken, hello));
  }

  /** The answer is sent. */
  lemma AnswerIsAPlay(cfg: Config, ts: seq<Step>, x: Session, sent: Result<()>, put: nat)
    returns (ts': seq<Step>, y: Session)
    requires Reached(cfg, ts, x) && x.toClient == Start().toClient && !x.toServer.r.failed
    requires x.toServer.r.delivered == [HelloBytes(cfg.Greeting())]
    requires SendOutcome(DEFAULT_BUFFER_SIZE, HelloBytes(cfg.Answer(cfg.Greeting())), put, sent)
    ensures Reached(cfg, ts', y) && y.toServer == x.toServer && y.toClient.r == x.toClient.r
    ensures y.toClient.s.wire == Frame(HelloBytes(cfg.Answer(cfg.Greeting())))[..put]
    ensures y.toClient.s.completed != [] <==> sent.Ok?
  {
    hide Reached, Frame, HelloBytes, HelloOf, And, SendOutcome;
    var reply := HelloBytes(cfg.Answer(cfg.Greeting()));
    HelloInverse(cfg.Greeting());
    SentWire(reply, put, sent);
    ts' := HelloSent(cfg, ts, x, false, reply, put, sent);
    y := WithOut(x, false, Sent(x.toClient.s, reply, put, sent));
  }

  /** However the two methods go together, the session has a run in which the same bytes move and the
      same is decided. */
  lemma HandshakeIsAPlay(cfg: Config, fromClient: seq<byte>, fromServer: seq<byte>, c: ClientCalls, s: ServerCalls)
    returns (ts: seq<Step>, x: Session)
    requires Connected(cfg, fromClient, fromServer, c, s)
    ensures Reached(cfg, ts, x)
    ensures x.toServer.s.wire == Frame(HelloBytes(cfg.Greeting()))[..c.put] && x.toServer.r.consumed == s.taken
    ensures x.toClient.s.wire == Answered(cfg, s) && x.toClient.r.consumed == (if c.sent.Ok? then c.taken else 0)
    ensures ServerDecided(x) <==> s.sent.Ok?
    ensures s.sent.Ok? ==> s.GotHello() && s.put == 12
                           && ServerDecision(cfg, x) == ServerChoice(cfg.Answer(HelloOf(s.hello.value)))
    ensures ClientDecided(x) <==> c.sent.Ok? && c.response.Ok?
    ensures ClientDecided(x) ==> x.toClient.r.delivered == [c.response.value]
  {
    hide Reached, Frame, HelloBytes, HelloOf, And;
    ts, x := GreetingIsAPlay(cfg, fromClient, c.sent, c.put, s.hello, s.taken);
    HelloInverse(cfg.Greeting());
    var reply := HelloBytes(cfg.Answer(cfg.Greeting()));
    if s.hello.Ok? {
      ts, x := AnswerIsAPlay(cfg, ts, x, s.sent, s.put);
    }
    if c.sent.Ok? {
      if s.hello.Ok? {
        FrontOnly(DEFAULT_BUFFER_SIZE, reply, s.put, fromServer, c.taken, c.response);
      } else {
        assert [] + fromServer == [];
      }
      assert x.toClient.Pipe() == Answered(cfg, s);
      ts := HelloReceived(cfg, ts, x, true, c.taken, c.response);
      x := WithIn(x, true, Received(x.toClient.r, x.toClient.Pipe(), c.taken, c.response));
    }
  }

  lemma PlayNothing(cfg: Config)
    ensures Reached(cfg, [], Start())
  {
  }

  /** When `connect` gets an answer, the server has decided, for the same transport, the one that the
      versions and flags of the two lead to; each end has taken the 12 bytes of a hello, and what is left
      for the connections they return is what the application sends on them, and nothing else. */
  lemma HandshakeComposes(cfg: Config, fromClient: seq<byte>, fromServer: seq<byte>, c: ClientCalls, s: ServerCalls)
    requires Connected(cfg, fromClient, fromServer, c, s) && c.sent.Ok? && c.response.Ok?
    ensures s.sent.Ok? && s.GotHello() && |c.response.value| == 8
    ensures ClientChoice(HelloOf(c.response.value)) == ServerChoice(cfg.Answer(HelloOf(s.hello.value))) == cfg.Agreed()
    ensures s.taken == 12 && (Frame(HelloBytes(cfg.Greeting()))[..c.put] + fromClient)[s.taken..] == fromClient
    ensures c.taken == 12 && (Answered(cfg, s) + fromServer)[c.taken..] == fromServer
  {
    hide Reached, Frame, HelloBytes, HelloOf, And, Handover, Inv;
    var ts, x := HandshakeIsAPlay(cfg, fromClient, fromServer, c, s);
    SessionAgreement(cfg, ts, x);
    SessionComposition(cfg, ts, x);
    ReachedInv(cfg, ts, x);
    Phases(cfg, x);
    HelloInverse(cfg.Greeting());
    HelloInverse(cfg.Answer(cfg.Greeting()));
    Bounds(x.toServer);
    Bounds(x.toClient);
  }

  lemma Bounds(d: State)
    requires Handover(d)
    ensures 12 <= d.r.consumed <= |d.s.wire|
  {
  }

  /** The whole session, as the code runs it: after the handshake each application sends on its
      connection and receives from it, by any calls with any outcomes that the methods allow, none after
      one that failed inside a frame. In both directions the messages returned are a prefix of those
      whose sends returned, and the same when everything was read and no send broke off. */
  lemma SessionOfTheCode(cfg: Config, c: ClientCalls, s: ServerCalls,
                         clientSends: seq<SendCall>, serverReceives: seq<ReceiveCall>,
                         serverSends: seq<SendCall>, clientReceives: seq<ReceiveCall>)
    requires Connected(cfg, Written(clientSends), Written(serverSends), c, s) && c.sent.Ok? && c.response.Ok?
    requires Sends(DEFAULT_BUFFER_SIZE, clientSends) && CarefulSends(clientSends)
    requires Sends(DEFAULT_BUFFER_SIZE, serverSends) && CarefulSends(serverSends)
    requires var toServer := Frame(HelloBytes(cfg.Greeting()))[..c.put] + Written(clientSends);
             s.taken <= |toServer| && Receives(DEFAULT_BUFFER_SIZE, toServer[s.taken..], serverReceives)
    requires var toClient := Answered(cfg, s) + Written(serverSends);
             c.taken <= |toClient| && Receives(DEFAULT_BUFFER_SIZE, toClient[c.taken..], clientReceives)
    requires CarefulReceives(serverReceives) && CarefulReceives(clientReceives)
    ensures InOrder(clientSends, serverReceives) && InOrder(serverSends, clientReceives)
  {
    hide Frame, HelloBytes, HelloOf, And, Connected, Written, Receives, InOrder, CarefulSends, CarefulReceives;
    HandshakeComposes(cfg, Written(clientSends), Written(serverSends), c, s);
    CallsAreFifo(DEFAULT_BUFFER_SIZE, DEFAULT_BUFFER_SIZE, clientSends, serverReceives);
    CallsAreFifo(DEFAULT_BUFFER_SIZE, DEFAULT_BUFFER_SIZE, serverSends, clientReceives);
  }
}
