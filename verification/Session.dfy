/** A client and a server on one connection: the handshake of `ConnClient::connect` and
    `ConnServer::negotiate_protocol`, and the application traffic that follows it on the same
    socket. A run is any interleaving of the system calls of the two ends. An exception ends the
    handshake; the application may call again after one, where the failed call moved no byte. */
module Session {
  import opened Basics
  import opened Wire
  import opened Channel
  import opened Handshake

  datatype Config = Config(
    clientVersion: uint32, clientAllowed: uint32, serverVersion: uint32, serverAllowed: uint32)
  {
    function Greeting(): Hello { Hello(clientVersion, clientAllowed) }

    /** What the server answers to the hello `h`. */
    function Answer(h: Hello): Hello { Reply(h, serverVersion, serverAllowed) }

    /** The transport the flags and versions of the two ends lead to. */
    function Agreed(): Choice { ServerChoice(Answer(Greeting())) }
  }

  datatype Session = Session(toServer: State, toClient: State)

  datatype Step = Client(l: Label) | Server(l: Label)

  function Start(): Session {
    Session(Init(DEFAULT_BUFFER_SIZE, DEFAULT_BUFFER_SIZE), Init(DEFAULT_BUFFER_SIZE, DEFAULT_BUFFER_SIZE))
  }

  datatype Phase = Greet(hello: Message) | Await | Open | Stopped

  /** Where the client is in `connect`; `Open` is a TCP connection in the caller's hands. After a
      refusal it has thrown; after choosing TLS it exchanges no more plain bytes. */
  function ClientPhase(cfg: Config, x: Session): Phase {
    if x.toServer.s.completed == [] then Greet(HelloBytes(cfg.Greeting()))
    else if x.toClient.r.delivered == [] then Await
    else
      var m := x.toClient.r.delivered[0];
      if |m| == 8 && ClientChoice(HelloOf(m)) == UseTCP then Open else Stopped
  }

  /** Where the server is in `negotiate_protocol`. */
  function ServerPhase(cfg: Config, x: Session): Phase {
    if x.toServer.r.delivered == [] then Await
    else
      var m := x.toServer.r.delivered[0];
      if |m| != 8 then Stopped
      else
        var reply := cfg.Answer(HelloOf(m));
        if x.toClient.s.completed == [] then Greet(HelloBytes(reply))
        else if ServerChoice(reply) == UseTCP then Open else Stopped
  }

  /** What the code of an end that is in `phase` can do next with its outgoing and incoming bytes.
      An error during the handshake is thrown out of it. */
  predicate May(phase: Phase, out: Sender, into: Receiver, l: Label) {
    match phase
    case Greet(hello) => l.Sends() && !into.failed && (l.Begin? ==> out.pc.Idle? && l.msg == hello)
    case Await => !l.Sends() && !l.Retry? && !out.pc.Broken?
    case Open => true
    case Stopped => false
  }

  predicate Possible(cfg: Config, x: Session, t: Step) {
    match t
    case Client(l) =>
      && May(ClientPhase(cfg, x), x.toServer.s, x.toClient.r, l)
      && Allowed(CAREFUL, if l.Sends() then x.toServer else x.toClient, l)
    case Server(l) =>
      && May(ServerPhase(cfg, x), x.toClient.s, x.toServer.r, l)
      && Allowed(CAREFUL, if l.Sends() then x.toClient else x.toServer, l)
  }

  function Next(cfg: Config, x: Session, t: Step): Session
    requires Possible(cfg, x, t)
  {
    if t.l.Sends() == t.Client? then x.(toServer := Apply(x.toServer, t.l))
    else x.(toClient := Apply(x.toClient, t.l))
  }

  function Play(cfg: Config, x: Session, ts: seq<Step>): Option<Session>
    decreases |ts|
  {
    if ts == [] then Some(x)
    else if Possible(cfg, x, ts[0]) then Play(cfg, Next(cfg, x, ts[0]), ts[1..])
    else None
  }

  // ---- the invariant ----

  predicate Default(c: State) {
    Inv(c) && Clean(c) && c.s.limit == c.r.limit == DEFAULT_BUFFER_SIZE
  }

  /** At most one message was received, and no byte after it was touched. */
  predicate AtMostOne(r: Receiver) {
    r.delivered == [] || (|r.delivered| == 1 && r.got == [])
  }

  predicate StartsWith(ms: seq<Message>, h: Hello) {
    ms != [] ==> ms[0] == HelloBytes(h)
  }

  predicate SessionInv(cfg: Config, x: Session) {
    && Default(x.toServer) && Default(x.toClient)
    && StartsWith(x.toServer.s.Accepted(), cfg.Greeting())
    && StartsWith(x.toClient.s.Accepted(), cfg.Answer(cfg.Greeting()))
    && (x.toClient.s.Accepted() != [] ==> x.toServer.r.delivered != [])
    && (x.toClient.r.delivered != [] ==> x.toServer.s.completed != [])
    && (!ClientOpen(cfg, x) ==> |x.toServer.s.Accepted()| <= 1 && AtMostOne(x.toClient.r))
    && (!ServerOpen(cfg, x) ==> |x.toClient.s.Accepted()| <= 1 && AtMostOne(x.toServer.r))
  }

  predicate ClientOpen(cfg: Config, x: Session) {
    x.toClient.r.delivered != [] && cfg.Agreed() == UseTCP
  }

  predicate ServerOpen(cfg: Config, x: Session) {
    x.toClient.s.completed != [] && cfg.Agreed() == UseTCP
  }

  lemma DefaultFits(c: State)
    requires Default(c)
    ensures FifoState(c) && ReceiverOk(c.r, c.s.wire) && c.r.delivered <= c.s.completed
  {
    hide Frame, Frames, Total, Incomplete, FifoState;
    InvGivesFifo(c);
    Position(c.s, c.r);
  }

  lemma StepKeepsDefault(c: State, l: Label)
    requires Default(c) && Allowed(CAREFUL, c, l)
    ensures Default(Apply(c, l))
  {
    hide Inv, Enabled, Apply, Fits;
    Grows(c, l);
    CarefulKeepsClean(c, l);
    LimitsFit(Apply(c, l));
  }

  /** In a reachable session both ends are where the agreed transport says they are. */
  lemma Phases(cfg: Config, x: Session)
    requires SessionInv(cfg, x)
    ensures x.toServer.r.delivered != [] ==> x.toServer.r.delivered[0] == HelloBytes(cfg.Greeting())
    ensures x.toClient.r.delivered != [] ==> x.toClient.r.delivered[0] == HelloBytes(cfg.Answer(cfg.Greeting()))
    ensures ClientPhase(cfg, x) == if x.toServer.s.completed == [] then Greet(HelloBytes(cfg.Greeting()))
                                   else if x.toClient.r.delivered == [] then Await
                                   else if ClientOpen(cfg, x) then Open else Stopped
    ensures ServerPhase(cfg, x) == if x.toServer.r.delivered == [] then Await
                                   else if x.toClient.s.completed == [] then Greet(HelloBytes(cfg.Answer(cfg.Greeting())))
                                   else if ServerOpen(cfg, x) then Open else Stopped
  {
    hide Inv, FifoState, ReceiverOk, And, HelloBytes, HelloOf;
    DefaultFits(x.toServer);
    DefaultFits(x.toClient);
    HelloInverse(cfg.Greeting());
    HelloInverse(cfg.Answer(cfg.Greeting()));
    Agreement(cfg.Greeting(), cfg.serverVersion, cfg.serverAllowed);
    assert x.toServer.s.completed <= x.toServer.s.Accepted();
    assert x.toClient.s.completed <= x.toClient.s.Accepted();
  }

  lemma ClientStepKeepsInv(cfg: Config, x: Session, l: Label)
    requires SessionInv(cfg, x) && Possible(cfg, x, Client(l))
    ensures SessionInv(cfg, Next(cfg, x, Client(l)))
  {
    hide Default, FifoState, ReceiverOk, And, HelloBytes, HelloOf, Frame, Word, WordValue;
    Phases(cfg, x);
    var c := if l.Sends() then x.toServer else x.toClient;
    StepKeepsDefault(c, l);
    Grows(c, l);
    DefaultFits(x.toServer);
    DefaultFits(Apply(c, l));
  }

  lemma ServerStepKeepsInv(cfg: Config, x: Session, l: Label)
    requires SessionInv(cfg, x) && Possible(cfg, x, Server(l))
    ensures SessionInv(cfg, Next(cfg, x, Server(l)))
  {
    hide Default, FifoState, ReceiverOk, And, HelloBytes, HelloOf, Frame, Word, WordValue;
    Phases(cfg, x);
    var c := if l.Sends() then x.toClient else x.toServer;
    StepKeepsDefault(c, l);
    Grows(c, l);
    DefaultFits(x.toClient);
    DefaultFits(Apply(c, l));
  }

  lemma {:induction false} PlayKeepsInv(cfg: Config, x: Session, ts: seq<Step>)
    requires SessionInv(cfg, x) && Play(cfg, x, ts).Some?
    ensures SessionInv(cfg, Play(cfg, x, ts).value)
    decreases |ts|
  {
    hide SessionInv, Possible, Next;
    if ts != [] {
      if ts[0].Client? {
        ClientStepKeepsInv(cfg, x, ts[0].l);
      } else {
        ServerStepKeepsInv(cfg, x, ts[0].l);
      }
      PlayKeepsInv(cfg, Next(cfg, x, ts[0]), ts[1..]);
    }
  }

  predicate Reached(cfg: Config, ts: seq<Step>, x: Session) {
    Play(cfg, Start(), ts) == Some(x)
  }

  lemma ReachedInv(cfg: Config, ts: seq<Step>, x: Session)
    requires Reached(cfg, ts, x)
    ensures SessionInv(cfg, x)
  {
    InitInv(DEFAULT_BUFFER_SIZE, DEFAULT_BUFFER_SIZE);
    PlayKeepsInv(cfg, Start(), ts);
  }

  // ---- the session theorems ----

  predicate ServerDecided(x: Session) { x.toServer.r.delivered != [] && x.toClient.s.completed != [] }

  predicate ClientDecided(x: Session) { x.toClient.r.delivered != [] }

  /** What the server made of the bytes it received. */
  function ServerDecision(cfg: Config, x: Session): Choice
    requires ServerDecided(x)
  {
    var m := x.toServer.r.delivered[0];
    if |m| != 8 then Refuse else ServerChoice(cfg.Answer(HelloOf(m)))
  }

  /** What the client made of the bytes it received. */
  function ClientDecision(x: Session): Choice
    requires ClientDecided(x)
  {
    var m := x.toClient.r.delivered[0];
    if |m| != 8 then Refuse else ClientChoice(HelloOf(m))
  }

  /** In every run the two ends decide for the same transport or both throw, the server first; and
      which it is depends on the versions and on the two known flags alone. */
  lemma SessionAgreement(cfg: Config, ts: seq<Step>, x: Session)
    requires Reached(cfg, ts, x)
    ensures ClientDecided(x) ==> ServerDecided(x) && ClientDecision(x) == ServerDecision(cfg, x)
    ensures ServerDecided(x) ==>
              var versions := cfg.clientVersion == cfg.serverVersion != 0;
              var tls := AllowsTLS(cfg.clientAllowed) && AllowsTLS(cfg.serverAllowed);
              var tcp := AllowsTCP(cfg.clientAllowed) && AllowsTCP(cfg.serverAllowed);
              ServerDecision(cfg, x) == if versions && tls then UseTLS else if versions && tcp then UseTCP else Refuse
  {
    hide And, HelloBytes, HelloOf, Inv, FifoState, ReceiverOk;
    ReachedInv(cfg, ts, x);
    Phases(cfg, x);
    DefaultFits(x.toClient);
    HelloInverse(cfg.Greeting());
    HelloInverse(cfg.Answer(cfg.Greeting()));
    Agreement(cfg.Greeting(), cfg.serverVersion, cfg.serverAllowed);
  }

  /** Where the hello ends and the application begins in one direction: the first 12 bytes are the
      frame of the hello, all later ones belong to the later messages, and these arrive in order. */
  predicate Handover(c: State) {
    && 12 <= c.r.consumed <= |c.s.wire|
    && c.r.delivered != [] && c.s.completed != []
    && c.s.wire[..12] == Frame(c.r.delivered[0]) == Frame(c.s.completed[0])
    && c.s.wire[12..c.r.consumed] == Frames(c.r.delivered[1..]) + c.r.got
    && c.s.wire[12..] == Frames(c.s.completed[1..]) + c.s.Partial()
    && c.r.delivered[1..] <= c.s.completed[1..]
    && c.r.refused == 0
    && (Drained(c) ==> c.r.delivered[1..] == c.s.completed[1..])
  }

  lemma HandoverOf(c: State)
    requires Default(c) && c.r.delivered != [] && |c.r.delivered[0]| == 8
    ensures Handover(c)
    ensures AtMostOne(c.r) ==> c.r.consumed == 12
    ensures |c.s.completed| == 1 && c.s.pc.Idle? ==> |c.s.wire| == 12
  {
    hide Frame, Total, Incomplete;
    DefaultFits(c);
    var hello := Frame(c.r.delivered[0]);
    SplitFirst(c.s.wire[..c.r.consumed], hello, c.r.delivered, c.r.got);
    SplitFirst(c.s.wire, hello, c.s.completed, c.s.Partial());
    assert c.s.wire[..c.r.consumed][..12] == c.s.wire[..12];
    assert c.s.wire[..c.r.consumed][12..] == c.s.wire[12..c.r.consumed];
    FramesOfNone();
    if AtMostOne(c.r) {
      assert c.r.delivered[1..] == [];
      assert |c.s.wire[12..c.r.consumed]| == 0;
    }
    if |c.s.completed| == 1 && c.s.pc.Idle? {
      assert c.s.completed[1..] == [];
      assert |c.s.wire[12..]| == 0;
    }
  }

  lemma SplitFirst(w: seq<byte>, f: seq<byte>, ms: seq<Message>, rest: seq<byte>)
    requires ms != [] && f == Frame(ms[0]) && w == Frames(ms) + rest
    ensures |f| <= |w| && w[..|f|] == f && w[|f|..] == Frames(ms[1..]) + rest
  {
    hide Frame;
    assert w == f + (Frames(ms[1..]) + rest);
  }

  /** Once both ends have decided, the application traffic of each direction starts at byte 12 and
      is delivered in order on TCP; when they did not choose TCP, exactly the 12 bytes of the hello
      were written and read in each direction. */
  lemma SessionComposition(cfg: Config, ts: seq<Step>, x: Session)
    requires Reached(cfg, ts, x) && ClientDecided(x)
    ensures Handover(x.toServer) && Handover(x.toClient)
    ensures ClientDecision(x) != UseTCP ==>
              && x.toServer.r.consumed == |x.toServer.s.wire| == 12
              && x.toClient.r.consumed == |x.toClient.s.wire| == 12
  {
    hide And, HelloBytes, HelloOf, Inv, FifoState, ReceiverOk, Handover;
    ReachedInv(cfg, ts, x);
    Phases(cfg, x);
    SessionAgreement(cfg, ts, x);
    DefaultFits(x.toClient);
    HelloInverse(cfg.Answer(cfg.Greeting()));
    Agreement(cfg.Greeting(), cfg.serverVersion, cfg.serverAllowed);
    HandoverOf(x.toServer);
    HandoverOf(x.toClient);
    OneSent(x.toServer.s);
    OneSent(x.toClient.s);
  }

  lemma OneSent(s: Sender)
    ensures s.completed != [] && |s.Accepted()| <= 1 ==> |s.completed| == 1 && s.pc.Idle?
  {
  }

  /** At the step in which the client decides it has taken exactly 12 bytes, however many more the
      server has already written, so the connection it returns starts at byte 12. */
  lemma ClientDecisionTakesTwelve(cfg: Config, ts: seq<Step>, x: Session, t: Step)
    requires Reached(cfg, ts, x) && Possible(cfg, x, t)
    requires !ClientDecided(x) && ClientDecided(Next(cfg, x, t))
    ensures Next(cfg, x, t).toClient.r.consumed == 12
  {
    hide And, HelloBytes, HelloOf, Inv, FifoState, ReceiverOk, Handover, Frame, Word, WordValue;
    ReachedInv(cfg, ts, x);
    Phases(cfg, x);
    ClientStepKeepsInv(cfg, x, t.l);
    Phases(cfg, Next(cfg, x, t));
    HandoverOf(Next(cfg, x, t).toClient);
  }

  /** The server decides when its answer is written: by then it has taken exactly 12 bytes, whatever
      else has arrived, and written exactly 12. */
  lemma ServerDecisionTakesTwelve(cfg: Config, ts: seq<Step>, x: Session, t: Step)
    requires Reached(cfg, ts, x) && Possible(cfg, x, t)
    requires !ServerDecided(x) && ServerDecided(Next(cfg, x, t))
    ensures Next(cfg, x, t).toServer.r.consumed == 12
    ensures |Next(cfg, x, t).toClient.s.wire| == 12
  {
    hide And, HelloBytes, HelloOf, Inv, FifoState, ReceiverOk, Handover, Frame, Word, WordValue;
    ReachedInv(cfg, ts, x);
    Phases(cfg, x);
    var y := Next(cfg, x, t);
    if t.Client? {
      ClientStepKeepsInv(cfg, x, t.l);
    } else {
      ServerStepKeepsInv(cfg, x, t.l);
    }
    Phases(cfg, y);
    HandoverOf(y.toServer);
    WireOfOne(y.toClient);
  }

  lemma WireOfOne(c: State)
    requires Inv(c) && Clean(c) && c.s.pc.Idle? && |c.s.completed| == 1 && |c.s.completed[0]| == 8
    ensures |c.s.wire| == 12
  {
    hide Frame;
    WireLength(c.s.completed);
    assert c.s.completed[1..] == [];
  }

  predicate Healthy(x: Session) {
    && !x.toServer.s.pc.Broken? && !x.toServer.r.failed
    && !x.toClient.s.pc.Broken? && !x.toClient.r.failed
  }

  /** A step that moves the handshake on: a call that is due begins, or a system call without error. */
  predicate MovesOn(cfg: Config, x: Session, t: Step) {
    && Possible(cfg, x, t)
    && (t.l.Begin? || Advances(if t.l.Sends() == t.Client? then x.toServer else x.toClient, t.l))
  }

  /** The handshake cannot get stuck: without I/O errors, whatever order the two ends run in, one of
      them can always move on until both have decided. */
  lemma HandshakeNeverStuck(cfg: Config, ts: seq<Step>, x: Session)
    requires Reached(cfg, ts, x) && Healthy(x) && !ClientDecided(x)
    ensures exists t :: MovesOn(cfg, x, t)
  {
    hide And, HelloBytes, HelloOf, Inv, Frame, Word, WordValue, Next;
    ReachedInv(cfg, ts, x);
    Phases(cfg, x);
    if x.toServer.s.completed == [] {
      SenderCanMove(x.toServer);
      assert MovesOn(cfg, x, Client(if x.toServer.s.pc.Idle? then Begin(HelloBytes(cfg.Greeting()))
                                    else Write(Asked(x.toServer.s.pc))));
    } else if x.toServer.r.delivered == [] {
      ReceiverCanMove(x.toServer);
      assert MovesOn(cfg, x, Server(Read(1)));
    } else if x.toClient.s.completed == [] {
      SenderCanMove(x.toClient);
      assert MovesOn(cfg, x, Server(if x.toClient.s.pc.Idle? then Begin(HelloBytes(cfg.Answer(cfg.Greeting())))
                                    else Write(Asked(x.toClient.s.pc))));
    } else {
      ReceiverCanMove(x.toClient);
      assert MovesOn(cfg, x, Client(Read(1)));
    }
  }

  lemma SenderCanMove(c: State)
    requires Inv(c)
    ensures c.s.pc.Sending? ==> Advances(c, Write(Asked(c.s.pc)))
  {
    hide Frame;
  }

  lemma ReceiverCanMove(c: State)
    requires Default(c) && !c.r.failed && c.s.completed != [] && c.r.delivered == []
    ensures Advances(c, Read(1))
  {
    hide Frame, Frames, Word, WordValue, Incomplete;
    DefaultFits(c);
    WantsSomething(c.r);
    InvGivesFifo(c);
    Position(c.s, c.r);
    PartialIncomplete(c.s);
    if c.Pipe() == [] {
      assert c.r.got == c.r.got + c.Pipe() == Frames(c.s.completed) + c.s.Partial();
      FirstFrame(c.s.completed, c.s.Partial());
      assert false;
    }
  }

  lemma FirstFrame(ms: seq<Message>, rest: seq<byte>)
    requires ms != []
    ensures !Incomplete(Frames(ms) + rest)
  {
    hide Frame;
    FrameFront(ms[0], Frames(ms[1..]) + rest);
    assert Frames(ms) + rest == Frame(ms[0]) + (Frames(ms[1..]) + rest);
  }
}
