/** The test server that rotates tokens, and the proof that a client and this server stay in step. */
module Lockstep {
  import opened Basics
  import opened Json
  import opened Tokens

  // ---- the server ----

  const NUMERALS := "01234" + "56789"
  const CAPITALS := "ABCDEFGHI" + "JKLMNOPQR" + "STUVWXYZ"
  const SMALL_LETTERS := "abcdefghi" + "jklmnopqr" + "stuvwxyz"

  const CHARSET := NUMERALS + CAPITALS + SMALL_LETTERS

  const TOKEN_LENGTH := 46

  /** What becomes of an exchange: it works; the send throws before its first byte; or the receive does,
      which leaves the reply in the stream, where a later receive finds it. */
  datatype Fault = Fine | SendFails | ReplyUnread

  datatype Setup = Setup(
    sessionExpiresIn: int32, refreshExpiresIn: int32,
    rand: nat -> nat,      // the n-th value of rand()
    fault: nat -> Fault)   // the fate of the n-th exchange

  datatype Server = Server(
    session: string, refresh: string,
    draws: nat,            // calls of rand() so far
    running: bool)         // false once an exception has left the server loop

  const FRESH_SERVER := Server("", "", 0, true)

  function RandomString(rand: nat -> nat, from: nat): (s: string)
    ensures |s| == TOKEN_LENGTH && forall c <- s :: c in CHARSET
  {
    hide NUMERALS, CAPITALS, SMALL_LETTERS;
    CharsetIs(0);
    seq(TOKEN_LENGTH, i requires 0 <= i => CHARSET[rand(from + i) % |CHARSET|])
  }

  lemma NumeralsAre(v: nat)
    requires v < 10
    ensures |NUMERALS| == 10 && NUMERALS[v] as int == '0' as int + v
  {
  }

  lemma CapitalsAre(v: nat)
    requires v < 26
    ensures |CAPITALS| == 26 && CAPITALS[v] as int == 'A' as int + v
  {
  }

  lemma SmallLettersAre(v: nat)
    requires v < 26
    ensures |SMALL_LETTERS| == 26 && SMALL_LETTERS[v] as int == 'a' as int + v
  {
  }

  /** The ten numerals, then the capital and the small letters, each once. */
  lemma CharsetIs(v: nat)
    requires v < 62
    ensures |CHARSET| == 62
    ensures CHARSET[v] as int == if v < 10 then '0' as int + v else if v < 36 then 'A' as int + v - 10 else 'a' as int + v - 36
  {
    hide NUMERALS, CAPITALS, SMALL_LETTERS;
    NumeralsAre(0);
    CapitalsAre(0);
    SmallLettersAre(0);
    if v < 10 {
      NumeralsAre(v);
    } else if v < 36 {
      CapitalsAre(v - 10);
    } else {
      SmallLettersAre(v - 36);
    }
  }

  /** A token is 46 characters, one for each value of rand(), taken modulo 62. */
  lemma RandomStringIs(rand: nat -> nat, from: nat, i: nat)
    requires i < 46
    ensures |RandomString(rand, from)| == 46 && RandomString(rand, from)[i] == CHARSET[rand(from + i) % 62]
  {
    hide NUMERALS, CAPITALS, SMALL_LETTERS;
    CharsetIs(0);
  }

  function Regenerate(setup: Setup, s: Server): Server {
    s.(refresh := RandomString(setup.rand, s.draws),
       session := RandomString(setup.rand, s.draws + TOKEN_LENGTH), draws := s.draws + 2 * TOKEN_LENGTH)
  }

  /** New tokens are drawn refresh token first, from the values of rand() that come next. */
  lemma RegenerateIs(setup: Setup, s: Server, i: nat)
    requires i < 46
    ensures var t := Regenerate(setup, s);
            && |t.refresh| == |t.session| == 46 && t.draws == s.draws + 92 && t.running == s.running
            && t.refresh[i] == CHARSET[setup.rand(s.draws + i) % 62]
            && t.session[i] == CHARSET[setup.rand(s.draws + 46 + i) % 62]
  {
    hide CHARSET, RandomString;
    RandomStringIs(setup.rand, s.draws, i);
    RandomStringIs(setup.rand, s.draws + TOKEN_LENGTH, i);
  }

  /** The object under `name` in a one-element array of one object. */
  function CommandFields(j: Json, name: string): Option<Json> {
    if j.Array? && |j.a| == 1 && j.a[0].Has(name) && j.a[0].o[name].Object? then Some(j.a[0].o[name]) else None
  }

  predicate IsAuthenticateRequest(j: Json) {
    var f := CommandFields(j, "Authenticate");
    f.Some? && f.value.Has("username") && (f.value.Has("password") || f.value.Has("token"))
  }

  predicate IsRefreshTokenRequest(j: Json) {
    var f := CommandFields(j, "RefreshToken");
    f.Some? && f.value.Has("refresh_token")
  }

  function TokenReply(setup: Setup, s: Server, name: string): Response {
    Response(Command(name, map[
      "session_token" := String(s.session), "session_token_expires_in" := Number(setup.sessionExpiresIn),
      "refresh_token" := String(s.refresh), "refresh_token_expires_in" := Number(setup.refreshExpiresIn),
      "status" := Number(0)]), [])
  }

  const REJECTION := Response(Command("Something", map["status" := Number(-1)]), [])

  /** One turn of the server loop. Text that does not parse throws out of the loop. */
  function Handle(setup: Setup, s: Server, q: Request): (Server, Option<Response>) {
    var j := q.json.Parse();
    if !s.running then (s, None)
    else if j.None? then (s.(running := false), None)
    else if IsAuthenticateRequest(j.value) || IsRefreshTokenRequest(j.value) then
      var s' := Regenerate(setup, s);
      (s', Some(TokenReply(setup, s', if IsAuthenticateRequest(j.value) then "Authenticate" else "RefreshToken")))
    else if q.token == s.session then (s, Some(Response(q.json, [])))
    else (s, Some(REJECTION))
  }

  /** What is read from the text of a token reply, and of a rejection. */
  lemma RepliesReadAs(setup: Setup, s: Server, name: string)
    ensures var j := TokenReply(setup, s, name).json.Parse();
            && j.Some? && j.value.Array? && |j.value.a| == 1
            && j.value.a[0].Object? && j.value.a[0].o.Keys == {name}
            && var f := j.value.a[0].o[name];
            && f.Object? && f.o.Keys == {"status", "refresh_token", "refresh_token_expires_in",
                                         "session_token", "session_token_expires_in"}
            && f.o["status"] == Number(0)
            && f.o["refresh_token"] == String(s.refresh)
            && f.o["refresh_token_expires_in"] == Number(setup.refreshExpiresIn)
            && f.o["session_token"] == String(s.session)
            && f.o["session_token_expires_in"] == Number(setup.sessionExpiresIn)
    ensures TokenReply(setup, s, name).blobs == [] && REJECTION.blobs == []
    ensures var j := REJECTION.json.Parse();
            j == Some(Array([Object(map["Something" := Object(map["status" := Number(-1)])])]))
  {
    KeysDiffer();
  }

  /** Which commands ask for tokens. */
  lemma TokenCommands(name: string, f: map<string, Json>)
    ensures var j := Array([Object(map[name := Object(f)])]);
            && (IsAuthenticateRequest(j) <==>
                  name == "Authenticate" && "username" in f && ("password" in f || "token" in f))
            && (IsRefreshTokenRequest(j) <==> name == "RefreshToken" && "refresh_token" in f)
  {
    var j := Array([Object(map[name := Object(f)])]);
    assert j.a[0].o[name] == Object(f);
    assert |"Authenticate"| == |"RefreshToken"| == 12 && "Authenticate"[0] != "RefreshToken"[0];
  }

  // ---- the two ends together ----

  function Last<T>(s: seq<T>): T
    requires s != []
  {
    s[|s| - 1]
  }

  function Front<T>(s: seq<T>): seq<T>
    requires s != []
  {
    s[..|s| - 1]
  }

  /** The server, and the replies it has written that the client has not read. */
  datatype Peer = Peer(server: Server, unread: seq<Response>)

  const NEW_PEER := Peer(FRESH_SERVER, [])

  /** One exchange: the client takes the oldest reply there is. When there is none, because the server
      has stopped, its receive throws. */
  function Meet(setup: Setup, p: Peer, q: Request, f: Fault): (Peer, Option<Response>) {
    if f == SendFails then (p, None)
    else
      var (s, r) := Handle(setup, p.server, q);
      var replies := p.unread + (if r.Some? then [r.value] else []);
      if f == ReplyUnread || replies == [] then (Peer(s, replies), None)
      else (Peer(s, replies[1..]), Some(replies[0]))
  }

  /** The peer after the requests of `log`, the n-th of which met the n-th fault. */
  function After(setup: Setup, log: seq<Request>): Peer
    decreases |log|
  {
    if log == [] then NEW_PEER
    else Meet(setup, After(setup, Front(log)), Last(log), setup.fault(|log| - 1)).0
  }

  /** What the client gets for the last request of `log`. */
  function Answer(setup: Setup, log: seq<Request>): Option<Response>
    requires log != []
  {
    Meet(setup, After(setup, Front(log)), Last(log), setup.fault(|log| - 1)).1
  }

  /** The peer of the client is this server: whatever was sent before, the client gets its answers. */
  ghost predicate TalksTo(env: Env, setup: Setup) {
    forall log :: log != [] ==> env.answer(log) == Answer(setup, log)
  }

  lemma ThereIsSuchAPeer(setup: Setup, clock: nat -> int)
    ensures TalksTo(Env(clock, log => if log == [] then None else Answer(setup, log)), setup)
  {
  }

  predicate GetsTokens(text: Text) {
    var j := text.Parse();
    j.Some? && (IsAuthenticateRequest(j.value) || IsRefreshTokenRequest(j.value))
  }

  /** A query that is valid JSON and no token request. */
  predicate Plain(text: Text) {
    text.Parse().Some? && !GetsTokens(text)
  }

  /** In none of these exchanges a reply was left unread. */
  predicate RepliesRead(setup: Setup, from: nat, to: nat) {
    forall n | from <= n < to :: setup.fault(n) != ReplyUnread
  }

  ghost predicate FineFrom(setup: Setup, from: nat) {
    forall n | from <= n :: setup.fault(n) == Fine
  }

  /** The client holds the server's current tokens. */
  predicate InStep(c: Client, s: Server) {
    && c.token.Some? && s.running && s.session != ""
    && c.token.value.sessionToken == s.session && c.token.value.refreshToken == s.refresh
  }

  /** And has read every reply. */
  predicate Settled(c: Client, p: Peer) {
    InStep(c, p.server) && p.unread == []
  }

  lemma KeysDiffer()
    ensures "session_token" != "refresh_token"
    ensures "session_token_expires_in" != "refresh_token_expires_in"
    ensures |"session_token"| == |"refresh_token"| == 13
    ensures |"session_token_expires_in"| == |"refresh_token_expires_in"| == 24 && |"status"| == 6
  {
    assert "session_token"[0] != "refresh_token"[0];
    assert "session_token_expires_in"[0] != "refresh_token_expires_in"[0];
  }

  /** The client reads from a token reply exactly what the server put in. */
  lemma ReplyIsUnderstood(setup: Setup, s: Server, name: string, now: int)
    requires s.session != ""
    ensures ProcessTokenResponse(now, TokenReply(setup, s, name).json, name)
         == Some(AuthToken(now, s.refresh, setup.refreshExpiresIn, s.session, setup.sessionExpiresIn))
  {
    KeysDiffer();
    var f := TokenFields(TokenReply(setup, s, name).json.json, name).value;
    assert f["session_token"] == String(s.session) && f["refresh_token"] == String(s.refresh);
    assert f["session_token_expires_in"] == Number(setup.sessionExpiresIn);
    assert f["refresh_token_expires_in"] == Number(setup.refreshExpiresIn);
  }

  /** The server recognises what the client sends to get tokens, provided it has a user name. */
  lemma TokenTexts(c: Client, rt: string)
    ensures IsRefreshTokenRequest(RefreshText(rt).json) && !IsAuthenticateRequest(RefreshText(rt).json)
    ensures IsAuthenticateRequest(AuthenticateText(c).json) <==> c.username != ""
    ensures !IsRefreshTokenRequest(AuthenticateText(c).json)
    ensures RefreshText(rt).Dumped? && AuthenticateText(c).Dumped?
  {
    assert RefreshText(rt).Dumped?;
    assert |"Authenticate"| == |"RefreshToken"| == 12 && "Authenticate"[0] != "RefreshToken"[0];
    assert |"username"| == |"password"| == 8 && "username"[0] != "password"[0] && |"token"| == 5;
  }

  /** One more exchange. */
  lemma LogStep(setup: Setup, env: Env, log: seq<Request>, q: Request)
    requires TalksTo(env, setup)
    ensures (After(setup, log + [q]), env.answer(log + [q])) == Meet(setup, After(setup, log), q, setup.fault(|log|))
  {
    hide Meet;
    var l := log + [q];
    assert Front(l) == log && Last(l) == q;
  }

  // ---- in step ----

  /** A token request whose reply is read leaves both ends with the same new tokens, whatever they held
      before; one that cannot be sent changes nothing. */
  lemma TokenExchange(setup: Setup, env: Env, c: Client, c': Client, ok: bool, text: Text, name: string)
    requires TalksTo(env, setup) && TokenStep(env, c, c', ok, text, name)
    requires var p := After(setup, c.log); p.server.running && p.unread == [] && setup.fault(|c.log|) != ReplyUnread
    requires text.Dumped? && (if name == "Authenticate" then IsAuthenticateRequest(text.json)
                              else name == "RefreshToken" && IsRefreshTokenRequest(text.json) && !IsAuthenticateRequest(text.json))
    ensures ok <==> setup.fault(|c.log|) == Fine
    ensures if ok then Settled(c', After(setup, c'.log)) else After(setup, c'.log) == After(setup, c.log)
  {
    hide ProcessTokenResponse, TokenReply, RandomString, IsAuthenticateRequest, IsRefreshTokenRequest, TalksTo, After;
    LogStep(setup, env, c.log, TokenRequest(text));
    var s := Regenerate(setup, After(setup, c.log).server);
    ReplyIsUnderstood(setup, s, name, env.clock(c.ticks));
  }

  /** What a token request with all its replies read does to the client `c` and its peer. */
  ghost predicate TokensMoved(setup: Setup, c: Client, c': Client, ok: bool) {
    && SameUser(c, c') && c.log <= c'.log && |c'.log| == |c.log| + 1
    && (ok <==> setup.fault(|c.log|) == Fine)
    && (if ok then Settled(c', After(setup, c'.log))
        else After(setup, c'.log) == After(setup, c.log) && c'.token == c.token)
  }

  lemma ReAuthenticateMoves(setup: Setup, env: Env, c: Client)
    requires TalksTo(env, setup) && c.username != ""
    requires var p := After(setup, c.log); p.server.running && p.unread == [] && setup.fault(|c.log|) != ReplyUnread
    ensures var (c', ok) := ReAuthenticate(env, c); TokensMoved(setup, c, c', ok)
  {
    hide ProcessTokenResponse, AuthenticateText, ReAuthenticate, Refresh, TalksTo, After, Settled,
      IsAuthenticateRequest, IsRefreshTokenRequest;
    var (c', ok) := ReAuthenticate(env, c);
    TokenSteps(env, c);
    TokenTexts(c, "");
    TokenExchange(setup, env, c, c', ok, AuthenticateText(c), "Authenticate");
  }

  lemma RefreshMoves(setup: Setup, env: Env, c: Client)
    requires TalksTo(env, setup) && c.token.Some?
    requires var p := After(setup, c.log); p.server.running && p.unread == [] && setup.fault(|c.log|) != ReplyUnread
    ensures var (c', ok) := Refresh(env, c); TokensMoved(setup, c, c', ok)
  {
    hide ProcessTokenResponse, RefreshText, ReAuthenticate, Refresh, TalksTo, After, Settled,
      IsAuthenticateRequest, IsRefreshTokenRequest;
    var (c', ok) := Refresh(env, c);
    var rt := c.token.value.refreshToken;
    TokenSteps(env, c);
    TokenTexts(c, rt);
    TokenExchange(setup, env, c, c', ok, RefreshText(rt), "RefreshToken");
  }

  /** The requests from the n-th on are JSON. */
  predicate AllParse(log: seq<Request>, from: nat) {
    forall n | from <= n < |log| :: log[n].json.Parse().Some?
  }

  /** What a call never takes back: the requests made, the user, and that there is a token. Nor does the
      client ask for anything that is not JSON, unless the user does. */
  predicate Extends(c: Client, d: Client, json: bool) {
    c.log <= d.log && SameUser(c, d) && d.token.Some? && (json ==> AllParse(d.log, |c.log|))
  }

  lemma ExtendsTwice(c: Client, d: Client, e: Client, json: bool)
    requires Extends(c, d, json) && Extends(d, e, json)
    ensures Extends(c, e, json)
  {
    assert forall n | 0 <= n < |d.log| :: e.log[n] == d.log[n];
  }

  lemma HalvesGrow(env: Env, c: Client)
    requires c.token.Some?
    ensures Extends(c, Authenticated(env, c).0, true) && Extends(c, Refreshed(env, c).0, true)
  {
    hide ProcessTokenResponse, AuthenticateText, RefreshText, ReAuthenticate, Refresh, RefreshExpired, SessionExpired;
    hide IsAuthenticateRequest, IsRefreshTokenRequest;
    TokenSteps(env, c.(ticks := c.ticks + 1));
    TokenTexts(c.(ticks := c.ticks + 1), c.token.value.refreshToken);
  }

  lemma PreparedGrows(env: Env, c: Client)
    requires c.token.Some?
    ensures Extends(Authenticated(env, c).0, Prepared(env, c).0, true) && Extends(c, Prepared(env, c).0, true)
  {
    hide Authenticated, Refreshed;
    HalvesGrow(env, c);
    var (d, ok) := Authenticated(env, c);
    if ok {
      HalvesGrow(env, d);
      ExtendsTwice(c, d, Prepared(env, c).0, true);
    }
  }

  lemma QueryGrows(env: Env, c: Client, json: Text, blobs: seq<string>)
    requires c.token.Some?
    ensures Extends(Prepared(env, c).0, Query(env, c, json, blobs, false).0, json.Parse().Some?)
    ensures Extends(c, Query(env, c, json, blobs, false).0, json.Parse().Some?)
  {
    hide Query, Prepared;
    QueryIs(env, c, json, blobs);
    PreparedGrows(env, c);
    ExtendsTwice(c, Prepared(env, c).0, Query(env, c, json, blobs, false).0, json.Parse().Some?);
  }

  lemma AuthenticatedSettled(setup: Setup, env: Env, c: Client)
    requires TalksTo(env, setup) && Settled(c, After(setup, c.log)) && c.username != ""
    requires RepliesRead(setup, |c.log|, |Authenticated(env, c).0.log|)
    ensures var (d, ok) := Authenticated(env, c);
            && Settled(d, After(setup, d.log))
            && (!ok ==> exists n :: |c.log| <= n < |d.log| && setup.fault(n) != Fine)
  {
    hide TalksTo, After, RefreshExpired, ReAuthenticate;
    var c1 := c.(ticks := c.ticks + 1);
    if RefreshExpired(c.token.value, env.clock(c.ticks)) {
      RequestAdded(env, c1);
      ReAuthenticateMoves(setup, env, c1);
    }
  }

  /** The preparation of a call keeps a settled client settled, and is interrupted only by a fault. */
  lemma PreparedSettled(setup: Setup, env: Env, c: Client)
    requires TalksTo(env, setup) && Settled(c, After(setup, c.log)) && c.username != ""
    requires RepliesRead(setup, |c.log|, |Prepared(env, c).0.log|)
    ensures var (d, ok) := Prepared(env, c);
            && Settled(d, After(setup, d.log))
            && (!ok ==> exists n :: |c.log| <= n < |d.log| && setup.fault(n) != Fine)
  {
    hide TalksTo, After, Refreshed, Authenticated;
    PreparedGrows(env, c);
    HalvesGrow(env, c);
    AuthenticatedSettled(setup, env, c);
    var (d, ok) := Authenticated(env, c);
    if ok {
      RefreshedSettled(setup, env, d);
    }
  }

  lemma RequestAdded(env: Env, c: Client)
    ensures |ReAuthenticate(env, c).0.log| == |c.log| + 1
    ensures c.token.Some? ==> |Refresh(env, c).0.log| == |c.log| + 1
  {
    hide ProcessTokenResponse, AuthenticateText, RefreshText, ReAuthenticate, Refresh;
    TokenSteps(env, c);
  }

  lemma RefreshedSettled(setup: Setup, env: Env, c: Client)
    requires TalksTo(env, setup) && Settled(c, After(setup, c.log))
    requires RepliesRead(setup, |c.log|, |Refreshed(env, c).0.log|)
    ensures var (d, ok) := Refreshed(env, c);
            && Settled(d, After(setup, d.log))
            && (!ok ==> exists n :: |c.log| <= n < |d.log| && setup.fault(n) != Fine)
  {
    hide TalksTo, After, SessionExpired, Refresh;
    var c1 := c.(ticks := c.ticks + 1);
    if SessionExpired(c.token.value, env.clock(c.ticks)) {
      RequestAdded(env, c1);
      RefreshMoves(setup, env, c1);
    }
  }

  lemma PlainExchange(setup: Setup, env: Env, c: Client, json: Text, blobs: seq<string>)
    requires TalksTo(env, setup) && Settled(c, After(setup, c.log)) && Plain(json) && setup.fault(|c.log|) != ReplyUnread
    ensures var (c', r) := Exchange(env, c, Request(json, blobs, c.token.value.sessionToken));
            && Settled(c', After(setup, c'.log))
            && r == if setup.fault(|c.log|) == Fine then Some(Response(json, [])) else None
  {
    hide TalksTo, After, IsAuthenticateRequest, IsRefreshTokenRequest;
    LogStep(setup, env, c.log, Request(json, blobs, c.token.value.sessionToken));
  }

  /** One user call in which no reply is left unread: the client is settled again afterwards, and the
      answer, if one comes back at all, is the echo of the query. */
  lemma QueryInStep(setup: Setup, env: Env, c: Client, json: Text, blobs: seq<string>)
    requires TalksTo(env, setup) && Settled(c, After(setup, c.log)) && c.username != "" && Plain(json)
    requires RepliesRead(setup, |c.log|, |Query(env, c, json, blobs, false).0.log|)
    ensures var (c', r) := Query(env, c, json, blobs, false);
            && Settled(c', After(setup, c'.log)) && SameUser(c, c') && c.log <= c'.log
            && (r.Some? ==> r.value == Response(json, []))
            && (r.None? ==> exists n :: |c.log| <= n < |c'.log| && setup.fault(n) != Fine)
  {
    hide Query, Prepared, TalksTo, After, Plain;
    PreparedGrows(env, c);
    QueryGrows(env, c, json, blobs);
    QueryIs(env, c, json, blobs);
    PreparedSettled(setup, env, c);
    var (d, ok) := Prepared(env, c);
    if ok {
      PlainExchange(setup, env, d, json, blobs);
    }
  }

  /** If the n-th request asks for a refresh, it presents the refresh token that the server holds. */
  ghost predicate PresentsCurrent(setup: Setup, log: seq<Request>, n: nat)
    requires n < |log|
  {
    var j := log[n].json.Parse();
    j.Some? && IsRefreshTokenRequest(j.value) ==>
      Reads(log[n].json, "RefreshToken", map["refresh_token" := After(setup, log[..n]).server.refresh])
  }

  /** The requests from the i-th to before the k-th. */
  ghost predicate AllPresentCurrent(setup: Setup, log: seq<Request>, i: nat, k: nat)
    requires k <= |log|
  {
    forall n | i <= n < k :: PresentsCurrent(setup, log, n)
  }

  lemma AuthenticatedPresents(setup: Setup, env: Env, c: Client)
    requires c.token.Some?
    ensures var d := Authenticated(env, c).0; AllPresentCurrent(setup, d.log, |c.log|, |d.log|)
  {
    hide ProcessTokenResponse, AuthenticateText, RefreshExpired, ReAuthenticate, IsAuthenticateRequest, IsRefreshTokenRequest;
    hide After, Reads;
    var c1 := c.(ticks := c.ticks + 1);
    TokenSteps(env, c1);
    TokenTexts(c1, "");
  }

  lemma RefreshedPresents(setup: Setup, env: Env, c: Client)
    requires Settled(c, After(setup, c.log))
    ensures var d := Refreshed(env, c).0; AllPresentCurrent(setup, d.log, |c.log|, |d.log|)
  {
    hide ProcessTokenResponse, SessionExpired, Refresh, IsRefreshTokenRequest, After, Reads, ReadsCredentials;
    var c1 := c.(ticks := c.ticks + 1);
    TokenRequestsRead(env, c1);
    if SessionExpired(c.token.value, env.clock(c.ticks)) {
      var d := Refresh(env, c1).0;
      assert d.log[..|c.log|] == c.log;
    }
  }

  lemma SameBefore(setup: Setup, log: seq<Request>, longer: seq<Request>, i: nat, k: nat)
    requires k <= |log| && log <= longer && AllPresentCurrent(setup, log, i, k)
    ensures AllPresentCurrent(setup, longer, i, k)
  {
    hide After, Reads, IsRefreshTokenRequest;
    forall n | i <= n < k ensures PresentsCurrent(setup, longer, n) {
      assert PresentsCurrent(setup, log, n);
      assert longer[..n] == log[..n];
    }
  }

  /** In a settled state every RefreshToken request that a call makes carries the refresh token that the
      server holds when it gets it. */
  lemma RefreshPresentsCurrent(setup: Setup, env: Env, c: Client, json: Text, blobs: seq<string>)
    requires TalksTo(env, setup) && Settled(c, After(setup, c.log)) && c.username != "" && Plain(json)
    requires RepliesRead(setup, |c.log|, |Query(env, c, json, blobs, false).0.log|)
    ensures var c' := Query(env, c, json, blobs, false).0; AllPresentCurrent(setup, c'.log, |c.log|, |c'.log|)
  {
    hide Query, Authenticated, Refreshed, TalksTo, After, IsAuthenticateRequest, IsRefreshTokenRequest, AllPresentCurrent;
    var c' := Query(env, c, json, blobs, false).0;
    PreparedGrows(env, c);
    HalvesGrow(env, c);
    QueryGrows(env, c, json, blobs);
    QueryIs(env, c, json, blobs);
    AuthenticatedPresents(setup, env, c);
    var (d, ok) := Authenticated(env, c);
    SameBefore(setup, d.log, c'.log, |c.log|, |d.log|);
    if ok {
      AuthenticatedSettled(setup, env, c);
      RefreshedPresents(setup, env, d);
      var e := Prepared(env, c).0;
      SameBefore(setup, e.log, c'.log, |d.log|, |e.log|);
      PlainPresents(setup, c'.log, |c.log|, |d.log|, |e.log|, json);
    }
  }

  lemma PlainPresents(setup: Setup, log: seq<Request>, i: nat, k: nat, m: nat, json: Text)
    requires i <= k <= m <= |log| <= m + 1 && AllPresentCurrent(setup, log, i, k) && AllPresentCurrent(setup, log, k, m)
    requires |log| > m ==> log[m].json == json && Plain(json)
    ensures AllPresentCurrent(setup, log, i, |log|)
  {
    hide After, Reads, IsAuthenticateRequest, IsRefreshTokenRequest;
  }

  // ---- whole runs ----

  predicate AllPlain(qs: seq<Call>) {
    forall q <- qs :: Plain(q.json)
  }

  /** After every call of every run the client holds the server's current tokens, whatever the clock
      does, whatever the two expiry times are (zero and negative ones included) and whichever sends
      fail, as long as no reply is left unread. */
  lemma {:induction false} TokenLockstep(setup: Setup, env: Env, c: Client, qs: seq<Call>)
    requires TalksTo(env, setup) && Settled(c, After(setup, c.log)) && c.username != "" && AllPlain(qs)
    requires RepliesRead(setup, |c.log|, |Calls(env, c, qs).log|)
    ensures var c' := Calls(env, c, qs); Settled(c', After(setup, c'.log)) && SameUser(c, c') && c.log <= c'.log
    decreases |qs|
  {
    hide Query, TalksTo, After, Plain, Settled;
    if qs != [] {
      var (json, blobs) := (qs[0].json, qs[0].blobs);
      var d := Query(env, c, json, blobs, false).0;
      assert qs[0] in qs;
      assert c.token.Some? by { SettledHasToken(c, After(setup, c.log)); }
      QueryGrows(env, c, json, blobs);
      CallsGrow(env, d, qs[1..]);
      QueryInStep(setup, env, c, json, blobs);
      TokenLockstep(setup, env, d, qs[1..]);
    }
  }

  lemma {:induction false} CallsGrow(env: Env, c: Client, qs: seq<Call>)
    requires c.token.Some? && AllPlain(qs)
    ensures Extends(c, Calls(env, c, qs), true)
    decreases |qs|
  {
    hide Query, IsAuthenticateRequest, IsRefreshTokenRequest;
    if qs != [] {
      var d := Query(env, c, qs[0].json, qs[0].blobs, false).0;
      assert Plain(qs[0].json);
      QueryGrows(env, c, qs[0].json, qs[0].blobs);
      CallsGrow(env, d, qs[1..]);
      ExtendsTwice(c, d, Calls(env, d, qs[1..]), true);
    }
  }

  /** So it is in every call of every such run. */
  lemma {:induction false} EveryRefreshIsCurrent(setup: Setup, env: Env, c: Client, qs: seq<Call>)
    requires TalksTo(env, setup) && Settled(c, After(setup, c.log)) && c.username != "" && AllPlain(qs)
    requires RepliesRead(setup, |c.log|, |Calls(env, c, qs).log|)
    ensures var c' := Calls(env, c, qs); c.log <= c'.log && AllPresentCurrent(setup, c'.log, |c.log|, |c'.log|)
    decreases |qs|
  {
    hide Query, TalksTo, After, Plain, Settled, Reads, IsRefreshTokenRequest;
    if qs != [] {
      var (json, blobs) := (qs[0].json, qs[0].blobs);
      var d, c' := Query(env, c, json, blobs, false).0, Calls(env, c, qs);
      assert qs[0] in qs;
      assert c.token.Some? by { SettledHasToken(c, After(setup, c.log)); }
      QueryGrows(env, c, json, blobs);
      CallsGrow(env, d, qs[1..]);
      QueryInStep(setup, env, c, json, blobs);
      RefreshPresentsCurrent(setup, env, c, json, blobs);
      EveryRefreshIsCurrent(setup, env, d, qs[1..]);
      SameBefore(setup, d.log, c'.log, |c.log|, |d.log|);
    }
  }

  lemma SettledHasToken(c: Client, p: Peer)
    requires Settled(c, p)
    ensures HasToken(c)
  {
  }

  /** A new client against a fresh server, the first exchange of which works, is constructed exactly
      when it has a user name: the server takes an API key alone for an ordinary query, and its echo
      holds no token. A constructed client is in step. */
  lemma ConstructionExactly(setup: Setup, env: Env, username: string, password: string, apiKey: string)
    requires TalksTo(env, setup) && setup.fault(0) == Fine
    ensures Construct(env, username, password, apiKey).1 <==> username != ""
    ensures username != "" ==>
              var c := Construct(env, username, password, apiKey).0;
              Settled(c, After(setup, c.log)) && c.username == username
  {
    hide ReAuthenticate, TokenReply, RandomString, IsAuthenticateRequest, IsRefreshTokenRequest;
    hide TalksTo, After, AuthenticateText, Answer, ProcessTokenResponse;
    var c := Client(username, password, apiKey, None, 0, []);
    var (c', ok) := ReAuthenticate(env, c);
    TokenSteps(env, c);
    TokenTexts(c, "");
    var q := TokenRequest(AuthenticateText(c));
    assert [] + [q] == [q] && c'.log == [q];
    FirstAnswer(setup, env, q);
    if username != "" {
      TokenExchange(setup, env, c, c', ok, AuthenticateText(c), "Authenticate");
    } else {
      EchoHasNoToken(c, env.clock(0));
    }
  }

  lemma FirstAnswer(setup: Setup, env: Env, q: Request)
    requires TalksTo(env, setup) && setup.fault(0) == Fine
    ensures After(setup, []) == NEW_PEER
    ensures q.token == "" && Plain(q.json) ==> env.answer([q]) == Some(Response(q.json, []))
  {
    hide IsAuthenticateRequest, IsRefreshTokenRequest;
    assert Front([q]) == [] && Last([q]) == q;
  }

  lemma EchoHasNoToken(c: Client, now: int)
    requires c.username == ""
    ensures ProcessTokenResponse(now, AuthenticateText(c), "Authenticate") == None
  {
    assert |"token"| == 5 && |"status"| == 6;
    assert TokenFields(AuthenticateText(c).json, "Authenticate") == None;
  }

  /** In a fault-free run from the start, every plain query is echoed, and none is answered with the
      rejection the server has for a wrong session token. */
  lemma EveryQueryIsEchoed(setup: Setup, env: Env, username: string, password: string, apiKey: string,
                           qs: seq<Call>, q: Call)
    requires TalksTo(env, setup) && FineFrom(setup, 0) && username != "" && AllPlain(qs) && Plain(q.json)
    ensures var c := Calls(env, Construct(env, username, password, apiKey).0, qs);
            && Query(env, c, q.json, q.blobs, false).1 == Some(Response(q.json, []))
            && (q.json != REJECTION.json ==> Query(env, c, q.json, q.blobs, false).1 != Some(REJECTION))
  {
    hide Query, Construct, TalksTo, After, Plain, Command;
    var c0 := Construct(env, username, password, apiKey).0;
    ConstructionExactly(setup, env, username, password, apiKey);
    TokenLockstep(setup, env, c0, qs);
    QueryInStep(setup, env, Calls(env, c0, qs), q.json, q.blobs);
  }

  // ---- what an unread reply does ----

  /** A reply that was once left unread is never caught up with: as long as the server runs, which it
      does on texts that parse, an exchange takes one reply for every one that it adds. */
  lemma {:induction false} NeverCaughtUp(setup: Setup, log: seq<Request>, longer: seq<Request>)
    requires log <= longer && AllParse(longer, |log|) && After(setup, log).server.running
    ensures After(setup, longer).server.running
    ensures |After(setup, log).unread| <= |After(setup, longer).unread|
    ensures |After(setup, longer).unread| == |After(setup, log).unread| <==> RepliesRead(setup, |log|, |longer|)
    decreases |longer|
  {
    hide IsAuthenticateRequest, IsRefreshTokenRequest, RandomString, TokenReply;
    if log == longer {
    } else {
      var front := Front(longer);
      assert AllParse(front, |log|) by {
        assert forall n | |log| <= n < |front| :: front[n] == longer[n];
      }
      NeverCaughtUp(setup, log, front);
      assert longer[|front|] == Last(longer);
    }
  }

  /** A call is answered by the echo of its query. */
  predicate Echoed(env: Env, c: Client, json: Text, blobs: seq<string>) {
    Query(env, c, json, blobs, false).1 == Some(Response(json, []))
  }

  ghost predicate AllEchoed(env: Env, c: Client) {
    forall json, blobs :: Plain(json) ==> Echoed(env, c, json, blobs)
  }

  /** With a reply left unread, of two different queries one is not echoed: what the call gets is an
      older reply, and the same for both. */
  lemma UnreadIsNoEcho(setup: Setup, env: Env, c: Client, a: Text, b: Text, blobs: seq<string>)
    requires TalksTo(env, setup) && FineFrom(setup, |c.log|) && c.token.Some? && a != b
    requires After(setup, c.log).server.running && After(setup, c.log).unread != []
    ensures !Echoed(env, c, a, blobs) || !Echoed(env, c, b, blobs)
  {
    hide Query, Prepared, TalksTo, After, Handle;
    QueryIs(env, c, a, blobs);
    QueryIs(env, c, b, blobs);
    PreparedGrows(env, c);
    var (d, ok) := Prepared(env, c);
    if ok {
      NeverCaughtUp(setup, c.log, d.log);
      LogStep(setup, env, d.log, Request(a, blobs, d.token.value.sessionToken));
      LogStep(setup, env, d.log, Request(b, blobs, d.token.value.sessionToken));
    }
  }

  /** The client holds the session token that `s` knows, or one of its tokens has expired, so that it
      will ask for new ones first. */
  predicate TokenWillDo(env: Env, c: Client, s: Server)
    requires c.token.Some?
  {
    || c.token.value.sessionToken == s.session
    || RefreshExpired(c.token.value, env.clock(c.ticks))
    || SessionExpired(c.token.value, env.clock(c.ticks + 1))
  }

  lemma PreparedFine(setup: Setup, env: Env, c: Client)
    requires TalksTo(env, setup) && FineFrom(setup, |c.log|) && c.token.Some? && c.username != ""
    requires After(setup, c.log).server.running && After(setup, c.log).unread == []
    ensures var (d, ok) := Prepared(env, c);
            var p := After(setup, d.log);
            && ok && p.server.running && p.unread == []
            && (d.token.value.sessionToken == p.server.session <==> TokenWillDo(env, c, After(setup, c.log).server))
  {
    hide TalksTo, After, RefreshExpired, SessionExpired, ReAuthenticate, Refresh;
    var c1 := c.(ticks := c.ticks + 1);
    var (d, ok) := Authenticated(env, c);
    if RefreshExpired(c.token.value, env.clock(c.ticks)) {
      ReAuthenticateMoves(setup, env, c1);
      assert Settled(d, After(setup, d.log));
    }
    if SessionExpired(d.token.value, env.clock(d.ticks)) {
      RefreshMoves(setup, env, d.(ticks := d.ticks + 1));
    }
  }

  lemma EchoedIfTokenWillDo(setup: Setup, env: Env, c: Client, json: Text, blobs: seq<string>)
    requires TalksTo(env, setup) && FineFrom(setup, |c.log|) && c.token.Some? && c.username != "" && Plain(json)
    requires After(setup, c.log).server.running && After(setup, c.log).unread == []
    ensures Echoed(env, c, json, blobs) <==> TokenWillDo(env, c, After(setup, c.log).server) || json == REJECTION.json
  {
    hide Query, Prepared, TalksTo, After, IsAuthenticateRequest, IsRefreshTokenRequest, TokenWillDo;
    QueryIs(env, c, json, blobs);
    PreparedGrows(env, c);
    PreparedFine(setup, env, c);
    var d := Prepared(env, c).0;
    LogStep(setup, env, d.log, Request(json, blobs, d.token.value.sessionToken));
  }

  /** When is the next query answered by its own echo, whatever plain query it is, if nothing fails from
      now on? Exactly when no reply was left unread and the session token will do. */
  lemma EchoedExactly(setup: Setup, env: Env, c: Client)
    requires TalksTo(env, setup) && FineFrom(setup, |c.log|) && c.token.Some? && c.username != ""
    requires After(setup, c.log).server.running
    ensures AllEchoed(env, c) <==> After(setup, c.log).unread == [] && TokenWillDo(env, c, After(setup, c.log).server)
  {
    hide TokenWillDo, Echoed, TalksTo, After;
    var p := After(setup, c.log);
    var zero, one := Dumped(Number(0)), Dumped(Number(1));
    assert Plain(zero) && Plain(one);
    if p.unread != [] {
      UnreadIsNoEcho(setup, env, c, zero, one, []);
    } else {
      forall json, blobs | Plain(json)
        ensures Echoed(env, c, json, blobs) <==> TokenWillDo(env, c, p.server) || json == REJECTION.json
      {
        EchoedIfTokenWillDo(setup, env, c, json, blobs);
      }
      assert Echoed(env, c, zero, []) <==> TokenWillDo(env, c, p.server);
    }
  }

  /** A run of plain calls, any of whose exchanges may have failed. Afterwards the client holds the
      server's tokens and, if nothing fails from then on, has every query answered by its own echo, if and
      only if no reply of the run was left unread. */
  lemma LockstepExactly(setup: Setup, env: Env, c: Client, qs: seq<Call>)
    requires TalksTo(env, setup) && Settled(c, After(setup, c.log)) && c.username != "" && AllPlain(qs)
    requires FineFrom(setup, |Calls(env, c, qs).log|)
    ensures var c' := Calls(env, c, qs);
            InStep(c', After(setup, c'.log).server) && AllEchoed(env, c') <==> RepliesRead(setup, |c.log|, |c'.log|)
  {
    hide TokenWillDo, AllEchoed, TalksTo, After, Calls;
    var c' := Calls(env, c, qs);
    CallsGrow(env, c, qs);
    NeverCaughtUp(setup, c.log, c'.log);
    EchoedExactly(setup, env, c');
    if RepliesRead(setup, |c.log|, |c'.log|) {
      TokenLockstep(setup, env, c, qs);
      assert TokenWillDo(env, c', After(setup, c'.log).server) by { HeldTokenWillDo(env, c', After(setup, c'.log).server); }
    }
  }

  lemma HeldTokenWillDo(env: Env, c: Client, s: Server)
    requires InStep(c, s)
    ensures TokenWillDo(env, c, s)
  {
  }

  /** The random tokens repeat: rotating them changes nothing. */
  predicate Repeats(setup: Setup, s: Server) {
    Regenerate(setup, s).session == s.session && Regenerate(setup, s).refresh == s.refresh
  }

  /** How the lockstep is lost although no answer with tokens is: the echo of `q1` is left unread, and
      the next call, in which a refresh is due, takes it for the answer to its RefreshToken request. The
      server has rotated, the client throws and keeps its tokens. */
  lemma UnreadEchoBreaksStep(setup: Setup, env: Env, c: Client, q1: Call, q2: Call)
    requires TalksTo(env, setup) && Settled(c, After(setup, c.log)) && Plain(q1.json)
    requires setup.fault(|c.log|) == ReplyUnread && setup.fault(|c.log| + 1) == Fine
    requires var t := c.token.value;
             && !RefreshExpired(t, env.clock(c.ticks)) && !SessionExpired(t, env.clock(c.ticks + 1))
             && !RefreshExpired(t, env.clock(c.ticks + 2)) && SessionExpired(t, env.clock(c.ticks + 3))
    requires ProcessTokenResponse(env.clock(c.ticks + 4), q1.json, "RefreshToken").None?
    ensures var c' := Calls(env, c, [q1, q2]);
            var s := After(setup, c.log).server;
            && Query(env, Query(env, c, q1.json, q1.blobs, false).0, q2.json, q2.blobs, false).1.None?
            && c'.token == c.token && After(setup, c'.log).server == Regenerate(setup, s)
            && (InStep(c', After(setup, c'.log).server) <==> Repeats(setup, s))
  {
    hide Query, TalksTo, After, IsAuthenticateRequest, IsRefreshTokenRequest, RandomString, TokenReply;
    hide ProcessTokenResponse, RefreshText, RefreshExpired, SessionExpired, ReAuthenticate, Refresh, Plain;
    var d := Query(env, c, q1.json, q1.blobs, false).0;
    EchoLeftUnread(setup, env, c, q1);
    EchoTakenForTokens(setup, env, d, q1, q2);
    assert [q1, q2][1..] == [q2] && [q2][1..] == [];
    assert Calls(env, c, [q1, q2]) == Calls(env, d, [q2]) == Query(env, d, q2.json, q2.blobs, false).0;
  }

  lemma EchoLeftUnread(setup: Setup, env: Env, c: Client, q: Call)
    requires TalksTo(env, setup) && Settled(c, After(setup, c.log)) && Plain(q.json) && setup.fault(|c.log|) == ReplyUnread
    requires !RefreshExpired(c.token.value, env.clock(c.ticks)) && !SessionExpired(c.token.value, env.clock(c.ticks + 1))
    ensures var (d, r) := Query(env, c, q.json, q.blobs, false);
            && r.None? && |d.log| == |c.log| + 1 && d == c.(ticks := c.ticks + 2, log := d.log)
            && After(setup, d.log) == Peer(After(setup, c.log).server, [Response(q.json, [])])
  {
    hide Query, TalksTo, After, IsAuthenticateRequest, IsRefreshTokenRequest;
    hide RefreshExpired, SessionExpired, ReAuthenticate, Refresh;
    QueryIs(env, c, q.json, q.blobs);
    LogStep(setup, env, c.log, Request(q.json, q.blobs, c.token.value.sessionToken));
  }

  lemma EchoTakenForTokens(setup: Setup, env: Env, c: Client, q1: Call, q2: Call)
    requires TalksTo(env, setup) && c.token.Some? && setup.fault(|c.log|) == Fine
    requires After(setup, c.log).server.running && After(setup, c.log).unread == [Response(q1.json, [])]
    requires !RefreshExpired(c.token.value, env.clock(c.ticks)) && SessionExpired(c.token.value, env.clock(c.ticks + 1))
    requires ProcessTokenResponse(env.clock(c.ticks + 2), q1.json, "RefreshToken").None?
    ensures var (d, r) := Query(env, c, q2.json, q2.blobs, false);
            && r.None? && d.token == c.token
            && After(setup, d.log).server == Regenerate(setup, After(setup, c.log).server)
  {
    hide Query, TalksTo, After, IsAuthenticateRequest, IsRefreshTokenRequest, RandomString, TokenReply;
    hide ProcessTokenResponse, RefreshText, RefreshExpired, SessionExpired, ReAuthenticate, Refresh;
    var c1 := c.(ticks := c.ticks + 2);
    var rt := c.token.value.refreshToken;
    QueryIs(env, c, q2.json, q2.blobs);
    assert Prepared(env, c) == Refresh(env, c1);
    TokenSteps(env, c1);
    TokenTexts(c1, rt);
    LogStep(setup, env, c.log, TokenRequest(RefreshText(rt)));
  }

  /** Which queries of a user keep the lockstep, in a fault-free setup: exactly those that are JSON and
      either no token request or one on which the server happens to draw the tokens it had. A query that
      is itself a token request makes the server rotate its tokens behind the client's back, whatever
      tokens the call got for itself before; one that is not JSON ends the server. */
  lemma UserQueryKeepsStepExactly(setup: Setup, env: Env, c: Client, text: Text, blobs: seq<string>)
    requires TalksTo(env, setup) && FineFrom(setup, |c.log|) && Settled(c, After(setup, c.log)) && c.username != ""
    ensures var c' := Query(env, c, text, blobs, false).0;
            && c.log < c'.log && Last(c'.log).json == text && c'.token == Prepared(env, c).0.token
            && (InStep(c', After(setup, c'.log).server) <==>
                  text.Parse().Some? && (GetsTokens(text) ==> Repeats(setup, After(setup, Front(c'.log)).server)))
  {
    hide Query, Prepared, TalksTo, After, IsAuthenticateRequest, IsRefreshTokenRequest, RandomString, TokenReply;
    QueryIs(env, c, text, blobs);
    PreparedGrows(env, c);
    PreparedSettled(setup, env, c);
    var d := Prepared(env, c).0;
    var q := Request(text, blobs, d.token.value.sessionToken);
    LogStep(setup, env, d.log, q);
    assert Front(d.log + [q]) == d.log;
  }
}
