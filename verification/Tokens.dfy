/** The tokens of an authenticated client: when it asks for new ones, what it accepts, and how its
    tokens stay equal to those of the server. The client is described first, against a peer that may
    answer anything; then the test server; then the two together. */
module Tokens {
  import opened Basics
  import opened Json

  // ---- messages ----

  /** A string that is JSON text, or is meant to be: one the program dumped, or one a user wrote,
      which need not parse. */
  datatype Text = Dumped(json: Json) | Written(raw: string, parsed: Option<Json>) {
    /** `nlohmann::json::parse`; `None` is a thrown parse error. */
    function Parse(): Option<Json> {
      if Dumped? then Some(json) else parsed
    }
  }

  datatype Request = Request(json: Text, blobs: seq<string>, token: string)

  datatype Response = Response(json: Text, blobs: seq<string>)

  function Command(name: string, fields: map<string, Json>): Text {
    Dumped(Array([Object(map[name := Object(fields)])]))
  }

  // ---- the client ----

  datatype AuthToken = AuthToken(
    issuedAt: int, refreshToken: string, refreshExpiresIn: int, sessionToken: string, sessionExpiresIn: int)

  /** What a client cannot choose: the n-th clock reading, which may jump either way, and what comes
      of its latest request, after all the earlier ones; `None` is an exception out of the connection. */
  datatype Env = Env(clock: nat -> int, answer: seq<Request> -> Option<Response>)

  datatype Client = Client(
    username: string, password: string, apiKey: string,
    token: Option<AuthToken>,   // _auth_token
    ticks: nat,                 // clock readings so far
    log: seq<Request>)          // requests so far

  /** `get<int32_t>()`; `None` is a thrown type error. */
  function GetInt32(j: Json): Option<int> {
    match j
    case Number(i) => Some(ToInt32(i))
    case Boolean(b) => Some(if b then 1 else 0)
    case _ => None
  }

  /** The element of a token response that `process_token_response` reads, if the response has it
      and its status is 0. */
  function TokenFields(j: Json, name: string): Option<map<string, Json>> {
    if j.Array? && |j.a| == 1 && j.a[0].Has(name) && j.a[0].o[name].Has("status")
       && j.a[0].o[name].o["status"] == Number(0)
    then Some(j.a[0].o[name].o) else None
  }

  function StringField(f: map<string, Json>, key: string): Option<string> {
    if key !in f then Some("") else if f[key].String? then Some(f[key].s) else None
  }

  function IntField(f: map<string, Json>, key: string): Option<int> {
    if key !in f then Some(-1) else GetInt32(f[key])
  }

  /** `None` is an exception: the text does not parse, a field has the wrong type, or there is no
      session token. */
  function ProcessTokenResponse(now: int, text: Text, name: string): (r: Option<AuthToken>)
    ensures r.Some? ==> r.value.sessionToken != "" && r.value.issuedAt == now
  {
    var j := text.Parse();
    if j.None? then None
    else
      var f := TokenFields(j.value, name);
      if f.None? then None
      else
        var rt, re := StringField(f.value, "refresh_token"), IntField(f.value, "refresh_token_expires_in");
        var st, se := StringField(f.value, "session_token"), IntField(f.value, "session_token_expires_in");
        if rt.None? || re.None? || st.None? || se.None? || st.value == "" then None
        else Some(AuthToken(now, rt.value, re.value, st.value, se.value))
  }

  /** What a response has to look like, and what is taken from it: a status of 0 and a session token are
      needed, an absent refresh token is empty, an absent lifetime is -1. */
  lemma ResponseIsRead(now: int, name: string, f: map<string, Json>)
    ensures var r := ProcessTokenResponse(now, Dumped(Array([Object(map[name := Object(f)])])), name);
            if && "status" in f && f["status"] == Number(0)
               && "session_token" in f && f["session_token"].String? && f["session_token"].s != ""
               && ("refresh_token" in f ==> f["refresh_token"].String?)
               && ("session_token_expires_in" in f ==> f["session_token_expires_in"].Number? || f["session_token_expires_in"].Boolean?)
               && ("refresh_token_expires_in" in f ==> f["refresh_token_expires_in"].Number? || f["refresh_token_expires_in"].Boolean?)
            then
              && r.Some? && r.value.issuedAt == now && r.value.sessionToken == f["session_token"].s
              && r.value.refreshToken == (if "refresh_token" in f then f["refresh_token"].s else "")
              && ("session_token_expires_in" !in f ==> r.value.sessionExpiresIn == -1)
              && ("refresh_token_expires_in" !in f ==> r.value.refreshExpiresIn == -1)
              && (forall i: int32 | "session_token_expires_in" in f && f["session_token_expires_in"] == Number(i) ::
                    r.value.sessionExpiresIn == i)
              && (forall i: int32 | "refresh_token_expires_in" in f && f["refresh_token_expires_in"] == Number(i) ::
                    r.value.refreshExpiresIn == i)
            else r == None
  {
    var j := Array([Object(map[name := Object(f)])]);
    assert j.a[0].o[name] == Object(f);
  }

  predicate RefreshExpired(t: AuthToken, now: int) { t.issuedAt + t.refreshExpiresIn * SECOND <= now }

  predicate SessionExpired(t: AuthToken, now: int) { t.issuedAt + t.sessionExpiresIn * SECOND <= now }

  function AuthenticateText(c: Client): Text {
    Command("Authenticate",
            if c.username != "" then map["username" := String(c.username), "password" := String(c.password)]
            else map["token" := String(c.apiKey)])
  }

  function RefreshText(refreshToken: string): Text {
    Command("RefreshToken", map["refresh_token" := String(refreshToken)])
  }

  /** What whoever parses the text reads: one command, called `name`, with exactly these strings in it. */
  predicate Reads(text: Text, name: string, fields: map<string, string>) {
    var j := text.Parse();
    && j.Some? && j.value.Array? && |j.value.a| == 1 && j.value.a[0].Object? && j.value.a[0].o.Keys == {name}
    && var f := j.value.a[0].o[name];
    && f.Object? && f.o.Keys == fields.Keys
    && forall k <- fields :: f.o[k] == String(fields[k])
  }

  /** The credentials of the client, as the user name, or without one the API key, is read. */
  predicate ReadsCredentials(text: Text, c: Client) {
    if c.username != "" then Reads(text, "Authenticate", map["username" := c.username, "password" := c.password])
    else Reads(text, "Authenticate", map["token" := c.apiKey])
  }

  /** The peer reads the credentials where they belong, and the refresh token that is presented. */
  lemma TokenTextsRead(c: Client, rt: string)
    ensures ReadsCredentials(AuthenticateText(c), c)
    ensures Reads(RefreshText(rt), "RefreshToken", map["refresh_token" := rt])
  {
    assert "username" != "password" by { assert "username"[0] != "password"[0]; }
  }

  /** `TokenBasedVDMSClient::query` */
  function Exchange(env: Env, c: Client, q: Request): (Client, Option<Response>) {
    (c.(log := c.log + [q]), env.answer(c.log + [q]))
  }

  /** Stores the token of a response that arrived; the clock is read before it is parsed. */
  function Store(env: Env, c: Client, text: Text, name: string): (r: (Client, bool))
    ensures r.1 ==> r.0.token.Some?
  {
    var t := ProcessTokenResponse(env.clock(c.ticks), text, name);
    var c' := c.(ticks := c.ticks + 1);
    if t.Some? then (c'.(token := t), true) else (c', false)
  }

  /** `re_authenticate`; the flag says that it returned. */
  function ReAuthenticate(env: Env, c: Client): (r: (Client, bool))
    ensures r.1 ==> r.0.token.Some?
    decreases 0
  {
    var (c', r) := Query(env, c, AuthenticateText(c), [], true);
    if r.None? then (c', false) else Store(env, c', r.value.json, "Authenticate")
  }

  /** `refresh_token` */
  function Refresh(env: Env, c: Client): (r: (Client, bool))
    requires c.token.Some?
    ensures r.1 ==> r.0.token.Some?
    decreases 0
  {
    var (c', r) := Query(env, c, RefreshText(c.token.value.refreshToken), [], true);
    if r.None? then (c', false) else Store(env, c', r.value.json, "RefreshToken")
  }

  /** `query`; an ignored authentication is what ends the recursion through the two calls above. */
  function Query(env: Env, c: Client, json: Text, blobs: seq<string>, ignore: bool): (Client, Option<Response>)
    decreases if ignore then 0 else 1, 0
  {
    if c.token.Some? && !ignore then
      var c1 := c.(ticks := c.ticks + 1);
      var (c2, ok) :=
        if RefreshExpired(c.token.value, env.clock(c.ticks)) then ReAuthenticate(env, c1) else (c1, true);
      if !ok then (c2, None)
      else
        var c3 := c2.(ticks := c2.ticks + 1);
        var (c4, ok') := if SessionExpired(c2.token.value, env.clock(c2.ticks)) then Refresh(env, c3) else (c3, true);
        if !ok' then (c4, None)
        else Exchange(env, c4, Request(json, blobs, c4.token.value.sessionToken))
    else Exchange(env, c, Request(json, blobs, ""))
  }

  /** The first half of a call: new tokens where `needs_re_authentication` says so; the flag says that
      nothing was thrown. */
  function Authenticated(env: Env, c: Client): (r: (Client, bool))
    requires c.token.Some?
    ensures r.1 ==> r.0.token.Some?
  {
    var c1 := c.(ticks := c.ticks + 1);
    if RefreshExpired(c.token.value, env.clock(c.ticks)) then ReAuthenticate(env, c1) else (c1, true)
  }

  /** The second half: a new session token where `needs_token_refresh` says so. */
  function Refreshed(env: Env, c: Client): (r: (Client, bool))
    requires c.token.Some?
    ensures r.1 ==> r.0.token.Some?
  {
    var c1 := c.(ticks := c.ticks + 1);
    if SessionExpired(c.token.value, env.clock(c.ticks)) then Refresh(env, c1) else (c1, true)
  }

  /** Both, which is all that a call does before it sends the query. */
  function Prepared(env: Env, c: Client): (r: (Client, bool))
    requires c.token.Some?
    ensures r.1 ==> r.0.token.Some?
  {
    var (d, ok) := Authenticated(env, c);
    if ok then Refreshed(env, d) else (d, false)
  }

  lemma QueryIs(env: Env, c: Client, json: Text, blobs: seq<string>)
    requires c.token.Some?
    ensures var (d, ok) := Prepared(env, c);
            Query(env, c, json, blobs, false)
            == if ok then Exchange(env, d, Request(json, blobs, d.token.value.sessionToken)) else (d, None)
  {
    hide ReAuthenticate, Refresh, Exchange, RefreshExpired, SessionExpired;
  }

  /** The state every constructed client is in, whatever happens to it: it holds a session token. */
  predicate HasToken(c: Client) {
    c.token.Some? && c.token.value.sessionToken != ""
  }

  predicate SameUser(c: Client, d: Client) {
    c.username == d.username && c.password == d.password && c.apiKey == d.apiKey
  }

  /** The request that asks for new tokens. */
  function TokenRequest(text: Text): Request { Request(text, [], "") }

  /** The token that the answer to the last request of `log` carries. */
  function Issued(env: Env, log: seq<Request>, tick: nat, name: string): Option<AuthToken> {
    var r := env.answer(log);
    if r.None? then None else ProcessTokenResponse(env.clock(tick), r.value.json, name)
  }

  /** One token request: it is sent without a token; when no usable token comes back the stored one
      stays as it was. */
  predicate TokenStep(env: Env, c: Client, c': Client, ok: bool, text: Text, name: string) {
    var t := Issued(env, c'.log, c.ticks, name);
    && SameUser(c, c') && c'.log == c.log + [TokenRequest(text)]
    && (ok <==> t.Some?)
    && c'.token == (if ok then t else c.token)
    && (ok ==> c'.ticks == c.ticks + 1)
  }

  lemma TokenSteps(env: Env, c: Client)
    ensures var (c', ok) := ReAuthenticate(env, c); TokenStep(env, c, c', ok, AuthenticateText(c), "Authenticate")
    ensures c.token.Some? ==>
              var (c', ok) := Refresh(env, c);
              TokenStep(env, c, c', ok, RefreshText(c.token.value.refreshToken), "RefreshToken")
  {
    hide ProcessTokenResponse;
  }

  /** What the token requests in the log say, by what is read from their texts. */
  lemma TokenRequestsRead(env: Env, c: Client)
    ensures var c' := ReAuthenticate(env, c).0;
            && |c'.log| == |c.log| + 1 && c.log <= c'.log
            && var q := c'.log[|c.log|]; q.token == "" && q.blobs == [] && ReadsCredentials(q.json, c)
    ensures c.token.Some? ==>
              var c' := Refresh(env, c).0;
              && |c'.log| == |c.log| + 1 && c.log <= c'.log
              && var q := c'.log[|c.log|];
              q.token == "" && q.blobs == []
              && Reads(q.json, "RefreshToken", map["refresh_token" := c.token.value.refreshToken])
  {
    hide ProcessTokenResponse, Command, AuthenticateText, RefreshText, ReAuthenticate, Refresh, Reads, ReadsCredentials;
    TokenSteps(env, c);
    TokenTextsRead(c, if c.token.Some? then c.token.value.refreshToken else "");
  }

  /** The requests of one user call that goes through: new tokens where `auth` and `refresh` say so,
      `refreshToken` being the one presented, then the query under `sessionToken`. */
  function CallRequests(c: Client, json: Text, blobs: seq<string>, auth: bool, refresh: bool,
                        refreshToken: string, sessionToken: string): seq<Request>
  {
    (if auth then [TokenRequest(AuthenticateText(c))] else [])
    + (if refresh then [TokenRequest(RefreshText(refreshToken))] else [])
    + [Request(json, blobs, sessionToken)]
  }

  /** The tokens a call works with, from what the clock says and what the peer answers: `t1` is the
      one the refresh decision is made on, `t2` the one the query is sent under. */
  predicate CallTokens(env: Env, c: Client, auth: bool, refresh: bool, t1: AuthToken, t2: AuthToken)
    requires c.token.Some?
  {
    var log1 := c.log + (if auth then [TokenRequest(AuthenticateText(c))] else []);
    var log2 := log1 + [TokenRequest(RefreshText(t1.refreshToken))];
    var tick := c.ticks + (if auth then 2 else 1);
    && (auth <==> env.clock(c.ticks) - c.token.value.issuedAt >= c.token.value.refreshExpiresIn * 1_000_000_000)
    && Some(t1) == (if auth then Issued(env, log1, c.ticks + 1, "Authenticate") else c.token)
    && (refresh <==> env.clock(tick) - t1.issuedAt >= t1.sessionExpiresIn * 1_000_000_000)
    && Some(t2) == (if refresh then Issued(env, log2, tick + 1, "RefreshToken") else Some(t1))
  }

  /** A call that returns has sent exactly [Q], [Auth, Q], [Refresh, Q] or [Auth, Refresh, Q], and which
      one is decided by the clock: Auth is there exactly when the refresh token had expired, Refresh
      exactly when the session token then held had. So Q goes out under a session token that was judged
      unexpired in this call or obtained in it, and RefreshToken is sent with a refresh token that was. */
  lemma QueryShape(env: Env, c: Client, json: Text, blobs: seq<string>)
    returns (auth: bool, refresh: bool, t1: AuthToken, t2: AuthToken)
    requires HasToken(c) && Query(env, c, json, blobs, false).1.Some?
    ensures var c' := Query(env, c, json, blobs, false).0;
            && CallTokens(env, c, auth, refresh, t1, t2)
            && c'.token == Some(t2) && t2.sessionToken != ""
            && c'.log == c.log + CallRequests(c, json, blobs, auth, refresh, t1.refreshToken, t2.sessionToken)
  {
    hide ProcessTokenResponse, Command, RefreshText, Exchange, RefreshExpired, SessionExpired, ReAuthenticate, Refresh;
    var c1 := c.(ticks := c.ticks + 1);
    auth := RefreshExpired(c.token.value, env.clock(c.ticks));
    TokenSteps(env, c1);
    var c2 := if auth then ReAuthenticate(env, c1).0 else c1;
    t1 := c2.token.value;
    var c3 := c2.(ticks := c2.ticks + 1);
    refresh := SessionExpired(t1, env.clock(c2.ticks));
    TokenSteps(env, c3);
    var c4 := if refresh then Refresh(env, c3).0 else c3;
    t2 := c4.token.value;
    ExchangeLogs(env, c4, Request(json, blobs, t2.sessionToken));
    assert AuthenticateText(c1) == AuthenticateText(c);
    ExpiryInNanoseconds(c.token.value, env.clock(c.ticks));
    ExpiryInNanoseconds(t1, env.clock(c2.ticks));
    assert c3.log == c.log + (if auth then [TokenRequest(AuthenticateText(c))] else []);
    assert c4.log == c3.log + (if refresh then [TokenRequest(RefreshText(t1.refreshToken))] else []);
    assert c4.log + [Request(json, blobs, t2.sessionToken)]
        == c.log + CallRequests(c, json, blobs, auth, refresh, t1.refreshToken, t2.sessionToken);
  }

  /** A token has run out when its lifetime, in seconds, has passed since it was issued. */
  lemma ExpiryInNanoseconds(t: AuthToken, now: int)
    ensures RefreshExpired(t, now) <==> now - t.issuedAt >= t.refreshExpiresIn * 1_000_000_000
    ensures SessionExpired(t, now) <==> now - t.issuedAt >= t.sessionExpiresIn * 1_000_000_000
  {
  }

  /** While both lifetimes of a token run, a call sends its query and nothing else; once the refresh token
      has run out, it sends the credentials first. */
  lemma LifetimeOfTokens(env: Env, c: Client, json: Text, blobs: seq<string>)
    requires c.token.Some?
    ensures var t, c' := c.token.value, Query(env, c, json, blobs, false).0;
            var shorter := if t.refreshExpiresIn <= t.sessionExpiresIn then t.refreshExpiresIn else t.sessionExpiresIn;
            env.clock(c.ticks) < t.issuedAt + shorter * 1_000_000_000
            && env.clock(c.ticks + 1) < t.issuedAt + shorter * 1_000_000_000 ==>
              c'.log == c.log + [Request(json, blobs, t.sessionToken)] && c'.token == c.token
    ensures var t, c' := c.token.value, Query(env, c, json, blobs, false).0;
            env.clock(c.ticks) >= t.issuedAt + t.refreshExpiresIn * 1_000_000_000 ==>
              && |c'.log| > |c.log| && c.log <= c'.log
              && var q := c'.log[|c.log|]; q.token == "" && q.blobs == [] && ReadsCredentials(q.json, c)
  {
    hide ProcessTokenResponse, Reads, ReAuthenticate, Refresh, RefreshExpired, SessionExpired, AuthenticateText;
    var t := c.token.value;
    var c1 := c.(ticks := c.ticks + 1);
    QueryIs(env, c, json, blobs);
    ExpiryInNanoseconds(t, env.clock(c.ticks));
    ExpiryInNanoseconds(t, env.clock(c.ticks + 1));
    TokenRequestsRead(env, c1);
    var d := Authenticated(env, c).0;
    if RefreshExpired(t, env.clock(c.ticks)) && d.token.Some? {
      TokenRequestsRead(env, d.(ticks := d.ticks + 1));
    }
  }

  lemma ExchangeLogs(env: Env, c: Client, q: Request)
    ensures Exchange(env, c, q) == (c.(log := c.log + [q]), env.answer(c.log + [q]))
  {
  }

  /** A text the client makes up itself, to get tokens. */
  ghost predicate Internal(c: Client, text: Text) {
    text == AuthenticateText(c) || exists rt :: text == RefreshText(rt)
  }

  ghost predicate ClientOk(c: Client) {
    HasToken(c) && forall q <- c.log :: q.token == "" ==> Internal(c, q.json)
  }

  lemma AppendKeepsOk(c: Client, d: Client, q: Request)
    requires forall x <- c.log :: x.token == "" ==> Internal(c, x.json)
    requires SameUser(c, d) && d.log == c.log + [q] && HasToken(d)
    requires q.token == "" ==> Internal(d, q.json)
    ensures ClientOk(d)
  {
    forall x | x in d.log && x.token == "" ensures Internal(d, x.json) {
      assert x in c.log ==> Internal(c, x.json);
    }
  }

  /** Whatever fails in a call, the client keeps a session token, and what it sent without one was
      an authentication call of its own. */
  lemma QueryKeepsOk(env: Env, c: Client, json: Text, blobs: seq<string>)
    requires ClientOk(c)
    ensures var c' := Query(env, c, json, blobs, false).0; ClientOk(c') && SameUser(c, c') && c.log <= c'.log
  {
    hide ProcessTokenResponse, Command, Exchange, RefreshExpired, SessionExpired, ReAuthenticate, Refresh, ClientOk;
    var c1 := c.(ticks := c.ticks + 1);
    assert ClientOk(c1) && HasToken(c) by { SameLogOk(c, c1); }
    var (c2, ok) := if RefreshExpired(c.token.value, env.clock(c.ticks)) then ReAuthenticate(env, c1) else (c1, true);
    AuthKeepsOk(env, c1);
    if ok {
      var c3 := c2.(ticks := c2.ticks + 1);
      SameLogOk(c2, c3);
      var (c4, ok') := if SessionExpired(c2.token.value, env.clock(c2.ticks)) then Refresh(env, c3) else (c3, true);
      RefreshKeepsOk(env, c3);
      if ok' {
        var q := Request(json, blobs, c4.token.value.sessionToken);
        ExchangeLogs(env, c4, q);
        assert ClientOk(Exchange(env, c4, q).0) by { LogKeepsOk(c4, q); }
      }
    }
  }

  lemma SameLogOk(c: Client, d: Client)
    requires ClientOk(c) && d == c.(ticks := d.ticks)
    ensures ClientOk(d) && HasToken(d) && HasToken(c)
  {
    forall x | x in d.log && x.token == "" ensures Internal(d, x.json) {
      assert Internal(c, x.json);
    }
  }

  lemma LogKeepsOk(c: Client, q: Request)
    requires ClientOk(c) && q.token != ""
    ensures ClientOk(c.(log := c.log + [q]))
  {
    AppendKeepsOk(c, c.(log := c.log + [q]), q);
  }

  lemma AuthKeepsOk(env: Env, c: Client)
    requires ClientOk(c)
    ensures var c' := ReAuthenticate(env, c).0; ClientOk(c') && HasToken(c') && SameUser(c, c') && c.log <= c'.log
  {
    hide ProcessTokenResponse, Command, ReAuthenticate, Refresh;
    TokenSteps(env, c);
    AppendKeepsOk(c, ReAuthenticate(env, c).0, TokenRequest(AuthenticateText(c)));
  }

  lemma RefreshKeepsOk(env: Env, c: Client)
    requires ClientOk(c) && HasToken(c)
    ensures var c' := Refresh(env, c).0; ClientOk(c') && HasToken(c') && SameUser(c, c') && c.log <= c'.log
  {
    hide ProcessTokenResponse, Command, ReAuthenticate, Refresh;
    TokenSteps(env, c);
    AppendKeepsOk(c, Refresh(env, c).0, TokenRequest(RefreshText(c.token.value.refreshToken)));
  }

  // ---- runs of a client ----

  datatype Call = Call(json: Text, blobs: seq<string>)

  /** The constructor; the flag says that it returned. */
  function Construct(env: Env, username: string, password: string, apiKey: string): (Client, bool) {
    ReAuthenticate(env, Client(username, password, apiKey, None, 0, []))
  }

  /** The client after the calls `qs`, some of which may have thrown. */
  function Calls(env: Env, c: Client, qs: seq<Call>): Client
    decreases |qs|
  {
    if qs == [] then c else Calls(env, Query(env, c, qs[0].json, qs[0].blobs, false).0, qs[1..])
  }

  lemma ConstructOk(env: Env, username: string, password: string, apiKey: string)
    requires Construct(env, username, password, apiKey).1
    ensures ClientOk(Construct(env, username, password, apiKey).0)
  {
    hide ProcessTokenResponse, Command, ReAuthenticate, Refresh;
    var c := Client(username, password, apiKey, None, 0, []);
    TokenSteps(env, c);
    AppendKeepsOk(c, ReAuthenticate(env, c).0, TokenRequest(AuthenticateText(c)));
  }

  /** In every state that any run of a constructed client reaches, whatever the peer answers and
      whatever fails, there is a non-empty session token, and only the client's own authentication
      calls were ever sent without one. */
  lemma {:induction false} TokenSurvives(env: Env, c: Client, qs: seq<Call>)
    requires ClientOk(c)
    ensures ClientOk(Calls(env, c, qs)) && SameUser(c, Calls(env, c, qs)) && c.log <= Calls(env, c, qs).log
    decreases |qs|
  {
    hide ClientOk, Query;
    if qs != [] {
      QueryKeepsOk(env, c, qs[0].json, qs[0].blobs);
      TokenSurvives(env, Query(env, c, qs[0].json, qs[0].blobs, false).0, qs[1..]);
    }
  }
}
