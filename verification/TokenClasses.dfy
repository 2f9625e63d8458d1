/** The client class and the test server class, each proved against the functions that the token
    results are stated about. */
module TokenClasses {
  import opened Basics
  import opened Json
  import opened Tokens
  import L = Lockstep

  class VDMSClientImpl {
    const username: string
    const password: string
    const apiKey: string
    var authToken: Option<AuthToken>
    const env: Env
    var ticks: nat           // clock readings so far
    var log: seq<Request>    // requests handed to the connection so far

    function State(): Client
      reads this
    {
      Client(username, password, apiKey, authToken, ticks, log)
    }

    constructor (username: string, password: string, apiKey: string, env: Env)
      ensures State() == Client(username, password, apiKey, None, 0, []) && this.env == env
    {
      this.username, this.password, this.apiKey, this.env := username, password, apiKey, env;
      authToken, ticks, log := None, 0, [];
    }

    /** The source's constructors: when the first authentication throws there is no client. */
    static method Create(username: string, password: string, apiKey: string, env: Env)
      returns (c: VDMSClientImpl, ok: bool)
      ensures fresh(c) && c.env == env && (c.State(), ok) == Construct(env, username, password, apiKey)
    {
      c := new VDMSClientImpl(username, password, apiKey, env);
      ok := c.ReAuthenticate();
    }

    method Now() returns (t: int)
      modifies this`ticks
      ensures t == env.clock(old(ticks)) && ticks == old(ticks) + 1
    {
      t := env.clock(ticks);
      ticks := ticks + 1;
    }

    method NeedsReAuthentication() returns (b: bool)
      requires authToken.Some?
      modifies this`ticks
      ensures b <==> RefreshExpired(authToken.value, env.clock(old(ticks)))
      ensures b <==> env.clock(old(ticks)) - authToken.value.issuedAt
                     >= authToken.value.refreshExpiresIn * 1_000_000_000
      ensures ticks == old(ticks) + 1
    {
      var expirationPoint := authToken.value.issuedAt + authToken.value.refreshExpiresIn * SECOND;
      var now := Now();
      b := expirationPoint <= now;
    }

    method NeedsTokenRefresh() returns (b: bool)
      requires authToken.Some?
      modifies this`ticks
      ensures b <==> SessionExpired(authToken.value, env.clock(old(ticks)))
      ensures b <==> env.clock(old(ticks)) - authToken.value.issuedAt
                     >= authToken.value.sessionExpiresIn * 1_000_000_000
      ensures ticks == old(ticks) + 1
    {
      var expirationPoint := authToken.value.issuedAt + authToken.value.sessionExpiresIn * SECOND;
      var now := Now();
      b := expirationPoint <= now;
    }

    /** `TokenBasedVDMSClient::query` */
    method Send(json: Text, blobs: seq<string>, token: string) returns (r: Option<Response>)
      modifies this`log
      ensures (State(), r) == Exchange(env, old(State()), Request(json, blobs, token))
    {
      log := log + [Request(json, blobs, token)];
      r := env.answer(log);
    }

    /** Fills in a token field by field; `None` is an exception. */
    method ProcessResponse(text: Text, name: string) returns (r: Option<AuthToken>)
      modifies this`ticks
      ensures ticks == old(ticks) + 1
      ensures r == ProcessTokenResponse(env.clock(old(ticks)), text, name)
    {
      var issuedAt := Now();
      var refreshToken, refreshExpiresIn, sessionToken, sessionExpiresIn := "", -1, "", -1;
      var parsed := text.Parse();
      if parsed.None? {
        return None;
      }
      var j := parsed.value;
      if j.Array? && |j.a| == 1 {
        var element := j.a[0];
        if element.Has(name) {
          var e := element.o[name];
          if e.Has("status") && e.o["status"] == Number(0) {
            if e.Has("refresh_token") {
              if !e.o["refresh_token"].String? {
                return None;
              }
              refreshToken := e.o["refresh_token"].s;
            }
            if e.Has("refresh_token_expires_in") {
              var n := GetInt32(e.o["refresh_token_expires_in"]);
              if n.None? {
                return None;
              }
              refreshExpiresIn := n.value;
            }
            if e.Has("session_token") {
              if !e.o["session_token"].String? {
                return None;
              }
              sessionToken := e.o["session_token"].s;
            }
            if e.Has("session_token_expires_in") {
              var n := GetInt32(e.o["session_token_expires_in"]);
              if n.None? {
                return None;
              }
              sessionExpiresIn := n.value;
            }
          }
        }
      }
      if sessionToken == "" {
        return None;
      }
      r := Some(AuthToken(issuedAt, refreshToken, refreshExpiresIn, sessionToken, sessionExpiresIn));
    }

    method Query(json: Text, blobs: seq<string>, ignoreAuthentication: bool) returns (r: Option<Response>)
      modifies this
      ensures (State(), r) == Tokens.Query(env, old(State()), json, blobs, ignoreAuthentication)
      decreases if ignoreAuthentication then 0 else 1, 0
    {
      hide ProcessTokenResponse, Command, RefreshExpired, SessionExpired, Tokens.ReAuthenticate, Tokens.Refresh;
      if authToken.Some? && !ignoreAuthentication {
        var expired := NeedsReAuthentication();
        if expired {
          var ok := ReAuthenticate();
          if !ok {
            return None;
          }
        }
        var stale := NeedsTokenRefresh();
        if stale {
          var ok := RefreshToken();
          if !ok {
            return None;
          }
        }
        r := Send(json, blobs, authToken.value.sessionToken);
        return;
      }
      r := Send(json, blobs, "");
    }

    method ReAuthenticate() returns (ok: bool)
      modifies this
      ensures (State(), ok) == Tokens.ReAuthenticate(env, old(State()))
      ensures |log| == |old(log)| + 1 && ReadsCredentials(log[|old(log)|].json, old(State()))
      decreases 0
    {
      hide ProcessTokenResponse, Reads;
      TokenRequestsRead(env, State());
      var fields: map<string, Json> := map["token" := String(apiKey)];
      if username != "" {
        fields := map["username" := String(username), "password" := String(password)];
      }
      var response := Query(Command("Authenticate", fields), [], true);
      if response.None? {
        return false;
      }
      var t := ProcessResponse(response.value.json, "Authenticate");
      if t.None? {
        return false;
      }
      authToken := t;
      return true;
    }

    method RefreshToken() returns (ok: bool)
      requires authToken.Some?
      modifies this
      ensures (State(), ok) == Tokens.Refresh(env, old(State()))
      ensures |log| == |old(log)| + 1
      ensures Reads(log[|old(log)|].json, "RefreshToken", map["refresh_token" := old(authToken.value.refreshToken)])
      decreases 0
    {
      hide ProcessTokenResponse, Reads;
      TokenRequestsRead(env, State());
      var request := RefreshText(authToken.value.refreshToken);
      var response := Query(request, [], true);
      if response.None? {
        return false;
      }
      var t := ProcessResponse(response.value.json, "RefreshToken");
      if t.None? {
        return false;
      }
      authToken := t;
      return true;
    }
  }

  class AuthEnabledVDMSServer {
    var sessionToken: string
    var refreshToken: string
    var draws: nat
    var running: bool
    const setup: L.Setup

    function State(): L.Server
      reads this
    {
      L.Server(sessionToken, refreshToken, draws, running)
    }

    constructor (setup: L.Setup)
      ensures State() == L.FRESH_SERVER && this.setup == setup
    {
      this.setup := setup;
      sessionToken, refreshToken, draws, running := "", "", 0, true;
    }

    method RandomString() returns (s: string)
      modifies this`draws
      ensures s == L.RandomString(setup.rand, old(draws)) && draws == old(draws) + L.TOKEN_LENGTH
    {
      hide L.NUMERALS, L.CAPITALS, L.SMALL_LETTERS;
      L.CharsetIs(0);
      s := "";
      for i := 0 to L.TOKEN_LENGTH
        invariant draws == old(draws) + i
        invariant s == L.RandomString(setup.rand, old(draws))[..i]
      {
        s := s + [L.CHARSET[setup.rand(draws) % |L.CHARSET|]];
        draws := draws + 1;
      }
    }

    method RegenerateTokens()
      modifies this
      ensures State() == L.Regenerate(setup, old(State()))
    {
      refreshToken := RandomString();
      sessionToken := RandomString();
    }

    /** The loop of the server thread over the requests that arrive; it ends at the first one that is
        not JSON. */
    method Serve(requests: seq<Request>) returns (answers: seq<Response>)
      requires running
      modifies this
      ensures State() == ServedState(setup, old(State()), requests)
      ensures answers == ServedAnswers(setup, old(State()), requests)
    {
      hide L.Handle;
      answers := [];
      var i := 0;
      while i < |requests| && running
        invariant 0 <= i <= |requests|
        invariant ServedState(setup, old(State()), requests) == ServedState(setup, State(), requests[i..])
        invariant ServedAnswers(setup, old(State()), requests) == answers + ServedAnswers(setup, State(), requests[i..])
        decreases |requests| - i
      {
        var response := Turn(requests[i]);
        assert requests[i..][0] == requests[i] && requests[i..][1..] == requests[i + 1..];
        i := i + 1;
        if response.Some? {
          answers := answers + [response.value];
        }
      }
    }

    /** One turn: receive, answer. `None` is an exception that leaves the loop. */
    method Turn(q: Request) returns (r: Option<Response>)
      requires running
      modifies this
      ensures (State(), r) == L.Handle(setup, old(State()), q)
      ensures r.Some? <==> running
    {
      hide L.IsAuthenticateRequest, L.IsRefreshTokenRequest, L.RandomString;
      var parsed := q.json.Parse();
      if parsed.None? {
        running := false;
        return None;
      }
      var isAuthenticateRequest := L.IsAuthenticateRequest(parsed.value);
      var isRefreshTokenRequest := L.IsRefreshTokenRequest(parsed.value);
      if isAuthenticateRequest || isRefreshTokenRequest {
        RegenerateTokens();
        var name := if isAuthenticateRequest then "Authenticate" else "RefreshToken";
        r := Some(L.TokenReply(setup, State(), name));
      } else if q.token == sessionToken {
        r := Some(Response(q.json, []));
      } else {
        r := Some(L.REJECTION);
      }
    }
  }

  /** The server after it has handled `qs`, up to the first that is not JSON. */
  function ServedState(setup: L.Setup, s: L.Server, qs: seq<Request>): L.Server
    decreases |qs|
  {
    if qs == [] || !s.running then s else ServedState(setup, L.Handle(setup, s, qs[0]).0, qs[1..])
  }

  function ServedAnswers(setup: L.Setup, s: L.Server, qs: seq<Request>): seq<Response>
    decreases |qs|
  {
    if qs == [] || !s.running then []
    else
      var (s', r) := L.Handle(setup, s, qs[0]);
      (if r.Some? then [r.value] else []) + ServedAnswers(setup, s', qs[1..])
  }

  lemma {:induction false} ServedSnoc(setup: L.Setup, s: L.Server, qs: seq<Request>, q: Request)
    ensures var t := ServedState(setup, s, qs);
            var (t', r) := L.Handle(setup, t, q);
            && ServedState(setup, s, qs + [q]) == t'
            && ServedAnswers(setup, s, qs + [q]) == ServedAnswers(setup, s, qs) + (if r.Some? then [r.value] else [])
    decreases |qs|
  {
    hide L.IsAuthenticateRequest, L.IsRefreshTokenRequest, L.RandomString;
    if qs == [] || !s.running {
      assert (qs + [q])[1..] == if qs == [] then [] else qs[1..] + [q];
    } else {
      assert (qs + [q])[0] == qs[0] && (qs + [q])[1..] == qs[1..] + [q];
      ServedSnoc(setup, L.Handle(setup, s, qs[0]).0, qs[1..], q);
    }
  }

  /** Without faults, the loop of the server is the peer that the lockstep results are about: it ends
      in the state `After` gives, no reply being left unread, having answered the last request with what
      `Answer` gives. */
  lemma {:induction false} ServerLoopIsThePeer(setup: L.Setup, log: seq<Request>)
    requires forall n | 0 <= n < |log| :: setup.fault(n) == L.Fine
    ensures L.After(setup, log) == L.Peer(ServedState(setup, L.FRESH_SERVER, log), [])
    ensures log != [] ==>
              ServedAnswers(setup, L.FRESH_SERVER, log)
              == ServedAnswers(setup, L.FRESH_SERVER, L.Front(log))
                 + (var r := L.Answer(setup, log); if r.Some? then [r.value] else [])
    decreases |log|
  {
    hide L.Handle;
    if log != [] {
      ServerLoopIsThePeer(setup, L.Front(log));
      ServedSnoc(setup, L.FRESH_SERVER, L.Front(log), L.Last(log));
      assert log == L.Front(log) + [L.Last(log)];
    }
  }
}
