/**
 The OAuth fixture as the object it is: fields updated in place by one handler at a time. Every method is proved to do
 to the fields what the corresponding region, or sequence of regions, does to the abstract state.
 */
module Server {
  import opened Options
  import opened Names
  import opened Pkce
  import opened Ledger
  import opened StrictJson
  import opened UrlValues
  import C = Callback
  import opened H = Handlers
  import S = Schedule
  import R = Runs

  // ---- The invariant along a handler ------------------------------------------------------

  lemma ManagementKeepsInv(env: Env, g: Grants, req: Request, token: string)
    requires Inv(g)
    ensures req.Register? ==> Inv(RegisterClient(env, g, req).grants)
    ensures req.Manage? ==> Inv(ManageClient(g, req).grants)
    ensures req.Manage? ==> Inv(UpdateClient(env, g, req, token).grants)
  {
    hide Name, StrictJson.StrictDecode, ValidRedirectURIs, AcceptableUpdate, Inv, UpdatedURIs;
    if req.Register? {
      RegistrationKeepsInv(env, g, req);
    }
    if req.Manage? {
      UpdateKeepsInv(env, g, req, token);
      if req.clientID in g.registrationTokens {
        DeleteKeepsInv(g, req.clientID, g.registrationTokens[req.clientID]);
      }
    }
  }

  lemma RegistrationKeepsInv(env: Env, g: Grants, req: Request)
    requires Inv(g) && req.Register?
    ensures Inv(RegisterClient(env, g, req).grants)
  {
    hide Name, StrictJson.StrictDecode, ValidRedirectURIs, Inv;
    var r := RegisterClient(env, g, req);
    if r.events != [] {
      SetClientKeepsInv(g, r.events[0].client, r.events[0].token, r.events[0].info);
    }
  }

  lemma ClientHasToken(g: Grants, client: string)
    requires Inv(g)
    ensures client in g.clients <==> client in g.registrationTokens
  {}

  lemma UpdateKeepsInv(env: Env, g: Grants, req: Request, token: string)
    requires Inv(g) && req.Manage?
    ensures Inv(UpdateClient(env, g, req, token).grants)
  {
    hide Name, AcceptableUpdate, Inv, UpdatedURIs;
    var r := UpdateClient(env, g, req, token);
    ClientHasToken(g, req.clientID);
    if r.events != [] {
      SetClientKeepsInv(g, req.clientID, r.events[0].token, r.events[0].info);
    }
  }

  lemma ExchangesKeepInv(env: Env, g: Grants, form: Values)
    requires Inv(g)
    ensures Inv(ExchangeCode(env, g, form).grants)
    ensures Inv(ExchangeRefresh(g, form).grants)
  {
    hide Name, Inv, MatchesCode, TargetsResource, Effect;
    var r := ExchangeCode(env, g, form);
    if r.events != [] {
      RedeemKeepsInv(g, r.events[0]);
    }
    var q := ExchangeRefresh(g, form);
    if q.events != [] {
      RotateKeepsInv(g, q.events[0]);
    }
  }

  lemma AuthorizeKeepsInv(env: Env, g: Grants, req: Request, client: Option<Client>)
    requires Inv(g) && req.Authorize? && req.identity.Some?
    ensures Inv(AuthorizeDecide(env, g, req, client).grants)
  {
    hide Name, Inv, AuthorizationError, Effect, C.Parameters;
    var r := AuthorizeDecide(env, g, req, client);
    if r.events != [] {
      MintKeepsInv(g, r.events[0].code, r.events[0].record);
    }
  }

  lemma EmptyKeepsInv()
    ensures Inv(EMPTY)
  {}

  lemma RegionKeepsInv(env: Env, g: Grants, t: Thread)
    requires Inv(g) && WellPlaced(t)
    ensures Inv(Region(env, g, t).grants)
  {
    hide Inv, RegisterClient, ManageClient, UpdateClient, AuthorizeDecide, ExchangeCode, ExchangeRefresh, Name;
    EmptyKeepsInv();
    match t
    case Recorded(req) =>
      ManagementKeepsInv(env, g, req, "");
      if req.Token? && req.form.Some? {
        ExchangesKeepInv(env, g, req.form.value);
      }
    case PutChecked(req, token) => UpdateKeepsInv(env, g, req, token);
    case ClientLooked(req, client) => AuthorizeKeepsInv(env, g, req, client);
    case Arrived(_) =>
    case BearerAccepted(_) =>
    case Finished(_) =>
  }

  lemma {:induction false} CompleteKeepsInv(env: Env, s: S.State, t: Thread)
    requires Inv(s.grants) && WellPlaced(t)
    ensures Inv(R.Complete(env, s, t).0.grants)
    decreases Rank(t)
  {
    hide Inv, Region;
    if !t.Finished? {
      RegionAdvances(env, s.grants, t);
      RegionKeepsInv(env, s.grants, t);
      CompleteKeepsInv(env, S.After(env, s, t), Region(env, s.grants, t).next);
    }
  }

  // ---- The object -----------------------------------------------------------------------------

  class OAuthFixtures {
    const env: Env
    var sequence: nat
    var clients: map<string, Client>
    var registrationTokens: map<string, string>
    var codes: map<string, Code>
    var access: map<string, Grant>
    var refresh: map<string, Grant>
    var usedCodes: set<string>
    var usedRefresh: set<string>
    var counters: map<string, nat>
    var captures: seq<S.Capture>

    ghost function Abs(): S.State
      reads this
    {
      S.State(Grants(sequence, clients, registrationTokens, codes, access, refresh, usedCodes, usedRefresh), counters,
        captures)
    }

    ghost predicate Valid()
      reads this
    {
      Inv(Abs().grants)
    }

    constructor (env: Env)
      ensures this.env == env && Valid() && Abs() == S.START
    {
      this.env := env;
      sequence, clients, registrationTokens := 0, map[], map[];
      codes, access, refresh := map[], map[], map[];
      usedCodes, usedRefresh := {}, {};
      counters, captures := map[], [];
    }

    /** Fields are replaced by empty ones and the counter starts over; nothing else survives either. */
    method Reset(req: Request) returns (response: Response)
      requires req.ResetAll? && Valid()
      modifies this
      ensures Valid() && (Abs(), response) == R.Serve(env, old(Abs()), req)
      ensures req.http.verb == "DELETE" ==> Abs() == S.START
      ensures req.http.verb != "DELETE" ==> Abs() == old(Abs())
    {
      hide Inv, R.Serve;
      ghost var start := Abs();
      EmptyKeepsInv();
      if req.http.verb != "DELETE" {
        response := NOT_ALLOWED;
      } else {
        sequence := 0;
        clients, registrationTokens, codes, access, refresh := map[], map[], map[], map[], map[];
        usedCodes, usedRefresh := {}, {};
        counters, captures := map[], [];
        response := Status(204);
      }
      ServeReset(env, start, req);
    }

    method Record(http: Http, endpoint: string)
      modifies this`counters, this`captures
      ensures Abs() == S.Record(old(Abs()), http, endpoint)
    {
      counters := counters[endpoint := (if endpoint in counters then counters[endpoint] else 0) + 1];
      captures := captures + [S.Capture(endpoint, http.verb, http.accept, http.contentType, http.protocolVersion,
                                        http.authorization != "")];
    }

    method IssueGrantLocked(grant: Grant) returns (accessToken: string, refreshToken: string)
      modifies this`sequence, this`access, this`refresh
      ensures accessToken == Name(AccessKind, old(sequence) + 1) && refreshToken == Name(RefreshKind, old(sequence) + 2)
      ensures Abs() == old(Abs()).(grants := Issue(old(Abs().grants), grant, accessToken, refreshToken))
    {
      sequence := sequence + 1;
      accessToken := Name(AccessKind, sequence);
      sequence := sequence + 1;
      refreshToken := Name(RefreshKind, sequence);
      access := access[accessToken := grant];
      refresh := refresh[refreshToken := grant];
    }

    method ExchangeCodeForTokens(form: Values) returns (response: Response)
      modifies this
      ensures var r := ExchangeCode(env, old(Abs().grants), form);
              Abs() == old(Abs()).(grants := r.grants) && response == r.next.response
    {
      hide Name, Challenge;
      var value := Get(form, "code");
      if value !in codes || value in usedCodes {
        return INVALID_GRANT;
      }
      var code := codes[value];
      var wellFormed := ValidPkceValue(Get(form, "code_verifier"));
      if Get(form, "client_id") != code.clientID || Get(form, "redirect_uri") != code.redirectURI
         || !SingleValue(form, "client_id") || !SingleValue(form, "redirect_uri") || !SingleValue(form, "code")
         || !SingleValue(form, "code_verifier") || !wellFormed
         || Challenge(env.sha256, Get(form, "code_verifier")) != code.challenge
      {
        return INVALID_GRANT;
      }
      if !SingleValue(form, "resource") || Get(form, "resource") != code.resource {
        return INVALID_TARGET;
      }
      codes := codes - {value};
      usedCodes := usedCodes + {value};
      var a, r := IssueGrantLocked(GrantOf(code));
      return TokenPair(a, r, code.scope);
    }

    method ExchangeRefreshToken(form: Values) returns (response: Response)
      modifies this
      ensures var r := ExchangeRefresh(old(Abs().grants), form);
              Abs() == old(Abs()).(grants := r.grants) && response == r.next.response
    {
      hide Name;
      var value := Get(form, "refresh_token");
      if value in refresh && value !in usedRefresh && SingleValue(form, "client_id")
         && Get(form, "client_id") == refresh[value].clientID && SingleValue(form, "refresh_token")
      {
        var grant := refresh[value];
        if !SingleValue(form, "resource") || Get(form, "resource") != grant.resource {
          return INVALID_TARGET;
        }
        refresh := refresh - {value};
        usedRefresh := usedRefresh + {value};
        var a, r := IssueGrantLocked(grant);
        return TokenPair(a, r, grant.scope);
      }
      return INVALID_GRANT;
    }

    method Token(req: Request) returns (response: Response)
      requires req.Token? && Valid()
      modifies this
      ensures Valid() && (Abs(), response) == R.Serve(env, old(Abs()), req)
    {
      hide ExchangeCode, ExchangeRefresh, Inv;
      ghost var start := Abs();
      CompleteKeepsInv(env, start, Arrived(req));
      ServeRecorded(env, start, req);
      Record(req.http, "token");
      ghost var recorded := Abs();
      TokenAnswers(env, recorded, req);
      if req.http.verb != "POST" {
        return NOT_ALLOWED;
      }
      if req.form.None? {
        return INVALID_REQUEST;
      }
      var form := req.form.value;
      if req.http.authorization != "" || ("client_secret" in form && |form["client_secret"]| != 0)
         || !SingleValue(form, "grant_type") || !SingleValue(form, "client_id") || Get(form, "client_id") == ""
      {
        return INVALID_REQUEST;
      }
      if Get(form, "grant_type") == "authorization_code" {
        response := ExchangeCodeForTokens(form);
      } else if Get(form, "grant_type") == "refresh_token" {
        response := ExchangeRefreshToken(form);
      } else {
        response := Failure(400, "unsupported_grant_type");
      }
    }

    method RegisterNewClient(req: Request) returns (response: Response)
      requires req.Register? && Valid()
      modifies this
      ensures Valid() && (Abs(), response) == R.Serve(env, old(Abs()), req)
    {
      hide Inv, Name, StrictJson.StrictDecode, TextOf, TextsOf, ValidRedirectURIs;
      ghost var start := Abs();
      CompleteKeepsInv(env, start, Arrived(req));
      ServeRecorded(env, start, req);
      Record(req.http, "register");
      ghost var recorded := Abs();
      RegistrationAnswers(env, recorded, req);
      if req.http.verb != "POST" {
        return NOT_ALLOWED;
      }
      var decoded := DecodeStrictJSONObject(req.body, REGISTRATION_FIELDS, REGISTRATION_ZERO);
      if decoded.None? {
        return INVALID_METADATA;
      }
      if TextOf(decoded.value, "token_endpoint_auth_method") != "none" {
        return INVALID_METADATA;
      }
      var uris := TextsOf(decoded.value, "redirect_uris");
      var valid := CheckRedirectURIs(env, uris);
      if !valid {
        return Failure(400, "invalid_redirect_uri");
      }
      sequence := sequence + 1;
      var clientID := Name(ClientKind, sequence);
      var registrationToken := Name(RegistrationKind, sequence);
      clients := clients[clientID := Client(uris)];
      registrationTokens := registrationTokens[clientID := registrationToken];
      if req.identity.None? {
        return SERVER_ERROR;
      }
      return ClientInformation(201, clientID, uris, IssuerEndpoint(req.identity.value.issuer, "register/" + clientID),
                               registrationToken);
    }

    method ManageExistingClient(req: Request) returns (response: Response)
      requires req.Manage? && Valid()
      modifies this
      ensures Valid() && (Abs(), response) == R.Serve(env, old(Abs()), req)
    {
      hide Inv, Name, UpdateClient;
      ghost var start := Abs();
      CompleteKeepsInv(env, start, Arrived(req));
      ServeRecorded(env, start, req);
      if req.http.verb == "PUT" {
        Record(req.http, "registration_update");
      } else if req.http.verb == "DELETE" {
        Record(req.http, "registration_delete");
      } else {
        Record(req.http, "registration_management");
      }
      ghost var recorded := Abs();
      ManagementAnswers(env, recorded, req);
      if req.http.verb != "PUT" && req.http.verb != "DELETE" {
        return NOT_ALLOWED;
      }
      if req.clientID == "" || '/' in req.clientID {
        return INVALID_TOKEN;
      }
      if req.clientID !in registrationTokens || req.http.authorization != "Bearer " + registrationTokens[req.clientID] {
        return INVALID_TOKEN;
      }
      if req.http.verb == "PUT" {
        response := UpdateExistingClient(req, registrationTokens[req.clientID]);
        return;
      }
      registrationTokens := registrationTokens - {req.clientID};
      clients := clients - {req.clientID};
      return Status(204);
    }

    method UpdateExistingClient(req: Request, currentToken: string) returns (response: Response)
      requires req.Manage?
      modifies this
      ensures var r := UpdateClient(env, old(Abs().grants), req, currentToken);
              Abs() == old(Abs()).(grants := r.grants) && response == r.next.response
    {
      hide Name, StrictJson.StrictDecode, TextOf, TextsOf, ValidRedirectURIs;
      var decoded := DecodeStrictJSONObject(req.body, UPDATE_FIELDS, UPDATE_ZERO);
      if decoded.None? {
        return INVALID_METADATA;
      }
      var uris := TextsOf(decoded.value, "redirect_uris");
      var valid := CheckRedirectURIs(env, uris);
      if TextOf(decoded.value, "client_id") != req.clientID
         || TextOf(decoded.value, "token_endpoint_auth_method") != "none"
         || TextsOf(decoded.value, "grant_types") != ["authorization_code", "refresh_token"]
         || TextsOf(decoded.value, "response_types") != ["code"] || !valid
      {
        return INVALID_METADATA;
      }
      if req.identity.None? {
        return SERVER_ERROR;
      }
      if req.clientID !in registrationTokens || registrationTokens[req.clientID] != currentToken {
        return INVALID_TOKEN;
      }
      sequence := sequence + 1;
      var rotatedToken := Name(RegistrationKind, sequence);
      clients := clients[req.clientID := Client(uris)];
      registrationTokens := registrationTokens[req.clientID := rotatedToken];
      return ClientInformation(200, req.clientID, uris,
        IssuerEndpoint(req.identity.value.issuer, "register/" + req.clientID),
                               rotatedToken);
    }

    method AuthorizeClient(req: Request) returns (response: Response)
      requires req.Authorize? && Inhabited(req.query) && Valid()
      modifies this
      ensures Valid() && (Abs(), response) == R.Serve(env, old(Abs()), req)
    {
      hide Inv, AuthorizeDecide;
      ghost var start := Abs();
      CompleteKeepsInv(env, start, Arrived(req));
      ServeRecorded(env, start, req);
      Record(req.http, "authorize");
      ghost var recorded := Abs();
      AuthorizationAnswers(env, recorded, req);
      if req.http.verb != "GET" {
        return NOT_ALLOWED;
      }
      if req.identity.None? {
        return SERVER_ERROR;
      }
      var clientID := Get(req.query, "client_id");
      var client := if clientID in clients then Some(clients[clientID]) else None;
      response := Decide(req, client);
    }

    method Decide(req: Request, client: Option<Client>) returns (response: Response)
      requires req.Authorize? && req.identity.Some? && Inhabited(req.query)
      modifies this`sequence, this`codes
      ensures var r := AuthorizeDecide(env, old(Abs().grants), req, client);
              Abs() == old(Abs()).(grants := r.grants) && response == r.next.response
    {
      hide Name, AuthorizationError, C.Parameters;
      var query := req.query;
      var Identity(issuer, resource) := req.identity.value;
      var error := CheckAuthorization(query, client, resource);
      if error.Some? {
        return error.value;
      }
      var target := Get(query, "redirect_uri");
      assert env.queryOf(target).Some? by { NoErrorParses(env, query, client, resource); }
      var registered := env.queryOf(target).value;
      var code := None;
      if Get(query, "fixture_decision") != "deny" {
        sequence := sequence + 1;
        code := Some(Name(CodeKind, sequence));
        codes := codes[code.value := Code(Get(query, "client_id"), target, Get(query, "code_challenge"), resource,
                                          Get(query, "scope"))];
      }
      var params := C.BuildParameters(query, registered, issuer, code);
      return Redirect(target, params);
    }

    method CheckAuthorization(query: Values, client: Option<Client>, resource: string) returns (error: Option<Response>)
      ensures error == AuthorizationError(env, query, client, resource)
    {
      var wellFormed := ValidPkceValue(Get(query, "code_challenge"));
      if client.None? || Get(query, "redirect_uri") !in client.value.redirectURIs
         || Get(query, "response_type") != "code" || Get(query, "code_challenge_method") != "S256"
         || !wellFormed || !SingleValue(query, "client_id")
         || !SingleValue(query, "redirect_uri") || !SingleValue(query, "response_type")
         || !SingleValue(query, "code_challenge") || !SingleValue(query, "code_challenge_method")
      {
        return Some(INVALID_REQUEST);
      }
      if !SingleValue(query, "state") || Get(query, "state") == "" {
        return Some(INVALID_REQUEST);
      }
      if !SingleValue(query, "scope") || Get(query, "scope") != "mcp" {
        return Some(Failure(400, "invalid_scope"));
      }
      if !SingleValue(query, "resource") || Get(query, "resource") != resource {
        return Some(INVALID_TARGET);
      }
      if env.queryOf(Get(query, "redirect_uri")).None? {
        return Some(INVALID_REQUEST);
      }
      return None;
    }

    method RequireAccessToken(req: Request) returns (response: Response)
      requires req.Mcp? && Valid()
      modifies this
      ensures Valid() && (Abs(), response) == R.Serve(env, old(Abs()), req)
    {
      hide Inv;
      ghost var start := Abs();
      CompleteKeepsInv(env, start, Arrived(req));
      ServeRecorded(env, start, req);
      Record(req.http, "mcp");
      ghost var recorded := Abs();
      BearerAnswers(env, recorded, req);
      if !HasBearer(req.http) {
        return INVALID_TOKEN;
      }
      if req.identity.None? {
        return SERVER_ERROR;
      }
      var token := req.http.authorization[|BEARER|..];
      if token !in access || access[token].resource != req.identity.value.resource {
        return INVALID_TOKEN;
      }
      if req.envelope.Unreadable? {
        return INVALID_REQUEST;
      }
      if req.envelope.called != "" {
        var key := "mcp:" + req.envelope.called;
        counters := counters[key := (if key in counters then counters[key] else 0) + 1];
      }
      return Forwarded;
    }
  }

  // ---- Serving a request, region by region ------------------------------------------------------

  lemma NoErrorParses(env: Env, query: Values, client: Option<Client>, resource: string)
    requires AuthorizationError(env, query, client, resource).None?
    ensures env.queryOf(Get(query, "redirect_uri")).Some?
  {}

  lemma ServeReset(env: Env, s: S.State, req: Request)
    requires req.ResetAll?
    ensures R.Serve(env, s, req) == if req.http.verb == "DELETE" then (S.START, Status(204)) else (s, NOT_ALLOWED)
  {
    var t := Arrived(req);
    var next := S.After(env, s, t);
    assert R.Complete(env, s, t) == R.Complete(env, next, Region(env, s.grants, t).next);
  }

  lemma ServeRecorded(env: Env, s: S.State, req: Request)
    requires !req.ResetAll?
    ensures R.Serve(env, s, req) == R.Complete(env, S.Record(s, req.http, S.Endpoint(req)), Recorded(req))
  {
    var t := Arrived(req);
    assert Region(env, s.grants, t) == Outcome(s.grants, Recorded(req), []);
  }

  lemma LastRegion(env: Env, s: S.State, t: Thread)
    requires WellPlaced(t) && !t.Finished? && Region(env, s.grants, t).next.Finished?
    ensures R.Complete(env, s, t) == (S.After(env, s, t), Region(env, s.grants, t).next.response)
  {
    hide Region;
    var next := Region(env, s.grants, t).next;
    assert R.Complete(env, S.After(env, s, t), next) == (S.After(env, s, t), next.response);
  }

  lemma TokenAnswers(env: Env, s: S.State, req: Request)
    requires req.Token?
    ensures var r := TokenRequest(env, s.grants, req);
            R.Complete(env, s, Recorded(req)) == (s.(grants := r.grants), r.next.response)
  {
    hide TokenRequest;
    R.TokenAnswer(env, s.grants, req);
    LastRegion(env, s, Recorded(req));
  }

  lemma RegistrationAnswers(env: Env, s: S.State, req: Request)
    requires req.Register?
    ensures var r := RegisterClient(env, s.grants, req);
            R.Complete(env, s, Recorded(req)) == (s.(grants := r.grants), r.next.response)
  {
    assert RegisterClient(env, s.grants, req).next.Finished? by {
      hide Name, StrictJson.StrictDecode, ValidRedirectURIs, Effect;
    }
    hide RegisterClient;
    LastRegion(env, s, Recorded(req));
  }

  lemma UpdateFinishes(env: Env, g: Grants, req: Request, token: string)
    requires req.Manage?
    ensures UpdateClient(env, g, req, token).next.Finished?
  {
    hide Name, AcceptableUpdate, UpdatedURIs, Effect;
  }

  lemma ManagementAnswers(env: Env, s: S.State, req: Request)
    requires req.Manage?
    ensures var r := ManageClient(s.grants, req);
            R.Complete(env, s, Recorded(req)) ==
            if r.next.Finished? then (s.(grants := r.grants), r.next.response)
            else var q := UpdateClient(env, s.grants, req, s.grants.registrationTokens[req.clientID]);
                 (s.(grants := q.grants), q.next.response)
  {
    hide UpdateClient;
    var r := ManageClient(s.grants, req);
    if r.next.Finished? {
      LastRegion(env, s, Recorded(req));
    } else {
      assert S.After(env, s, Recorded(req)) == s;
      assert R.Complete(env, s, Recorded(req)) == R.Complete(env, s, r.next);
      UpdateFinishes(env, s.grants, req, r.next.token);
      LastRegion(env, s, r.next);
    }
  }

  lemma DecisionFinishes(env: Env, g: Grants, req: Request, client: Option<Client>)
    requires req.Authorize? && req.identity.Some?
    ensures AuthorizeDecide(env, g, req, client).next.Finished?
  {
    hide Name, AuthorizationError, C.Parameters, Effect;
  }

  lemma AuthorizationAnswers(env: Env, s: S.State, req: Request)
    requires req.Authorize?
    ensures var r := AuthorizeLookup(s.grants, req);
            R.Complete(env, s, Recorded(req)) ==
            if r.next.Finished? then (s, r.next.response)
            else var q := AuthorizeDecide(env, s.grants, req, r.next.client);
                 (s.(grants := q.grants), q.next.response)
  {
    hide AuthorizeDecide;
    var r := AuthorizeLookup(s.grants, req);
    if r.next.Finished? {
      LastRegion(env, s, Recorded(req));
    } else {
      assert S.After(env, s, Recorded(req)) == s;
      assert R.Complete(env, s, Recorded(req)) == R.Complete(env, s, r.next);
      DecisionFinishes(env, s.grants, req, r.next.client);
      LastRegion(env, s, r.next);
    }
  }

  lemma BearerAnswers(env: Env, s: S.State, req: Request)
    requires req.Mcp?
    ensures var r := BearerCheck(s.grants, req);
            R.Complete(env, s, Recorded(req)) ==
            if r.next.Finished? then (s, r.next.response)
            else if req.envelope.Unreadable? then (s, INVALID_REQUEST)
            else (S.Evidence(s, BearerAccepted(req)), Forwarded)
  {
    var r := BearerCheck(s.grants, req);
    if r.next.Finished? {
      LastRegion(env, s, Recorded(req));
    } else {
      assert S.After(env, s, Recorded(req)) == s;
      assert R.Complete(env, s, Recorded(req)) == R.Complete(env, s, r.next);
      LastRegion(env, s, r.next);
    }
  }
}
