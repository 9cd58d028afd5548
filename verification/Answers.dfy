/**
 What each handler answers and changes, in terms of the request and the stored state: which condition leads to which
 answer, what a client can do with it, and what stays as it is.
 */
module Answers {
  import opened Options
  import opened Names
  import opened Pkce
  import opened Ledger
  import opened StrictJson
  import opened OtherSpellings
  import opened Metadata
  import opened UrlValues
  import opened Handlers

  /** The region ends the request with this answer and leaves everything as it was. */
  predicate Refused(r: Outcome, g: Grants, response: Response) {
    r.grants == g && r.events == [] && r.next == Finished(response)
  }

  // ---- Registration -----------------------------------------------------------------------------

  /** The state gains, or changes, one registration and nothing else. */
  predicate SetsRegistration(g: Grants, h: Grants, client: string, token: string, uris: seq<string>) {
    && h.clients == g.clients[client := Client(uris)]
    && h.registrationTokens == g.registrationTokens[client := token]
    && h.codes == g.codes && h.access == g.access && h.refresh == g.refresh
    && h.usedCodes == g.usedCodes && h.usedRefresh == g.usedRefresh
  }

  /** The endpoint under the issuer, whether the issuer ends in a slash or not. */
  ghost predicate IsEndpoint(uri: string, issuer: string, path: string) {
    exists base :: uri == base + "/" + path
                   && (issuer == base + "/" || (issuer == base && (base == "" || base[|base| - 1] != '/')))
  }

  lemma EndpointOfIssuer(issuer: string, path: string)
    ensures IsEndpoint(IssuerEndpoint(issuer, path), issuer, path)
  {
    if issuer != "" && issuer[|issuer| - 1] == '/' {
      var base := issuer[..|issuer| - 1];
      assert issuer == base + "/";
      assert IssuerEndpoint(issuer, path) == base + "/" + path;
    } else {
      assert IssuerEndpoint(issuer, path) == issuer + "/" + path;
    }
  }

  /** The answer describes the registration as it is now stored. */
  ghost predicate Describes(h: Grants, response: Response, issuer: string) {
    && response.ClientInformation?
    && Holds(h.clients, response.clientID, Client(response.redirectURIs))
    && Holds(h.registrationTokens, response.clientID, response.token)
    && IsEndpoint(response.uri, issuer, "register/" + response.clientID)
  }

  predicate PublicMetadata(doc: Document) {
    Accepted(doc) && URIsIn(doc).Some? && MethodIn(doc) == Some("none")
  }

  ghost predicate RegistersNew(g: Grants, r: Outcome, uris: seq<string>) {
    exists client, token ::
      && client !in g.clients && token !in g.registrationTokens.Values && '/' !in client && client != ""
      && SetsRegistration(g, r.grants, client, token, uris)
      && r.events == [Registered(client, token, Client(uris))]
  }

  /**
   Registration, case by case. Good metadata registers a new client with the document's own redirect URIs; the answer
   describes it, unless the identity fails afterwards.
   */
  lemma RegistrationAnswered(env: Env, g: Grants, req: Request)
    requires req.Register? && Inv(g)
    ensures var r, doc := RegisterClient(env, g, req), req.body;
            if req.http.verb != "POST" then Refused(r, g, Status(405))
            else if !PublicMetadata(doc) then Refused(r, g, Failure(400, "invalid_client_metadata"))
            else if !ValidRedirectURIs(env, URIsIn(doc).value) then Refused(r, g, Failure(400, "invalid_redirect_uri"))
            else
              && RegistersNew(g, r, URIsIn(doc).value) && r.next.Finished?
              && if req.identity.None? then r.next.response == Failure(500, "server_error")
                 else
                   && Describes(r.grants, r.next.response, req.identity.value.issuer)
                   && r.next.response.status == 201 && r.next.response.clientID !in g.clients
                   && r.next.response.redirectURIs == URIsIn(doc).value
  {
    hide StrictDecode, TextOf, TextsOf, Name, Inv, URIsIn, MethodIn, ValidRedirectURIs, IssuerEndpoint, Accepted;
    var decoded := StrictDecode(req.body, REGISTRATION_FIELDS, REGISTRATION_ZERO);
    NothingAccepted(req.body);
    RegistrationDecodesExactly(req.body);
    if decoded.Some? {
      RegistrationReads(req.body);
    }
    InvNames(g);
    FreshNames(g);
    var client, token := Name(ClientKind, g.sequence + 1), Name(RegistrationKind, g.sequence + 1);
    ClientNames(g.sequence + 1);
    if req.identity.Some? {
      EndpointOfIssuer(req.identity.value.issuer, "register/" + client);
    }
    if decoded.Some? && req.http.verb == "POST" && PublicMetadata(req.body)
       && ValidRedirectURIs(env, URIsIn(req.body).value)
    {
      assert SetsRegistration(g, RegisterClient(env, g, req).grants, client, token, URIsIn(req.body).value);
    }
  }

  lemma NothingAccepted(doc: Document)
    ensures Accepted(doc) ==> doc.Object?
  {}

  lemma InvNames(g: Grants)
    requires Inv(g)
    ensures NamesInv(g)
  {}

  // ---- Management -----------------------------------------------------------------------------------

  /** The request names a registered client, and carries its management token. */
  predicate Authorized(g: Grants, http: Http, client: string) {
    && client != "" && '/' !in client && client in g.registrationTokens
    && http.authorization == "Bearer " + g.registrationTokens[client]
  }

  predicate Removes(g: Grants, h: Grants, client: string) {
    && h.clients == g.clients - {client} && h.registrationTokens == g.registrationTokens - {client}
    && h.sequence == g.sequence && h.codes == g.codes && h.access == g.access && h.refresh == g.refresh
    && h.usedCodes == g.usedCodes && h.usedRefresh == g.usedRefresh
  }

  /** Management, case by case: only the bearer of the management token gets anywhere. */
  lemma ManagementAnswered(g: Grants, req: Request)
    requires req.Manage?
    ensures var r := ManageClient(g, req);
            if req.http.verb != "PUT" && req.http.verb != "DELETE" then Refused(r, g, Status(405))
            else if !Authorized(g, req.http, req.clientID) then Refused(r, g, Failure(401, "invalid_token"))
            else
              var token := g.registrationTokens[req.clientID];
              if req.http.verb == "PUT" then r.grants == g && r.events == [] && r.next == PutChecked(req, token)
              else
                && Removes(g, r.grants, req.clientID) && r.events == [Deleted(req.clientID, token)]
                && r.next == Finished(Status(204))
  {}

  /** So a deletion takes place, or an update goes ahead, exactly for requests that carry the token. */
  lemma ManagementProceedsExactly(g: Grants, req: Request)
    requires req.Manage?
    ensures var r := ManageClient(g, req);
            && (r.events != [] || r.next.PutChecked? <==>
                (req.http.verb == "PUT" || req.http.verb == "DELETE") && Authorized(g, req.http, req.clientID))
            && (r.events != [] <==> req.http.verb == "DELETE" && Authorized(g, req.http, req.clientID))
            && (r.events == [] ==> r.grants == g)
  {
    ManagementAnswered(g, req);
  }

  // ---- Updates ------------------------------------------------------------------------------------

  /** What an update has to say, member by member. */
  ghost predicate GoodUpdate(env: Env, doc: Document, clientID: string) {
    && Accepted(doc) && TypesFit(doc.members)
    && LastText(doc.members, "client_id") == Some(clientID)
    && MethodIn(doc) == Some("none")
    && Shows(doc.members, "grant_types", ["authorization_code", "refresh_token"])
    && Shows(doc.members, "response_types", ["code"])
    && URIsIn(doc).Some? && ValidRedirectURIs(env, URIsIn(doc).value)
  }

  lemma UpdateAcceptedExactly(env: Env, req: Request)
    requires req.Manage?
    ensures AcceptableUpdate(env, req) <==> GoodUpdate(env, req.body, req.clientID)
    ensures AcceptableUpdate(env, req) ==> URIsIn(req.body) == Some(UpdatedURIs(req))
  {
    hide StrictDecode, TextOf, TextsOf, ValidRedirectURIs, LastText, MethodIn, URIsIn, Shows, TypesFit, Accepted,
      UPDATE_FIELDS, UPDATE_ZERO;
    var doc := req.body;
    NothingAccepted(doc);
    UpdateDecodesExactly(doc);
    if Decodes(doc) {
      UpdateReads(doc, ["authorization_code", "refresh_token"]);
      UpdateReads(doc, ["code"]);
    }
  }

  /** An update, case by case: it commits under the token it has read if that is still in force. */
  lemma UpdateAnswered(env: Env, g: Grants, req: Request, read: string)
    requires req.Manage? && Inv(g)
    ensures var r := UpdateClient(env, g, req, read);
            if !GoodUpdate(env, req.body, req.clientID) then Refused(r, g, Failure(400, "invalid_client_metadata"))
            else if req.identity.None? then Refused(r, g, Failure(500, "server_error"))
            else if !Holds(g.registrationTokens, req.clientID, read) then Refused(r, g, Failure(401, "invalid_token"))
            else
              && r.next.Finished? && Describes(r.grants, r.next.response, req.identity.value.issuer)
              && (var response := r.next.response;
                  && response.status == 200 && response.clientID == req.clientID
                  && response.token !in g.registrationTokens.Values
                  && URIsIn(req.body) == Some(response.redirectURIs)
                  && SetsRegistration(g, r.grants, req.clientID, response.token, response.redirectURIs))
  {
    hide GoodUpdate, AcceptableUpdate, UpdatedURIs, Name, Inv, URIsIn, IssuerEndpoint;
    UpdateAcceptedExactly(env, req);
    InvNames(g);
    FreshNames(g);
    if req.identity.Some? {
      EndpointOfIssuer(req.identity.value.issuer, "register/" + req.clientID);
    }
  }

  lemma RegisteredNames(g: Grants, client: string)
    requires Inv(g) && client in g.registrationTokens
    ensures '/' !in client && client != ""
  {
    assert Named(client, ClientKind, g.sequence);
    var i: nat :| 1 <= i <= g.sequence && client == Name(ClientKind, i);
    ClientNames(i);
  }

  /** With what such an answer says, the client can be managed. */
  lemma AnswerManages(g: Grants, response: Response, issuer: string, http: Http, identity: Option<Identity>,
                      doc: Document)
    requires Inv(g) && Describes(g, response, issuer)
    requires http.authorization == "Bearer " + response.token
    ensures var r := ManageClient(g, Manage(http, identity, response.clientID, doc));
            && (http.verb == "PUT" ==>
                  r.next == PutChecked(Manage(http, identity, response.clientID, doc), response.token))
            && (http.verb == "DELETE" ==> r.next == Finished(Status(204)) && response.clientID !in r.grants.clients)
  {
    hide Inv;
    RegisteredNames(g, response.clientID);
    ManagementAnswered(g, Manage(http, identity, response.clientID, doc));
  }

  // ---- Authorization ----------------------------------------------------------------------------------

  /** The parameters about the client, its redirect URI and PKCE, as the first group of checks asks for them. */
  ghost predicate ClientAndPkce(query: Values, client: Option<Client>) {
    exists uri, challenge ::
      && client.Some? && uri in client.value.redirectURIs && IsPkceValue(challenge) && SingleValue(query, "client_id")
      && Says(query, "redirect_uri", uri) && Says(query, "code_challenge", challenge)
      && Says(query, "response_type", "code") && Says(query, "code_challenge_method", "S256")
  }

  ghost predicate SomeState(query: Values) {
    exists state :: Says(query, "state", state) && state != ""
  }

  lemma ClientAndPkceExactly(query: Values, client: Option<Client>)
    ensures ClientAndPkce(query, client) <==> ValidAuthorization(query, client)
    ensures ClientAndPkce(query, client) ==>
              client.Some? && Says(query, "redirect_uri", Get(query, "redirect_uri"))
              && Get(query, "redirect_uri") in client.value.redirectURIs
  {
    hide Says, IsPkceValue, SingleValue, Get;
    SaysOnce(query, "redirect_uri", Get(query, "redirect_uri"));
    SaysOnce(query, "code_challenge", Get(query, "code_challenge"));
    SaysOnce(query, "response_type", "code");
    SaysOnce(query, "code_challenge_method", "S256");
    forall uri, challenge | Says(query, "redirect_uri", uri) && Says(query, "code_challenge", challenge)
      ensures SingleValue(query, "redirect_uri") && Get(query, "redirect_uri") == uri
      ensures SingleValue(query, "code_challenge") && Get(query, "code_challenge") == challenge
    {
      SaysOnce(query, "redirect_uri", uri);
      SaysOnce(query, "code_challenge", challenge);
    }
  }

  lemma SomeStateExactly(query: Values)
    ensures SomeState(query) <==> SingleValue(query, "state") && Get(query, "state") != ""
  {
    hide Says, SingleValue, Get;
    SaysOnce(query, "state", Get(query, "state"));
    forall state | Says(query, "state", state)
      ensures SingleValue(query, "state") && Get(query, "state") == state
    {
      SaysOnce(query, "state", state);
    }
  }

  /** The lookup: only a GET with a resolvable identity gets to it. */
  lemma LookupAnswered(g: Grants, req: Request)
    requires req.Authorize?
    ensures var r := AuthorizeLookup(g, req);
            if req.http.verb != "GET" then Refused(r, g, Status(405))
            else if req.identity.None? then Refused(r, g, Failure(500, "server_error"))
            else r.grants == g && r.next.ClientLooked? && r.next.req == req
  {}

  /** The redirect goes to the URI that was asked for, one of the client's. */
  predicate RedirectsAsAsked(r: Outcome, query: Values, client: Option<Client>) {
    && r.next.Finished? && r.next.response.Redirect? && client.Some?
    && Says(query, "redirect_uri", r.next.response.target) && r.next.response.target in client.value.redirectURIs
  }

  /** The code is minted as asked, and the redirect carries it to the URI it is stored with. */
  predicate MintsForTarget(r: Outcome, g: Grants) {
    && |r.events| == 1 && r.events[0].Minted? && r.next.Finished? && r.next.response.Redirect?
    && (var response, code, record := r.next.response, r.events[0].code, r.events[0].record;
        && "code" in response.parameters && response.parameters["code"] == [code]
        && r.grants == g.(sequence := g.sequence + 1, codes := g.codes[code := record])
        && record.redirectURI == response.target)
  }

  predicate Denies(r: Outcome, g: Grants) {
    && r.grants == g && r.events == [] && r.next.Finished? && r.next.response.Redirect?
    && (var p := r.next.response.parameters;
        "code" !in p && "error" in p && p["error"] == ["access_denied"]
        && "error_description" in p && p["error_description"] == ["fixture authorization denied"])
  }

  /** Authorization, case by case. */
  lemma AuthorizationAnswered(env: Env, g: Grants, req: Request, client: Option<Client>)
    requires req.Authorize? && req.identity.Some?
    ensures var r, query := AuthorizeDecide(env, g, req, client), req.query;
            if !ClientAndPkce(query, client) || !SomeState(query) then Refused(r, g, Failure(400, "invalid_request"))
            else if !Says(query, "scope", "mcp") then Refused(r, g, Failure(400, "invalid_scope"))
            else if !Says(query, "resource", req.identity.value.resource) then
              Refused(r, g, Failure(400, "invalid_target"))
            else if env.queryOf(Get(query, "redirect_uri")).None? then Refused(r, g, Failure(400, "invalid_request"))
            else
              && RedirectsAsAsked(r, query, client)
              && if Get(query, "fixture_decision") == "deny" then Denies(r, g) else MintsForTarget(r, g)
  {
    hide Name, Callback.Parameters, Says, IsPkceValue, ClientAndPkce, SomeState, SingleValue, Get, ValidAuthorization;
    var query := req.query;
    ClientAndPkceExactly(query, client);
    SomeStateExactly(query);
    SaysOnce(query, "scope", "mcp");
    SaysOnce(query, "resource", req.identity.value.resource);
    var r := AuthorizeDecide(env, g, req, client);
    if r.next.response.Redirect? {
      var registered := env.queryOf(Get(query, "redirect_uri")).value;
      var code := if r.events == [] then None else Some(r.events[0].code);
      Callback.DecidedParameters(query, registered, req.identity.value.issuer, code);
    }
  }

  // ---- The token endpoint ---------------------------------------------------------------------------

  /** Everything a code exchange has to present, except the resource. */
  ghost predicate PresentsCode(env: Env, g: Grants, form: Values) {
    exists code, verifier ::
      && code in g.codes && Says(form, "code", code) && Says(form, "client_id", g.codes[code].clientID)
      && Says(form, "redirect_uri", g.codes[code].redirectURI)
      && Says(form, "code_verifier", verifier) && IsPkceValue(verifier)
      && Challenge(env.sha256, verifier) == g.codes[code].challenge
  }

  lemma PresentsCodeExactly(env: Env, g: Grants, form: Values)
    ensures PresentsCode(env, g, form) <==>
            Get(form, "code") in g.codes && MatchesCode(env, g.codes[Get(form, "code")], form)
    ensures PresentsCode(env, g, form) ==> Says(form, "code", Get(form, "code"))
  {
    hide Says, IsPkceValue, Challenge, SingleValue, Get;
    var code, verifier := Get(form, "code"), Get(form, "code_verifier");
    SaysOnce(form, "code", code);
    SaysOnce(form, "code_verifier", verifier);
    if code in g.codes {
      SaysOnce(form, "client_id", g.codes[code].clientID);
      SaysOnce(form, "redirect_uri", g.codes[code].redirectURI);
    }
    forall c, v | Says(form, "code", c) && Says(form, "code_verifier", v)
      ensures SingleValue(form, "code") && code == c && SingleValue(form, "code_verifier") && verifier == v
    {
      SaysOnce(form, "code", c);
      SaysOnce(form, "code_verifier", v);
    }
  }

  /** A code exchange, case by case: a wrong resource is told apart from everything else. */
  lemma CodeExchangeAnswered(env: Env, g: Grants, form: Values)
    requires Inv(g)
    ensures var r, code := ExchangeCode(env, g, form), Get(form, "code");
            if !PresentsCode(env, g, form) then Refused(r, g, Failure(400, "invalid_grant"))
            else
              && code in g.codes
              && if !Says(form, "resource", g.codes[code].resource) then Refused(r, g, Failure(400, "invalid_target"))
                 else GivesTokens(g, r, GrantOf(g.codes[code])) && SpendsCode(g, r.grants, code)
  {
    hide Name, Inv, Says, MatchesCode, SingleValue, Get, PresentsCode, Challenge;
    PresentsCodeExactly(env, g, form);
    LiveIsUnused(g);
    FreshTokens(g);
    if Get(form, "code") in g.codes {
      SaysOnce(form, "resource", g.codes[Get(form, "code")].resource);
    }
  }

  lemma LiveIsUnused(g: Grants)
    requires Inv(g)
    ensures g.codes.Keys !! g.usedCodes && g.refresh.Keys !! g.usedRefresh
  {}

  lemma FreshTokens(g: Grants)
    requires Inv(g)
    ensures Name(AccessKind, g.sequence + 1) !in g.access && Name(RefreshKind, g.sequence + 2) !in g.refresh
    ensures Name(RefreshKind, g.sequence + 2) !in g.usedRefresh
  {
    hide Name, Named;
    FreshNames(g);
  }

  /** Two new tokens for the grant are stored, and the answer hands them out with its scope. */
  predicate GivesTokens(g: Grants, r: Outcome, grant: Grant) {
    && r.next.Finished? && r.next.response.TokenPair?
    && (var response, h := r.next.response, r.grants;
        && response.access !in g.access && response.refresh !in g.refresh && response.refresh !in g.usedRefresh
        && response.scope == grant.scope
        && h.access == g.access[response.access := grant]
        && Holds(h.refresh, response.refresh, grant)
        && h.refresh.Keys <= g.refresh.Keys + {response.refresh}
        && (forall t :: t in h.refresh && t != response.refresh ==> h.refresh[t] == g.refresh[t])
        && h.clients == g.clients && h.registrationTokens == g.registrationTokens)
  }

  predicate SpendsCode(g: Grants, h: Grants, code: string) {
    && h.codes == g.codes - {code} && h.usedCodes == g.usedCodes + {code}
    && g.refresh.Keys <= h.refresh.Keys && h.usedRefresh == g.usedRefresh
  }

  predicate SpendsRefresh(g: Grants, h: Grants, refresh: string) {
    && refresh !in h.refresh && h.usedRefresh == g.usedRefresh + {refresh}
    && g.refresh.Keys - {refresh} <= h.refresh.Keys && h.codes == g.codes && h.usedCodes == g.usedCodes
  }

  ghost predicate PresentsRefresh(g: Grants, form: Values) {
    exists token ::
      token in g.refresh && Says(form, "refresh_token", token) && Says(form, "client_id", g.refresh[token].clientID)
  }

  lemma PresentsRefreshExactly(g: Grants, form: Values)
    ensures PresentsRefresh(g, form) <==>
            var token := Get(form, "refresh_token");
            && token in g.refresh && SingleValue(form, "refresh_token")
            && SingleValue(form, "client_id") && Get(form, "client_id") == g.refresh[token].clientID
  {
    hide Says, SingleValue, Get;
    var token := Get(form, "refresh_token");
    SaysOnce(form, "refresh_token", token);
    if token in g.refresh {
      SaysOnce(form, "client_id", g.refresh[token].clientID);
    }
    forall t | Says(form, "refresh_token", t) ensures SingleValue(form, "refresh_token") && token == t {
      SaysOnce(form, "refresh_token", t);
    }
  }

  /** A rotation, case by case. */
  lemma RefreshExchangeAnswered(g: Grants, form: Values)
    requires Inv(g)
    ensures var r, token := ExchangeRefresh(g, form), Get(form, "refresh_token");
            if !PresentsRefresh(g, form) then Refused(r, g, Failure(400, "invalid_grant"))
            else
              && token in g.refresh
              && if !Says(form, "resource", g.refresh[token].resource) then
                   Refused(r, g, Failure(400, "invalid_target"))
                 else GivesTokens(g, r, g.refresh[token]) && SpendsRefresh(g, r.grants, token)
  {
    hide Name, Inv, Says, SingleValue, Get, PresentsRefresh;
    PresentsRefreshExactly(g, form);
    LiveIsUnused(g);
    FreshTokens(g);
    if Get(form, "refresh_token") in g.refresh {
      SaysOnce(form, "resource", g.refresh[Get(form, "refresh_token")].resource);
    }
  }

  /** The form names one client, and there is no other authentication of it. */
  ghost predicate PublicClient(http: Http, form: Values) {
    && http.authorization == "" && ("client_secret" in form ==> form["client_secret"] == [])
    && exists client, grantType ::
         Says(form, "client_id", client) && client != "" && Says(form, "grant_type", grantType)
  }

  lemma PublicClientExactly(http: Http, form: Values)
    ensures PublicClient(http, form) <==>
            && http.authorization == "" && !("client_secret" in form && |form["client_secret"]| != 0)
            && SingleValue(form, "grant_type") && SingleValue(form, "client_id") && Get(form, "client_id") != ""
  {
    hide Says, SingleValue, Get;
    SaysOnce(form, "client_id", Get(form, "client_id"));
    SaysOnce(form, "grant_type", Get(form, "grant_type"));
    forall c, t | Says(form, "client_id", c) && Says(form, "grant_type", t)
      ensures SingleValue(form, "client_id") && Get(form, "client_id") == c && SingleValue(form, "grant_type")
    {
      SaysOnce(form, "client_id", c);
      SaysOnce(form, "grant_type", t);
    }
  }

  /** The token endpoint, case by case. */
  lemma TokenAnswered(env: Env, g: Grants, req: Request)
    requires req.Token?
    ensures var r := TokenRequest(env, g, req);
            if req.http.verb != "POST" then Refused(r, g, Status(405))
            else if req.form.None? || !PublicClient(req.http, req.form.value) then
              Refused(r, g, Failure(400, "invalid_request"))
            else if Says(req.form.value, "grant_type", "authorization_code") then
              r == ExchangeCode(env, g, req.form.value)
            else if Says(req.form.value, "grant_type", "refresh_token") then r == ExchangeRefresh(g, req.form.value)
            else Refused(r, g, Failure(400, "unsupported_grant_type"))
  {
    hide ExchangeCode, ExchangeRefresh, PublicClient, Says, SingleValue, Get;
    if req.form.Some? {
      PublicClientExactly(req.http, req.form.value);
      SaysOnce(req.form.value, "grant_type", "authorization_code");
      SaysOnce(req.form.value, "grant_type", "refresh_token");
    }
  }

  // ---- The bearer check and the rest ------------------------------------------------------------------

  /** The request carries a live token for the resource. */
  ghost predicate CarriesToken(g: Grants, http: Http, resource: string) {
    exists token :: http.authorization == "Bearer " + token && token in g.access && g.access[token].resource == resource
  }

  lemma BearerSplits(http: Http)
    ensures HasBearer(http) <==> exists token :: http.authorization == "Bearer " + token
    ensures forall token :: http.authorization == "Bearer " + token ==> http.authorization[|BEARER|..] == token
  {
    if HasBearer(http) {
      assert http.authorization == "Bearer " + http.authorization[|BEARER|..];
    }
    forall token | http.authorization == "Bearer " + token
      ensures HasBearer(http) && http.authorization[|BEARER|..] == token
    {
      assert ("Bearer " + token)[..7] == "Bearer " && ("Bearer " + token)[7..] == token;
    }
  }

  /** The bearer check, case by case: a request is let through exactly with a live token for this resource. */
  lemma BearerAnswered(g: Grants, req: Request)
    requires req.Mcp?
    ensures var r := BearerCheck(g, req);
            if !exists token :: req.http.authorization == "Bearer " + token then
              Refused(r, g, Failure(401, "invalid_token"))
            else if req.identity.None? then Refused(r, g, Failure(500, "server_error"))
            else if !CarriesToken(g, req.http, req.identity.value.resource) then
              Refused(r, g, Failure(401, "invalid_token"))
            else r.grants == g && r.next == BearerAccepted(req)
  {
    hide HasBearer;
    BearerSplits(req.http);
    if HasBearer(req.http) && req.identity.Some? {
      var token := req.http.authorization[|BEARER|..];
      assert CarriesToken(g, req.http, req.identity.value.resource) <==>
             token in g.access && g.access[token].resource == req.identity.value.resource;
    }
  }

  /** The regions without a check of their own. */
  lemma OthersAnswered(env: Env, g: Grants, req: Request)
    ensures req.ResetAll? ==>
              var r := Region(env, g, Arrived(req));
              if req.http.verb != "DELETE" then Refused(r, g, Status(405))
              else r.grants == EMPTY && r.next == Finished(Status(204))
    ensures req.ProtectedResource? || req.AuthorizationServer? ==>
              Refused(Region(env, g, Recorded(req)), g, if req.http.verb == "GET" then ServerMetadata else Status(405))
    ensures req.Mcp? ==>
              var response := if req.envelope.Unreadable? then Failure(400, "invalid_request") else Forwarded;
              Refused(Region(env, g, BearerAccepted(req)), g, response)
  {}
}
