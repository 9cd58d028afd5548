/**
 The HTTP handlers of the OAuth fixture, cut at the points where they take the server's lock.

 Each function below is one locked region together with the pure checks in front of it. It returns the credential
 state it leaves behind, what the handler does next, and the ledger events of the region.
 */
module Handlers {
  import opened Options
  import Enumerations
  import opened Names
  import opened Pkce
  import opened Ledger
  import opened StrictJson
  import opened OtherSpellings
  import opened UrlValues
  import opened Callback

  /** Code this model does not look into: the hash, and the standard library's URL parser. */
  datatype Env = Env(
    sha256: string -> Digest,
    absoluteHttpUri: string -> bool,               // url.ParseRequestURI and the checks on its result
    queryOf: string -> Option<Values>)             // url.Parse(redirectURI), then its Query()

  datatype Http = Http(verb: string, accept: string, contentType: string, protocolVersion: string,
    authorization: string)

  datatype Identity = Identity(issuer: string, resource: string)

  datatype McpBody = Unreadable | Envelope(called: string)

  /** A request, parsed as far as net/http does it; `identity` is the outcome of `identities`, None its error. */
  datatype Request =
    | ProtectedResource(http: Http)
    | AuthorizationServer(http: Http)
    | Register(http: Http, identity: Option<Identity>, body: Document)
    | Manage(http: Http, identity: Option<Identity>, clientID: string, body: Document)
    | Authorize(http: Http, identity: Option<Identity>, query: Values)
    | Token(http: Http, form: Option<Values>)
    | Mcp(http: Http, identity: Option<Identity>, envelope: McpBody)
    | ResetAll(http: Http)

  datatype Response =
    | Status(status: nat)
    | Failure(status: nat, error: string)
    | ServerMetadata
    | ClientInformation(status: nat, clientID: string, redirectURIs: seq<string>, uri: string, token: string)
    | Redirect(target: string, parameters: Values)
    | TokenPair(access: string, refresh: string, scope: string)
    | Forwarded

  /** Where a handler in flight stands; each step takes the lock at most once. */
  datatype Thread =
    | Arrived(req: Request)
    | Recorded(req: Request)
    | PutChecked(req: Request, token: string)
    | ClientLooked(req: Request, client: Option<Client>)
    | BearerAccepted(req: Request)
    | Finished(response: Response)

  /** The outcome of one region on the credential state. */
  datatype Outcome = Outcome(grants: Grants, next: Thread, events: seq<Event>)

  function Refuse(g: Grants, response: Response): Outcome {
    Outcome(g, Finished(response), [])
  }

  const INVALID_METADATA := Failure(400, "invalid_client_metadata")
  const INVALID_REQUEST := Failure(400, "invalid_request")
  const INVALID_GRANT := Failure(400, "invalid_grant")
  const INVALID_TARGET := Failure(400, "invalid_target")
  const INVALID_TOKEN := Failure(401, "invalid_token")
  const SERVER_ERROR := Failure(500, "server_error")
  const NOT_ALLOWED := Status(405)

  // ---- Registration and its management ----------------------------------------------

  predicate ValidRedirectURIs(env: Env, uris: seq<string>) {
    && uris != []
    && (forall i :: 0 <= i < |uris| ==> '#' !in uris[i] && env.absoluteHttpUri(uris[i]))
    && (forall i, j :: 0 <= i < j < |uris| ==> uris[i] != uris[j])
  }

  /** Nothing is listed twice: as many URIs as entries. And each is absolute and without fragment. */
  lemma RedirectURIsExactly(env: Env, uris: seq<string>)
    ensures ValidRedirectURIs(env, uris) <==>
            && |uris| > 0 && |Enumerations.ElementsOf(uris)| == |uris|
            && forall u :: u in uris ==> '#' !in u && env.absoluteHttpUri(u)
  {
    Enumerations.AllDifferent(uris);
  }

  method CheckRedirectURIs(env: Env, values: seq<string>) returns (ok: bool)
    ensures ok <==> ValidRedirectURIs(env, values)
  {
    if |values| == 0 {
      return false;
    }
    var seen: set<string> := {};
    for k := 0 to |values|
      invariant seen == set i | 0 <= i < k :: values[i]
      invariant forall i :: 0 <= i < k ==> '#' !in values[i] && env.absoluteHttpUri(values[i])
      invariant forall i, j :: 0 <= i < j < k ==> values[i] != values[j]
    {
      if '#' in values[k] || !env.absoluteHttpUri(values[k]) || values[k] in seen {
        return false;
      }
      seen := seen + {values[k]};
    }
    return true;
  }

  function IssuerEndpoint(issuer: string, endpoint: string): string {
    (if issuer != "" && issuer[|issuer| - 1] == '/' then issuer[..|issuer| - 1] else issuer) + "/" + endpoint
  }

  /** The answer is built after the commit, so an identity error leaves the client registered. */
  function RegisterClient(env: Env, g: Grants, req: Request): Outcome
    requires req.Register?
  {
    var decoded := StrictDecode(req.body, REGISTRATION_FIELDS, REGISTRATION_ZERO);
    if req.http.verb != "POST" then Refuse(g, NOT_ALLOWED)
    else if decoded.None? then Refuse(g, INVALID_METADATA)
    else if TextOf(decoded.value, "token_endpoint_auth_method") != "none" then Refuse(g, INVALID_METADATA)
    else
      var uris := TextsOf(decoded.value, "redirect_uris");
      if !ValidRedirectURIs(env, uris) then Refuse(g, Failure(400, "invalid_redirect_uri"))
      else
        var client, token := Name(ClientKind, g.sequence + 1), Name(RegistrationKind, g.sequence + 1);
        var e := Registered(client, token, Client(uris));
        var response := if req.identity.None? then SERVER_ERROR else
          ClientInformation(201, client, uris, IssuerEndpoint(req.identity.value.issuer, "register/" + client), token);
        Outcome(Effect(g, e), Finished(response), [e])
  }

  function ManageClient(g: Grants, req: Request): Outcome
    requires req.Manage?
  {
    if req.http.verb != "PUT" && req.http.verb != "DELETE" then Refuse(g, NOT_ALLOWED)
    else if req.clientID == "" || '/' in req.clientID then Refuse(g, INVALID_TOKEN)
    else if req.clientID !in g.registrationTokens then Refuse(g, INVALID_TOKEN)
    else
      var token := g.registrationTokens[req.clientID];
      if req.http.authorization != "Bearer " + token then Refuse(g, INVALID_TOKEN)
      else if req.http.verb == "PUT" then Outcome(g, PutChecked(req, token), [])
      else
        var e := Deleted(req.clientID, token);
        Outcome(Effect(g, e), Finished(Status(204)), [e])
  }

  predicate AcceptableUpdate(env: Env, req: Request)
    requires req.Manage?
  {
    var decoded := StrictDecode(req.body, UPDATE_FIELDS, UPDATE_ZERO);
    && decoded.Some?
    && TextOf(decoded.value, "client_id") == req.clientID
    && TextOf(decoded.value, "token_endpoint_auth_method") == "none"
    && TextsOf(decoded.value, "grant_types") == ["authorization_code", "refresh_token"]
    && TextsOf(decoded.value, "response_types") == ["code"]
    && ValidRedirectURIs(env, TextsOf(decoded.value, "redirect_uris"))
  }

  function UpdatedURIs(req: Request): seq<string>
    requires req.Manage?
  {
    var decoded := StrictDecode(req.body, UPDATE_FIELDS, UPDATE_ZERO);
    if decoded.Some? then TextsOf(decoded.value, "redirect_uris") else []
  }

  function UpdateClient(env: Env, g: Grants, req: Request, currentToken: string): Outcome
    requires req.Manage?
  {
    if !AcceptableUpdate(env, req) then Refuse(g, INVALID_METADATA)
    else if req.identity.None? then Refuse(g, SERVER_ERROR)
    else if !Holds(g.registrationTokens, req.clientID, currentToken) then Refuse(g, INVALID_TOKEN)
    else
      var token := Name(RegistrationKind, g.sequence + 1);
      var e := Updated(req.clientID, currentToken, token, Client(UpdatedURIs(req)));
      var uri := IssuerEndpoint(req.identity.value.issuer, "register/" + req.clientID);
      Outcome(Effect(g, e), Finished(ClientInformation(200, req.clientID, UpdatedURIs(req), uri, token)), [e])
  }

  // ---- Authorization ----------------------------------------------------------------

  function AuthorizeLookup(g: Grants, req: Request): Outcome
    requires req.Authorize?
  {
    if req.http.verb != "GET" then Refuse(g, NOT_ALLOWED)
    else if req.identity.None? then Refuse(g, SERVER_ERROR)
    else
      var clientID := Get(req.query, "client_id");
      if clientID in g.clients then
        Outcome(g, ClientLooked(req, Some(g.clients[clientID])), [Seen(clientID, g.clients[clientID])])
      else
        Outcome(g, ClientLooked(req, None), [])
  }

  /** The checks on the client, the redirect URI and the PKCE parameters. */
  predicate ValidAuthorization(query: Values, client: Option<Client>) {
    && client.Some? && Get(query, "redirect_uri") in client.value.redirectURIs
    && Get(query, "response_type") == "code" && Get(query, "code_challenge_method") == "S256"
    && IsPkceValue(Get(query, "code_challenge")) && SingleValue(query, "client_id")
    && SingleValue(query, "redirect_uri") && SingleValue(query, "response_type")
    && SingleValue(query, "code_challenge") && SingleValue(query, "code_challenge_method")
  }

  function AuthorizationError(env: Env, query: Values, client: Option<Client>, resource: string): Option<Response> {
    if !ValidAuthorization(query, client) then Some(INVALID_REQUEST)
    else if !SingleValue(query, "state") || Get(query, "state") == "" then Some(INVALID_REQUEST)
    else if !SingleValue(query, "scope") || Get(query, "scope") != "mcp" then Some(Failure(400, "invalid_scope"))
    else if !SingleValue(query, "resource") || Get(query, "resource") != resource then Some(INVALID_TARGET)
    else if env.queryOf(Get(query, "redirect_uri")).None? then Some(INVALID_REQUEST)
    else None
  }

  function CodeFor(query: Values, resource: string): Code {
    Code(Get(query, "client_id"), Get(query, "redirect_uri"), Get(query, "code_challenge"), resource,
      Get(query, "scope"))
  }

  function AuthorizeDecide(env: Env, g: Grants, req: Request, client: Option<Client>): Outcome
    requires req.Authorize? && req.identity.Some?
  {
    var query, identity := req.query, req.identity.value;
    var error := AuthorizationError(env, query, client, identity.resource);
    if error.Some? then Refuse(g, error.value)
    else
      var target := Get(query, "redirect_uri");
      var registered := env.queryOf(target).value;
      if Get(query, "fixture_decision") == "deny" then
        Refuse(g, Redirect(target, Parameters(query, registered, identity.issuer, None)))
      else
        var code := Name(CodeKind, g.sequence + 1);
        var e := Minted(code, CodeFor(query, identity.resource));
        Outcome(Effect(g, e), Finished(Redirect(target, Parameters(query, registered, identity.issuer, Some(code)))),
          [e])
  }

  // ---- The token endpoint -------------------------------------------------------------

  /** The form of a code exchange agrees with the stored code; the target is checked afterwards. */
  predicate MatchesCode(env: Env, code: Code, form: Values) {
    && Get(form, "client_id") == code.clientID && Get(form, "redirect_uri") == code.redirectURI
    && SingleValue(form, "client_id") && SingleValue(form, "redirect_uri") && SingleValue(form, "code")
    && SingleValue(form, "code_verifier") && IsPkceValue(Get(form, "code_verifier"))
    && Challenge(env.sha256, Get(form, "code_verifier")) == code.challenge
  }

  predicate TargetsResource(form: Values, resource: string) {
    SingleValue(form, "resource") && Get(form, "resource") == resource
  }

  function ExchangeCode(env: Env, g: Grants, form: Values): Outcome {
    var value := Get(form, "code");
    if value !in g.codes || value in g.usedCodes then Refuse(g, INVALID_GRANT)
    else
      var code := g.codes[value];
      if !MatchesCode(env, code, form) then Refuse(g, INVALID_GRANT)
      else if !TargetsResource(form, code.resource) then Refuse(g, INVALID_TARGET)
      else
        var access, refresh := Name(AccessKind, g.sequence + 1), Name(RefreshKind, g.sequence + 2);
        var e := Redeemed(value, code, Get(form, "code_verifier"), access, refresh);
        Outcome(Effect(g, e), Finished(TokenPair(access, refresh, code.scope)), [e])
  }

  function ExchangeRefresh(g: Grants, form: Values): Outcome {
    var value := Get(form, "refresh_token");
    if value in g.refresh && value !in g.usedRefresh && SingleValue(form, "client_id")
       && Get(form, "client_id") == g.refresh[value].clientID && SingleValue(form, "refresh_token")
    then
      var grant := g.refresh[value];
      if !TargetsResource(form, grant.resource) then Refuse(g, INVALID_TARGET)
      else
        var access, refresh := Name(AccessKind, g.sequence + 1), Name(RefreshKind, g.sequence + 2);
        var e := Rotated(value, grant, access, refresh);
        Outcome(Effect(g, e), Finished(TokenPair(access, refresh, grant.scope)), [e])
    else Refuse(g, INVALID_GRANT)
  }

  function TokenRequest(env: Env, g: Grants, req: Request): Outcome
    requires req.Token?
  {
    if req.http.verb != "POST" then Refuse(g, NOT_ALLOWED)
    else if req.form.None? then Refuse(g, INVALID_REQUEST)
    else
      var form := req.form.value;
      if req.http.authorization != "" || ("client_secret" in form && |form["client_secret"]| != 0)
         || !SingleValue(form, "grant_type") || !SingleValue(form, "client_id") || Get(form, "client_id") == ""
      then Refuse(g, INVALID_REQUEST)
      else if Get(form, "grant_type") == "authorization_code" then ExchangeCode(env, g, form)
      else if Get(form, "grant_type") == "refresh_token" then ExchangeRefresh(g, form)
      else Refuse(g, Failure(400, "unsupported_grant_type"))
  }

  // ---- The bearer check ---------------------------------------------------------------

  const BEARER := "Bearer "

  predicate HasBearer(http: Http) {
    |http.authorization| >= |BEARER| && http.authorization[..|BEARER|] == BEARER
  }

  function BearerCheck(g: Grants, req: Request): Outcome
    requires req.Mcp?
  {
    if !HasBearer(req.http) then Refuse(g, INVALID_TOKEN)
    else if req.identity.None? then Refuse(g, SERVER_ERROR)
    else
      var token := req.http.authorization[|BEARER|..];
      if token !in g.access || g.access[token].resource != req.identity.value.resource then Refuse(g, INVALID_TOKEN)
      else Outcome(g, BearerAccepted(req), [Admitted(token, g.access[token])])
  }

  // ---- The region a handler executes next -----------------------------------------------

  /** Threads whose request is of the kind their position calls for. */
  predicate WellPlaced(t: Thread) {
    match t
    case PutChecked(req, _) => req.Manage?
    case ClientLooked(req, _) => req.Authorize? && req.identity.Some?
    case BearerAccepted(req) => req.Mcp?
    case Recorded(req) => !req.ResetAll?
    case _ => true
  }

  function Region(env: Env, g: Grants, t: Thread): Outcome
    requires WellPlaced(t)
  {
    match t
    case Arrived(req) =>
      if !req.ResetAll? then Outcome(g, Recorded(req), [])
      else if req.http.verb != "DELETE" then Refuse(g, NOT_ALLOWED)
      else Outcome(Effect(g, Reset), Finished(Status(204)), [Reset])
    case Recorded(req) => (match req
      case ProtectedResource(http) => Refuse(g, if http.verb != "GET" then NOT_ALLOWED else ServerMetadata)
      case AuthorizationServer(http) => Refuse(g, if http.verb != "GET" then NOT_ALLOWED else ServerMetadata)
      case Register(_, _, _) => RegisterClient(env, g, req)
      case Manage(_, _, _, _) => ManageClient(g, req)
      case Authorize(_, _, _) => AuthorizeLookup(g, req)
      case Token(_, _) => TokenRequest(env, g, req)
      case Mcp(_, _, _) => BearerCheck(g, req))
    case PutChecked(req, token) => UpdateClient(env, g, req, token)
    case ClientLooked(req, client) => AuthorizeDecide(env, g, req, client)
    case BearerAccepted(req) =>
      if req.envelope.Unreadable? then Refuse(g, INVALID_REQUEST) else Outcome(g, Finished(Forwarded), [])
    case Finished(_) => Outcome(g, t, [])
  }

  function Rank(t: Thread): nat {
    match t
    case Arrived(_) => 3
    case Recorded(_) => 2
    case Finished(_) => 0
    case _ => 1
  }

  lemma RegistrationEnds(env: Env, g: Grants, req: Request, token: string)
    ensures req.Register? ==> RegisterClient(env, g, req).next.Finished?
    ensures req.Manage? ==> UpdateClient(env, g, req, token).next.Finished?
    ensures req.Manage? ==> var t := ManageClient(g, req).next; t.Finished? || (t.PutChecked? && t.req == req)
  {
    hide Name, Effect, StrictJson.StrictDecode, ValidRedirectURIs, AcceptableUpdate;
  }

  lemma AuthorizationEnds(env: Env, g: Grants, req: Request, client: Option<Client>)
    ensures req.Authorize? ==>
              var t := AuthorizeLookup(g, req).next;
              t.Finished? || (t.ClientLooked? && t.req == req && req.identity.Some?)
    ensures req.Authorize? && req.identity.Some? ==> AuthorizeDecide(env, g, req, client).next.Finished?
    ensures req.Token? ==> TokenRequest(env, g, req).next.Finished?
    ensures req.Mcp? ==> var t := BearerCheck(g, req).next; t.Finished? || (t.BearerAccepted? && t.req == req)
  {
    hide Name, Effect, Callback.Parameters, AuthorizationError, MatchesCode, TargetsResource;
  }

  /** A region hands on to one that fits the request, and every handler finishes after at most three. */
  lemma RegionAdvances(env: Env, g: Grants, t: Thread)
    requires WellPlaced(t)
    ensures WellPlaced(Region(env, g, t).next)
    ensures !t.Finished? ==> Rank(Region(env, g, t).next) < Rank(t)
  {
    hide RegisterClient, ManageClient, UpdateClient, AuthorizeLookup, AuthorizeDecide, TokenRequest, BearerCheck,
      Effect;
    match t
    case PutChecked(req, token) => RegistrationEnds(env, g, req, token);
    case ClientLooked(req, client) => AuthorizationEnds(env, g, req, client);
    case Recorded(req) =>
      RegistrationEnds(env, g, req, "");
      AuthorizationEnds(env, g, req, None);
    case _ =>
  }

  // ---- What commits, whatever the answer ------------------------------------------------

  /** Registration commits on good metadata alone; an identity error after that still answers `server_error`. */
  lemma RegistrationCommits(env: Env, g: Grants, req: Request)
    requires req.Register?
    ensures var r := RegisterClient(env, g, req);
            var decoded := StrictDecode(req.body, REGISTRATION_FIELDS, REGISTRATION_ZERO);
            && (r.grants != g <==>
                req.http.verb == "POST" && decoded.Some?
                && TextOf(decoded.value, "token_endpoint_auth_method") == "none"
                && ValidRedirectURIs(env, TextsOf(decoded.value, "redirect_uris")))
            && (r.next.response.ClientInformation? <==> r.grants != g && req.identity.Some?)
            && (r.grants != g && req.identity.None? ==> r.next.response == SERVER_ERROR)
  {
    hide Name, StrictJson.StrictDecode, ValidRedirectURIs;
  }

  /**
   The strict check does not cover `client_id`: an update whose member of that exact name says something else commits,
   in any state where the client is registered, if a differently spelled member after it names the client.
   */
  lemma UpdateUnderOtherSpelling(env: Env, g: Grants, http: Http, identity: Identity, clientID: string, other: string,
                                 uri: string, token: string)
    requires '#' !in uri && env.absoluteHttpUri(uri) && Holds(g.registrationTokens, clientID, token)
    ensures var doc := TwoIds(other, clientID, uri);
            && ExactLookup(doc.members, "client_id") == Some(JString(other))
            && Updates(env, g, Manage(http, Some(identity), clientID, doc), token, uri)
  {
    hide StrictDecode, TwoIds, ExactLookup, TextOf, TextsOf, Name, Effect;
    TwoIdsDecode(other, clientID, uri);
    assert forall x :: x in [uri] ==> x == uri;
  }

  /**
   Nor `grant_types`: an update whose list of that exact name has nothing but nulls commits, if a list under another
   spelling before it has the two values.
   */
  lemma UpdateOverNulls(env: Env, g: Grants, http: Http, identity: Identity, clientID: string, uri: string,
      token: string)
    requires '#' !in uri && env.absoluteHttpUri(uri) && Holds(g.registrationTokens, clientID, token)
    ensures var doc := TwoLists(clientID, uri);
            && ExactLookup(doc.members, "grant_types") == Some(JArray([JNull, JNull]))
            && Updates(env, g, Manage(http, Some(identity), clientID, doc), token, uri)
  {
    hide StrictDecode, TwoLists, ExactLookup, TextOf, TextsOf, Name, Effect;
    TwoListsDecode(clientID, uri);
    assert forall x :: x in [uri] ==> x == uri;
  }

  /** The update commits: one event, and the client gets the URI and the next token. */
  predicate Updates(env: Env, g: Grants, req: Request, token: string, uri: string)
    requires req.Manage?
  {
    var r := UpdateClient(env, g, req, token);
    && r.events == [Updated(req.clientID, token, Name(RegistrationKind, g.sequence + 1), Client([uri]))]
    && r.next.response.ClientInformation?
  }

  /** The parameters that have to be given exactly once, and what they have to say. */
  predicate Says(query: Values, key: string, value: string) {
    key in query && query[key] == [value]
  }

  /** What an authorization request must be, for the client as looked up. */
  ghost predicate Authorizable(env: Env, query: Values, client: Option<Client>, resource: string) {
    exists uri, challenge, state ::
      && client.Some? && uri in client.value.redirectURIs && env.queryOf(uri).Some?
      && IsPkceValue(challenge) && state != ""
      && SingleValue(query, "client_id") && Says(query, "redirect_uri", uri) && Says(query, "state", state)
      && Says(query, "response_type", "code") && Says(query, "scope", "mcp") && Says(query, "resource", resource)
      && Says(query, "code_challenge", challenge) && Says(query, "code_challenge_method", "S256")
  }

  lemma SaysOnce(query: Values, key: string, value: string)
    ensures Says(query, key, value) <==> SingleValue(query, key) && Get(query, key) == value
  {}

  /**
   `authorize` raises no error for exactly these requests, and then redirects to the registered URI that was asked for.
   */
  lemma AuthorizationGranted(env: Env, g: Grants, req: Request, client: Option<Client>)
    requires req.Authorize? && req.identity.Some?
    ensures AuthorizeDecide(env, g, req, client).next.response.Redirect? <==>
            Authorizable(env, req.query, client, req.identity.value.resource)
    ensures AuthorizeDecide(env, g, req, client).events != [] <==>
            Authorizable(env, req.query, client, req.identity.value.resource)
              && Get(req.query, "fixture_decision") != "deny"
  {
    hide Name, Effect, Callback.Parameters, Says, IsPkceValue, SingleValue, Get;
    var query, resource := req.query, req.identity.value.resource;
    SaysOnce(query, "redirect_uri", Get(query, "redirect_uri"));
    SaysOnce(query, "state", Get(query, "state"));
    SaysOnce(query, "code_challenge", Get(query, "code_challenge"));
    SaysOnce(query, "response_type", "code");
    SaysOnce(query, "scope", "mcp");
    SaysOnce(query, "resource", resource);
    SaysOnce(query, "code_challenge_method", "S256");
    forall uri, challenge, state
      | Says(query, "redirect_uri", uri) && Says(query, "state", state) && Says(query, "code_challenge", challenge)
      ensures SingleValue(query, "redirect_uri") && Get(query, "redirect_uri") == uri
      ensures SingleValue(query, "state") && Get(query, "state") == state
      ensures SingleValue(query, "code_challenge") && Get(query, "code_challenge") == challenge
    {
      SaysOnce(query, "redirect_uri", uri);
      SaysOnce(query, "state", state);
      SaysOnce(query, "code_challenge", challenge);
    }
  }

  /**
   Whether `authorize` mints does not depend on the state it mints in: a client deleted since the lookup gets its code.
   */
  lemma MintingIgnoresDeletion(env: Env, g: Grants, h: Grants, req: Request, client: Option<Client>)
    requires req.Authorize? && req.identity.Some?
    ensures AuthorizeDecide(env, g, req, client).events != [] <==> AuthorizeDecide(env, h, req, client).events != []
    ensures AuthorizeDecide(env, g, req, client).events != [] ==>
              client.Some? && Get(req.query, "redirect_uri") in client.value.redirectURIs
  {
    hide Name, Callback.Parameters, Effect;
  }

  // ---- What the exchanges accept --------------------------------------------------------

  /** The form an honest client sends for a code it received. */
  predicate HonestForm(form: Values, code: string, record: Code, verifier: string) {
    && SingleValue(form, "code") && Get(form, "code") == code
    && SingleValue(form, "client_id") && Get(form, "client_id") == record.clientID
    && SingleValue(form, "redirect_uri") && Get(form, "redirect_uri") == record.redirectURI
    && SingleValue(form, "resource") && Get(form, "resource") == record.resource
    && SingleValue(form, "code_verifier") && Get(form, "code_verifier") == verifier
  }

  /** A form that presents a live code with everything it was minted for and a verifier behind its challenge. */
  ghost predicate Redeems(env: Env, g: Grants, form: Values) {
    exists code, verifier :: code in g.codes && HonestForm(form, code, g.codes[code], verifier)
      && IsPkceValue(verifier) && Challenge(env.sha256, verifier) == g.codes[code].challenge
  }

  ghost predicate Rotates(g: Grants, form: Values) {
    exists token :: token in g.refresh
      && SingleValue(form, "refresh_token") && Get(form, "refresh_token") == token
      && SingleValue(form, "client_id") && Get(form, "client_id") == g.refresh[token].clientID
      && SingleValue(form, "resource") && Get(form, "resource") == g.refresh[token].resource
  }

  /**
   A code exchange succeeds exactly for such a form; the test for replay adds nothing, because live and used codes are
   apart.
   */
  lemma ExchangeCodeAccepts(env: Env, g: Grants, form: Values)
    requires Inv(g)
    ensures ExchangeCode(env, g, form).next.response.TokenPair? <==> Redeems(env, g, form)
  {
    hide Name, Challenge, IsPkceValue, Effect, NamedWithin, DistinctTokens;
    if ExchangeCode(env, g, form).next.response.TokenPair? {
      var code := Get(form, "code");
      assert HonestForm(form, code, g.codes[code], Get(form, "code_verifier"));
    }
  }

  lemma ExchangeRefreshAccepts(g: Grants, form: Values)
    requires Inv(g)
    ensures ExchangeRefresh(g, form).next.response.TokenPair? <==> Rotates(g, form)
  {
    hide Name, Effect, NamedWithin, DistinctTokens;
  }

  /** What the token endpoint asks of a request before it looks at the grant: a public client, named once. */
  predicate PublicClientRequest(req: Request, grantType: string)
    requires req.Token?
  {
    && req.http.verb == "POST" && req.http.authorization == "" && req.form.Some?
    && (var form := req.form.value;
        && ("client_secret" in form ==> form["client_secret"] == [])
        && SingleValue(form, "grant_type") && Get(form, "grant_type") == grantType
        && SingleValue(form, "client_id") && Get(form, "client_id") != "")
  }

  /** Exactly which requests the token endpoint answers with tokens, in a state where the invariant holds. */
  lemma TokensGranted(env: Env, g: Grants, req: Request)
    requires req.Token? && Inv(g)
    ensures TokenRequest(env, g, req).next.response.TokenPair? <==>
            || (PublicClientRequest(req, "authorization_code") && Redeems(env, g, req.form.value))
            || (PublicClientRequest(req, "refresh_token") && Rotates(g, req.form.value))
  {
    hide ExchangeCode, ExchangeRefresh, Redeems, Rotates, Inv;
    if req.form.Some? {
      ExchangeCodeAccepts(env, g, req.form.value);
      ExchangeRefreshAccepts(g, req.form.value);
    }
  }
}
