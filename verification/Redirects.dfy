/** Where the server ever sends a browser: to registered, absolute, fragment-free URIs only. */
module RedirectSafety {
  import opened Options
  import opened Ledger
  import opened UrlValues
  import opened Handlers
  import opened Schedule

  predicate SafeUri(env: Env, uri: string) {
    '#' !in uri && env.absoluteHttpUri(uri)
  }

  ghost predicate SafeGrants(env: Env, g: Grants) {
    && (forall c :: c in g.clients ==> ValidRedirectURIs(env, g.clients[c].redirectURIs))
    && (forall c :: c in g.codes ==> SafeUri(env, g.codes[c].redirectURI))
  }

  /** A client in the hands of a handler is a registered one; a redirect that was answered went to a safe URI. */
  ghost predicate SafeThread(env: Env, t: Thread) {
    && (t.ClientLooked? && t.client.Some? ==> ValidRedirectURIs(env, t.client.value.redirectURIs))
    && (t.Finished? && t.response.Redirect? ==> SafeUri(env, t.response.target))
  }

  ghost predicate Safe(env: Env, w: World) {
    SafeGrants(env, w.server.grants) && forall id :: id in w.threads ==> SafeThread(env, w.threads[id])
  }

  ghost predicate SafeOutcome(env: Env, r: Outcome) {
    SafeGrants(env, r.grants) && SafeThread(env, r.next)
  }

  lemma RegistrationIsSafe(env: Env, g: Grants, req: Request)
    requires SafeGrants(env, g) && req.Register?
    ensures SafeOutcome(env, RegisterClient(env, g, req))
  {
    hide Names.Name, StrictJson.StrictDecode, ValidRedirectURIs;
  }

  lemma ManagementIsSafe(env: Env, g: Grants, req: Request)
    requires SafeGrants(env, g) && req.Manage?
    ensures SafeOutcome(env, ManageClient(g, req))
  {
    hide Names.Name, ValidRedirectURIs;
  }

  lemma UpdateIsSafe(env: Env, g: Grants, req: Request, token: string)
    requires SafeGrants(env, g) && req.Manage?
    ensures SafeOutcome(env, UpdateClient(env, g, req, token))
  {
    hide Names.Name, StrictJson.StrictDecode, ValidRedirectURIs;
  }

  lemma DecisionIsSafe(env: Env, g: Grants, req: Request, client: Option<Client>)
    requires SafeGrants(env, g) && req.Authorize? && req.identity.Some?
    requires client.Some? ==> ValidRedirectURIs(env, client.value.redirectURIs)
    ensures SafeOutcome(env, AuthorizeDecide(env, g, req, client))
  {
    hide Names.Name, Callback.Parameters, Pkce.IsPkceValue;
    var target := Get(req.query, "redirect_uri");
    if ValidAuthorization(req.query, client) {
      assert SafeUri(env, target);
    }
  }

  lemma ExchangeIsSafe(env: Env, g: Grants, req: Request)
    requires SafeGrants(env, g) && req.Token?
    ensures SafeOutcome(env, TokenRequest(env, g, req))
  {
    hide Names.Name, MatchesCode, TargetsResource, ValidRedirectURIs;
  }

  lemma RegionIsSafe(env: Env, g: Grants, t: Thread)
    requires SafeGrants(env, g) && SafeThread(env, t) && WellPlaced(t)
    ensures SafeOutcome(env, Region(env, g, t))
  {
    hide RegisterClient, ManageClient, UpdateClient, AuthorizeDecide, TokenRequest, ValidRedirectURIs, Names.Name;
    match t
    case Recorded(req) =>
      if req.Register? {
        RegistrationIsSafe(env, g, req);
      } else if req.Manage? {
        ManagementIsSafe(env, g, req);
      } else if req.Token? {
        ExchangeIsSafe(env, g, req);
      }
    case PutChecked(req, token) => UpdateIsSafe(env, g, req, token);
    case ClientLooked(req, client) => DecisionIsSafe(env, g, req, client);
    case _ =>
  }

  /**
   In every world of every interleaving all registered URIs are valid, and so is every URI a code was minted for and
   every URI a browser was ever redirected to, even for clients changed or deleted in the meantime.
   */
  lemma {:induction false} RedirectsAreSafe(env: Env, choices: seq<Choice>)
    ensures Safe(env, Run(env, choices))
  {
    hide Region, SafeGrants, SafeThread;
    if choices == [] {
      NothingIsSafe(env);
    } else {
      var w := Run(env, choices[..|choices| - 1]);
      RedirectsAreSafe(env, choices[..|choices| - 1]);
      match choices[|choices| - 1]
      case Spawn(_, req) => ArrivalIsSafe(env, req);
      case Step(id) =>
        if id in w.threads {
          RegionIsSafe(env, w.server.grants, w.threads[id]);
        }
    }
  }

  lemma NothingIsSafe(env: Env)
    ensures SafeGrants(env, EMPTY)
  {}

  lemma ArrivalIsSafe(env: Env, req: Request)
    ensures SafeThread(env, Arrived(req))
  {}
}
