/**
 Runs of the server: any number of handlers in flight, interleaved at their locked regions in any order, resets
 included. A run is the list of scheduling choices; everything else is determined by it.
 */
module Schedule {
  import opened Options
  import opened Names
  import opened Pkce
  import opened Ledger
  import opened History
  import opened Families
  import opened UrlValues
  import opened Handlers

  datatype Capture = Capture(endpoint: string, verb: string, accept: string, contentType: string,
                             protocolVersion: string, authorization: bool)

  /** Everything the server holds behind its mutex. */
  datatype State = State(grants: Grants, counters: map<string, nat>, captures: seq<Capture>)

  const START := State(EMPTY, map[], [])

  function Bump(counters: map<string, nat>, key: string): map<string, nat> {
    counters[key := (if key in counters then counters[key] else 0) + 1]
  }

  function Endpoint(req: Request): string {
    match req
    case ProtectedResource(_) => "protected_resource_metadata"
    case AuthorizationServer(_) => "authorization_server_metadata"
    case Register(_, _, _) => "register"
    case Manage(http, _, _, _) =>
      if http.verb == "PUT" then "registration_update"
      else if http.verb == "DELETE" then "registration_delete"
      else "registration_management"
    case Authorize(_, _, _) => "authorize"
    case Token(_, _) => "token"
    case Mcp(_, _, _) => "mcp"
    case ResetAll(_) => "reset"
  }

  function CaptureOf(http: Http, endpoint: string): Capture {
    Capture(endpoint, http.verb, http.accept, http.contentType, http.protocolVersion, http.authorization != "")
  }

  function Record(s: State, http: Http, endpoint: string): State {
    s.(counters := Bump(s.counters, endpoint), captures := s.captures + [CaptureOf(http, endpoint)])
  }

  function MethodKey(called: string): string {
    "mcp:" + called
  }

  /** The request evidence after the region: `record` for a new request, the method count for an admitted MCP call. */
  function Evidence(s: State, t: Thread): State {
    match t
    case Arrived(req) =>
      if !req.ResetAll? then Record(s, req.http, Endpoint(req))
      else if req.http.verb == "DELETE" then START
      else s
    case BearerAccepted(req) =>
      if req.Mcp? && req.envelope.Envelope? && req.envelope.called != ""
      then s.(counters := Bump(s.counters, MethodKey(req.envelope.called)))
      else s
    case _ => s
  }

  function After(env: Env, s: State, t: Thread): State
    requires WellPlaced(t)
  {
    Evidence(s, t).(grants := Region(env, s.grants, t).grants)
  }

  // ---- Worlds and runs ------------------------------------------------------------------

  /** The server, the handlers in flight (or finished), and the ledger of what has happened. */
  datatype World = World(server: State, threads: map<nat, Thread>, log: Log)

  /** A new request comes in, or a handler executes its next region. */
  datatype Choice = Spawn(id: nat, req: Request) | Step(id: nat)

  predicate AllWellPlaced(threads: map<nat, Thread>) {
    forall id :: id in threads ==> WellPlaced(threads[id])
  }

  function Advance(env: Env, w: World, c: Choice): World
    requires AllWellPlaced(w.threads)
  {
    match c
    case Spawn(id, req) => if id in w.threads then w else w.(threads := w.threads[id := Arrived(req)])
    case Step(id) =>
      if id !in w.threads then w
      else
        var r := Region(env, w.server.grants, w.threads[id]);
        World(After(env, w.server, w.threads[id]), w.threads[id := r.next], w.log + r.events)
  }

  function Run(env: Env, choices: seq<Choice>): (w: World)
    ensures AllWellPlaced(w.threads)
  {
    if choices == [] then World(START, map[], [])
    else
      var w := Run(env, choices[..|choices| - 1]);
      var next := Advance(env, w, choices[|choices| - 1]);
      assert AllWellPlaced(next.threads) by {
        var c := choices[|choices| - 1];
        if c.Step? && c.id in w.threads {
          RegionAdvances(env, w.server.grants, w.threads[c.id]);
        }
      }
      next
  }

  // ---- The handlers refine the ledger -----------------------------------------------------

  /** A handler past the client lookup really saw the client it carries. */
  ghost predicate LookupHappened(log: Log, t: Thread) {
    t.ClientLooked? && t.req.Authorize? && t.client.Some? ==>
      exists j :: 0 <= j < |log| && log[j] == Seen(Get(t.req.query, "client_id"), t.client.value)
  }

  /** A region either leaves the credential state alone or is one enabled ledger event. */
  ghost predicate IsLedgerStep(sha256: string -> Digest, log: Log, r: Outcome) {
    var g := Replay(log);
    || (r.events == [] && r.grants == g)
    || (|r.events| == 1 && Enabled(sha256, log, r.events[0]) && r.grants == Effect(g, r.events[0]))
  }

  lemma MintRefines(env: Env, log: Log, t: Thread)
    requires WellPlaced(t) && t.ClientLooked? && LookupHappened(log, t)
    ensures IsLedgerStep(env.sha256, log, Region(env, Replay(log), t))
  {
    hide Name, Callback.Parameters;
    var r := Region(env, Replay(log), t);
    if r.events != [] {
      var record := CodeFor(t.req.query, t.req.identity.value.resource);
      var j :| 0 <= j < |log| && log[j] == Seen(Get(t.req.query, "client_id"), t.client.value);
      assert RegistrationSeen(log, record);
    }
  }

  lemma ManagementRefines(env: Env, log: Log, req: Request, token: string)
    ensures req.Register? ==> IsLedgerStep(env.sha256, log, RegisterClient(env, Replay(log), req))
    ensures req.Manage? ==> IsLedgerStep(env.sha256, log, ManageClient(Replay(log), req))
    ensures req.Manage? ==> IsLedgerStep(env.sha256, log, UpdateClient(env, Replay(log), req, token))
  {
    hide Name, StrictJson.StrictDecode, StrictJson.TextOf, StrictJson.TextsOf, ValidRedirectURIs, AcceptableUpdate,
      IsPkceValue, Challenge, RegistrationSeen;
  }

  lemma LookupsRefine(env: Env, log: Log, req: Request)
    ensures req.Authorize? ==> IsLedgerStep(env.sha256, log, AuthorizeLookup(Replay(log), req))
    ensures req.Mcp? ==> IsLedgerStep(env.sha256, log, BearerCheck(Replay(log), req))
  {
    hide Name;
  }

  lemma TokenRefines(env: Env, log: Log, req: Request)
    requires req.Token?
    ensures IsLedgerStep(env.sha256, log, TokenRequest(env, Replay(log), req))
  {
    hide Name, Challenge, IsPkceValue, Effect, Replay;
  }

  lemma RegionRefines(env: Env, log: Log, t: Thread)
    requires WellPlaced(t) && LookupHappened(log, t)
    ensures IsLedgerStep(env.sha256, log, Region(env, Replay(log), t))
  {
    hide RegisterClient, ManageClient, UpdateClient, AuthorizeLookup, AuthorizeDecide, TokenRequest, BearerCheck, Name;
    match t
    case ClientLooked(_, _) => MintRefines(env, log, t);
    case PutChecked(req, token) => ManagementRefines(env, log, req, token);
    case Recorded(req) =>
      ManagementRefines(env, log, req, "");
      LookupsRefine(env, log, req);
      if req.Token? {
        TokenRefines(env, log, req);
      }
    case Arrived(_) =>
    case BearerAccepted(_) =>
    case Finished(_) =>
  }

  ghost predicate WorldInv(env: Env, w: World) {
    && ValidLog(env.sha256, w.log)
    && w.server.grants == Replay(w.log)
    && AllWellPlaced(w.threads)
    && (forall id :: id in w.threads ==> LookupHappened(w.log, w.threads[id]))
  }

  lemma LookupsSurvive(log: Log, more: seq<Event>, t: Thread)
    requires LookupHappened(log, t)
    ensures LookupHappened(log + more, t)
  {
    if t.ClientLooked? && t.req.Authorize? && t.client.Some? {
      var j :| 0 <= j < |log| && log[j] == Seen(Get(t.req.query, "client_id"), t.client.value);
      assert (log + more)[j] == log[j];
    }
  }

  lemma OnlyLookupsLook(env: Env, g: Grants, t: Thread)
    requires WellPlaced(t) && Region(env, g, t).next.ClientLooked?
    ensures t.Recorded? && t.req.Authorize?
  {
    hide Name, Effect, StrictJson.StrictDecode, ValidRedirectURIs, AcceptableUpdate, Callback.Parameters,
      AuthorizationError, MatchesCode, TargetsResource;
  }

  lemma NextLookupHappened(env: Env, log: Log, t: Thread)
    requires WellPlaced(t)
    ensures LookupHappened(log + Region(env, Replay(log), t).events, Region(env, Replay(log), t).next)
  {
    var r := Region(env, Replay(log), t);
    if r.next.ClientLooked? && r.next.client.Some? {
      OnlyLookupsLook(env, Replay(log), t);
      assert (log + r.events)[|log|] == r.events[0];
    }
  }

  lemma StepKeepsWorldInv(env: Env, w: World, id: nat)
    requires WorldInv(env, w) && id in w.threads
    ensures WorldInv(env, Advance(env, w, Step(id)))
  {
    var t := w.threads[id];
    var r := Region(env, w.server.grants, t);
    var next := Advance(env, w, Step(id));
    RegionRefines(env, w.log, t);
    RegionAdvances(env, w.server.grants, t);
    NextLookupHappened(env, w.log, t);
    hide Region, Enabled, Effect, LookupHappened;
    if r.events == [] {
      assert w.log + r.events == w.log;
    } else {
      AppendReplays(env.sha256, w.log, r.events[0]);
      assert r.events == [r.events[0]];
    }
    forall k | k in next.threads ensures LookupHappened(next.log, next.threads[k]) {
      if k != id {
        LookupsSurvive(w.log, r.events, w.threads[k]);
      }
    }
  }

  /** In every world of every run the server's credentials are what replaying a valid ledger gives. */
  lemma {:induction false} RunsRefineLedger(env: Env, choices: seq<Choice>)
    ensures WorldInv(env, Run(env, choices))
  {
    if choices != [] {
      var w := Run(env, choices[..|choices| - 1]);
      RunsRefineLedger(env, choices[..|choices| - 1]);
      match choices[|choices| - 1]
      case Spawn(_, _) =>
      case Step(id) =>
        if id in w.threads {
          StepKeepsWorldInv(env, w, id);
        }
    }
  }
}
