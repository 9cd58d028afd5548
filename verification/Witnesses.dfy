/** Runs that exist: what the theorems about runs warn of does happen. */
module Witnesses {
  import opened Options
  import opened Names
  import opened Pkce
  import opened Ledger
  import opened StrictJson
  import opened OtherSpellings
  import opened UrlValues
  import opened Handlers
  import opened Schedule
  import opened Runs
  import opened Minting
  import opened Updating
  import S = Server
  import opened E = EvidenceAgreement

  // ---- Serving one request inside a run ------------------------------------------------------------

  function Steps(id: nat, n: nat): seq<Choice> {
    if n == 0 then [] else [Step(id)] + Steps(id, n - 1)
  }

  lemma FinishedStays(env: Env, s: State, response: Response)
    ensures After(env, s, Finished(response)) == s
      && Region(env, s.grants, Finished(response)).next == Finished(response)
  {}

  /** Enough steps of one handler in a row are its completion without interference. */
  lemma {:induction false} RunToEnd(env: Env, choices: seq<Choice>, id: nat, n: nat)
    requires id in Run(env, choices).threads && Rank(Run(env, choices).threads[id]) <= n
    ensures var w, after := Run(env, choices), Run(env, choices + Steps(id, n));
            var end := Complete(env, w.server, w.threads[id]);
            after.server == end.0 && after.threads == w.threads[id := Finished(end.1)]
    decreases n
  {
    hide Run, Region, After;
    var w := Run(env, choices);
    var t := w.threads[id];
    if n == 0 {
      assert choices + Steps(id, n) == choices;
      assert w.threads[id := t] == w.threads;
    } else {
      var next := choices + [Step(id)];
      RunOneMore(env, choices, Step(id));
      assert choices + Steps(id, n) == next + Steps(id, n - 1);
      if t.Finished? {
        FinishedStays(env, w.server, t.response);
      } else {
        RegionAdvances(env, w.server.grants, t);
      }
      RunToEnd(env, next, id, n - 1);
    }
  }

  function Served(id: nat, req: Request): seq<Choice> {
    [Spawn(id, req)] + Steps(id, 3)
  }

  /** Any run can go on by serving one more request alone. */
  lemma ServedInRun(env: Env, choices: seq<Choice>, id: nat, req: Request)
    requires id !in Run(env, choices).threads
    ensures var w, after := Run(env, choices), Run(env, choices + Served(id, req));
            var end := Serve(env, w.server, req);
            after.server == end.0 && after.threads == w.threads[id := Finished(end.1)]
  {
    hide Run, Complete;
    var next := choices + [Spawn(id, req)];
    RunOneMore(env, choices, Spawn(id, req));
    assert choices + Served(id, req) == next + Steps(id, 3);
    RunToEnd(env, next, id, 3);
  }

  // ---- The requests -----------------------------------------------------------------------------------

  /** A URI that the fixture registers and redirects to. */
  predicate Usable(env: Env, uri: string) {
    '#' !in uri && env.absoluteHttpUri(uri) && env.queryOf(uri).Some?
  }

  const IDENTITY := Identity("issuer", "resource")

  /** A request with this method and authorization, and no other header that matters. */
  function Plainly(verb: string, authorization: string): Http {
    Http(verb, "", "", "", authorization)
  }

  function Registration(uri: string): Request {
    Register(Plainly("POST", ""), Some(IDENTITY), Object([
      Member("redirect_uris", Strings([uri])), Member("token_endpoint_auth_method", JString("none"))], false))
  }

  lemma RegistrationFields()
    ensures REGISTRATION_FIELDS == ["redirect_uris", "token_endpoint_auth_method"]
    ensures SECURITY_FIELDS == REGISTRATION_FIELDS
    ensures "redirect_uris" != "token_endpoint_auth_method"
    ensures REGISTRATION_ZERO.Keys == {"redirect_uris", "token_endpoint_auth_method"}
    ensures REGISTRATION_ZERO["redirect_uris"] == Texts([], [])
    ensures REGISTRATION_ZERO["token_endpoint_auth_method"] == Text("")
  {
    assert |"redirect_uris"| == 13 && |"token_endpoint_auth_method"| == 26;
  }

  lemma RegistrationDecodes(uri: string)
    ensures var r := StrictDecode(Registration(uri).body, REGISTRATION_FIELDS, REGISTRATION_ZERO);
            r.Some? && TextOf(r.value, "token_endpoint_auth_method") == "none"
              && TextsOf(r.value, "redirect_uris") == [uri]
  {
    hide REGISTRATION_FIELDS, REGISTRATION_ZERO, SECURITY_FIELDS;
    var ms := Registration(uri).body.members;
    RegistrationFields();
    assert |ms[0].name| == 13 && |ms[1].name| == 26;
    assert forall f :: f in SECURITY_FIELDS ==> f == ms[0].name || f == ms[1].name;
    assert FieldFor(ms[0].name, REGISTRATION_FIELDS) == Some(ms[0].name)
      by { assert REGISTRATION_FIELDS[0] == ms[0].name; }
    assert FieldFor(ms[1].name, REGISTRATION_FIELDS) == Some(ms[1].name)
      by { assert REGISTRATION_FIELDS[1] == ms[1].name; }
    FillSucceeds(REGISTRATION_ZERO, ms, REGISTRATION_FIELDS);
    FillIsExactLookup(REGISTRATION_ZERO, ms, REGISTRATION_FIELDS, ms[0].name);
    FillIsExactLookup(REGISTRATION_ZERO, ms, REGISTRATION_FIELDS, ms[1].name);
    ExactIsUnique(ms, ms[0].name, 0);
    ExactIsUnique(ms, ms[1].name, 1);
    assert Store(Texts([], []), Strings([uri])).value.items == [uri];
  }

  /** Registration works in any state. */
  lemma Registers(env: Env, s: State, uri: string)
    requires Usable(env, uri)
    ensures var client, token := Name(ClientKind, s.grants.sequence + 1), Name(RegistrationKind, s.grants.sequence + 1);
            Serve(env, s, Registration(uri)).0.grants == Effect(s.grants, Registered(client, token, Client([uri])))
  {
    hide StrictDecode, TextOf, TextsOf, Name, Effect, Complete;
    var req := Registration(uri);
    RegistrationDecodes(uri);
    S.ServeRecorded(env, s, req);
    S.RegistrationAnswers(env, Record(s, req.http, "register"), req);
  }

  function Query(client: string, uri: string, challenge: string): Values {
    map["client_id" := [client], "redirect_uri" := [uri], "response_type" := ["code"], "code_challenge" := [challenge],
        "code_challenge_method" := ["S256"], "state" := ["s"], "scope" := ["mcp"], "resource" := [IDENTITY.resource]]
  }

  lemma QuerySays(client: string, uri: string, challenge: string)
    ensures var q := Query(client, uri, challenge);
            && Says(q, "client_id", client) && Says(q, "redirect_uri", uri) && Says(q, "response_type", "code")
            && Says(q, "code_challenge", challenge) && Says(q, "code_challenge_method", "S256") && Says(q, "state", "s")
            && Says(q, "scope", "mcp") && Says(q, "resource", IDENTITY.resource) && "fixture_decision" !in q
  {
    assert |"client_id"| == 9 && |"redirect_uri"| == 12 && |"response_type"| == 13 && |"code_challenge"| == 14;
    assert |"code_challenge_method"| == 21 && |"state"| == 5 && |"scope"| == 5 && |"resource"| == 8;
    assert "state"[1] == 't' && "scope"[1] == 'c' && |"fixture_decision"| == 16;
  }

  function Authorization(client: string, uri: string, challenge: string): Request {
    Authorize(Plainly("GET", ""), Some(IDENTITY), Query(client, uri, challenge))
  }

  /** The request is granted for the client it names, and the code is minted as asked, in whatever state. */
  lemma AuthorizationMints(env: Env, g: Grants, client: string, uri: string, challenge: string)
    requires Usable(env, uri) && IsPkceValue(challenge)
    ensures var req := Authorization(client, uri, challenge);
            var e := Minted(Name(CodeKind, g.sequence + 1), Code(client, uri, challenge, IDENTITY.resource, "mcp"));
            && AuthorizeDecide(env, g, req, Some(Client([uri]))).events == [e]
            && AuthorizeDecide(env, g, req, Some(Client([uri]))).grants == Effect(g, e)
  {
    hide Name, Effect, Callback.Parameters, IsPkceValue, Query, Says, Get, AuthorizationError;
    var req, info := Authorization(client, uri, challenge), Client([uri]);
    QuerySays(client, uri, challenge);
    SaysOnce(req.query, "client_id", client);
    SaysOnce(req.query, "redirect_uri", uri);
    SaysOnce(req.query, "code_challenge", challenge);
    SaysOnce(req.query, "scope", "mcp");
    NotSaid(req.query, "fixture_decision");
    assert Authorizable(env, req.query, Some(info), IDENTITY.resource);
    AuthorizationGranted(env, g, req, Some(info));
  }

  lemma NotSaid(query: Values, key: string)
    requires key !in query
    ensures Get(query, key) != "deny"
  {}

  lemma Authorizes(env: Env, s: State, client: string, uri: string, challenge: string)
    requires Usable(env, uri) && IsPkceValue(challenge) && Holds(s.grants.clients, client, Client([uri]))
    ensures Serve(env, s, Authorization(client, uri, challenge)).0.grants ==
            Effect(s.grants, Minted(Name(CodeKind, s.grants.sequence + 1),
              Code(client, uri, challenge, IDENTITY.resource, "mcp")))
  {
    hide Name, Effect, IsPkceValue, Query, Says, AuthorizeDecide, Complete;
    var req := Authorization(client, uri, challenge);
    AuthorizationMints(env, s.grants, client, uri, challenge);
    QuerySays(client, uri, challenge);
    SaysOnce(req.query, "client_id", client);
    S.ServeRecorded(env, s, req);
    S.AuthorizationAnswers(env, Record(s, req.http, "authorize"), req);
  }

  function Exchange(code: string, record: Code, verifier: string): Request {
    Token(Plainly("POST", ""), Some(Form(code, record, verifier)))
  }

  /** The honest form gets tokens, in whatever state the code is live. */
  lemma Exchanges(env: Env, s: State, code: string, record: Code, verifier: string)
    requires Inv(s.grants) && Holds(s.grants.codes, code, record) && record.clientID != ""
    requires IsPkceValue(verifier) && Challenge(env.sha256, verifier) == record.challenge
    ensures var access, refresh := Name(AccessKind, s.grants.sequence + 1), Name(RefreshKind, s.grants.sequence + 2);
            Serve(env, s, Exchange(code, record, verifier)).0.grants ==
            Effect(s.grants, Redeemed(code, record, verifier, access, refresh))
  {
    hide Name, Effect, IsPkceValue, Challenge, Inv, Form, Says, Get, SingleValue, Complete;
    var req := Exchange(code, record, verifier);
    var form := req.form.value;
    FormSays(code, record, verifier);
    SaysOnce(form, "grant_type", "authorization_code");
    SaysOnce(form, "client_id", record.clientID);
    SaysOnce(form, "code", code);
    SaysOnce(form, "redirect_uri", record.redirectURI);
    SaysOnce(form, "code_verifier", verifier);
    SaysOnce(form, "resource", record.resource);
    ExchangeCodeAccepts(env, s.grants, form);
    assert HonestForm(form, code, record, verifier);
    ServeToken(env, s, req);
    ExchangeEvent(env, s.grants, form);
  }

  lemma ExchangeEvent(env: Env, g: Grants, form: Values)
    requires ExchangeCode(env, g, form).next.response.TokenPair?
    ensures var code := Get(form, "code");
            var access, refresh := Name(AccessKind, g.sequence + 1), Name(RefreshKind, g.sequence + 2);
            code in g.codes && ExchangeCode(env, g, form).grants ==
            Effect(g, Redeemed(code, g.codes[code], Get(form, "code_verifier"), access, refresh))
  {
    hide Name, Effect, IsPkceValue, Challenge;
  }

  function Deletion(client: string, token: string): Request {
    Manage(Plainly("DELETE", "Bearer " + token), Some(IDENTITY), client, Malformed)
  }

  lemma Deletes(env: Env, s: State, n: nat, token: string)
    requires Holds(s.grants.registrationTokens, Name(ClientKind, n), token)
    ensures Serve(env, s, Deletion(Name(ClientKind, n), token)).0.grants ==
            Effect(s.grants, Deleted(Name(ClientKind, n), token))
  {
    hide Name, Effect, Complete;
    var req := Deletion(Name(ClientKind, n), token);
    ClientNames(n);
    S.ServeRecorded(env, s, req);
    S.ManagementAnswers(env, Record(s, req.http, "registration_delete"), req);
  }

  // ---- Two regions of a request, and then something else ------------------------------------------------

  function Begun(id: nat, req: Request): seq<Choice> {
    [Spawn(id, req)] + [Step(id)] + [Step(id)]
  }

  /** After its record and one more region the request is where that region leaves it. */
  lemma BegunInRun(env: Env, choices: seq<Choice>, id: nat, req: Request)
    requires id !in Run(env, choices).threads && !req.ResetAll?
    ensures var w, after := Run(env, choices), Run(env, choices + Begun(id, req));
            var r := Region(env, w.server.grants, Recorded(req));
            after.threads == w.threads[id := r.next] && after.server.grants == r.grants
  {
    hide Run, Region, After;
    var w := Run(env, choices);
    var a := choices + [Spawn(id, req)];
    var b := a + [Step(id)];
    RunOneMore(env, choices, Spawn(id, req));
    StepAdvances(env, a, id);
    RecordFirst(env, w.server, req);
    StepAdvances(env, b, id);
    GrantsAfter(env, Run(env, b).server, Recorded(req));
    assert choices + Begun(id, req) == b + [Step(id)];
  }

  lemma GrantsAfter(env: Env, s: State, t: Thread)
    requires WellPlaced(t)
    ensures After(env, s, t).grants == Region(env, s.grants, t).grants
  {
    hide Region, Evidence;
  }

  lemma RecordFirst(env: Env, s: State, req: Request)
    requires !req.ResetAll?
    ensures After(env, s, Arrived(req)).grants == s.grants && Region(env, s.grants, Arrived(req)).next == Recorded(req)
  {}

  /** Step `m` mints a code for a client that is not registered at that point, and nothing has been reset. */
  ghost predicate MintsForDeletedClient(env: Env, choices: seq<Choice>, m: nat) {
    && m < |choices| && |Emitted(env, choices, m)| == 1 && Emitted(env, choices, m)[0].Minted?
    && Emitted(env, choices, m)[0].record.clientID !in Run(env, choices[..m]).server.grants.clients
    && (exists x: nat :: x < m && DeletedAt(env, choices, x, Emitted(env, choices, m)[0].record.clientID))
    && forall x: nat :: !ResetAt(env, choices, x)
  }

  predicate NoResets(choices: seq<Choice>) {
    forall i :: 0 <= i < |choices| && choices[i].Spawn? ==> !choices[i].req.ResetAll?
  }

  lemma OnlyResetsReset(env: Env, g: Grants, t: Thread)
    requires WellPlaced(t) && !(t.Arrived? && t.req.ResetAll?)
    ensures Region(env, g, t).events != [Reset]
    ensures !Region(env, g, t).next.Arrived?
  {
    hide Name, Effect, StrictDecode, ValidRedirectURIs, AcceptableUpdate, Callback.Parameters, AuthorizationError,
      MatchesCode, TargetsResource;
  }

  lemma {:induction false} NobodyResets(env: Env, choices: seq<Choice>)
    requires NoResets(choices)
    ensures forall id :: id in Run(env, choices).threads && Run(env, choices).threads[id].Arrived? ==>
              !Run(env, choices).threads[id].req.ResetAll?
  {
    hide Region;
    if choices != [] {
      var init, c := choices[..|choices| - 1], choices[|choices| - 1];
      NobodyResets(env, init);
      var w := Run(env, init);
      if c.Step? && c.id in w.threads {
        OnlyResetsReset(env, w.server.grants, w.threads[c.id]);
      }
    }
  }

  lemma NoResetAt(env: Env, choices: seq<Choice>, x: nat)
    requires NoResets(choices)
    ensures !ResetAt(env, choices, x)
  {
    hide Run, Region;
    if x < |choices| {
      var w, c := Run(env, choices[..x]), choices[x];
      NobodyResets(env, choices[..x]);
      if c.Step? && c.id in w.threads {
        OnlyResetsReset(env, w.server.grants, w.threads[c.id]);
      }
    }
  }

  // ---- The runs -----------------------------------------------------------------------------------------

  function FirstClient(): string {
    Name(ClientKind, 1)
  }

  function FirstToken(): string {
    Name(RegistrationKind, 1)
  }

  function Opening(uri: string): seq<Choice> {
    Served(0, Registration(uri))
  }

  lemma EmptyRun(env: Env)
    ensures Run(env, []) == World(START, map[], [])
  {}

  /** A run that registers the first client. */
  lemma Opens(env: Env, uri: string)
    requires Usable(env, uri)
    ensures var w := Run(env, Opening(uri));
            && w.server.grants == Effect(EMPTY, Registered(FirstClient(), FirstToken(), Client([uri])))
            && w.threads.Keys == {0}
  {
    hide Run, Serve, Name, Effect, Served;
    EmptyRun(env);
    assert [] + Opening(uri) == Opening(uri);
    ServedInRun(env, [], 0, Registration(uri));
    Registers(env, START, uri);
  }

  lemma LooksUp(env: Env, g: Grants, client: string, info: Client, uri: string, challenge: string)
    requires Holds(g.clients, client, info)
    ensures var r := Region(env, g, Recorded(Authorization(client, uri, challenge)));
            r.grants == g && r.next == ClientLooked(Authorization(client, uri, challenge), Some(info))
  {
    hide Query, Says;
    QuerySays(client, uri, challenge);
    SaysOnce(Query(client, uri, challenge), "client_id", client);
  }

  function DeletionRun(uri: string, challenge: string): seq<Choice> {
    Opening(uri) + Begun(1, Authorization(FirstClient(), uri, challenge))
      + Served(2, Deletion(FirstClient(), FirstToken()))
  }

  /** The lookup is over when the client is deleted. */
  lemma DeletionWhileAuthorizing(env: Env, uri: string, challenge: string)
    requires Usable(env, uri)
    ensures var w := Run(env, DeletionRun(uri, challenge));
            && FirstClient() !in w.server.grants.clients && 1 in w.threads
            && w.threads[1] == ClientLooked(Authorization(FirstClient(), uri, challenge), Some(Client([uri])))
  {
    hide Run, Serve, Name, Region, Query, Opening, Begun, Served;
    var client, token, info := FirstClient(), FirstToken(), Client([uri]);
    var a := Opening(uri);
    var b := a + Begun(1, Authorization(client, uri, challenge));
    Opens(env, uri);
    var g := Run(env, a).server.grants;
    assert Holds(g.clients, client, info) && Holds(g.registrationTokens, client, token);
    LooksUp(env, g, client, info, uri, challenge);
    BegunInRun(env, a, 1, Authorization(client, uri, challenge));
    ServedInRun(env, b, 2, Deletion(client, token));
    Deletes(env, Run(env, b).server, 1, token);
  }

  lemma DeletionRunResetsNothing(uri: string, challenge: string)
    ensures NoResets(DeletionRun(uri, challenge) + [Step(1)])
  {
    hide Name, Query;
    assert Steps(0, 0) == [] && Steps(2, 0) == [];
    assert Steps(0, 3) == [Step(0), Step(0), Step(0)] && Steps(2, 3) == [Step(2), Step(2), Step(2)];
  }

  /** There is a run that mints a code for a client deleted since it was looked up, with no reset involved. */
  lemma CodeForDeletedClient(env: Env, uri: string, challenge: string)
    requires Usable(env, uri) && IsPkceValue(challenge)
    ensures exists choices, m :: MintsForDeletedClient(env, choices, m)
  {
    hide Run, Region, Name, Query, DeletionRun, IsPkceValue, DeletedAt, NoResets, RestsOn, Effect;
    var before := DeletionRun(uri, challenge);
    var choices, m := before + [Step(1)], |before|;
    DeletionWhileAuthorizing(env, uri, challenge);
    assert choices[..m] == before;
    var w := Run(env, before);
    DecisionEvents(env, w.server.grants, FirstClient(), uri, challenge);
    var e := Emitted(env, choices, m)[0];
    var l := MintFollowsOwnLookup(env, choices, m);
    DeletionRunResetsNothing(uri, challenge);
    forall x: nat ensures !ResetAt(env, choices, x) {
      NoResetAt(env, choices, x);
    }
    MintedForRegisteredExactly(env, choices, l, m, e.record);
    assert MintsForDeletedClient(env, choices, m);
  }

  lemma DecisionEvents(env: Env, g: Grants, client: string, uri: string, challenge: string)
    requires Usable(env, uri) && IsPkceValue(challenge)
    ensures var t := ClientLooked(Authorization(client, uri, challenge), Some(Client([uri])));
            Region(env, g, t).events ==
            [Minted(Name(CodeKind, g.sequence + 1), Code(client, uri, challenge, IDENTITY.resource, "mcp"))]
  {
    hide AuthorizeDecide, Query, Name, IsPkceValue;
    AuthorizationMints(env, g, client, uri, challenge);
  }

  const VERIFIER: string := "aaaaaaaaaaaaaaaaaaaaaaaaaaaaaaaaaaaaaaaaaaa"

  lemma VerifierIsPkceValue()
    ensures IsPkceValue(VERIFIER)
  {}

  function FirstRecord(env: Env, uri: string): Code {
    Code(FirstClient(), uri, Challenge(env.sha256, VERIFIER), IDENTITY.resource, "mcp")
  }

  function FirstCode(): string {
    Name(CodeKind, 2)
  }

  function FirstAccess(): string {
    Name(AccessKind, 3)
  }

  function AuthorizedOpening(uri: string, challenge: string): seq<Choice> {
    Opening(uri) + Served(1, Authorization(FirstClient(), uri, challenge))
  }

  /** A run at whose end a code with this challenge is live. */
  lemma Mints(env: Env, uri: string, challenge: string)
    requires Usable(env, uri) && IsPkceValue(challenge)
    ensures var w := Run(env, AuthorizedOpening(uri, challenge));
            var g := w.server.grants;
            && w.threads.Keys == {0, 1} && g.sequence == 2
            && Holds(g.codes, FirstCode(), Code(FirstClient(), uri, challenge, IDENTITY.resource, "mcp"))
            && Holds(g.registrationTokens, FirstClient(), FirstToken())
  {
    hide Run, Serve, Name, Query, Opening, Served, IsPkceValue;
    var auth := Authorization(FirstClient(), uri, challenge);
    Opens(env, uri);
    ServedInRun(env, Opening(uri), 1, auth);
    Authorizes(env, Run(env, Opening(uri)).server, FirstClient(), uri, challenge);
  }

  lemma ReachableInv(env: Env, choices: seq<Choice>)
    ensures Inv(Run(env, choices).server.grants)
  {
    hide Run, Inv;
    RunsRefineLedger(env, choices);
    LogKeepsInv(env.sha256, Run(env, choices).log);
  }

  function Purchase(env: Env, uri: string): seq<Choice> {
    AuthorizedOpening(uri, FirstRecord(env, uri).challenge)
    + Served(2, Exchange(FirstCode(), FirstRecord(env, uri), VERIFIER))
  }

  function FirstRefresh(): string {
    Name(RefreshKind, 4)
  }

  lemma SpentForTokens(g: Grants, code: string, record: Code, verifier: string, access: string, refresh: string)
    ensures var h := Effect(g, Redeemed(code, record, verifier, access, refresh));
            && Holds(h.access, access, GrantOf(record)) && Holds(h.refresh, refresh, GrantOf(record))
            && h.registrationTokens == g.registrationTokens && h.sequence == g.sequence + 2
  {}

  /** A run at whose end an access token and a refresh token are live. */
  lemma Purchases(env: Env, uri: string)
    requires Usable(env, uri)
    ensures var w := Run(env, Purchase(env, uri));
            var g := w.server.grants;
            && w.threads.Keys == {0, 1, 2}
            && Holds(g.access, FirstAccess(), GrantOf(FirstRecord(env, uri)))
            && Holds(g.refresh, FirstRefresh(), GrantOf(FirstRecord(env, uri)))
            && Holds(g.registrationTokens, FirstClient(), FirstToken())
  {
    hide Run, Serve, Name, Form, AuthorizedOpening, Served, IsPkceValue, Challenge, Inv, Effect;
    var record := FirstRecord(env, uri);
    var b := AuthorizedOpening(uri, record.challenge);
    VerifierIsPkceValue();
    ChallengeIsPkceValue(env.sha256, VERIFIER);
    Mints(env, uri, record.challenge);
    ClientNames(1);
    ReachableInv(env, b);
    ServedInRun(env, b, 2, Exchange(FirstCode(), record, VERIFIER));
    Exchanges(env, Run(env, b).server, FirstCode(), record, VERIFIER);
    SpentForTokens(Run(env, b).server.grants, FirstCode(), record, VERIFIER, FirstAccess(), FirstRefresh());
  }

  // ---- What deletion and rotation leave in place ----------------------------------------------------------

  /** Handler `id` has just been let through to MCP with this token. */
  predicate Admits(env: Env, choices: seq<Choice>, id: nat, token: string) {
    var threads := Run(env, choices).threads;
    id in threads && threads[id].BearerAccepted? && Bearer(threads[id].req.http) == token
  }

  lemma CallAdmitted(env: Env, choices: seq<Choice>, id: nat, token: string, called: string)
    requires var w := Run(env, choices);
             id !in w.threads && token in w.server.grants.access
             && w.server.grants.access[token].resource == IDENTITY.resource
    ensures Admits(env, choices + Begun(id, Call(token, called)), id, token)
  {
    hide Run, Begun;
    CallAccepted(env, Run(env, choices).server.grants, token, called);
    BegunInRun(env, choices, id, Call(token, called));
    assert ("Bearer " + token)[..7] == BEARER && ("Bearer " + token)[7..] == token;
  }

  function AfterDeletion(env: Env, uri: string): seq<Choice> {
    Purchase(env, uri) + Served(3, Deletion(FirstClient(), FirstToken()))
  }

  /** A run that deletes a client and then lets a request with its access token through. */
  lemma DeletedClientIsAdmitted(env: Env, uri: string, called: string)
    requires Usable(env, uri)
    ensures var deleted := Run(env, AfterDeletion(env, uri)).server.grants;
            && FirstClient() !in deleted.clients
            && Holds(deleted.access, FirstAccess(), GrantOf(FirstRecord(env, uri)))
    ensures Admits(env, AfterDeletion(env, uri) + Begun(4, Call(FirstAccess(), called)), 4, FirstAccess())
  {
    hide Run, Serve, Name, Purchase, Served, Begun, Admits, Challenge;
    var a := Purchase(env, uri);
    Purchases(env, uri);
    ServedInRun(env, a, 3, Deletion(FirstClient(), FirstToken()));
    Deletes(env, Run(env, a).server, 1, FirstToken());
    CallAdmitted(env, AfterDeletion(env, uri), 4, FirstAccess(), called);
  }

  function RotationForm(refresh: string, grant: Grant): Values {
    map["grant_type" := ["refresh_token"], "client_id" := [grant.clientID], "refresh_token" := [refresh],
        "resource" := [grant.resource]]
  }

  lemma RotationSays(refresh: string, grant: Grant)
    ensures var f := RotationForm(refresh, grant);
            && Says(f, "grant_type", "refresh_token") && Says(f, "client_id", grant.clientID)
            && Says(f, "refresh_token", refresh) && Says(f, "resource", grant.resource) && "client_secret" !in f
  {
    assert |"grant_type"| == 10 && |"client_id"| == 9 && |"refresh_token"| == 13 && |"resource"| == 8;
    assert |"client_secret"| == 13 && "client_secret"[0] == 'c' && "refresh_token"[0] == 'r';
  }

  function Rotation(refresh: string, grant: Grant): Request {
    Token(Plainly("POST", ""), Some(RotationForm(refresh, grant)))
  }

  lemma Rotates(env: Env, s: State, refresh: string, grant: Grant)
    requires Inv(s.grants) && Holds(s.grants.refresh, refresh, grant) && grant.clientID != ""
    ensures var access, next := Name(AccessKind, s.grants.sequence + 1), Name(RefreshKind, s.grants.sequence + 2);
            Serve(env, s, Rotation(refresh, grant)).0.grants == Effect(s.grants, Rotated(refresh, grant, access, next))
  {
    hide Name, Effect, Inv, RotationForm, Says, Get, SingleValue, Complete;
    var req := Rotation(refresh, grant);
    var form := req.form.value;
    RotationSays(refresh, grant);
    SaysOnce(form, "grant_type", "refresh_token");
    SaysOnce(form, "client_id", grant.clientID);
    SaysOnce(form, "refresh_token", refresh);
    SaysOnce(form, "resource", grant.resource);
    ExchangeRefreshAccepts(s.grants, form);
    ServeToken(env, s, req);
    OtherGrantType();
  }

  lemma OtherGrantType()
    ensures "refresh_token" != "authorization_code"
  {
    assert |"refresh_token"| == 13 && |"authorization_code"| == 18;
  }

  function AfterRotation(env: Env, uri: string): seq<Choice> {
    Purchase(env, uri) + Served(3, Rotation(FirstRefresh(), GrantOf(FirstRecord(env, uri))))
  }

  lemma RotationKeepsAccess(g: Grants, e: Event, access: string)
    requires e.Rotated? && access in g.access && access != e.access
    ensures Holds(Effect(g, e).access, access, g.access[access]) && e.oldRefresh in Effect(g, e).usedRefresh
  {}

  /** A run that rotates a refresh token and then lets a request with the old access token through. */
  lemma OldAccessIsAdmitted(env: Env, uri: string, called: string)
    requires Usable(env, uri)
    ensures FirstRefresh() in Run(env, AfterRotation(env, uri)).server.grants.usedRefresh
    ensures Admits(env, AfterRotation(env, uri) + Begun(4, Call(FirstAccess(), called)), 4, FirstAccess())
  {
    hide Run, Serve, Name, Purchase, Served, Begun, Admits, Challenge, RotationForm, Inv, Effect;
    var a, grant := Purchase(env, uri), GrantOf(FirstRecord(env, uri));
    Purchases(env, uri);
    ClientNames(1);
    ReachableInv(env, a);
    ServedInRun(env, a, 3, Rotation(FirstRefresh(), grant));
    var g := Run(env, a).server.grants;
    Rotates(env, Run(env, a).server, FirstRefresh(), grant);
    var access, next := Name(AccessKind, g.sequence + 1), Name(RefreshKind, g.sequence + 2);
    NextAccessIsNew(g);
    RotationKeepsAccess(g, Rotated(FirstRefresh(), grant, access, next), FirstAccess());
    CallAdmitted(env, AfterRotation(env, uri), 4, FirstAccess(), called);
  }

  lemma NextAccessIsNew(g: Grants)
    requires Inv(g)
    ensures Name(AccessKind, g.sequence + 1) !in g.access
  {
    FreshNames(g);
  }

  // ---- A code that nobody can redeem -----------------------------------------------------------------------

  const FOREIGN: string := "aaaaaaaaaaaaaaaaaaaaaaaaaaaaaaaaaaaaaaaaaaaa"

  lemma ForeignIsNoImage()
    ensures IsPkceValue(FOREIGN) && !IsChallengeImage(FOREIGN)
  {
    assert |FOREIGN| == 44;
  }

  /** A run that mints a code which is live and which no form at all redeems. */
  lemma MintsUnredeemableCode(env: Env, uri: string)
    requires Usable(env, uri)
    ensures var g := Run(env, AuthorizedOpening(uri, FOREIGN)).server.grants;
            && FirstCode() in g.codes
            && forall form :: Get(form, "code") == FirstCode() ==> !GetsTokens(env, g, form)
  {
    hide Run, AuthorizedOpening, ExchangeCode, IsPkceValue, IsChallengeImage, Get, FOREIGN, Name;
    ForeignIsNoImage();
    Mints(env, uri, FOREIGN);
    var g := Run(env, AuthorizedOpening(uri, FOREIGN)).server.grants;
    forall form | Get(form, "code") == FirstCode() ensures !GetsTokens(env, g, form) {
      ForeignChallengeNeverRedeems(env, g, form);
    }
  }

  // ---- An update across a reset ------------------------------------------------------------------------------

  function Put(uri: string): Request {
    Manage(Plainly("PUT", "Bearer " + FirstToken()), Some(IDENTITY), FirstClient(),
      TwoIds(FirstClient(), FirstClient(), uri))
  }

  lemma PutReads(env: Env, g: Grants, uri: string)
    requires Holds(g.registrationTokens, FirstClient(), FirstToken())
    ensures Region(env, g, Recorded(Put(uri))) == Outcome(g, PutChecked(Put(uri), FirstToken()), [])
  {
    hide Name, TwoIds;
    ClientNames(1);
    assert "PUT" != "DELETE";
  }

  const WIPE: Request := ResetAll(Http("DELETE", "", "", "", ""))

  function BeforeWipe(uri: string): seq<Choice> {
    Opening(uri) + Begun(1, Put(uri)) + [Spawn(2, WIPE)]
  }

  function AcrossReset(uri: string): seq<Choice> {
    BeforeWipe(uri) + [Step(2)] + Served(3, Registration(uri))
  }

  lemma PutIsChecked(env: Env, uri: string)
    requires Usable(env, uri)
    ensures var threads := Run(env, BeforeWipe(uri)).threads;
            && threads.Keys == {0, 1, 2} && threads[2] == Arrived(WIPE)
            && threads[1] == PutChecked(Put(uri), FirstToken())
  {
    hide Run, Name, Opening, Begun, TwoIds, Region;
    Opens(env, uri);
    PutReads(env, Run(env, Opening(uri)).server.grants, uri);
    BegunInRun(env, Opening(uri), 1, Put(uri));
    RunOneMore(env, Opening(uri) + Begun(1, Put(uri)), Spawn(2, WIPE));
  }

  lemma WipeResets(env: Env, s: State)
    ensures After(env, s, Arrived(WIPE)) == START && Region(env, s.grants, Arrived(WIPE)).events == [Reset]
    ensures Region(env, s.grants, Arrived(WIPE)).next.Finished?
  {}

  lemma RegisteredAgain(env: Env, uri: string)
    requires Usable(env, uri)
    ensures var w := Run(env, AcrossReset(uri));
            && 1 in w.threads && w.threads[1] == PutChecked(Put(uri), FirstToken())
            && Holds(w.server.grants.registrationTokens, FirstClient(), FirstToken())
  {
    hide Run, Name, BeforeWipe, Served, Put, Region, After, Serve, Registration;
    var a := BeforeWipe(uri);
    PutIsChecked(env, uri);
    StepAdvances(env, a, 2);
    WipeResets(env, Run(env, a).server);
    ServedInRun(env, a + [Step(2)], 3, Registration(uri));
    Registers(env, START, uri);
  }

  lemma PutUpdates(env: Env, g: Grants, uri: string)
    requires Usable(env, uri) && Holds(g.registrationTokens, FirstClient(), FirstToken())
    ensures var e := Updated(FirstClient(), FirstToken(), Name(RegistrationKind, g.sequence + 1), Client([uri]));
            Region(env, g, PutChecked(Put(uri), FirstToken())).events == [e]
  {
    hide UpdateClient, Name, TwoIds;
    UpdateUnderOtherSpelling(env, g, Put(uri).http, IDENTITY, FirstClient(), FirstClient(), uri, FirstToken());
  }

  /** The shape of the run: the handler's earlier steps come before the reset. */
  lemma AcrossResetShape(uri: string)
    ensures var choices := AcrossReset(uri) + [Step(1)];
            var x, m := |BeforeWipe(uri)|, |AcrossReset(uri)|;
            && x < m && choices[..m] == AcrossReset(uri) && choices[..x] == BeforeWipe(uri)
            && choices[x] == Step(2) && choices[m] == Step(1)
            && forall l :: x < l < m ==> choices[l] != Step(1)
  {
    hide Registration;
    assert Steps(3, 0) == [] && Steps(3, 3) == [Step(3), Step(3), Step(3)];
    var served := Served(3, Registration(uri));
    assert AcrossReset(uri) == BeforeWipe(uri) + [Step(2)] + served;
    assert forall i :: 0 <= i < |served| ==> served[i] != Step(1);
  }

  /** There is a run in which an update commits to a registration made after the one whose token it has read. */
  lemma UpdateOfAnotherRegistration(env: Env, uri: string)
    requires Usable(env, uri)
    ensures exists choices, l, m, e ::
              && UpdatesAfterRead(env, choices, l, m, e)
              && CurrentIssue(Run(env, choices[..l]).log, e.client)
                != CurrentIssue(Run(env, choices[..m]).log, e.client)
  {
    hide Run, Name, AcrossReset, BeforeWipe, Put, Region, CurrentIssue, ReadAt;
    var choices := AcrossReset(uri) + [Step(1)];
    var x, m := |BeforeWipe(uri)|, |AcrossReset(uri)|;
    AcrossResetShape(uri);
    PutIsChecked(env, uri);
    WipeResets(env, Run(env, BeforeWipe(uri)).server);
    assert ResetAt(env, choices, x);
    RegisteredAgain(env, uri);
    var g := Run(env, AcrossReset(uri)).server.grants;
    PutUpdates(env, g, uri);
    var e := Updated(FirstClient(), FirstToken(), Name(RegistrationKind, g.sequence + 1), Client([uri]));
    var l := UpdateFollowsOwnRead(env, choices, m, e);
    ReadIsOwnStep(env, choices, l, m, e);
    assert l < x;
    UpdatesWhatItReadExactly(env, choices, l, m, e);
  }

  lemma ReadIsOwnStep(env: Env, choices: seq<Choice>, l: nat, m: nat, e: Event)
    requires UpdatesAfterRead(env, choices, l, m, e)
    ensures choices[m].Step? && choices[l] == Step(choices[m].id)
  {}

  function Call(token: string, called: string): Request {
    Mcp(Plainly("POST", "Bearer " + token), Some(IDENTITY), Envelope(called))
  }

  lemma CallAccepted(env: Env, g: Grants, token: string, called: string)
    requires token in g.access && g.access[token].resource == IDENTITY.resource
    ensures Region(env, g, Recorded(Call(token, called))).next == BearerAccepted(Call(token, called))
  {
    assert ("Bearer " + token)[..7] == BEARER && ("Bearer " + token)[7..] == token;
  }

  function StraddlingRun(env: Env, uri: string, called: string): seq<Choice> {
    Purchase(env, uri) + Begun(3, Call(FirstAccess(), called))
    + [Spawn(4, ResetAll(Plainly("DELETE", "")))] + [Step(4)] + [Step(3)]
  }

  /** There is a run, from the empty server, after which the method counters outnumber the `mcp` counter. */
  lemma BoundBreaksInSomeRun(env: Env, uri: string, called: string)
    requires Usable(env, uri) && called != ""
    ensures !Bounded(Run(env, StraddlingRun(env, uri, called)))
  {
    hide Run, Region, Name, Purchase, Begun, Bounded;
    var a := Purchase(env, uri);
    var call := Call(FirstAccess(), called);
    Purchases(env, uri);
    CallAccepted(env, Run(env, a).server.grants, FirstAccess(), called);
    BegunInRun(env, a, 3, call);
    StraddlingBreaksTheBound(env, a + Begun(3, call), 3, 4, Plainly("DELETE", ""));
  }
}
