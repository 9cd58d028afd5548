/** The ledger theorems, restated for runs and for what clients see. */
module Runs {
  import opened Options
  import opened Names
  import opened Pkce
  import opened Ledger
  import opened History
  import opened Families
  import opened UrlValues
  import opened Handlers
  import opened Schedule

  // ---- Reachable states -----------------------------------------------------------------

  /** What holds in every reachable state of every interleaving. */
  lemma ReachableStates(env: Env, choices: seq<Choice>)
    ensures var w := Run(env, choices);
            var g := w.server.grants;
            && Inv(g)
            && FamilyBijection(w.log)
            && |g.refresh| == |g.usedCodes| && |g.access| == |g.usedCodes| + |g.usedRefresh|
            && g.sequence == ManagementCommits(w.log) + |g.codes| + |g.usedCodes| + 2 * |g.access|
            && CodesMinted(w.log) && RefreshTraced(w.log) && AccessTraced(w.log) && RootsAreOlder(w.log)
  {
    hide Inv, FamilyBijection, CodesMinted, RefreshTraced, AccessTraced, RootsAreOlder;
    var w := Run(env, choices);
    RunsRefineLedger(env, choices);
    LogKeepsInv(env.sha256, w.log);
    Counted(w.server.grants);
    RefreshFamilies(env.sha256, w.log);
    SequenceAccounting(env.sha256, w.log);
    TokensTraceBack(env.sha256, w.log);
    LiveTokensAreYoungerThanRoots(env.sha256, w.log);
  }

  lemma Counted(g: Grants)
    requires Inv(g)
    ensures CountsInv(g)
  {}

  // ---- Steps of a run and positions in its ledger -----------------------------------------

  /** The ledger events of the `m`-th choice of a run. */
  function Emitted(env: Env, choices: seq<Choice>, m: nat): seq<Event>
    requires m < |choices|
  {
    var w, c := Run(env, choices[..m]), choices[m];
    if c.Step? && c.id in w.threads then Region(env, w.server.grants, w.threads[c.id]).events else []
  }

  lemma EmittedExtends(env: Env, choices: seq<Choice>, m: nat)
    requires m < |choices|
    ensures Run(env, choices[..m + 1]).log == Run(env, choices[..m]).log + Emitted(env, choices, m)
    ensures |Emitted(env, choices, m)| <= 1
  {
    hide Region;
    var w := Run(env, choices[..m]);
    assert choices[..m + 1][..m] == choices[..m];
    RunsRefineLedger(env, choices[..m]);
    var c := choices[m];
    if c.Step? && c.id in w.threads {
      RegionRefines(env, w.log, w.threads[c.id]);
    }
  }

  lemma {:induction false} LogGrows(env: Env, choices: seq<Choice>, i: nat, j: nat)
    requires i <= j <= |choices|
    ensures Run(env, choices[..i]).log <= Run(env, choices[..j]).log
    decreases j
  {
    if i < j {
      LogGrows(env, choices, i, j - 1);
      EmittedExtends(env, choices, j - 1);
    }
  }

  /** Every ledger event that appeared between two points of a run was emitted by a step in between. */
  lemma {:induction false} WhoEmitted(env: Env, choices: seq<Choice>, i: nat, j: nat, k: nat) returns (m: nat)
    requires i <= j <= |choices|
    requires |Run(env, choices[..i]).log| <= k < |Run(env, choices[..j]).log|
    ensures i <= m < j && |Run(env, choices[..m]).log| == k
    ensures Emitted(env, choices, m) == [Run(env, choices[..j]).log[k]]
    decreases j
  {
    hide Run, Emitted;
    assert i != j;
    EmittedExtends(env, choices, j - 1);
    if k < |Run(env, choices[..j - 1]).log| {
      m := WhoEmitted(env, choices, i, j - 1, k);
    } else {
      m := j - 1;
    }
  }

  /** Two steps of a run that emit, in this order, one event each. */
  predicate EmitInOrder(env: Env, choices: seq<Choice>, i: nat, e: Event, j: nat, f: Event) {
    i < j < |choices| && Emitted(env, choices, i) == [e] && Emitted(env, choices, j) == [f]
  }

  predicate ResetAt(env: Env, choices: seq<Choice>, m: nat) {
    m < |choices| && Emitted(env, choices, m) == [Reset]
  }

  lemma PositionsInLog(env: Env, choices: seq<Choice>, i: nat, e: Event, j: nat, f: Event)
      returns (log: Log, p: nat, q: nat)
    requires EmitInOrder(env, choices, i, e, j, f)
    ensures log == Run(env, choices[..j + 1]).log && ValidLog(env.sha256, log)
    ensures p == |Run(env, choices[..i]).log| && q == |Run(env, choices[..j]).log| && p < q < |log|
    ensures log[p] == e && log[q] == f
  {
    hide Emitted, Run;
    log := Run(env, choices[..j + 1]).log;
    p, q := |Run(env, choices[..i]).log|, |Run(env, choices[..j]).log|;
    RunsRefineLedger(env, choices[..j + 1]);
    EmittedExtends(env, choices, i);
    EmittedExtends(env, choices, j);
    LogGrows(env, choices, i + 1, j);
    assert Run(env, choices[..i + 1]).log[p] == e;
  }

  lemma ResetInLogIsStep(env: Env, choices: seq<Choice>, i: nat, j: nat, k: nat)
    requires i < j < |choices|
    requires |Run(env, choices[..i]).log| < k < |Run(env, choices[..j]).log|
    requires |Run(env, choices[..j]).log| < |Run(env, choices[..j + 1]).log| && Run(env, choices[..j + 1]).log[k].Reset?
    ensures exists m: nat :: i < m < j && ResetAt(env, choices, m)
  {
    hide Emitted, Run;
    LogGrows(env, choices, j, j + 1);
    EmittedExtends(env, choices, i);
    var m := WhoEmitted(env, choices, i + 1, j, k);
    assert ResetAt(env, choices, m);
  }

  /** In any run, two steps that redeem the same code have a reset step between them. */
  lemma CodesAreOneUse(env: Env, choices: seq<Choice>, i: nat, e: Event, j: nat, f: Event)
    requires EmitInOrder(env, choices, i, e, j, f)
    requires e.Redeemed? && f.Redeemed? && e.code == f.code
    ensures exists m: nat :: i < m < j && ResetAt(env, choices, m)
  {
    hide Emitted, Run, ValidLog;
    var log, p, q := PositionsInLog(env, choices, i, e, j, f);
    CodeRedeemedOnce(env.sha256, log, p, q);
    var k :| p < k < q && log[k].Reset?;
    ResetInLogIsStep(env, choices, i, j, k);
  }

  /** In any run, two steps that rotate the same refresh token have a reset step between them. */
  lemma RefreshTokensAreOneUse(env: Env, choices: seq<Choice>, i: nat, e: Event, j: nat, f: Event)
    requires EmitInOrder(env, choices, i, e, j, f)
    requires e.Rotated? && f.Rotated? && e.oldRefresh == f.oldRefresh
    ensures exists m: nat :: i < m < j && ResetAt(env, choices, m)
  {
    hide Emitted, Run, ValidLog;
    var log, p, q := PositionsInLog(env, choices, i, e, j, f);
    RefreshRotatedOnce(env.sha256, log, p, q);
    var k :| p < k < q && log[k].Reset?;
    ResetInLogIsStep(env, choices, i, j, k);
  }

  /** In any run, of the updates and deletions that read the same management token at most one commits per epoch. */
  lemma ManagementTokensAreOneUse(env: Env, choices: seq<Choice>, i: nat, e: Event, j: nat, f: Event)
    requires EmitInOrder(env, choices, i, e, j, f)
    requires (e.Updated? || e.Deleted?) && (f.Updated? || f.Deleted?) && e.oldToken == f.oldToken
    ensures exists m: nat :: i < m < j && ResetAt(env, choices, m)
  {
    hide Emitted, Run, ValidLog;
    var log, p, q := PositionsInLog(env, choices, i, e, j, f);
    TokenSpentOnce(env.sha256, log, p, q);
    var k :| p < k < q && log[k].Reset?;
    ResetInLogIsStep(env, choices, i, j, k);
  }

  /** In any run, once a step deletes a client, no step concerns that client before a reset step. */
  lemma DeletionsAreFinal(env: Env, choices: seq<Choice>, i: nat, e: Event, j: nat, f: Event)
    requires EmitInOrder(env, choices, i, e, j, f)
    requires e.Deleted? && (f.Registered? || f.Updated? || f.Deleted? || f.Seen?) && f.client == e.client
    ensures exists m: nat :: i < m < j && ResetAt(env, choices, m)
  {
    hide Emitted, Run, ValidLog;
    var log, p, q := PositionsInLog(env, choices, i, e, j, f);
    DeletedStaysDeleted(env.sha256, log, p, q);
    var k :| p < k < q && log[k].Reset?;
    ResetInLogIsStep(env, choices, i, j, k);
  }

  /** What a step emits is enabled where it is taken. */
  lemma EmittedIsEnabled(env: Env, choices: seq<Choice>, m: nat, e: Event)
    requires m < |choices| && Emitted(env, choices, m) == [e]
    ensures var w := Run(env, choices[..m]); Enabled(env.sha256, w.log, e) && w.server.grants == Replay(w.log)
  {
    hide Run, Region, Enabled;
    var w, c := Run(env, choices[..m]), choices[m];
    RunsRefineLedger(env, choices[..m]);
    RegionRefines(env, w.log, w.threads[c.id]);
  }

  /** In any run, a step that updates or deletes a client does so under the token in force where it is taken. */
  lemma CommitsUseTokenInForce(env: Env, choices: seq<Choice>, m: nat, e: Event)
    requires m < |choices| && Emitted(env, choices, m) == [e] && (e.Updated? || e.Deleted?)
    ensures var w := Run(env, choices[..m]);
            && Holds(w.server.grants.registrationTokens, e.client, e.oldToken)
            && CurrentToken(w.log, e.client) == Some(e.oldToken)
  {
    hide Run, Emitted, Name;
    EmittedIsEnabled(env, choices, m, e);
    CurrentTokenIsStored(Run(env, choices[..m]).log, e.client);
  }

  // ---- What clients see ---------------------------------------------------------------------

  lemma TokenAnswer(env: Env, g: Grants, req: Request)
    requires req.Token?
    ensures var r := TokenRequest(env, g, req);
            && r.next.Finished?
            && (r.next.response.TokenPair? <==> r.events != [])
            && (r.events != [] ==>
                  |r.events| == 1 && req.form.Some?
                  && (var e, form, response := r.events[0], req.form.value, r.next.response;
                      && (e.Redeemed? || e.Rotated?)
                      && response.access == e.access && response.refresh == e.refresh
                      && (e.Redeemed? ==> e.code == Get(form, "code") && response.scope == e.record.scope)
                      && (e.Rotated? ==> e.oldRefresh == Get(form, "refresh_token"))
                      && (e.Rotated? ==> response.scope == e.grant.scope)))
  {
    hide Name, Challenge, IsPkceValue, Effect;
  }

  /** A token pair is handed out exactly by a successful exchange, and it is that exchange's pair. */
  lemma TokenPairMeansExchange(env: Env, g: Grants, t: Thread)
    requires WellPlaced(t) && !t.Finished?
    ensures var r := Region(env, g, t);
            (r.next.Finished? && r.next.response.TokenPair?) <==>
            (|r.events| == 1 && (r.events[0].Redeemed? || r.events[0].Rotated?))
  {
    hide Name, Challenge, IsPkceValue, Effect, TokenRequest, StrictJson.StrictDecode, ValidRedirectURIs,
      AcceptableUpdate, Callback.Parameters;
    if t.Recorded? && t.req.Token? {
      TokenAnswer(env, g, t.req);
    }
  }

  /** A redirect carries a code exactly when one was minted just now, and that code is live afterwards. */
  lemma RedirectCarriesStoredCode(env: Env, g: Grants, req: Request, client: Option<Client>)
    requires req.Authorize? && req.identity.Some?
    ensures var r := AuthorizeDecide(env, g, req, client);
            r.next.response.Redirect? ==>
              var p := r.next.response.parameters;
              var registered := env.queryOf(Get(req.query, "redirect_uri"));
              && registered.Some?
              && Callback.WellShaped(p, req.query, registered.value, req.identity.value.issuer, MintedCode(r.events))
              && ("code" in p <==> Get(req.query, "fixture_decision") != "deny")
              && ("code" in p <==> r.events != [])
              && ("code" in p ==> |p["code"]| == 1)
              && ("code" in p ==> Holds(r.grants.codes, p["code"][0], CodeFor(req.query, req.identity.value.resource)))
              && ("code" !in p ==> r.grants == g)
  {
    hide Name, Callback.Parameters, Callback.RESERVED, Callback.WellShaped;
    var r := AuthorizeDecide(env, g, req, client);
    if r.next.response.Redirect? {
      var registered := env.queryOf(Get(req.query, "redirect_uri")).value;
      Callback.CallbackShape(req.query, registered, req.identity.value.issuer, MintedCode(r.events));
      Callback.DecidedParameters(req.query, registered, req.identity.value.issuer, MintedCode(r.events));
    }
  }

  function MintedCode(events: seq<Event>): Option<string> {
    if events != [] && events[0].Minted? then Some(events[0].code) else None
  }

  /** The token a request presents. */
  function Bearer(http: Http): string {
    if HasBearer(http) then http.authorization[|BEARER|..] else ""
  }

  /**
   Every MCP request that is let through presents a live token with a full history of its own: the code it traces back
   to was minted for this very resource and a redirect URI that was registered, and redeemed once, by somebody who knew
   the verifier behind its challenge.
   */
  lemma AdmissionHasProvenance(env: Env, choices: seq<Choice>, id: nat)
    requires var w := Run(env, choices);
             id in w.threads && w.threads[id].Recorded? && w.threads[id].req.Mcp?
             && Region(env, w.server.grants, w.threads[id]).next.BearerAccepted?
    ensures var w := Run(env, choices);
            var req := w.threads[id].req;
            req.identity.Some? && HasProvenance(env, w, Bearer(req.http), req.identity.value.resource)
  {
    var w := Run(env, choices);
    var req := w.threads[id].req;
    AcceptedToken(w.server.grants, req);
    TokenHasProvenance(env, choices, Bearer(req.http));
  }

  lemma TokenHasProvenance(env: Env, choices: seq<Choice>, token: string)
    requires token in Run(env, choices).server.grants.access
    ensures var w := Run(env, choices); HasProvenance(env, w, token, w.server.grants.access[token].resource)
  {
    hide Run, Provenance, TracesTo, ValidLog, Inv, FamilyBijection, AccessRoot;
    var w := Run(env, choices);
    ReachableStates(env, choices);
    RunsRefineLedger(env, choices);
    var code, grant := AccessRoot(w.log, token).value, w.server.grants.access[token];
    MintingAndRedemption(env.sha256, w.log, code, grant);
  }

  lemma AcceptedToken(g: Grants, req: Request)
    requires req.Mcp? && BearerCheck(g, req).next.BearerAccepted?
    ensures HasBearer(req.http) && req.identity.Some?
    ensures var token := Bearer(req.http); token in g.access && g.access[token].resource == req.identity.value.resource
  {}

  /** The token is live and for `resource`, and the code at the root of its family was minted and redeemed for it. */
  ghost predicate HasProvenance(env: Env, w: World, token: string, resource: string) {
    var g := w.server.grants;
    && token in g.access && g.access[token].resource == resource && g.access[token].scope == "mcp"
    && AccessRoot(w.log, token).Some?
    && exists i: nat, j: nat ::
         Provenance(env.sha256, w.log, i, j, AccessRoot(w.log, token).value, g.access[token])
  }

  // ---- PKCE completeness ----------------------------------------------------------------------

  /**
   Whatever else happened since it was minted, short of a redemption of that very code or a reset, an honest client
   redeems its code with the verifier behind its challenge.
   */
  lemma HonestClientRedeems(env: Env, log: Log, i: nat, form: Values, verifier: string)
    requires ValidLog(env.sha256, log) && i < |log| && log[i].Minted?
    requires forall k :: i < k < |log| ==> !log[k].Reset? && (log[k].Redeemed? ==> log[k].code != log[i].code)
    requires IsPkceValue(verifier) && log[i].record.challenge == Challenge(env.sha256, verifier)
    requires HonestForm(form, log[i].code, log[i].record, verifier)
    ensures var r := ExchangeCode(env, Replay(log), form);
            r.next.response.TokenPair? && r.next.response.scope == log[i].record.scope
  {
    hide Challenge, Name;
    CodeStaysLive(env.sha256, log, i);
    LogKeepsInv(env.sha256, log);
    LiveNotUsed(Replay(log));
    hide Inv, ValidLog;
  }

  /** An honest S256 challenge passes the challenge check of the authorization endpoint. */
  lemma HonestChallengeAuthorizes(env: Env, query: Values, client: Client, verifier: string)
    requires SingleValue(query, "code_challenge") && Get(query, "code_challenge") == Challenge(env.sha256, verifier)
    requires SingleValue(query, "client_id") && SingleValue(query, "redirect_uri")
    requires Get(query, "redirect_uri") in client.redirectURIs
    requires SingleValue(query, "response_type") && Get(query, "response_type") == "code"
    requires SingleValue(query, "code_challenge_method") && Get(query, "code_challenge_method") == "S256"
    ensures ValidAuthorization(query, Some(client))
  {
    ChallengeIsPkceValue(env.sha256, verifier);
  }

  /** A code whose challenge is no encoded digest is never redeemed, by anybody, although `authorize` may mint it. */
  lemma ForeignChallengeNeverRedeems(env: Env, g: Grants, form: Values)
    requires var code := Get(form, "code"); code in g.codes ==> !IsChallengeImage(g.codes[code].challenge)
    ensures !ExchangeCode(env, g, form).next.response.TokenPair?
  {
    hide Name, Effect, IsPkceValue;
    ChallengeImage(Challenge(env.sha256, Get(form, "code_verifier")));
    hide IsChallengeImage;
  }

  function Form(code: string, record: Code, verifier: string): Values {
    map["grant_type" := ["authorization_code"], "client_id" := [record.clientID], "code" := [code],
        "redirect_uri" := [record.redirectURI], "code_verifier" := [verifier], "resource" := [record.resource]]
  }

  lemma FormSays(code: string, record: Code, verifier: string)
    ensures var f := Form(code, record, verifier);
            && Says(f, "grant_type", "authorization_code") && Says(f, "client_id", record.clientID)
              && Says(f, "code", code)
            && Says(f, "redirect_uri", record.redirectURI) && Says(f, "code_verifier", verifier)
            && Says(f, "resource", record.resource) && "client_secret" !in f
  {
    assert |"grant_type"| == 10 && |"client_id"| == 9 && |"code"| == 4 && |"redirect_uri"| == 12;
    assert |"code_verifier"| == 13 && |"resource"| == 8 && |"client_secret"| == 13;
    assert "client_secret"[1] == 'l' && "code_verifier"[1] == 'o';
  }

  predicate GetsTokens(env: Env, g: Grants, form: Values) {
    ExchangeCode(env, g, form).next.response.TokenPair?
  }

  /** Exactly which live codes can be redeemed at all: those whose challenge is that of some well-formed verifier. */
  lemma RedeemableExactly(env: Env, g: Grants, code: string)
    requires Inv(g) && code in g.codes
    ensures (exists form :: Get(form, "code") == code && GetsTokens(env, g, form)) <==>
            exists verifier :: IsPkceValue(verifier) && Challenge(env.sha256, verifier) == g.codes[code].challenge
  {
    hide Inv, IsPkceValue, Challenge, ExchangeCode, Form, Says, Get, SingleValue;
    if verifier :| IsPkceValue(verifier) && Challenge(env.sha256, verifier) == g.codes[code].challenge {
      var record := g.codes[code];
      var form := Form(code, record, verifier);
      FormIsHonest(code, record, verifier);
      ExchangeCodeAccepts(env, g, form);
    }
    forall form | Get(form, "code") == code && GetsTokens(env, g, form)
      ensures exists verifier :: IsPkceValue(verifier) && Challenge(env.sha256, verifier) == g.codes[code].challenge
    {
      ExchangeCodeAccepts(env, g, form);
    }
  }

  lemma FormIsHonest(code: string, record: Code, verifier: string)
    ensures HonestForm(Form(code, record, verifier), code, record, verifier)
  {
    hide Form, Says, Get, SingleValue;
    var form := Form(code, record, verifier);
    FormSays(code, record, verifier);
    SaysOnce(form, "client_id", record.clientID);
    SaysOnce(form, "code", code);
    SaysOnce(form, "redirect_uri", record.redirectURI);
    SaysOnce(form, "code_verifier", verifier);
    SaysOnce(form, "resource", record.resource);
  }

  // ---- Handlers that run alone ------------------------------------------------------------------

  /** Runs a handler to its end without interference. */
  function Complete(env: Env, s: State, t: Thread): (State, Response)
    requires WellPlaced(t)
    decreases Rank(t)
  {
    if t.Finished? then (s, t.response)
    else
      RegionAdvances(env, s.grants, t);
      Complete(env, After(env, s, t), Region(env, s.grants, t).next)
  }

  function Serve(env: Env, s: State, req: Request): (State, Response) {
    Complete(env, s, Arrived(req))
  }

  function ServeAll(env: Env, s: State, reqs: seq<Request>): State
    decreases |reqs|
  {
    if reqs == [] then s else ServeAll(env, Serve(env, s, reqs[0]).0, reqs[1..])
  }

  lemma ServeToken(env: Env, s: State, req: Request)
    requires req.Token?
    ensures var r := TokenRequest(env, s.grants, req);
            Serve(env, s, req).1 == r.next.response && Serve(env, s, req).0.grants == r.grants
  {
    hide TokenRequest;
    TokenAnswer(env, s.grants, req);
    var t := Arrived(req);
    var s1 := After(env, s, t);
    assert Region(env, s.grants, t).next == Recorded(req) && s1.grants == s.grants;
    var s2 := After(env, s1, Recorded(req));
    assert Complete(env, s, t) == Complete(env, s1, Recorded(req))
      == Complete(env, s2, TokenRequest(env, s1.grants, req).next);
  }

  /** All of the requests are token requests that end without a token pair. */
  predicate AllRejected(env: Env, s: State, reqs: seq<Request>)
    decreases |reqs|
  {
    reqs == [] ||
    (reqs[0].Token? && !Serve(env, s, reqs[0]).1.TokenPair? && AllRejected(env, Serve(env, s, reqs[0]).0, reqs[1..]))
  }

  /**
   Rejected exchanges leave every grant and the counter alone, so a later request fares as if they had not been made.
   */
  lemma {:induction false} RejectedExchangesAreHarmless(env: Env, s: State, reqs: seq<Request>, next: Request)
    requires AllRejected(env, s, reqs) && next.Token?
    ensures ServeAll(env, s, reqs).grants == s.grants
    ensures Serve(env, ServeAll(env, s, reqs), next).1 == Serve(env, s, next).1
    ensures Serve(env, ServeAll(env, s, reqs), next).0.grants == Serve(env, s, next).0.grants
    decreases |reqs|
  {
    hide TokenRequest, Complete;
    if reqs != [] {
      var rest := Serve(env, s, reqs[0]).0;
      ServeToken(env, s, reqs[0]);
      RejectionChangesNothing(env, s.grants, reqs[0]);
      RejectedExchangesAreHarmless(env, rest, reqs[1..], next);
      ServeToken(env, rest, next);
    }
    ServeToken(env, s, next);
    ServeToken(env, ServeAll(env, s, reqs), next);
  }

  lemma RejectionChangesNothing(env: Env, g: Grants, req: Request)
    requires req.Token? && !TokenRequest(env, g, req).next.response.TokenPair?
    ensures TokenRequest(env, g, req).grants == g
  {
    hide Name, Challenge, IsPkceValue, Effect;
  }

  /** The choice brings in a request, or is part of a token request that ends without a token pair. */
  predicate Rejecting(env: Env, w: World, c: Choice)
    requires AllWellPlaced(w.threads)
  {
    match c
    case Spawn(_, _) => true
    case Step(id) =>
      id in w.threads ==>
        match w.threads[id]
        case Arrived(req) => req.Token?
        case Recorded(req) => req.Token? && !TokenRequest(env, w.server.grants, req).next.response.TokenPair?
        case Finished(_) => true
        case _ => false
  }

  ghost predicate AllRejecting(env: Env, before: seq<Choice>, more: seq<Choice>) {
    forall m :: 0 <= m < |more| ==> Rejecting(env, Run(env, before + more[..m]), more[m])
  }

  lemma RejectingKeepsGrants(env: Env, w: World, c: Choice)
    requires AllWellPlaced(w.threads) && Rejecting(env, w, c)
    ensures Advance(env, w, c).server.grants == w.server.grants
  {
    hide TokenRequest;
    if c.Step? && c.id in w.threads && w.threads[c.id].Recorded? {
      TokenAnswer(env, w.server.grants, w.threads[c.id].req);
      RejectionChangesNothing(env, w.server.grants, w.threads[c.id].req);
    }
  }

  /**
   The same under any interleaving: as long as all that happens is requests arriving and token requests being rejected,
   however they overlap, the grants stay, and every handler does next what it would have done before.
   */
  lemma {:induction false} RejectionsInterleavedAreHarmless(env: Env, before: seq<Choice>, more: seq<Choice>, t: Thread)
    requires WellPlaced(t) && AllRejecting(env, before, more)
    ensures Run(env, before + more).server.grants == Run(env, before).server.grants
    ensures Region(env, Run(env, before + more).server.grants, t) == Region(env, Run(env, before).server.grants, t)
    decreases |more|
  {
    hide Region, Advance, Rejecting;
    if more == [] {
      assert before + more == before;
    } else {
      var init, c := more[..|more| - 1], more[|more| - 1];
      assert forall m :: 0 <= m < |init| ==> init[..m] == more[..m] && init[m] == more[m];
      RejectionsInterleavedAreHarmless(env, before, init, t);
      RejectingKeepsGrants(env, Run(env, before + init), c);
      assert (before + more)[..|before + more| - 1] == before + init;
    }
  }
}
