/** Codes along a run: whose lookup a minting rests on, and whether the client is still there. */
module Minting {
  import opened Options
  import opened Names
  import opened Pkce
  import opened Ledger
  import opened History
  import opened Families
  import opened UrlValues
  import opened Handlers
  import opened Schedule
  import opened Runs

  /** Choice `l` is the step in which handler `id` looked its client up, with this result. */
  ghost predicate LookedUp(env: Env, choices: seq<Choice>, l: nat, id: nat, req: Request, client: Option<Client>) {
    && l < |choices| && choices[l] == Step(id) && req.Authorize?
    && var w := Run(env, choices[..l]);
       && id in w.threads && w.threads[id] == Recorded(req)
       && client == Lookup(w.server.grants.clients, Get(req.query, "client_id"))
       && Region(env, w.server.grants, Recorded(req)).next == ClientLooked(req, client)
  }

  lemma LookupResult(env: Env, g: Grants, t: Thread)
    requires WellPlaced(t) && Region(env, g, t).next.ClientLooked?
    ensures t.Recorded? && t.req.Authorize?
    ensures var client := Lookup(g.clients, Get(t.req.query, "client_id"));
            && Region(env, g, t).next == ClientLooked(t.req, client)
            && Region(env, g, t).events ==
               if client.Some? then [Seen(Get(t.req.query, "client_id"), client.value)] else []
  {
    hide RegisterClient, ManageClient, UpdateClient, AuthorizeDecide, TokenRequest, BearerCheck, Effect;
    OnlyLookupsLook(env, g, t);
  }

  lemma LookedUpEarlier(env: Env, choices: seq<Choice>, n: nat, l: nat, id: nat, req: Request, client: Option<Client>)
    requires n <= |choices| && LookedUp(env, choices[..n], l, id, req, client)
    ensures l < n && LookedUp(env, choices, l, id, req, client)
  {
    assert choices[..n][..l] == choices[..l];
  }

  /** Every handler that carries a client has looked it up itself, at some step of the run. */
  lemma {:induction false} WhoLookedUp(env: Env, choices: seq<Choice>, id: nat) returns (l: nat)
    requires id in Run(env, choices).threads && Run(env, choices).threads[id].ClientLooked?
    ensures var t := Run(env, choices).threads[id]; LookedUp(env, choices, l, id, t.req, t.client)
  {
    hide Region, Lookup;
    var last := |choices| - 1;
    var w := Run(env, choices[..last]);
    if choices[last] == Step(id) && id in w.threads && w.threads[id].Recorded? {
      LookupResult(env, w.server.grants, w.threads[id]);
      l := last;
    } else {
      if choices[last] == Step(id) && id in w.threads {
        LookupResult(env, w.server.grants, w.threads[id]);
      }
      l := WhoLookedUp(env, choices[..last], id);
      LookedUpEarlier(env, choices, last, l, id, w.threads[id].req, w.threads[id].client);
    }
  }

  /** Only the second region of `authorize` mints, and only for the client it carries. */
  lemma OnlyDecisionsMint(env: Env, g: Grants, t: Thread)
    requires WellPlaced(t) && Region(env, g, t).events != [] && Region(env, g, t).events[0].Minted?
    ensures t.ClientLooked? && t.client.Some?
    ensures var record := Region(env, g, t).events[0].record;
            && record == CodeFor(t.req.query, t.req.identity.value.resource)
            && record.redirectURI in t.client.value.redirectURIs
  {
    hide Name, Effect, StrictJson.StrictDecode, ValidRedirectURIs, AcceptableUpdate, Callback.Parameters, MatchesCode,
      TargetsResource, IsPkceValue;
  }

  /** The minted code's client and redirect URI are what the handler's own lookup found registered. */
  ghost predicate RestsOn(env: Env, choices: seq<Choice>, l: nat, m: nat, record: Code) {
    && l < m < |choices| && choices[m].Step?
    && exists req, client ::
         && LookedUp(env, choices, l, choices[m].id, req, Some(client))
         && record.clientID == Get(req.query, "client_id") && record.redirectURI in client.redirectURIs
         && record.challenge == Get(req.query, "code_challenge")
         && Emitted(env, choices, l) == [Seen(record.clientID, client)]
  }

  /** Every minting rests on an earlier lookup by the same handler. */
  lemma MintFollowsOwnLookup(env: Env, choices: seq<Choice>, m: nat) returns (l: nat)
    requires m < |choices| && Emitted(env, choices, m) != [] && Emitted(env, choices, m)[0].Minted?
    ensures RestsOn(env, choices, l, m, Emitted(env, choices, m)[0].record)
  {
    hide Run, Region;
    var w, id := Run(env, choices[..m]), choices[m].id;
    var t := w.threads[id];
    OnlyDecisionsMint(env, w.server.grants, t);
    l := WhoLookedUp(env, choices[..m], id);
    LookedUpEarlier(env, choices, m, l, id, t.req, t.client);
    LookupEmits(env, choices, l, id, t.req, t.client);
  }

  lemma LookupEmits(env: Env, choices: seq<Choice>, l: nat, id: nat, req: Request, client: Option<Client>)
    requires LookedUp(env, choices, l, id, req, client) && client.Some?
    ensures Emitted(env, choices, l) == [Seen(Get(req.query, "client_id"), client.value)]
  {
    hide Run, Region;
    LookupResult(env, Run(env, choices[..l]).server.grants, Recorded(req));
  }

  // ---- Is the client still registered? ---------------------------------------------------------

  predicate DeletedAt(env: Env, choices: seq<Choice>, x: nat, client: string) {
    x < |choices| && |Emitted(env, choices, x)| == 1
    && Emitted(env, choices, x)[0].Deleted? && Emitted(env, choices, x)[0].client == client
  }

  /**
   In every reachable state a client is registered exactly when its last management event since a reset left a token.
   */
  lemma RegisteredExactly(env: Env, choices: seq<Choice>, client: string)
    ensures client in Run(env, choices).server.grants.clients <==> CurrentToken(Run(env, choices).log, client).Some?
  {
    hide Run;
    var w := Run(env, choices);
    RunsRefineLedger(env, choices);
    LogKeepsInv(env.sha256, w.log);
    CurrentTokenIsStored(w.log, client);
    TokensAndClients(w.server.grants, client);
  }

  lemma TokensAndClients(g: Grants, client: string)
    requires Inv(g)
    ensures client in g.clients <==> client in g.registrationTokens
  {}

  lemma StepInLog(env: Env, choices: seq<Choice>, x: nat, n: nat)
    requires x < n <= |choices| && |Emitted(env, choices, x)| == 1
    ensures var k := |Run(env, choices[..x]).log|;
            k < |Run(env, choices[..n]).log| && Run(env, choices[..n]).log[k] == Emitted(env, choices, x)[0]
            && k + 1 == |Run(env, choices[..x + 1]).log|
  {
    hide Run, Emitted;
    EmittedExtends(env, choices, x);
    LogGrows(env, choices, x + 1, n);
  }

  /** Steps between `l` and `m` and positions in the ledger correspond. */
  lemma DeletionsInLog(env: Env, choices: seq<Choice>, l: nat, m: nat, client: string)
    requires l < m <= |choices| && |Emitted(env, choices, l)| == 1
    ensures var log := Run(env, choices[..m]).log;
            (exists x: nat :: l < x < m && DeletedAt(env, choices, x, client)) <==>
            (exists k :: |Run(env, choices[..l]).log| < k < |log| && log[k].Deleted? && log[k].client == client)
  {
    hide Run, Emitted;
    var log, p := Run(env, choices[..m]).log, |Run(env, choices[..l]).log|;
    EmittedExtends(env, choices, l);
    if x: nat :| l < x < m && DeletedAt(env, choices, x, client) {
      StepInLog(env, choices, x, m);
      LogGrows(env, choices, l + 1, x);
    }
    if k :| p < k < |log| && log[k].Deleted? && log[k].client == client {
      var x := WhoEmitted(env, choices, l + 1, m, k);
      assert DeletedAt(env, choices, x, client);
    }
  }

  lemma QuietBetween(env: Env, choices: seq<Choice>, l: nat, e: Event, m: nat, f: Event)
    returns (log: Log, p: nat, q: nat)
    requires EmitInOrder(env, choices, l, e, m, f) && !e.Reset?
    requires forall x: nat :: l < x < m ==> !ResetAt(env, choices, x)
    ensures ValidLog(env.sha256, log) && p < q < |log| && log[p] == e && Quiet(log, p, q)
    ensures log[..q] == Run(env, choices[..m]).log && p == |Run(env, choices[..l]).log|
  {
    hide Run, Emitted, ValidLog;
    log, p, q := PositionsInLog(env, choices, l, e, m, f);
    LogGrows(env, choices, m, m + 1);
    EmittedExtends(env, choices, m);
    forall k | p <= k < q ensures !log[k].Reset? {
      if log[k].Reset? {
        ResetInLogIsStep(env, choices, l, m, k);
      }
    }
  }

  /**
   Between the lookup and the minting of one request: if no reset comes in between, the client is still registered when
   its code is minted exactly when no step in between deletes it. In general it is exactly when the last registration,
   update or deletion of that client since the last reset is not a deletion.
   */
  lemma MintedForRegisteredExactly(env: Env, choices: seq<Choice>, l: nat, m: nat, record: Code)
    requires RestsOn(env, choices, l, m, record)
    requires |Emitted(env, choices, m)| == 1 && Emitted(env, choices, m)[0].Minted?
    ensures var w := Run(env, choices[..m]);
            record.clientID in w.server.grants.clients <==> CurrentToken(w.log, record.clientID).Some?
    ensures (forall x: nat :: l < x < m ==> !ResetAt(env, choices, x)) ==>
              (record.clientID in Run(env, choices[..m]).server.grants.clients <==>
               !exists x: nat :: l < x < m && DeletedAt(env, choices, x, record.clientID))
  {
    hide Run, Emitted, LookedUp, ValidLog, DeletedAt;
    var client := record.clientID;
    RegisteredExactly(env, choices[..m], client);
    if forall x: nat :: l < x < m ==> !ResetAt(env, choices, x) {
      var e, f := Emitted(env, choices, l)[0], Emitted(env, choices, m)[0];
      var log, p, q := QuietBetween(env, choices, l, e, m, f);
      SeenClientStays(env.sha256, log, p, q);
      RunsRefineLedger(env, choices[..m]);
      DeletionsInLog(env, choices, l, m, client);
    }
  }

  // ---- Provenance in steps -----------------------------------------------------------------------

  /**
   Steps `l`, `m` and `r` of the run look up, mint and redeem a code, for this grant: the lookup is that of the minting
   request itself, the redemption shows a verifier behind the challenge, and no reset follows the minting.
   */
  ghost predicate Bought(env: Env, choices: seq<Choice>, l: nat, m: nat, r: nat, code: string, grant: Grant) {
    && m < r < |choices|
    && |Emitted(env, choices, m)| == 1 && |Emitted(env, choices, r)| == 1
    && (var e, f := Emitted(env, choices, m)[0], Emitted(env, choices, r)[0];
        && e.Minted? && f.Redeemed? && e.code == f.code == code && GrantOf(e.record) == grant
        && RestsOn(env, choices, l, m, e.record)
        && IsPkceValue(f.verifier) && Challenge(env.sha256, f.verifier) == e.record.challenge)
    && forall x: nat :: m < x < |choices| ==> !ResetAt(env, choices, x)
  }

  ghost predicate WasBought(env: Env, choices: seq<Choice>, code: string, grant: Grant) {
    exists l: nat, m: nat, r: nat :: Bought(env, choices, l, m, r, code, grant)
  }

  lemma WholeRun(env: Env, choices: seq<Choice>)
    ensures choices[..|choices|] == choices && choices[..0] == [] && Run(env, choices[..0]).log == []
  {}

  lemma StepsInLogOrder(env: Env, choices: seq<Choice>, m: nat, r: nat)
    requires m < |choices| && r < |choices| && |Run(env, choices[..m]).log| < |Run(env, choices[..r]).log|
    ensures m < r
  {
    if r <= m {
      LogGrows(env, choices, r, m);
    }
  }

  lemma TracesAreBought(env: Env, choices: seq<Choice>, code: string, grant: Grant)
    requires TracesTo(Run(env, choices).log, code, grant)
    ensures WasBought(env, choices, code, grant)
  {
    hide Run, Emitted, RestsOn, Challenge, IsPkceValue, ValidLog, RegistrationSeen, TracesTo;
    var log := Run(env, choices).log;
    RunsRefineLedger(env, choices);
    MintingAndRedemption(env.sha256, log, code, grant);
    var i: nat, j: nat :| Provenance(env.sha256, log, i, j, code, grant);
    WholeRun(env, choices);
    var m := WhoEmitted(env, choices, 0, |choices|, i);
    var r := WhoEmitted(env, choices, 0, |choices|, j);
    StepsInLogOrder(env, choices, m, r);
    forall x: nat | m < x < |choices| ensures !ResetAt(env, choices, x) {
      if ResetAt(env, choices, x) {
        StepInLog(env, choices, x, |choices|);
        LogGrows(env, choices, m, x);
      }
    }
    var l := MintFollowsOwnLookup(env, choices, m);
    assert Bought(env, choices, l, m, r, code, grant);
  }

  /** Every live access token of every reachable state was obtained in such steps. */
  lemma TokensAreBought(env: Env, choices: seq<Choice>, token: string)
    requires token in Run(env, choices).server.grants.access
    ensures var w := Run(env, choices);
            var root := AccessRoot(w.log, token);
            root.Some? && WasBought(env, choices, root.value, w.server.grants.access[token])
  {
    hide Run, Inv, FamilyBijection, AccessRoot, WasBought, RootsAreOlder, TracesTo;
    var w := Run(env, choices);
    ReachableStates(env, choices);
    RunsRefineLedger(env, choices);
    TracesAreBought(env, choices, AccessRoot(w.log, token).value, w.server.grants.access[token]);
  }

  /** So was every live refresh token, however often its family was rotated. */
  lemma RefreshTokensAreBought(env: Env, choices: seq<Choice>, token: string)
    requires token in Run(env, choices).server.grants.refresh
    ensures var w := Run(env, choices);
            var root := Root(w.log, token);
            root.Some? && WasBought(env, choices, root.value, w.server.grants.refresh[token])
  {
    hide Run, Inv, FamilyBijection, Root, WasBought, RootsAreOlder, TracesTo;
    var w := Run(env, choices);
    ReachableStates(env, choices);
    RunsRefineLedger(env, choices);
    TracesAreBought(env, choices, Root(w.log, token).value, w.server.grants.refresh[token]);
  }

  /**
   So an MCP request is let through only with a token obtained in such steps, for the resource it is let through to.
   */
  lemma AdmittedTokensAreBought(env: Env, choices: seq<Choice>, id: nat)
    requires var w := Run(env, choices);
             id in w.threads && w.threads[id].Recorded? && w.threads[id].req.Mcp?
             && Region(env, w.server.grants, w.threads[id]).next.BearerAccepted?
    ensures var w := Run(env, choices);
            var req := w.threads[id].req;
            var token := Bearer(req.http);
            && req.identity.Some? && token in w.server.grants.access
            && w.server.grants.access[token].resource == req.identity.value.resource
            && AccessRoot(w.log, token).Some?
            && WasBought(env, choices, AccessRoot(w.log, token).value, w.server.grants.access[token])
  {
    hide WasBought, AccessRoot;
    var w := Run(env, choices);
    AcceptedToken(w.server.grants, w.threads[id].req);
    TokensAreBought(env, choices, Bearer(w.threads[id].req.http));
  }
}
