/** What the request behind a step of a run has said, and what its client is told. */
module Requests {
  import opened Options
  import opened Names
  import opened Ledger
  import opened History
  import opened UrlValues
  import opened Handlers
  import opened Schedule
  import opened Runs
  import opened Updating
  import opened Answers

  lemma OnlyManagementDeletes(env: Env, g: Grants, t: Thread)
    requires WellPlaced(t) && Region(env, g, t).events != [] && Region(env, g, t).events[0].Deleted?
    ensures t.Recorded? && t.req.Manage?
  {
    hide Name, Effect, StrictJson.StrictDecode, ValidRedirectURIs, AcceptableUpdate, Callback.Parameters,
      AuthorizationError, MatchesCode, TargetsResource;
  }

  /** The handler that takes step `m` belongs to a request for this client that carries this token. */
  ghost predicate CarriedToken(env: Env, choices: seq<Choice>, m: nat, verb: string, client: string, token: string) {
    && m < |choices| && choices[m].Step?
    && var threads, id := Run(env, choices[..m]).threads, choices[m].id;
       && id in threads && !threads[id].Finished?
       && var req := threads[id].req;
          && req.Manage? && req.http.verb == verb && req.clientID == client
          && req.http.authorization == "Bearer " + token
  }

  /** In every interleaving, what is deleted or updated is what a request with its management token asked for. */
  lemma CommitsCarryToken(env: Env, choices: seq<Choice>, m: nat, e: Event)
    requires m < |choices| && Emitted(env, choices, m) == [e] && (e.Updated? || e.Deleted?)
    ensures CarriedToken(env, choices, m, if e.Updated? then "PUT" else "DELETE", e.client, e.oldToken)
  {
    hide Run, Region;
    var w, id := Run(env, choices[..m]), choices[m].id;
    var t := w.threads[id];
    if e.Deleted? {
      OnlyManagementDeletes(env, w.server.grants, t);
      RegionOfManagement(env, w.server.grants, t.req);
      ManagementAnswered(w.server.grants, t.req);
    } else {
      OnlyPutsUpdate(env, w.server.grants, t);
      var l := WhoRead(env, choices[..m], id);
      var g := Run(env, choices[..m][..l]).server.grants;
      RegionOfManagement(env, g, t.req);
      ManagementAnswered(g, t.req);
    }
  }

  lemma RegionOfManagement(env: Env, g: Grants, req: Request)
    requires req.Manage?
    ensures Region(env, g, Recorded(req)) == ManageClient(g, req)
  {}

  // ---- Redirects --------------------------------------------------------------------------------------

  lemma OnlyDecisionsRedirect(env: Env, g: Grants, t: Thread)
    requires WellPlaced(t) && !t.Finished?
    ensures Region(env, g, t).next.Finished? && Region(env, g, t).next.response.Redirect? ==> t.ClientLooked?
    ensures Region(env, g, t).events != [] && Region(env, g, t).events[0].Minted? ==> t.ClientLooked?
  {
    hide Name, Effect, StrictJson.StrictDecode, ValidRedirectURIs, AcceptableUpdate, Callback.Parameters,
      AuthorizationError, MatchesCode, TargetsResource;
  }

  lemma RegionOfDecision(env: Env, g: Grants, t: Thread)
    requires WellPlaced(t) && t.ClientLooked?
    ensures Region(env, g, t) == AuthorizeDecide(env, g, t.req, t.client)
  {}

  /** In one region: a redirect with a code and a minting are the same thing, and agree on code and target. */
  lemma RedirectIsMinting(env: Env, g: Grants, t: Thread)
    requires WellPlaced(t) && t.ClientLooked?
    ensures var r := Region(env, g, t);
            && (r.events != [] ==> MintsForTarget(r, g))
            && (r.events == [] && r.next.Finished? && r.next.response.Redirect? ==>
                  "code" !in r.next.response.parameters)
  {
    hide Region, AuthorizeDecide, ClientAndPkce, SomeState, Says;
    RegionOfDecision(env, g, t);
    AuthorizationAnswered(env, g, t.req, t.client);
  }

  /** Step `m` minted the code, and the redirect went to the URI that the code is stored with. */
  ghost predicate RedirectedAt(env: Env, choices: seq<Choice>, m: nat, id: nat, target: string, code: string) {
    && m < |choices| && choices[m] == Step(id)
    && |Emitted(env, choices, m)| == 1 && Emitted(env, choices, m)[0].Minted?
    && var e := Emitted(env, choices, m)[0];
       && e.code == code && e.record.redirectURI == target
       && Holds(Run(env, choices[..m + 1]).server.grants.codes, code, e.record)
  }

  /**
   In every interleaving a minting step ends its request with a redirect to the code's own URI that carries the code.
   */
  lemma MintingsRedirect(env: Env, choices: seq<Choice>, m: nat)
    requires m < |choices| && Emitted(env, choices, m) != [] && Emitted(env, choices, m)[0].Minted?
    ensures choices[m].Step? && |Emitted(env, choices, m)| == 1
    ensures var e, threads := Emitted(env, choices, m)[0], Run(env, choices[..m + 1]).threads;
            var id := choices[m].id;
            && id in threads && threads[id].Finished? && threads[id].response.Redirect?
            && threads[id].response.target == e.record.redirectURI
            && "code" in threads[id].response.parameters && threads[id].response.parameters["code"] == [e.code]
            && RedirectedAt(env, choices, m, id, e.record.redirectURI, e.code)
  {
    hide Run, Region;
    var w, id := Run(env, choices[..m]), choices[m].id;
    var t := w.threads[id];
    OnlyDecisionsMintHere(env, w.server.grants, t);
    RedirectIsMinting(env, w.server.grants, t);
    StepTaken(env, choices, m);
  }

  lemma OnlyDecisionsMintHere(env: Env, g: Grants, t: Thread)
    requires WellPlaced(t) && Region(env, g, t).events != [] && Region(env, g, t).events[0].Minted?
    ensures t.ClientLooked?
  {
    hide Region;
    if t.Finished? {
      FinishedEmitsNothing(env, g, t);
    } else {
      OnlyDecisionsRedirect(env, g, t);
    }
  }

  lemma FinishedEmitsNothing(env: Env, g: Grants, t: Thread)
    requires t.Finished?
    ensures Region(env, g, t).events == [] && Region(env, g, t).next == t
  {}

  /** What a step of a run does. */
  lemma StepTaken(env: Env, choices: seq<Choice>, m: nat)
    requires m < |choices| && choices[m].Step? && choices[m].id in Run(env, choices[..m]).threads
    ensures var w, after, id := Run(env, choices[..m]), Run(env, choices[..m + 1]), choices[m].id;
            var r := Region(env, w.server.grants, w.threads[id]);
            after.threads == w.threads[id := r.next] && after.server.grants == r.grants
  {
    hide Region, Evidence;
    assert choices[..m + 1][..m] == choices[..m];
  }

  lemma RedirectedEarlier(env: Env, choices: seq<Choice>, n: nat, m: nat, id: nat, target: string, code: string)
    requires n <= |choices| && RedirectedAt(env, choices[..n], m, id, target, code)
    ensures m < n && RedirectedAt(env, choices, m, id, target, code)
  {
    assert choices[..n][..m] == choices[..m] && choices[..n][..m + 1] == choices[..m + 1];
  }

  /** In every reachable world, a redirect that carries a code goes to the URI that this code was stored with. */
  lemma {:induction false} WhoRedirected(env: Env, choices: seq<Choice>, id: nat) returns (m: nat)
    requires var threads := Run(env, choices).threads;
             id in threads && threads[id].Finished? && threads[id].response.Redirect?
             && "code" in threads[id].response.parameters
    ensures var response := Run(env, choices).threads[id].response;
            |response.parameters["code"]| == 1
            && RedirectedAt(env, choices, m, id, response.target, response.parameters["code"][0])
  {
    hide Region, RedirectedAt;
    var last := |choices| - 1;
    var w := Run(env, choices[..last]);
    assert choices[..last + 1] == choices;
    if choices[last] == Step(id) && id in w.threads && !w.threads[id].Finished? {
      var t := w.threads[id];
      OnlyDecisionsRedirect(env, w.server.grants, t);
      RedirectIsMinting(env, w.server.grants, t);
      MintingsRedirect(env, choices, last);
      m := last;
    } else {
      if choices[last] == Step(id) && id in w.threads {
        FinishedEmitsNothing(env, w.server.grants, w.threads[id]);
      }
      m := WhoRedirected(env, choices[..last], id);
      var response := w.threads[id].response;
      RedirectedEarlier(env, choices, last, m, id, response.target, response.parameters["code"][0]);
    }
  }
}
