/** Updates along a run: which registration an update commits to that has read its token earlier. */
module Updating {
  import opened Options
  import opened Names
  import opened Ledger
  import opened History
  import opened Handlers
  import opened Schedule
  import opened Runs
  import opened Minting

  // ---- The registration in force, on logs --------------------------------------------------------

  /** The position of the registration or update that issued the token in force. */
  function CurrentIssue(log: Log, client: string): Option<nat> {
    if log == [] then None
    else
      var init, e := log[..|log| - 1], log[|log| - 1];
      match e
      case Reset => None
      case Registered(c, _, _) => if c == client then Some(|log| - 1) else CurrentIssue(init, client)
      case Updated(c, _, _, _) => if c == client then Some(|log| - 1) else CurrentIssue(init, client)
      case Deleted(c, _) => if c == client then None else CurrentIssue(init, client)
      case _ => CurrentIssue(init, client)
  }

  lemma {:induction false} IssueOfToken(log: Log, client: string)
    ensures CurrentIssue(log, client).Some? <==> CurrentToken(log, client).Some?
    ensures CurrentIssue(log, client).Some? ==>
              var i := CurrentIssue(log, client).value;
              && i < |log| && Quiet(log, i, |log|)
              && (log[i].Registered? || log[i].Updated?) && log[i].client == client
              && CurrentToken(log, client) == Some(log[i].token)
  {
    if log != [] {
      IssueOfToken(log[..|log| - 1], client);
    }
  }

  /** Within an epoch the same token is the same issue; across a reset it never is. */
  lemma SameTokenSameIssue(sha256: string -> Pkce.Digest, log: Log, p: nat, client: string)
    requires ValidLog(sha256, log) && p <= |log|
    requires CurrentToken(log, client).Some? && CurrentToken(log[..p], client) == CurrentToken(log, client)
    ensures CurrentIssue(log[..p], client) == CurrentIssue(log, client) <==> Quiet(log, p, |log|)
  {
    hide ValidLog, CurrentIssue, CurrentToken;
    IssueOfToken(log, client);
    IssueOfToken(log[..p], client);
    var i, j := CurrentIssue(log[..p], client).value, CurrentIssue(log, client).value;
    assert log[..p][i] == log[i];
    if Quiet(log, p, |log|) && i != j {
      assert forall k :: i <= k < p ==> log[k] == log[..p][k];
      var token := log[i].token;
      assert token in Issued(log[i]) && token in Issued(log[j]);
      if i < j {
        CredentialsDistinct(sha256, log, i, j);
      } else {
        CredentialsDistinct(sha256, log, j, i);
      }
    }
  }

  // ---- The same for runs ---------------------------------------------------------------------------

  /** Choice `l` is the step in which handler `id` read the token it will compare again. */
  ghost predicate ReadAt(env: Env, choices: seq<Choice>, l: nat, id: nat, req: Request, token: string) {
    && l < |choices| && choices[l] == Step(id) && req.Manage?
    && var w := Run(env, choices[..l]);
       && id in w.threads && w.threads[id] == Recorded(req)
       && Holds(w.server.grants.registrationTokens, req.clientID, token)
       && Region(env, w.server.grants, Recorded(req)) == Outcome(w.server.grants, PutChecked(req, token), [])
  }

  lemma ReadResult(env: Env, g: Grants, t: Thread)
    requires WellPlaced(t) && Region(env, g, t).next.PutChecked?
    ensures t.Recorded? && t.req.Manage? && t.req.clientID in g.registrationTokens
    ensures Region(env, g, t) == Outcome(g, PutChecked(t.req, g.registrationTokens[t.req.clientID]), [])
  {
    hide RegisterClient, UpdateClient, AuthorizeDecide, TokenRequest, Effect;
    OnlyPutsRead(env, g, t);
  }

  lemma OnlyPutsRead(env: Env, g: Grants, t: Thread)
    requires WellPlaced(t) && Region(env, g, t).next.PutChecked?
    ensures t.Recorded? && t.req.Manage?
  {
    hide RegisterClient, UpdateClient, AuthorizeDecide, TokenRequest, Effect;
    match t
    case Recorded(req) =>
      RegistrationEnds(env, g, req, "");
      AuthorizationEnds(env, g, req, None);
    case PutChecked(req, token) => RegistrationEnds(env, g, req, token);
    case ClientLooked(req, client) => AuthorizationEnds(env, g, req, client);
    case _ =>
  }

  lemma ReadEarlier(env: Env, choices: seq<Choice>, n: nat, l: nat, id: nat, req: Request, token: string)
    requires n <= |choices| && ReadAt(env, choices[..n], l, id, req, token)
    ensures l < n && ReadAt(env, choices, l, id, req, token)
  {
    assert choices[..n][..l] == choices[..l];
  }

  /** Every handler that carries a management token has read it itself, at some step of the run. */
  lemma {:induction false} WhoRead(env: Env, choices: seq<Choice>, id: nat) returns (l: nat)
    requires id in Run(env, choices).threads && Run(env, choices).threads[id].PutChecked?
    ensures var t := Run(env, choices).threads[id]; ReadAt(env, choices, l, id, t.req, t.token)
  {
    hide Region;
    var last := |choices| - 1;
    var w := Run(env, choices[..last]);
    if choices[last] == Step(id) && id in w.threads && w.threads[id].Recorded? {
      ReadResult(env, w.server.grants, w.threads[id]);
      l := last;
    } else {
      if choices[last] == Step(id) && id in w.threads {
        ReadResult(env, w.server.grants, w.threads[id]);
      }
      l := WhoRead(env, choices[..last], id);
      ReadEarlier(env, choices, last, l, id, w.threads[id].req, w.threads[id].token);
    }
  }

  /** Only the second region of a PUT updates, and only under the token it carries. */
  lemma OnlyPutsUpdate(env: Env, g: Grants, t: Thread)
    requires WellPlaced(t) && Region(env, g, t).events != [] && Region(env, g, t).events[0].Updated?
    ensures t.PutChecked?
    ensures var e := Region(env, g, t).events[0]; e.client == t.req.clientID && e.oldToken == t.token
  {
    hide Name, Effect, StrictJson.StrictDecode, ValidRedirectURIs, AcceptableUpdate, Callback.Parameters,
      AuthorizationError, MatchesCode, TargetsResource;
  }

  /** Step `m` commits an update whose handler has read the token at step `l`. */
  ghost predicate UpdatesAfterRead(env: Env, choices: seq<Choice>, l: nat, m: nat, e: Event) {
    && l < m < |choices| && Emitted(env, choices, m) == [e] && e.Updated? && choices[m].Step?
    && exists req: Request ::
         req.Manage? && ReadAt(env, choices, l, choices[m].id, req, e.oldToken) && req.clientID == e.client
  }

  lemma UpdateFollowsOwnRead(env: Env, choices: seq<Choice>, m: nat, e: Event) returns (l: nat)
    requires m < |choices| && Emitted(env, choices, m) == [e] && e.Updated?
    ensures UpdatesAfterRead(env, choices, l, m, e)
  {
    hide Run, Region;
    var w, id := Run(env, choices[..m]), choices[m].id;
    var t := w.threads[id];
    OnlyPutsUpdate(env, w.server.grants, t);
    l := WhoRead(env, choices[..m], id);
    ReadEarlier(env, choices, m, l, id, t.req, t.token);
  }

  lemma ReadEmitsNothing(env: Env, choices: seq<Choice>, l: nat, id: nat, req: Request, token: string)
    requires ReadAt(env, choices, l, id, req, token)
    ensures Emitted(env, choices, l) == []
    ensures CurrentToken(Run(env, choices[..l]).log, req.clientID) == Some(token)
  {
    hide Run, Region;
    RunsRefineLedger(env, choices[..l]);
    CurrentTokenIsStored(Run(env, choices[..l]).log, req.clientID);
  }

  /** No reset step from a silent step on is no reset in the ledger from there on. */
  lemma QuietSteps(env: Env, choices: seq<Choice>, l: nat, m: nat)
    requires l < m <= |choices| && Emitted(env, choices, l) == []
    ensures var p, log := |Run(env, choices[..l]).log|, Run(env, choices[..m]).log;
            p <= |log| && log[..p] == Run(env, choices[..l]).log
            && (Quiet(log, p, |log|) <==> forall x: nat :: l < x < m ==> !ResetAt(env, choices, x))
  {
    hide Run, Emitted;
    var p, log := |Run(env, choices[..l]).log|, Run(env, choices[..m]).log;
    LogGrows(env, choices, l, m);
    if forall x: nat :: l < x < m ==> !ResetAt(env, choices, x) {
      forall k | p <= k < |log| ensures !log[k].Reset? {
        var x := WhoEmitted(env, choices, l, m, k);
        assert x != l;
        assert log[k].Reset? ==> ResetAt(env, choices, x);
      }
    }
    forall x: nat | l < x < m && ResetAt(env, choices, x) ensures !Quiet(log, p, |log|) {
      StepInLog(env, choices, x, m);
      LogGrows(env, choices, l, x);
    }
  }

  /**
   The registration that an update commits to is the one its handler read the token of exactly when no reset comes in
   between. Across a reset the same token string belongs to another registration.
   */
  lemma UpdatesWhatItReadExactly(env: Env, choices: seq<Choice>, l: nat, m: nat, e: Event)
    requires UpdatesAfterRead(env, choices, l, m, e)
    ensures var before, now := Run(env, choices[..l]).log, Run(env, choices[..m]).log;
            && CurrentIssue(now, e.client).Some?
            && (CurrentIssue(before, e.client) == CurrentIssue(now, e.client) <==>
                forall x: nat :: l < x < m ==> !ResetAt(env, choices, x))
  {
    hide Run, Emitted, ReadAt, ValidLog, CurrentToken, CurrentIssue;
    var req: Request :| req.Manage? && ReadAt(env, choices, l, choices[m].id, req, e.oldToken)
      && req.clientID == e.client;
    ReadEmitsNothing(env, choices, l, choices[m].id, req, e.oldToken);
    CommitsUseTokenInForce(env, choices, m, e);
    RunsRefineLedger(env, choices[..m]);
    var log := Run(env, choices[..m]).log;
    QuietSteps(env, choices, l, m);
    IssueOfToken(log, e.client);
    SameTokenSameIssue(env.sha256, log, |Run(env, choices[..l]).log|, e.client);
  }
}
