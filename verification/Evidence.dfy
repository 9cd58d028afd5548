/** The request evidence: per-endpoint counters, per-method MCP counters and the capture log. */
module EvidenceAgreement {
  import opened Options
  import opened Names
  import opened Ledger
  import opened Handlers
  import opened Schedule
  import opened Runs
  import opened Sums

  function Count(counters: map<string, nat>, key: string): nat {
    if key in counters then counters[key] else 0
  }

  /** The counters of MCP methods share the map with the endpoint counters; the prefix tells them apart. */
  predicate IsMethodKey(key: string) {
    |key| >= 4 && key[..4] == "mcp:"
  }

  function CapturesAt(captures: seq<Capture>, endpoint: string): nat {
    if captures == [] then 0
    else
      CapturesAt(captures[..|captures| - 1], endpoint)
        + (if captures[|captures| - 1].endpoint == endpoint then 1 else 0)
  }

  ghost function Keys(counters: map<string, nat>, methods: bool): set<string> {
    set k | k in counters && IsMethodKey(k) == methods
  }

  /** The sum of all method counters, or of all others. */
  ghost function Total(counters: map<string, nat>, methods: bool): int {
    Sum(Keys(counters, methods), k => Count(counters, k))
  }

  lemma BumpTotal(counters: map<string, nat>, key: string, methods: bool)
    ensures Total(Bump(counters, key), methods) == Total(counters, methods)
      + (if IsMethodKey(key) == methods then 1 else 0)
  {
    hide IsMethodKey;
    var next := Bump(counters, key);
    var f, g := k => Count(counters, k), k => Count(next, k);
    var s := Keys(counters, methods);
    if IsMethodKey(key) != methods {
      assert Keys(next, methods) == s;
      SumSame(s, f, g);
    } else if key in counters {
      assert Keys(next, methods) == s;
      SumUpdate(s, f, g, key);
    } else {
      assert Keys(next, methods) == s + {key};
      SumInsert(s, f, g, key);
    }
  }

  /** The counters agree with the captures, endpoint by endpoint and in total. */
  ghost predicate Agrees(s: State) {
    && (forall k :: !IsMethodKey(k) ==> Count(s.counters, k) == CapturesAt(s.captures, k))
    && Total(s.counters, false) == |s.captures|
  }

  lemma EndpointIsNoMethodKey(req: Request)
    ensures !IsMethodKey(Endpoint(req))
  {
    var e := Endpoint(req);
    if |e| >= 4 {
      assert e[0] != 'm';
      assert e[..4][0] == e[0];
    }
  }

  lemma MethodKeyIsMethodKey(called: string)
    ensures IsMethodKey(MethodKey(called))
  {}

  lemma RecordAgrees(s: State, http: Http, endpoint: string)
    requires Agrees(s) && !IsMethodKey(endpoint)
    ensures Agrees(Record(s, http, endpoint))
  {
    hide IsMethodKey;
    var next := Record(s, http, endpoint);
    BumpTotal(s.counters, endpoint, false);
    assert next.captures[..|s.captures|] == s.captures;
  }

  lemma MethodCountAgrees(s: State, called: string)
    requires Agrees(s)
    ensures Agrees(s.(counters := Bump(s.counters, MethodKey(called))))
  {
    BumpTotal(s.counters, MethodKey(called), false);
    MethodKeyIsMethodKey(called);
    hide IsMethodKey, MethodKey;
  }

  lemma EvidenceKeepsAgreement(s: State, t: Thread)
    requires Agrees(s)
    ensures Agrees(Evidence(s, t))
  {
    hide IsMethodKey, Agrees, Endpoint, MethodKey;
    StartAgrees();
    match t
    case Arrived(req) =>
      EndpointIsNoMethodKey(req);
      RecordAgrees(s, req.http, Endpoint(req));
    case BearerAccepted(req) =>
      if req.Mcp? && req.envelope.Envelope? {
        MethodCountAgrees(s, req.envelope.called);
      }
    case _ =>
  }

  lemma StartAgrees()
    ensures Agrees(START)
  {
    assert Keys(START.counters, false) == {};
  }

  lemma AgreementIgnoresGrants(s: State, g: Grants)
    requires Agrees(s)
    ensures Agrees(s.(grants := g))
  {}

  /**
   In every reachable state each endpoint counter is the number of its captures, and together they are all captures.
   */
  lemma {:induction false} CountersMatchCaptures(env: Env, choices: seq<Choice>)
    ensures Agrees(Run(env, choices).server)
  {
    hide Agrees, Region;
    if choices == [] {
      StartAgrees();
    } else {
      var w := Run(env, choices[..|choices| - 1]);
      CountersMatchCaptures(env, choices[..|choices| - 1]);
      var c := choices[|choices| - 1];
      if c.Step? && c.id in w.threads {
        var t := w.threads[c.id];
        EvidenceKeepsAgreement(w.server, t);
        AgreementIgnoresGrants(Evidence(w.server, t), Region(env, w.server.grants, t).grants);
      }
    }
  }

  /** Each request is recorded under the name of its endpoint, and no two kinds of request share one. */
  lemma EndpointsByRequest(req: Request)
    ensures Endpoint(req) == "register" <==> req.Register?
    ensures Endpoint(req) == "registration_update" <==> req.Manage? && req.http.verb == "PUT"
    ensures Endpoint(req) == "registration_delete" <==> req.Manage? && req.http.verb == "DELETE"
    ensures Endpoint(req) == "registration_management" <==>
            req.Manage? && req.http.verb != "PUT" && req.http.verb != "DELETE"
    ensures Endpoint(req) == "authorize" <==> req.Authorize?
    ensures Endpoint(req) == "token" <==> req.Token?
    ensures Endpoint(req) == "mcp" <==> req.Mcp?
    ensures Endpoint(req) == "protected_resource_metadata" <==> req.ProtectedResource?
    ensures Endpoint(req) == "authorization_server_metadata" <==> req.AuthorizationServer?
  {
    assert |"register"| == 8 && |"registration_update"| == 19 && |"registration_delete"| == 19;
    assert "registration_update"[13] == 'u' && "registration_delete"[13] == 'd';
    assert |"registration_management"| == 23 && |"authorize"| == 9 && |"token"| == 5 && |"mcp"| == 3;
    assert |"protected_resource_metadata"| == 27 && |"authorization_server_metadata"| == 29;
    assert |"reset"| == 5 && "reset"[0] == 'r' && "token"[0] == 't';
  }

  /**
   What a new request leaves in the captures: its method and three headers, and of its authorization only whether there
   was one, so that requests with different credentials are captured alike.
   */
  lemma CapturedExactly(env: Env, s: State, req: Request, other: Request)
    requires !req.ResetAll?
    ensures var captures := After(env, s, Arrived(req)).captures;
            && |captures| == |s.captures| + 1 && captures[..|s.captures|] == s.captures
            && (var c, http := captures[|s.captures|], req.http;
                && c.endpoint == Endpoint(req) && c.verb == http.verb && c.accept == http.accept
                && c.contentType == http.contentType && c.protocolVersion == http.protocolVersion
                && (c.authorization <==> http.authorization != ""))
    ensures !other.ResetAll? && Endpoint(other) == Endpoint(req) && req.http.authorization != ""
            && other.http.authorization != "" && other.http.(authorization := "") == req.http.(authorization := "") ==>
              After(env, s, Arrived(other)).captures == After(env, s, Arrived(req)).captures
  {
    hide Endpoint;
  }

  // ---- Method counters ------------------------------------------------------------------------

  /** An MCP request that has been recorded and has not been answered or forwarded yet. */
  predicate McpInFlight(t: Thread) {
    (t.Recorded? && t.req.Mcp?) || t.BearerAccepted?
  }

  function InFlight(threads: map<nat, Thread>): set<nat> {
    set id | id in threads && McpInFlight(threads[id])
  }

  /** No MCP request is in flight when the server is reset. */
  ghost predicate NoStraddling(env: Env, choices: seq<Choice>) {
    forall m: nat :: ResetAt(env, choices, m) ==> InFlight(Run(env, choices[..m]).threads) == {}
  }

  /** Every request in flight and every method counted has its own count under `mcp`. */
  ghost predicate MethodsBounded(w: World) {
    Total(w.server.counters, true) + |InFlight(w.threads)| <= Count(w.server.counters, "mcp")
  }

  lemma InFlightAfter(threads: map<nat, Thread>, id: nat, t: Thread)
    ensures id in threads && McpInFlight(threads[id]) && !McpInFlight(t) ==>
              |InFlight(threads[id := t])| == |InFlight(threads)| - 1
    ensures (id !in threads || !McpInFlight(threads[id])) && McpInFlight(t) ==>
              |InFlight(threads[id := t])| == |InFlight(threads)| + 1
    ensures (id in threads && McpInFlight(threads[id]) <==> McpInFlight(t)) ==>
              |InFlight(threads[id := t])| == |InFlight(threads)|
  {
    hide McpInFlight;
    var before, after := InFlight(threads), InFlight(threads[id := t]);
    assert after - {id} == before - {id};
    assert id in after <==> McpInFlight(t);
    assert id in before <==> id in threads && McpInFlight(threads[id]);
    assert before == if id in before then (before - {id}) + {id} else before - {id};
    assert after == if id in after then (after - {id}) + {id} else after - {id};
  }

  lemma WhoseEvidence(env: Env, s: State, t: Thread)
    requires WellPlaced(t)
    ensures var next := Region(env, s.grants, t).next;
            var before, after := s.counters, Evidence(s, t).counters;
            && (t.Arrived? && !t.req.ResetAll? ==> next == Recorded(t.req) && after == Bump(before, Endpoint(t.req)))
            && (t.Arrived? && t.req.ResetAll? ==> !McpInFlight(next))
            && (t.Arrived? && t.req.ResetAll? ==> after == if t.req.http.verb == "DELETE" then map[] else before)
            && (t.BearerAccepted? ==> !McpInFlight(next))
            && (t.BearerAccepted? ==> after == before || exists called :: after == Bump(before, MethodKey(called)))
            && (!t.Arrived? && !t.BearerAccepted? ==> after == before && (McpInFlight(next) ==> McpInFlight(t)))
  {
    hide Name, Effect, StrictJson.StrictDecode, ValidRedirectURIs, AcceptableUpdate, Callback.Parameters,
      AuthorizationError, MatchesCode, TargetsResource, MethodKey, Endpoint;
  }

  lemma StepKeepsBound(env: Env, w: World, id: nat)
    requires AllWellPlaced(w.threads) && MethodsBounded(w) && id in w.threads
    requires w.threads[id].Arrived? && w.threads[id].req.ResetAll? && w.threads[id].req.http.verb == "DELETE" ==>
               InFlight(w.threads) == {}
    ensures MethodsBounded(Advance(env, w, Step(id)))
  {
    var t := w.threads[id];
    var next := Region(env, w.server.grants, t).next;
    var before, after := w.server.counters, Evidence(w.server, t).counters;
    WhoseEvidence(env, w.server, t);
    InFlightAfter(w.threads, id, next);
    hide Region, Evidence, InFlight, Total, IsMethodKey, MethodKey;
    if t.Arrived? && !t.req.ResetAll? {
      BumpTotal(before, Endpoint(t.req), true);
      EndpointIsNoMethodKey(t.req);
      McpEndpoint(t.req);
    } else if t.BearerAccepted? && after != before {
      var called :| after == Bump(before, MethodKey(called));
      BumpTotal(before, MethodKey(called), true);
      MethodKeyIsMethodKey(called);
      McpIsNoMethodKey();
    } else if after == map[] {
      NothingCounted();
    }
  }

  lemma McpEndpoint(req: Request)
    ensures Endpoint(req) == "mcp" <==> req.Mcp?
  {}

  lemma McpIsNoMethodKey()
    ensures !IsMethodKey("mcp")
  {}

  lemma NothingCounted()
    ensures Total(map[], true) == 0
  {
    assert Keys(map[], true) == {};
  }

  lemma StraddlingPrefix(env: Env, choices: seq<Choice>)
    requires choices != [] && NoStraddling(env, choices)
    ensures NoStraddling(env, choices[..|choices| - 1])
  {
    var init := choices[..|choices| - 1];
    forall m: nat | ResetAt(env, init, m) ensures InFlight(Run(env, init[..m]).threads) == {} {
      assert init[..m] == choices[..m] && init[m] == choices[m];
      assert ResetAt(env, choices, m);
    }
  }

  lemma ResetEmits(env: Env, choices: seq<Choice>)
    requires choices != [] && choices[|choices| - 1].Step?
    requires var w := Run(env, choices[..|choices| - 1]);
             var id := choices[|choices| - 1].id;
             id in w.threads && w.threads[id].Arrived? && w.threads[id].req.ResetAll?
               && w.threads[id].req.http.verb == "DELETE"
    ensures ResetAt(env, choices, |choices| - 1)
  {}

  /** As long as no MCP request straddles a reset, the method counters never outnumber the `mcp` counter. */
  lemma {:induction false} MethodCountersBounded(env: Env, choices: seq<Choice>)
    requires NoStraddling(env, choices)
    ensures MethodsBounded(Run(env, choices))
    ensures var counters := Run(env, choices).server.counters; Total(counters, true) <= Count(counters, "mcp")
  {
    hide Region;
    if choices == [] {
      NothingCounted();
      assert InFlight(map[]) == {};
    } else {
      var w := Run(env, choices[..|choices| - 1]);
      StraddlingPrefix(env, choices);
      MethodCountersBounded(env, choices[..|choices| - 1]);
      LastChoiceKeepsBound(env, choices);
    }
  }

  lemma LastChoiceKeepsBound(env: Env, choices: seq<Choice>)
    requires choices != [] && NoStraddling(env, choices)
    requires MethodsBounded(Run(env, choices[..|choices| - 1]))
    ensures MethodsBounded(Run(env, choices))
  {
    hide Region, MethodsBounded;
    var w := Run(env, choices[..|choices| - 1]);
    match choices[|choices| - 1]
    case Spawn(id, req) =>
      if id !in w.threads {
        SpawnKeepsBound(w, id, req);
      }
    case Step(id) =>
      if id in w.threads {
        var t := w.threads[id];
        if t.Arrived? && t.req.ResetAll? && t.req.http.verb == "DELETE" {
          ResetEmits(env, choices);
        }
        StepKeepsBound(env, w, id);
      }
  }

  lemma SpawnKeepsBound(w: World, id: nat, req: Request)
    requires MethodsBounded(w) && id !in w.threads
    ensures MethodsBounded(w.(threads := w.threads[id := Arrived(req)]))
  {
    InFlightAfter(w.threads, id, Arrived(req));
  }

  // ---- The exact excess of the method counters ----------------------------------------------------

  predicate Resets(t: Thread) {
    t.Arrived? && t.req.ResetAll? && t.req.http.verb == "DELETE"
  }

  predicate RecordsMcp(t: Thread) {
    t.Arrived? && t.req.Mcp?
  }

  predicate CountsMethod(t: Thread) {
    t.BearerAccepted? && t.req.Mcp? && t.req.envelope.Envelope? && t.req.envelope.called != ""
  }

  /** The handler that takes its next step as the last choice of the run, if any does. */
  function Mover(env: Env, choices: seq<Choice>): Option<Thread>
    requires choices != []
  {
    var w, c := Run(env, choices[..|choices| - 1]), choices[|choices| - 1];
    if c.Step? && c.id in w.threads then Some(w.threads[c.id]) else None
  }

  /** The MCP requests recorded since the last reset. */
  function RecordedSince(env: Env, choices: seq<Choice>): set<nat> {
    if choices == [] then {}
    else
      var before, t := RecordedSince(env, choices[..|choices| - 1]), Mover(env, choices);
      if t.None? then before
      else if Resets(t.value) then {}
      else if RecordsMcp(t.value) then before + {choices[|choices| - 1].id}
      else before
  }

  /** The MCP requests whose method was counted since the last reset. */
  function CountedSince(env: Env, choices: seq<Choice>): set<nat> {
    if choices == [] then {}
    else
      var before, t := CountedSince(env, choices[..|choices| - 1]), Mover(env, choices);
      if t.None? then before
      else if Resets(t.value) then {}
      else if CountsMethod(t.value) then before + {choices[|choices| - 1].id}
      else before
  }

  /** Counted since the last reset, but recorded before it. */
  function Straddlers(env: Env, choices: seq<Choice>): set<nat> {
    CountedSince(env, choices) - RecordedSince(env, choices)
  }

  /** Recorded since the last reset, and not counted: refused, without a method, or still in flight. */
  function Uncounted(env: Env, choices: seq<Choice>): set<nat> {
    RecordedSince(env, choices) - CountedSince(env, choices)
  }

  /** Recorded requests have left their first region, counted ones their last. */
  ghost predicate PastRegions(env: Env, choices: seq<Choice>) {
    var threads := Run(env, choices).threads;
    && (forall id :: id in RecordedSince(env, choices) ==> id in threads && !threads[id].Arrived?)
    && (forall id :: id in CountedSince(env, choices) ==> id in threads && threads[id].Finished?)
  }

  ghost predicate CountersAreSets(env: Env, choices: seq<Choice>) {
    var counters := Run(env, choices).server.counters;
    && Count(counters, "mcp") == |RecordedSince(env, choices)|
    && Total(counters, true) == |CountedSince(env, choices)|
  }

  lemma NextIsLater(env: Env, g: Grants, t: Thread)
    requires WellPlaced(t)
    ensures !Region(env, g, t).next.Arrived?
    ensures t.Finished? || CountsMethod(t) ==> Region(env, g, t).next.Finished?
  {
    hide Region;
    if t.Finished? {
      StaysFinished(env, g, t);
    } else {
      RegionAdvances(env, g, t);
    }
  }

  lemma StaysFinished(env: Env, g: Grants, t: Thread)
    requires t.Finished?
    ensures Region(env, g, t).next == t
  {}

  lemma CountersAfter(s: State, t: Thread)
    ensures var before, after := s.counters, Evidence(s, t).counters;
            && (Resets(t) ==> after == map[])
            && (CountsMethod(t) ==> after == Bump(before, MethodKey(t.req.envelope.called)))
            && (t.Arrived? && !t.req.ResetAll? ==> after == Bump(before, Endpoint(t.req)))
            && (!Resets(t) && !CountsMethod(t) && !(t.Arrived? && !t.req.ResetAll?) ==> after == before)
  {
    hide Endpoint, MethodKey, Bump;
  }

  /** What the two sums do at a step, in terms of who takes it. */
  lemma TotalsAfter(s: State, t: Thread)
    ensures var before, after := s.counters, Evidence(s, t).counters;
            && Count(after, "mcp") == (if Resets(t) then 0 else Count(before, "mcp") + if RecordsMcp(t) then 1 else 0)
            && Total(after, true) == (if Resets(t) then 0 else Total(before, true) + if CountsMethod(t) then 1 else 0)
  {
    hide Evidence, Total, IsMethodKey, MethodKey, Endpoint;
    CountersAfter(s, t);
    NothingCounted();
    if t.Arrived? && !t.req.ResetAll? {
      BumpTotal(s.counters, Endpoint(t.req), true);
      EndpointIsNoMethodKey(t.req);
      McpEndpoint(t.req);
    } else if CountsMethod(t) {
      BumpTotal(s.counters, MethodKey(t.req.envelope.called), true);
      MethodKeyIsMethodKey(t.req.envelope.called);
      McpIsNoMethodKey();
    }
  }

  /** What the last choice does to the run, when a handler moves. */
  lemma MoverMoves(env: Env, choices: seq<Choice>)
    requires choices != [] && Mover(env, choices).Some?
    ensures var w, id := Run(env, choices[..|choices| - 1]), choices[|choices| - 1].id;
            var t := Mover(env, choices).value;
            && choices[|choices| - 1].Step? && id in w.threads && t == w.threads[id]
            && Run(env, choices).threads == w.threads[id := Region(env, w.server.grants, t).next]
            && Run(env, choices).server.counters == Evidence(w.server, t).counters
  {
    hide Region, Evidence;
  }

  lemma StepKeepsPast(env: Env, choices: seq<Choice>)
    requires choices != [] && Mover(env, choices).Some? && PastRegions(env, choices[..|choices| - 1])
    ensures PastRegions(env, choices)
  {
    hide Run, Region, Evidence, Mover, Resets, RecordsMcp;
    MoverMoves(env, choices);
    NextIsLater(env, Run(env, choices[..|choices| - 1]).server.grants, Mover(env, choices).value);
  }

  lemma MoversAreNew(env: Env, choices: seq<Choice>)
    requires choices != [] && Mover(env, choices).Some? && PastRegions(env, choices[..|choices| - 1])
    ensures var init, id, t := choices[..|choices| - 1], choices[|choices| - 1].id, Mover(env, choices).value;
            && (RecordsMcp(t) ==> id !in RecordedSince(env, init))
            && (CountsMethod(t) ==> id !in CountedSince(env, init))
  {
    hide Run, RecordedSince, CountedSince, Mover;
    MoverMoves(env, choices);
  }

  lemma StepKeepsSizes(env: Env, choices: seq<Choice>)
    requires choices != [] && Mover(env, choices).Some?
    requires PastRegions(env, choices[..|choices| - 1]) && CountersAreSets(env, choices[..|choices| - 1])
    ensures CountersAreSets(env, choices)
  {
    hide Run, Region, Evidence, Total, Count, Mover, Resets, RecordsMcp, CountsMethod, PastRegions;
    MoverMoves(env, choices);
    MoversAreNew(env, choices);
    TotalsAfter(Run(env, choices[..|choices| - 1]).server, Mover(env, choices).value);
    MoverSteps(env, choices);
  }

  /** In every reachable state the `mcp` counter and the method counters are the sizes of these two sets. */
  lemma {:induction false} CountersCountRequests(env: Env, choices: seq<Choice>)
    ensures PastRegions(env, choices) && CountersAreSets(env, choices)
  {
    hide Region, Evidence, Total;
    if choices == [] {
      NothingCounted();
    } else {
      CountersCountRequests(env, choices[..|choices| - 1]);
      if Mover(env, choices).Some? {
        StepKeepsPast(env, choices);
        StepKeepsSizes(env, choices);
      }
    }
  }

  /** The method counters sum to no more than the `mcp` counter. */
  ghost predicate Bounded(w: World) {
    Total(w.server.counters, true) <= Count(w.server.counters, "mcp")
  }

  lemma Differences<T>(a: set<T>, b: set<T>)
    ensures |a| - |b| == |a - b| - |b - a|
  {
    assert a == (a - b) + (a * b) && b == (b - a) + (a * b);
  }

  /**
   The exact excess, in every reachable state: requests recorded before the last reset and counted after it, less
   requests recorded since and not counted. So the bound holds exactly when the former are no more than the latter.
   */
  lemma ExcessExactly(env: Env, choices: seq<Choice>)
    ensures var counters := Run(env, choices).server.counters;
            Total(counters, true) - Count(counters, "mcp") ==
            |Straddlers(env, choices)| - |Uncounted(env, choices)|
    ensures Bounded(Run(env, choices)) <==> |Straddlers(env, choices)| <= |Uncounted(env, choices)|
  {
    hide Run, RecordedSince, CountedSince, Total;
    CountersCountRequests(env, choices);
    Differences(CountedSince(env, choices), RecordedSince(env, choices));
  }

  lemma RunOneMore(env: Env, choices: seq<Choice>, c: Choice)
    ensures Run(env, choices + [c]) == Advance(env, Run(env, choices), c)
  {
    assert (choices + [c])[..|choices|] == choices;
  }

  /**
   Exactly when the count of a request in flight breaks the bound: when there are no fewer straddlers than uncounted.
   */
  lemma CountBreaksExactly(env: Env, choices: seq<Choice>, id: nat)
    requires id in Run(env, choices).threads && CountsMethod(Run(env, choices).threads[id])
    ensures !Bounded(Run(env, choices + [Step(id)])) <==>
            |Straddlers(env, choices)| >= |Uncounted(env, choices)|
  {
    hide Run, Region, Evidence, Total, Count, Straddlers, Uncounted;
    var w := Run(env, choices);
    RunOneMore(env, choices, Step(id));
    ExcessExactly(env, choices);
    TotalsAfter(w.server, w.threads[id]);
  }

  /** What a step of a handler does to the run. */
  lemma StepAdvances(env: Env, choices: seq<Choice>, id: nat)
    requires id in Run(env, choices).threads
    ensures var w, after := Run(env, choices), Run(env, choices + [Step(id)]);
            var t := w.threads[id];
            && after.threads == w.threads[id := Region(env, w.server.grants, t).next]
            && after.server == After(env, w.server, t)
  {
    hide Run, Region, After;
    RunOneMore(env, choices, Step(id));
  }

  // ---- What the two sets are -----------------------------------------------------------------------

  /** The handler that takes choice `a` of the run. */
  function MoverAt(env: Env, choices: seq<Choice>, a: nat): Option<Thread>
    requires a < |choices|
  {
    var w, c := Run(env, choices[..a]), choices[a];
    if c.Step? && c.id in w.threads then Some(w.threads[c.id]) else None
  }

  predicate ResetsAt(env: Env, choices: seq<Choice>, a: nat)
    requires a < |choices|
  {
    MoverAt(env, choices, a).Some? && Resets(MoverAt(env, choices, a).value)
  }

  ghost predicate QuietAfter(env: Env, choices: seq<Choice>, a: nat) {
    forall b :: a < b < |choices| ==> !ResetsAt(env, choices, b)
  }

  ghost predicate RecordedAt(env: Env, choices: seq<Choice>, a: nat, id: nat) {
    a < |choices| && choices[a] == Step(id) && MoverAt(env, choices, a).Some?
      && RecordsMcp(MoverAt(env, choices, a).value)
  }

  ghost predicate CountedAt(env: Env, choices: seq<Choice>, a: nat, id: nat) {
    a < |choices| && choices[a] == Step(id) && MoverAt(env, choices, a).Some?
      && CountsMethod(MoverAt(env, choices, a).value)
  }

  lemma PrefixMovers(env: Env, choices: seq<Choice>, a: nat)
    requires choices != [] && a < |choices|
    ensures a < |choices| - 1 ==> MoverAt(env, choices[..|choices| - 1], a) == MoverAt(env, choices, a)
    ensures a == |choices| - 1 ==> MoverAt(env, choices, a) == Mover(env, choices)
  {
    assert choices[..|choices| - 1][..a] == choices[..a];
  }

  ghost predicate RecordedQuietly(env: Env, choices: seq<Choice>, id: nat) {
    exists a :: RecordedAt(env, choices, a, id) && QuietAfter(env, choices, a)
  }

  ghost predicate CountedQuietly(env: Env, choices: seq<Choice>, id: nat) {
    exists a :: CountedAt(env, choices, a, id) && QuietAfter(env, choices, a)
  }

  /** How the two existence claims develop with one more choice. */
  lemma QuietlyUnfolds(env: Env, choices: seq<Choice>, id: nat)
    requires choices != []
    ensures var init, t, self := choices[..|choices| - 1], Mover(env, choices), choices[|choices| - 1] == Step(id);
            && (RecordedQuietly(env, choices, id) <==>
                (t.Some? && self && RecordsMcp(t.value))
                || (!(t.Some? && Resets(t.value)) && RecordedQuietly(env, init, id)))
            && (CountedQuietly(env, choices, id) <==>
                (t.Some? && self && CountsMethod(t.value))
                || (!(t.Some? && Resets(t.value)) && CountedQuietly(env, init, id)))
  {
    hide Run, MoverAt, Mover, Resets, RecordsMcp, CountsMethod;
    var last, init, t := |choices| - 1, choices[..|choices| - 1], Mover(env, choices);
    forall a: nat | a < |choices|
      ensures a < last ==> MoverAt(env, init, a) == MoverAt(env, choices, a)
      ensures a == last ==> MoverAt(env, choices, a) == t
    {
      PrefixMovers(env, choices, a);
    }
    forall a: nat | a < last
      ensures QuietAfter(env, choices, a) <==> QuietAfter(env, init, a) && !ResetsAt(env, choices, last)
      ensures RecordedAt(env, choices, a, id) <==> RecordedAt(env, init, a, id)
      ensures CountedAt(env, choices, a, id) <==> CountedAt(env, init, a, id)
    {
      assert forall b: nat :: b < last ==> (ResetsAt(env, init, b) <==> ResetsAt(env, choices, b));
    }
    assert QuietAfter(env, choices, last);
    if RecordedQuietly(env, init, id) {
      var a: nat :| RecordedAt(env, init, a, id) && QuietAfter(env, init, a);
      assert RecordedAt(env, choices, a, id);
    }
    if CountedQuietly(env, init, id) {
      var a: nat :| CountedAt(env, init, a, id) && QuietAfter(env, init, a);
      assert CountedAt(env, choices, a, id);
    }
    if RecordedQuietly(env, choices, id) {
      var a: nat :| RecordedAt(env, choices, a, id) && QuietAfter(env, choices, a);
      assert a < last ==> RecordedAt(env, init, a, id) && QuietAfter(env, init, a);
    }
    if CountedQuietly(env, choices, id) {
      var a: nat :| CountedAt(env, choices, a, id) && QuietAfter(env, choices, a);
      assert a < last ==> CountedAt(env, init, a, id) && QuietAfter(env, init, a);
    }
  }

  /** In terms of the steps of the run: recorded or counted at a step that no reset follows. */
  lemma {:induction false} SetsInSteps(env: Env, choices: seq<Choice>, id: nat)
    ensures id in RecordedSince(env, choices) <==> RecordedQuietly(env, choices, id)
    ensures id in CountedSince(env, choices) <==> CountedQuietly(env, choices, id)
  {
    hide Run, MoverAt, QuietAfter, Resets, RecordsMcp, CountsMethod;
    if choices != [] {
      SetsInSteps(env, choices[..|choices| - 1], id);
      QuietlyUnfolds(env, choices, id);
      MoverSteps(env, choices);
    }
  }

  lemma MoverSteps(env: Env, choices: seq<Choice>)
    requires choices != []
    ensures Mover(env, choices).Some? ==> choices[|choices| - 1].Step?
    ensures Mover(env, choices).Some? && RecordsMcp(Mover(env, choices).value) ==> !Resets(Mover(env, choices).value)
    ensures Mover(env, choices).Some? && CountsMethod(Mover(env, choices).value) ==> !Resets(Mover(env, choices).value)
  {}

  /**
   Straddling is harmful whenever it happens at the wrong time: from any reachable state with an MCP request between its
   bearer check and its count, a reset followed by that count breaks the bound.
   */
  lemma StraddlingBreaksTheBound(env: Env, choices: seq<Choice>, id: nat, other: nat, http: Http)
    requires id in Run(env, choices).threads && CountsMethod(Run(env, choices).threads[id])
    requires other !in Run(env, choices).threads && http.verb == "DELETE"
    ensures !Bounded(Run(env, choices + [Spawn(other, ResetAll(http))] + [Step(other)] + [Step(id)]))
  {
    hide Run, Region, Evidence, Total, Count, RecordedSince, CountedSince, CountsMethod;
    var a := choices + [Spawn(other, ResetAll(http))];
    RunOneMore(env, choices, Spawn(other, ResetAll(http)));
    RunOneMore(env, a, Step(other));
    ResetEmptiesSets(env, a, other);
    assert Straddlers(env, a + [Step(other)]) == {} && Uncounted(env, a + [Step(other)]) == {};
    CountBreaksExactly(env, a + [Step(other)], id);
  }

  lemma ResetEmptiesSets(env: Env, choices: seq<Choice>, id: nat)
    requires id in Run(env, choices).threads && Resets(Run(env, choices).threads[id])
    ensures RecordedSince(env, choices + [Step(id)]) == {} && CountedSince(env, choices + [Step(id)]) == {}
  {
    assert (choices + [Step(id)])[..|choices|] == choices;
  }
}
