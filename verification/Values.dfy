/** `url.Values`: a multimap from parameter names to value lists. */
module UrlValues {
  import opened Options

  type Values = map<string, seq<string>>

  function Get(v: Values, key: string): string {
    if key in v && |v[key]| > 0 then v[key][0] else ""
  }

  function Put(v: Values, key: string, value: string): Values {
    v[key := [value]]
  }

  function Add(v: Values, key: string, value: string): Values {
    v[key := (if key in v then v[key] else []) + [value]]
  }

  predicate SingleValue(v: Values, key: string) {
    key in v && |v[key]| == 1
  }

  /** What parsing a query string can produce: no key without a value. */
  predicate Inhabited(v: Values) {
    forall k :: k in v ==> v[k] != []
  }
}

/** The parameters of the redirect back to the client (RFC 6749 section 4.1.2, RFC 9207 section 2). */
module Callback {
  import opened Options
  import opened UrlValues

  const RESERVED: seq<string> := ["code", "error", "error_description", "error_uri", "state", "iss"]

  const WRONG_STATE := "fixture-wrong-state"

  /** The `state` values the client gets back, under the `fixture_state` control. */
  function StateValues(query: Values): seq<string> {
    if "state" !in query || query["state"] == [] then []
    else
      var state := query["state"][0];
      var control := Get(query, "fixture_state");
      if control == "missing" then []
      else if control == "wrong" then [WRONG_STATE]
      else if control == "duplicate" then [state, state + "-duplicate"]
      else [state]
  }

  /** The `iss` values the client gets back, under the `fixture_iss` control. */
  function IssuerValues(query: Values, issuer: string): seq<string> {
    var control := Get(query, "fixture_iss");
    if control == "missing" then []
    else if control == "wrong" then [issuer + "/wrong"]
    else if control == "duplicate" then [issuer, issuer + "/duplicate"]
    else [issuer]
  }

  function Listed(key: string, values: seq<string>): Values {
    if values == [] then map[] else map[key := values]
  }

  /** The answer proper: a code, or a refusal. */
  function Decision(code: Option<string>): Values {
    match code
    case Some(c) => map["code" := [c]]
    case None => map["error" := ["access_denied"], "error_description" := ["fixture authorization denied"]]
  }

  function Parameters(query: Values, registered: Values, issuer: string, code: Option<string>): Values {
    (map k | k in registered && k !in RESERVED :: registered[k])
    + Listed("state", StateValues(query)) + Listed("iss", IssuerValues(query, issuer)) + Decision(code)
  }

  method StripReserved(registered: Values) returns (params: Values)
    ensures params == map k | k in registered && k !in RESERVED :: registered[k]
  {
    params := registered;
    for n := 0 to |RESERVED|
      invariant params == map k | k in registered && k !in RESERVED[..n] :: registered[k]
    {
      params := params - {RESERVED[n]};
      assert RESERVED[..n + 1] == RESERVED[..n] + [RESERVED[n]];
    }
    assert RESERVED[..|RESERVED|] == RESERVED;
  }

  method AddState(query: Values, params: Values) returns (r: Values)
    requires Inhabited(query) && "state" !in params
    ensures r == params + Listed("state", StateValues(query))
  {
    r := params;
    if "state" in query {
      var state := query["state"];
      var control := Get(query, "fixture_state");
      if control == "missing" {
      } else if control == "wrong" {
        r := Put(r, "state", WRONG_STATE);
      } else if control == "duplicate" {
        r := Add(r, "state", state[0]);
        r := Add(r, "state", state[0] + "-duplicate");
        assert r["state"] == [state[0], state[0] + "-duplicate"];
      } else {
        r := Put(r, "state", state[0]);
      }
    }
  }

  method AddIssuer(query: Values, params: Values, issuer: string) returns (r: Values)
    requires "iss" !in params
    ensures r == params + Listed("iss", IssuerValues(query, issuer))
  {
    r := params;
    var control := Get(query, "fixture_iss");
    if control == "missing" {
    } else if control == "wrong" {
      r := Put(r, "iss", issuer + "/wrong");
    } else if control == "duplicate" {
      r := Add(r, "iss", issuer);
      r := Add(r, "iss", issuer + "/duplicate");
      assert r["iss"] == [issuer, issuer + "/duplicate"];
    } else {
      r := Put(r, "iss", issuer);
    }
  }

  method AddDecision(params: Values, code: Option<string>) returns (r: Values)
    ensures r == params + Decision(code)
  {
    match code
    case None =>
      r := Put(params, "error", "access_denied");
      r := Put(r, "error_description", "fixture authorization denied");
    case Some(c) =>
      r := Put(params, "code", c);
  }

  /** Builds the parameters the way the handler does: drop what is reserved, then set or add one by one. */
  method BuildParameters(query: Values, registered: Values, issuer: string, code: Option<string>)
      returns (params: Values)
    requires Inhabited(query)
    ensures params == Parameters(query, registered, issuer, code)
  {
    ReservedNames();
    params := StripReserved(registered);
    params := AddState(query, params);
    params := AddIssuer(query, params, issuer);
    params := AddDecision(params, code);
  }

  lemma ReservedNames()
    ensures "state" in RESERVED && "iss" in RESERVED && "state" != "iss"
    ensures forall k :: k in RESERVED <==>
              (k == "code" || k == "error" || k == "error_description" || k == "error_uri" || k == "state"
                || k == "iss")
  {
    assert RESERVED[0] == "code" && RESERVED[1] == "error" && RESERVED[2] == "error_description";
    assert RESERVED[3] == "error_uri" && RESERVED[4] == "state" && RESERVED[5] == "iss";
  }

  function Occurrences(v: Values, key: string): nat {
    if key in v then |v[key]| else 0
  }

  /** How often a controlled parameter is to occur. */
  function Times(control: string): nat {
    if control == "missing" then 0 else if control == "duplicate" then 2 else 1
  }

  /** The client's own parameters untouched, a code or else an error, and `state` and `iss` as asked. */
  ghost predicate WellShaped(p: Values, query: Values, registered: Values, issuer: string, code: Option<string>) {
    var stateControl, issuerControl := Get(query, "fixture_state"), Get(query, "fixture_iss");
    && (forall k :: k !in RESERVED ==> (k in p <==> k in registered) && (k in p ==> p[k] == registered[k]))
    && ("code" in p <==> "error" !in p)
    && ("error_description" in p <==> "error" in p) && "error_uri" !in p
    && ("error" in p ==> p["error"] == ["access_denied"])
    && ("error_description" in p ==> p["error_description"] == ["fixture authorization denied"])
    && ("code" in p <==> code.Some?) && (code.Some? && "code" in p ==> p["code"] == [code.value])
    && Occurrences(p, "state") == Times(stateControl)
    && Occurrences(p, "iss") == Times(issuerControl)
    && ("state" in p && p["state"] != [] && stateControl != "wrong" ==> p["state"][0] == Get(query, "state"))
    && ("iss" in p && p["iss"] != [] ==> (p["iss"][0] == issuer <==> issuerControl != "wrong"))
    && (stateControl == "wrong" ==> "state" in p && p["state"] == ["fixture-wrong-state"])
    && (stateControl == "duplicate" ==> "state" in p && p["state"] == Twice(Get(query, "state"), "-duplicate"))
    && (issuerControl == "wrong" ==> "iss" in p && p["iss"] == [issuer + "/wrong"])
    && (issuerControl == "duplicate" ==> "iss" in p && p["iss"] == Twice(issuer, "/duplicate"))
  }

  /** The true value and a second one that differs from it. */
  function Twice(value: string, suffix: string): (r: seq<string>)
    ensures |r| == 2 && (suffix != "" ==> r[0] != r[1])
  {
    assert |value + suffix| == |value| + |suffix|;
    [value, value + suffix]
  }

  /**
   Whatever the registered query and the controls: the client's own parameters come back untouched, there is either a
   code or an error, `state` and `iss` occur as often as asked, and nothing else is added.
   */
  lemma CallbackShape(query: Values, registered: Values, issuer: string, code: Option<string>)
    requires SingleValue(query, "state")
    ensures WellShaped(Parameters(query, registered, issuer, code), query, registered, issuer, code)
  {
    KeptParameters(query, registered, issuer, code);
    ControlledParameters(query, registered, issuer, code);
    DecidedParameters(query, registered, issuer, code);
    StateShape(query);
    IssuerShape(query, issuer);
    hide Parameters, StateValues, IssuerValues, Times, Get, RESERVED;
  }

  lemma KeptParameters(query: Values, registered: Values, issuer: string, code: Option<string>)
    ensures var p := Parameters(query, registered, issuer, code);
            forall k :: k !in RESERVED ==> (k in p <==> k in registered) && (k in p ==> p[k] == registered[k])
  {
    ReservedNames();
    hide StateValues, IssuerValues, RESERVED;
  }

  lemma ControlledParameters(query: Values, registered: Values, issuer: string, code: Option<string>)
    ensures var p := Parameters(query, registered, issuer, code);
            && Occurrences(p, "state") == |StateValues(query)|
            && ("state" in p ==> p["state"] == StateValues(query))
            && Occurrences(p, "iss") == |IssuerValues(query, issuer)|
            && ("iss" in p ==> p["iss"] == IssuerValues(query, issuer))
  {
    ReservedNames();
    DecisionKeys(code);
    hide StateValues, IssuerValues, RESERVED, Decision;
  }

  lemma DecidedParameters(query: Values, registered: Values, issuer: string, code: Option<string>)
    ensures var p := Parameters(query, registered, issuer, code);
            && ("code" in p <==> code.Some?)
            && (code.Some? && "code" in p ==> p["code"] == [code.value])
            && ("error" in p <==> code.None?)
            && ("error_description" in p <==> code.None?)
            && (code.None? && "error" in p ==> p["error"] == ["access_denied"])
            && (code.None? && "error_description" in p ==> p["error_description"] == ["fixture authorization denied"])
            && "error_uri" !in p
  {
    ReservedNames();
    DecisionKeys(code);
    hide StateValues, IssuerValues, RESERVED;
  }

  lemma StateShape(query: Values)
    requires SingleValue(query, "state")
    ensures var control := Get(query, "fixture_state");
            && |StateValues(query)| == Times(control)
            && (control != "wrong" && StateValues(query) != [] ==> StateValues(query)[0] == Get(query, "state"))
            && (control == "wrong" ==> StateValues(query) == ["fixture-wrong-state"])
            && (control == "duplicate" ==> StateValues(query) == Twice(Get(query, "state"), "-duplicate"))
  {}

  lemma IssuerShape(query: Values, issuer: string)
    ensures var control := Get(query, "fixture_iss");
            && |IssuerValues(query, issuer)| == Times(control)
            && (IssuerValues(query, issuer) != [] ==>
                  (IssuerValues(query, issuer)[0] == issuer <==> control != "wrong"))
            && (control == "wrong" ==> IssuerValues(query, issuer) == [issuer + "/wrong"])
            && (control == "duplicate" ==> IssuerValues(query, issuer) == Twice(issuer, "/duplicate"))
  {
    assert |issuer + "/wrong"| == |issuer| + 6;
  }

  lemma DecisionKeys(code: Option<string>)
    ensures "state" !in Decision(code) && "iss" !in Decision(code) && "error_uri" !in Decision(code)
    ensures "code" in Decision(code) <==> code.Some?
    ensures "error" in Decision(code) <==> code.None?
    ensures "error_description" in Decision(code) <==> code.None?
  {
    assert "code"[0] == 'c' && "error"[0] == 'e' && "state"[0] == 's' && "iss"[0] == 'i';
    assert |"error"| == 5 && |"error_uri"| == 9 && |"error_description"| == 17;
  }

  lemma ParametersInhabited(query: Values, registered: Values, issuer: string, code: Option<string>)
    requires Inhabited(registered)
    ensures Inhabited(Parameters(query, registered, issuer, code))
  {}
}
