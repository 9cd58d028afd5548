/** OpenAPI operations as tools: building the schema and the binding, and rebuilding the HTTP request of a call. */
module ToolCalls {
  import opened Options
  import opened UrlValues
  import opened Enumerations
  import opened UrlCodec
  import opened Templates

  // ---- Operations and what is built for them -----------------------------------------------------

  /** A JSON schema as a map; what the library renders for a parameter or property is part of the input. */
  type Schema = map<string, string>

  datatype Parameter = Parameter(name: string, location: string, required: bool, description: string, schema: Schema)

  datatype BodySchema = BodySchema(properties: map<string, Schema>, required: seq<string>)

  /** Unresolved parameter references are None. */
  datatype Operation = Operation(parameters: seq<Option<Parameter>>, body: Option<BodySchema>)

  datatype ToolSchema = ToolSchema(properties: map<string, Schema>, required: seq<string>)

  datatype Binding = Binding(verb: string, pathTemplate: string, pathParams: seq<string>, queryParams: seq<string>,
                             bodyProps: seq<string>)

  predicate Exposed(p: Option<Parameter>) {
    p.Some? && (p.value.location == "path" || p.value.location == "query")
  }

  /** The names of the parameters at a location, in order of declaration. */
  function NamesAt(ps: seq<Option<Parameter>>, location: string): seq<string> {
    if ps == [] then []
    else
      var last := ps[|ps| - 1];
      NamesAt(ps[..|ps| - 1], location)
        + (if last.Some? && last.value.location == location then [last.value.name] else [])
  }

  function RequiredNames(ps: seq<Option<Parameter>>): seq<string> {
    if ps == [] then []
    else
      var last := ps[|ps| - 1];
      RequiredNames(ps[..|ps| - 1]) + (if Exposed(last) && last.value.required then [last.value.name] else [])
  }

  function Described(p: Parameter): Schema {
    if p.description != "" && "description" !in p.schema then p.schema["description" := p.description] else p.schema
  }

  /** Of two parameters with the same name the later one is shown. */
  function ParameterProperties(ps: seq<Option<Parameter>>): map<string, Schema> {
    if ps == [] then map[]
    else
      var last := ps[|ps| - 1];
      var init := ParameterProperties(ps[..|ps| - 1]);
      if Exposed(last) then init[last.value.name := Described(last.value)] else init
  }

  function BodyProperties(op: Operation): map<string, Schema> {
    if op.body.Some? then op.body.value.properties else map[]
  }

  /** The part of the required list that comes from the body: each required property once. */
  ghost predicate RequiredFromBody(names: seq<string>, op: Operation) {
    Enumerates(names,
               if op.body.None? then {} else set n | n in op.body.value.properties && n in op.body.value.required)
  }

  // ---- The same, read off the operation ---------------------------------------------------------

  datatype Pick = AtLocation(location: string) | RequiredInput

  predicate Picks(pick: Pick, p: Option<Parameter>) {
    && p.Some?
    && match pick
       case AtLocation(location) => p.value.location == location
       case RequiredInput => p.value.required && (p.value.location == "path" || p.value.location == "query")
  }

  /** Position `idx[k]` is the `k`-th of the picked declarations, and `names[k]` is its name. */
  ghost predicate Selects(idx: seq<nat>, names: seq<string>, ps: seq<Option<Parameter>>, pick: Pick) {
    && |idx| == |names|
    && (forall k, l :: 0 <= k < l < |idx| ==> idx[k] < idx[l])
    && (forall k :: 0 <= k < |idx| ==>
          idx[k] < |ps| && Picks(pick, ps[idx[k]]) && names[k] == ps[idx[k]].value.name)
    && (forall i :: 0 <= i < |ps| && Picks(pick, ps[i]) ==> i in idx)
  }

  /** The names of the picked declarations, one for each, in their order. */
  ghost predicate Lists(names: seq<string>, ps: seq<Option<Parameter>>, pick: Pick) {
    exists idx :: Selects(idx, names, ps, pick)
  }

  lemma SelectMore(idx: seq<nat>, names: seq<string>, ps: seq<Option<Parameter>>, pick: Pick)
    requires ps != [] && Selects(idx, names, ps[..|ps| - 1], pick)
    ensures var last := ps[|ps| - 1];
            if Picks(pick, last) then Selects(idx + [|ps| - 1], names + [last.value.name], ps, pick)
            else Selects(idx, names, ps, pick)
  {
    hide Picks;
    var init, last := ps[..|ps| - 1], ps[|ps| - 1];
    assert forall i :: 0 <= i < |init| ==> init[i] == ps[i];
    if Picks(pick, last) {
      var more := idx + [|ps| - 1];
      forall i | 0 <= i < |ps| && Picks(pick, ps[i]) ensures i in more {
        if i < |init| {
          assert i in idx;
        } else {
          assert more[|idx|] == i;
        }
      }
    }
  }

  lemma {:induction false} NamesAtLists(ps: seq<Option<Parameter>>, location: string)
    ensures Lists(NamesAt(ps, location), ps, AtLocation(location))
  {
    hide Selects;
    if ps == [] {
      assert Selects([], [], ps, AtLocation(location)) by { SelectNothing(AtLocation(location)); }
    } else {
      NamesAtLists(ps[..|ps| - 1], location);
      var idx :| Selects(idx, NamesAt(ps[..|ps| - 1], location), ps[..|ps| - 1], AtLocation(location));
      SelectMore(idx, NamesAt(ps[..|ps| - 1], location), ps, AtLocation(location));
      assert NamesAt(ps[..|ps| - 1], location) + [] == NamesAt(ps[..|ps| - 1], location);
    }
  }

  lemma {:induction false} RequiredNamesLists(ps: seq<Option<Parameter>>)
    ensures Lists(RequiredNames(ps), ps, RequiredInput)
  {
    hide Selects;
    if ps == [] {
      assert Selects([], [], ps, RequiredInput) by { SelectNothing(RequiredInput); }
    } else {
      RequiredNamesLists(ps[..|ps| - 1]);
      var idx :| Selects(idx, RequiredNames(ps[..|ps| - 1]), ps[..|ps| - 1], RequiredInput);
      SelectMore(idx, RequiredNames(ps[..|ps| - 1]), ps, RequiredInput);
      assert RequiredNames(ps[..|ps| - 1]) + [] == RequiredNames(ps[..|ps| - 1]);
    }
  }

  lemma SelectNothing(pick: Pick)
    ensures Selects([], [], [], pick)
  {}

  /** The argument must be given: a path or query parameter, or a property of the body, requires it. */
  predicate MustGive(op: Operation, name: string) {
    || (exists i :: 0 <= i < |op.parameters| && Picks(RequiredInput, op.parameters[i])
                    && op.parameters[i].value.name == name)
    || (op.body.Some? && name in op.body.value.properties && name in op.body.value.required)
  }

  lemma SelectedAt(idx: seq<nat>, names: seq<string>, ps: seq<Option<Parameter>>, pick: Pick, k: nat)
    requires Selects(idx, names, ps, pick) && k < |names|
    ensures k < |idx| && idx[k] < |ps| && Picks(pick, ps[idx[k]]) && names[k] == ps[idx[k]].value.name
  {}

  lemma SelectedAll(idx: seq<nat>, names: seq<string>, ps: seq<Option<Parameter>>, pick: Pick, i: nat) returns (k: nat)
    requires Selects(idx, names, ps, pick) && i < |ps| && Picks(pick, ps[i])
    ensures k < |idx| == |names| && idx[k] == i
  {
    hide Picks;
    assert i in idx;
    k :| k < |idx| && idx[k] == i;
  }

  lemma ListedNames(names: seq<string>, ps: seq<Option<Parameter>>, pick: Pick, n: string)
    requires Lists(names, ps, pick)
    ensures n in names <==> exists i :: 0 <= i < |ps| && Picks(pick, ps[i]) && ps[i].value.name == n
  {
    hide Selects;
    var idx :| Selects(idx, names, ps, pick);
    if n in names {
      var k :| 0 <= k < |names| && names[k] == n;
      SelectedAt(idx, names, ps, pick, k);
    }
    if i :| 0 <= i < |ps| && Picks(pick, ps[i]) && ps[i].value.name == n {
      var k := SelectedAll(idx, names, ps, pick, i);
      SelectedAt(idx, names, ps, pick, k);
    }
  }

  /** The required list is exactly what must be given. */
  lemma RequiredExactly(op: Operation, required: seq<string>, n: nat, name: string)
    requires n <= |required| && required[..n] == RequiredNames(op.parameters) && RequiredFromBody(required[n..], op)
    ensures name in required <==> MustGive(op, name)
  {
    hide Lists, RequiredNames;
    RequiredNamesLists(op.parameters);
    ListedNames(required[..n], op.parameters, RequiredInput, name);
    var body := set x | x in required[n..];
    assert name in required[n..] <==> name in body;
    assert body == if op.body.None? then {} else set m | m in op.body.value.properties && m in op.body.value.required;
    assert required == required[..n] + required[n..];
    assert name in required <==> name in required[..n] || name in required[n..];
  }

  /** Position `i` is the last one that declares the input. */
  predicate LastDeclares(ps: seq<Option<Parameter>>, name: string, i: nat) {
    && i < |ps| && Exposed(ps[i]) && ps[i].value.name == name
    && forall j :: i < j < |ps| && Exposed(ps[j]) ==> ps[j].value.name != name
  }

  /** The input is shown with the schema of its last declaration. */
  lemma {:induction false} ShownAsDeclared(ps: seq<Option<Parameter>>, name: string)
    ensures name in ParameterProperties(ps) <==> exists i: nat :: LastDeclares(ps, name, i)
    ensures forall i: nat :: LastDeclares(ps, name, i) ==> ParameterProperties(ps)[name] == Described(ps[i].value)
  {
    hide Described;
    if ps != [] {
      var init, last := ps[..|ps| - 1], |ps| - 1;
      ShownAsDeclared(init, name);
      if Exposed(ps[last]) && ps[last].value.name == name {
        assert LastDeclares(ps, name, last);
      } else {
        forall i: nat ensures LastDeclares(ps, name, i) <==> LastDeclares(init, name, i) {
          assert i < |init| ==> init[i] == ps[i];
          assert forall j :: 0 <= j < |init| ==> init[j] == ps[j];
        }
      }
    }
  }

  /** The declared schema, with the parameter's description if it has one and the schema has none. */
  lemma DescribedExactly(p: Parameter)
    ensures forall k :: k in p.schema ==> k in Described(p) && Described(p)[k] == p.schema[k]
    ensures Described(p).Keys == p.schema.Keys + (if p.description == "" then {} else {"description"})
    ensures p.description != "" && "description" !in p.schema ==> Described(p)["description"] == p.description
  {}

  method Contains(ss: seq<string>, s: string) returns (found: bool)
    ensures found <==> s in ss
  {
    for k := 0 to |ss|
      invariant s !in ss[..k]
    {
      if ss[k] == s {
        return true;
      }
    }
    return false;
  }

  /** `strings.ToUpper` on the ASCII method names of OpenAPI */
  function Upper(s: string): string {
    seq(|s|, i requires 0 <= i < |s| => if 'a' <= s[i] <= 'z' then s[i] - 'a' + 'A' else s[i])
  }

  /** No small letter is left, and nothing else changes. */
  lemma UpperExactly(s: string)
    ensures |Upper(s)| == |s|
    ensures forall i :: 0 <= i < |s| ==>
              !('a' <= Upper(s)[i] <= 'z')
              && (s[i] == Upper(s)[i] || ('a' <= s[i] <= 'z' && s[i] as int - Upper(s)[i] as int == 32))
    ensures forall i :: 0 <= i < |s| && !('a' <= s[i] <= 'z') ==> Upper(s)[i] == s[i]
  {}

  method BuildToolFor(verb: string, path: string, op: Operation) returns (schema: ToolSchema, b: Binding)
    ensures b.verb == Upper(verb) && b.pathTemplate == path
    ensures b.pathParams == NamesAt(op.parameters, "path") && b.queryParams == NamesAt(op.parameters, "query")
    ensures Enumerates(b.bodyProps, BodyProperties(op).Keys)
    ensures schema.properties == ParameterProperties(op.parameters) + BodyProperties(op)
    ensures Lists(b.pathParams, op.parameters, AtLocation("path"))
    ensures Lists(b.queryParams, op.parameters, AtLocation("query"))
    ensures exists n ::
              && 0 <= n <= |schema.required| && Lists(schema.required[..n], op.parameters, RequiredInput)
              && RequiredFromBody(schema.required[n..], op)
    ensures forall name :: name in schema.required <==> MustGive(op, name)
  {
    hide Lists, MustGive, Picks;
    var props: map<string, Schema> := map[];
    var required: seq<string> := [];
    var pathParams: seq<string>, queryParams: seq<string> := [], [];
    for k := 0 to |op.parameters|
      invariant pathParams == NamesAt(op.parameters[..k], "path")
      invariant queryParams == NamesAt(op.parameters[..k], "query")
      invariant required == RequiredNames(op.parameters[..k])
      invariant props == ParameterProperties(op.parameters[..k])
    {
      var pref := op.parameters[k];
      assert op.parameters[..k + 1][..k] == op.parameters[..k];
      if pref.None? {
        continue;
      }
      var p := pref.value;
      if p.location == "path" {
        pathParams := pathParams + [p.name];
      } else if p.location == "query" {
        queryParams := queryParams + [p.name];
      } else {
        continue;
      }
      var m := p.schema;
      if p.description != "" && "description" !in m {
        m := m["description" := p.description];
      }
      props := props[p.name := m];
      if p.required {
        required := required + [p.name];
      }
    }
    assert op.parameters[..|op.parameters|] == op.parameters;
    var bodyProps: seq<string>, bodyRequired: seq<string> := [], [];
    if op.body.Some? {
      bodyProps, bodyRequired, props := AddBody(op.body.value, props);
    }
    NamesAtLists(op.parameters, "path");
    NamesAtLists(op.parameters, "query");
    RequiredNamesLists(op.parameters);
    forall name ensures name in required + bodyRequired <==> MustGive(op, name) {
      RequiredExactly(op, required + bodyRequired, |required|, name);
    }
    schema := ToolSchema(props, required + bodyRequired);
    assert schema.required[..|required|] == required && schema.required[|required|..] == bodyRequired;
    b := Binding(Upper(verb), path, pathParams, queryParams, bodyProps);
  }

  /** The loop over the body's properties, in whatever order the map is iterated. */
  method AddBody(body: BodySchema, before: map<string, Schema>)
    returns (bodyProps: seq<string>, required: seq<string>, props: map<string, Schema>)
    ensures Enumerates(bodyProps, body.properties.Keys)
    ensures Enumerates(required, set n | n in body.properties && n in body.required)
    ensures props == before + body.properties
  {
    bodyProps, required, props := [], [], before;
    var left := body.properties.Keys;
    while left != {}
      invariant left <= body.properties.Keys
      invariant Enumerates(bodyProps, body.properties.Keys - left)
      invariant Enumerates(required, set n | n in body.properties && n !in left && n in body.required)
      invariant props == before + map n | n in body.properties && n !in left :: body.properties[n]
      decreases left
    {
      var name :| name in left;
      ghost var done := body.properties.Keys - left;
      props := props[name := body.properties[name]];
      EnumerateMore(bodyProps, done, name);
      bodyProps := bodyProps + [name];
      var needed := Contains(body.required, name);
      left := left - {name};
      assert body.properties.Keys - left == done + {name};
      if needed {
        EnumerateMore(required, (set n | n in body.properties && n in done && n in body.required), name);
        required := required + [name];
      }
    }
    assert (map n | n in body.properties && n !in left :: body.properties[n]) == body.properties;
  }

  // ---- Calls ---------------------------------------------------------------------------------------

  datatype Value = Null | Text(text: string) | Bool(flag: bool) | Printed(text: string)

  type Arguments = map<string, Value>

  /** `strval`; numbers and composite values come with the text the library prints for them. */
  function StrVal(v: Value): string {
    match v
    case Null => ""
    case Text(s) => s
    case Bool(flag) => if flag then "true" else "false"
    case Printed(s) => s
  }

  /** A missing argument reads as null. */
  function ArgumentText(args: Arguments, name: string): string {
    if name in args then StrVal(args[name]) else ""
  }

  function PathValue(args: Arguments): string -> string {
    name => Escape(ArgumentText(args, name), PathSegment)
  }

  function QueryOf(b: Binding, args: Arguments): Values {
    map n | n in b.queryParams && n in args :: [StrVal(args[n])]
  }

  function BodyOf(b: Binding, args: Arguments): Option<Arguments> {
    if b.bodyProps == [] then None else Some(map n | n in b.bodyProps && n in args :: args[n])
  }

  /** The request sent upstream; the body is the JSON object that gets marshalled. */
  datatype Upstream = Upstream(verb: string, target: string, body: Option<Arguments>)

  function WithQuery(path: string, encoded: string): string {
    if encoded == "" then path else path + "?" + encoded
  }

  ghost predicate Rebuilt(b: Binding, args: Arguments, r: Upstream) {
    && r.verb == b.verb
    && r.body == BodyOf(b, args)
    && exists order :: Enumerates(order, QueryOf(b, args).Keys)
         && r.target == WithQuery(ReplaceEach(b.pathTemplate, b.pathParams, PathValue(args)),
           Encode(QueryOf(b, args), order))
  }

  method AnyOrder(keys: set<string>) returns (order: seq<string>)
    ensures Enumerates(order, keys)
  {
    order := [];
    var left := keys;
    while left != {}
      invariant left <= keys && Enumerates(order, keys - left)
      decreases left
    {
      var k :| k in left;
      EnumerateMore(order, keys - left, k);
      assert keys - left + {k} == keys - (left - {k});
      order, left := order + [k], left - {k};
    }
    assert keys - left == keys;
  }

  method BuildPath(b: Binding, args: Arguments) returns (p: string)
    ensures p == ReplaceEach(b.pathTemplate, b.pathParams, PathValue(args))
  {
    p := b.pathTemplate;
    for k := 0 to |b.pathParams|
      invariant p == ReplaceEach(b.pathTemplate, b.pathParams[..k], PathValue(args))
    {
      var name := b.pathParams[k];
      p := ReplaceAll(p, Placeholder(name), Escape(ArgumentText(args, name), PathSegment));
      assert b.pathParams[..k + 1][..k] == b.pathParams[..k];
    }
    assert b.pathParams[..|b.pathParams|] == b.pathParams;
  }

  method BuildQuery(b: Binding, args: Arguments) returns (q: Values)
    ensures q == QueryOf(b, args)
  {
    q := map[];
    for k := 0 to |b.queryParams|
      invariant q == map n | n in b.queryParams[..k] && n in args :: [StrVal(args[n])]
    {
      assert b.queryParams[..k + 1] == b.queryParams[..k] + [b.queryParams[k]];
      if b.queryParams[k] in args {
        q := Put(q, b.queryParams[k], StrVal(args[b.queryParams[k]]));
      }
    }
    assert b.queryParams[..|b.queryParams|] == b.queryParams;
  }

  method BuildBody(b: Binding, args: Arguments) returns (body: Option<Arguments>)
    ensures body == BodyOf(b, args)
  {
    if |b.bodyProps| == 0 {
      return None;
    }
    var obj: Arguments := map[];
    for k := 0 to |b.bodyProps|
      invariant obj == map n | n in b.bodyProps[..k] && n in args :: args[n]
    {
      assert b.bodyProps[..k + 1] == b.bodyProps[..k] + [b.bodyProps[k]];
      if b.bodyProps[k] in args {
        obj := obj[b.bodyProps[k] := args[b.bodyProps[k]]];
      }
    }
    assert b.bodyProps[..|b.bodyProps|] == b.bodyProps;
    return Some(obj);
  }

  method Rebuild(b: Binding, args: Arguments) returns (r: Upstream)
    ensures Rebuilt(b, args, r)
  {
    hide Encode, ReplaceEach, BodyOf, QueryOf;
    var p := BuildPath(b, args);
    var q := BuildQuery(b, args);
    var order := AnyOrder(q.Keys);
    var body := BuildBody(b, args);
    r := Upstream(b.verb, WithQuery(p, Encode(q, order)), body);
  }

  // ---- What the upstream server reads back -----------------------------------------------------------

  /** A path whose placeholders are whole segments. */
  datatype Segment = Fixed(text: string) | Param(name: string)

  function SegmentPieces(segs: seq<Segment>): seq<Piece> {
    if segs == [] then []
    else
      [Literal("/"), if segs[0].Fixed? then Literal(segs[0].text) else Hole(segs[0].name)] + SegmentPieces(segs[1..])
  }

  function TemplateOf(segs: seq<Segment>): string {
    Render(SegmentPieces(segs))
  }

  predicate PlainSegments(segs: seq<Segment>) {
    forall i :: 0 <= i < |segs| ==>
      match segs[i]
      case Fixed(text) => BraceFree(text) && '/' !in text && '?' !in text && '#' !in text
      case Param(name) => BraceFree(name)
  }

  function Params(segs: seq<Segment>): set<string> {
    set i | 0 <= i < |segs| && segs[i].Param? :: segs[i].name
  }

  function FilledPart(seg: Segment, value: string -> string): string {
    match seg
    case Fixed(text) => text
    case Param(name) => value(name)
  }

  function FilledParts(segs: seq<Segment>, value: string -> string): seq<string> {
    if segs == [] then [] else [FilledPart(segs[0], value)] + FilledParts(segs[1..], value)
  }

  function JoinSlash(parts: seq<string>): string {
    if parts == [] then "" else "/" + parts[0] + JoinSlash(parts[1..])
  }

  function SplitSlash(path: string): seq<string>
    decreases |path|
  {
    if path == "" || path[0] != '/' then []
    else if '/' !in path[1..] then [path[1..]]
    else
      var (part, rest) := Cut(path[1..], '/');
      [part] + SplitSlash("/" + rest)
  }

  function MatchParts(segs: seq<Segment>, parts: seq<string>): Option<map<string, string>> {
    if segs == [] then if parts == [] then Some(map[]) else None
    else if parts == [] then None
    else
      var rest := MatchParts(segs[1..], parts[1..]);
      if rest.None? then None
      else match segs[0]
        case Fixed(text) => if text == parts[0] then rest else None
        case Param(name) =>
          var v := Unescape(parts[0], PathSegment);
          if v.None? then None else Some(rest.value[name := v.value])
  }

  datatype Received = Received(path: map<string, string>, query: Values, body: Option<Arguments>)

  /** Reads a request against the route: query off, path split and matched, everything decoded. */
  function Receive(segs: seq<Segment>, r: Upstream): Option<Received> {
    var (path, query) := Cut(r.target, '?');
    var matched := MatchParts(segs, SplitSlash(path));
    if matched.None? then None else Some(Received(matched.value, ParseQuery(query), r.body))
  }

  lemma {:induction false} SegmentPiecesWellFormed(segs: seq<Segment>)
    requires PlainSegments(segs)
    ensures WellFormed(SegmentPieces(segs))
  {
    if segs != [] {
      assert forall i :: 0 <= i < |segs[1..]| ==> segs[1..][i] == segs[i + 1];
      SegmentPiecesWellFormed(segs[1..]);
    }
  }

  lemma {:induction false} FilledTemplate(segs: seq<Segment>, names: set<string>, value: string -> string)
    requires Params(segs) <= names
    ensures Render(FillHoles(SegmentPieces(segs), names, value)) == JoinSlash(FilledParts(segs, value))
  {
    if segs != [] {
      var rest := segs[1..];
      assert forall i :: 0 <= i < |rest| ==> rest[i] == segs[i + 1];
      FilledTemplate(rest, names, value);
      assert segs[0].Param? ==> segs[0].name in Params(segs);
      var ps := SegmentPieces(segs);
      assert ps[1..][1..] == SegmentPieces(rest);
      var filled := FillHoles(ps, names, value);
      assert filled == [Literal("/")] + FillHoles(ps[1..], names, value);
      assert FillHoles(ps[1..], names, value) ==
             [Literal(FilledPart(segs[0], value))] + FillHoles(SegmentPieces(rest), names, value);
      assert filled[1..][1..] == FillHoles(SegmentPieces(rest), names, value);
      assert Render(filled) == "/" + (FilledPart(segs[0], value) + Render(filled[1..][1..]));
    }
  }

  lemma {:induction false} SplitJoined(parts: seq<string>)
    requires forall i :: 0 <= i < |parts| ==> '/' !in parts[i]
    ensures SplitSlash(JoinSlash(parts)) == parts
  {
    if parts != [] {
      var path, rest := JoinSlash(parts), JoinSlash(parts[1..]);
      SplitJoined(parts[1..]);
      assert path[1..] == parts[0] + rest;
      if |parts| == 1 {
        assert parts[0] + rest == parts[0];
      } else {
        assert rest[0] == '/' && rest == "/" + rest[1..];
        CutAtFirst(parts[0], '/', rest[1..]);
        assert path[1..] == parts[0] + ['/'] + rest[1..];
        assert path[1..][|parts[0]|] == '/';
      }
    }
  }

  lemma {:induction false} PartsAreClean(segs: seq<Segment>, args: Arguments)
    requires PlainSegments(segs)
    ensures var parts := FilledParts(segs, PathValue(args));
            && (forall i :: 0 <= i < |parts| ==> '/' !in parts[i])
            && '?' !in JoinSlash(parts) && '#' !in JoinSlash(parts)
  {
    if segs != [] {
      assert forall i :: 0 <= i < |segs[1..]| ==> segs[1..][i] == segs[i + 1];
      PartsAreClean(segs[1..], args);
      if segs[0].Param? {
        EscapedIsBraceFree(ArgumentText(args, segs[0].name));
      }
    }
  }

  function PathArguments(segs: seq<Segment>, args: Arguments): map<string, string> {
    map n | n in Params(segs) :: ArgumentText(args, n)
  }

  lemma PathArgumentsCons(segs: seq<Segment>, args: Arguments)
    requires segs != []
    ensures PathArguments(segs, args) ==
            if segs[0].Fixed? then PathArguments(segs[1..], args)
            else PathArguments(segs[1..], args)[segs[0].name := ArgumentText(args, segs[0].name)]
  {
    ParamsCons(segs);
    hide Params;
  }

  lemma {:induction false} MatchFilled(segs: seq<Segment>, args: Arguments)
    requires forall n :: n in Params(segs) ==> IsBytes(ArgumentText(args, n))
    ensures MatchParts(segs, FilledParts(segs, PathValue(args))) == Some(PathArguments(segs, args))
  {
    hide Escape, Unescape, IsBytes, ArgumentText, Params;
    if segs == [] {
      assert PathArguments(segs, args) == map[] by { NoParams(segs); }
    } else {
      ParamsCons(segs);
      MatchFilled(segs[1..], args);
      PathArgumentsCons(segs, args);
      assert FilledParts(segs, PathValue(args))[1..] == FilledParts(segs[1..], PathValue(args));
      if segs[0].Param? {
        EscapeRoundTrip(ArgumentText(args, segs[0].name), PathSegment);
      }
    }
  }

  lemma NoParams(segs: seq<Segment>)
    requires segs == []
    ensures Params(segs) == {}
  {}

  lemma ParamsCons(segs: seq<Segment>)
    requires segs != []
    ensures Params(segs) == Params(segs[1..]) + (if segs[0].Param? then {segs[0].name} else {})
  {
    var rest := segs[1..];
    forall n | n in Params(segs) ensures n in Params(rest) || (segs[0].Param? && n == segs[0].name) {
      var i :| 0 <= i < |segs| && segs[i].Param? && segs[i].name == n;
      if i > 0 {
        assert rest[i - 1] == segs[i];
      }
    }
    forall n | n in Params(rest) ensures n in Params(segs) {
      var i :| 0 <= i < |rest| && rest[i].Param? && rest[i].name == n;
      assert segs[i + 1] == rest[i];
    }
  }

  predicate ByteArguments(args: Arguments) {
    forall n :: n in args ==> IsBytes(n) && IsBytes(StrVal(args[n]))
  }

  lemma PathFilled(b: Binding, args: Arguments, segs: seq<Segment>)
    requires PlainSegments(segs) && b.pathTemplate == TemplateOf(segs) && Params(segs) <= Elements(b.pathParams)
    requires forall n :: n in b.pathParams ==> BraceFree(n)
    ensures ReplaceEach(b.pathTemplate, b.pathParams, PathValue(args)) == JoinSlash(FilledParts(segs, PathValue(args)))
  {
    hide Escape, FilledParts, JoinSlash, ReplaceEach, WellFormed, Ungrouped, FillHoles, Render, PathValue;
    SegmentPiecesWellFormed(segs);
    WellFormedIsUngrouped(SegmentPieces(segs));
    PathValuesBraceFree(b.pathParams, args);
    SequentialIsSimultaneous(SegmentPieces(segs), b.pathParams, PathValue(args));
    FilledTemplate(segs, Elements(b.pathParams), PathValue(args));
  }

  lemma QueryIsInhabited(b: Binding, args: Arguments)
    ensures Inhabited(QueryOf(b, args))
    ensures ByteArguments(args) ==> ByteValues(QueryOf(b, args))
  {}

  lemma TargetSplits(b: Binding, args: Arguments, segs: seq<Segment>, r: Upstream)
    requires PlainSegments(segs) && b.pathTemplate == TemplateOf(segs) && Params(segs) <= Elements(b.pathParams)
    requires (forall n :: n in b.pathParams ==> BraceFree(n)) && ByteArguments(args) && Rebuilt(b, args, r)
    ensures var (path, query) := Cut(r.target, '?');
            path == JoinSlash(FilledParts(segs, PathValue(args))) && ParseQuery(query) == QueryOf(b, args)
  {
    hide Escape, ParseQuery, FilledParts, JoinSlash, ReplaceEach, Encode, PlainSegments, QueryOf, TemplateOf, Params,
      PathValue, ByteArguments, ByteValues, Inhabited;
    PathFilled(b, args, segs);
    PartsAreClean(segs, args);
    QueryIsInhabited(b, args);
    var path, q := JoinSlash(FilledParts(segs, PathValue(args))), QueryOf(b, args);
    var order :| Enumerates(order, q.Keys) && r.target == WithQuery(path, Encode(q, order));
    QueryRoundTrip(q, order);
    var encoded := Encode(q, order);
    CutAtFirst(path, '?', encoded);
    assert encoded != "" ==> r.target == path + ['?'] + encoded;
  }

  /**
   Rebuilding a request loses nothing: over a path of whole-segment placeholders, all of them declared, the upstream
   server reads back exactly the path arguments, the query arguments that were given and the body.
   */
  lemma RebuildingLosesNothing(b: Binding, args: Arguments, segs: seq<Segment>, r: Upstream)
    requires PlainSegments(segs) && b.pathTemplate == TemplateOf(segs) && Params(segs) <= Elements(b.pathParams)
    requires (forall n :: n in b.pathParams ==> BraceFree(n)) && ByteArguments(args) && Rebuilt(b, args, r)
    ensures Receive(segs, r) ==
            Some(Received(PathArguments(segs, args), QueryOf(b, args), BodyOf(b, args)))
  {
    TargetSplits(b, args, segs, r);
    PartsAreClean(segs, args);
    SplitJoined(FilledParts(segs, PathValue(args)));
    MatchFilled(segs, args);
  }

  lemma EncodedIsEmpty(v: Values, order: seq<string>)
    requires Inhabited(v) && ByteValues(v) && Enumerates(order, v.Keys)
    ensures Encode(v, order) == "" <==> v == map[]
  {
    hide Escape;
    assert forall k :: k in order <==> k in (set x | x in order);
    if order != [] {
      assert order[0] in v;
      assert PairsOf(v, order) != [] by { assert PairsFor(order[0], v[order[0]]) != []; }
    }
    EncodedPairsEmpty(PairsOf(v, order));
    assert v == map[] <==> v.Keys == {};
  }

  lemma EncodedPairsEmpty(pairs: seq<Pair>)
    ensures EncodePairs(pairs) == "" <==> pairs == []
  {
    hide Escape;
    if pairs != [] {
      assert '=' in EncodePair(pairs[0]);
    }
  }

  /** There is a question mark in the target exactly when some query parameter was given. */
  lemma QueryMarkExactly(b: Binding, args: Arguments, segs: seq<Segment>, r: Upstream)
    requires PlainSegments(segs) && b.pathTemplate == TemplateOf(segs) && Params(segs) <= Elements(b.pathParams)
    requires (forall n :: n in b.pathParams ==> BraceFree(n)) && ByteArguments(args) && Rebuilt(b, args, r)
    ensures '?' in r.target <==> exists n :: n in b.queryParams && n in args
  {
    hide Escape, FilledParts, JoinSlash, ReplaceEach, Encode, PlainSegments, TemplateOf, Params, PathValue,
      ByteArguments,
      ByteValues, Inhabited;
    PathFilled(b, args, segs);
    PartsAreClean(segs, args);
    QueryIsInhabited(b, args);
    QueryParts(b, args);
    var path, q := JoinSlash(FilledParts(segs, PathValue(args))), QueryOf(b, args);
    var order :| Enumerates(order, q.Keys) && r.target == WithQuery(path, Encode(q, order));
    EncodedIsEmpty(q, order);
    assert q == map[] <==> forall n :: n !in q;
  }

  /** What is sent as a body: an object exactly when properties are declared, with exactly those that were given. */
  lemma SentBody(b: Binding, args: Arguments, r: Upstream)
    requires Rebuilt(b, args, r)
    ensures r.body.Some? <==> b.bodyProps != []
    ensures r.body.Some? ==>
              forall n :: (n in r.body.value <==> n in b.bodyProps && n in args)
                          && (n in r.body.value ==> r.body.value[n] == args[n])
  {
    hide ReplaceEach, Encode, QueryOf;
  }

  /**
   What the upstream server reads, name by name: a placeholder has the text of its argument, empty if it was not given;
   a query parameter is there exactly if it is declared and was given, as one value; and so for the body.
   */
  lemma ReceivedExactly(b: Binding, args: Arguments, segs: seq<Segment>, r: Upstream)
    requires PlainSegments(segs) && b.pathTemplate == TemplateOf(segs) && Params(segs) <= Elements(b.pathParams)
    requires (forall n :: n in b.pathParams ==> BraceFree(n)) && ByteArguments(args) && Rebuilt(b, args, r)
    ensures r.verb == b.verb && Receive(segs, r).Some?
    ensures var got := Receive(segs, r).value;
            && (forall n :: (n in got.path <==> n in Params(segs))
                            && (n in got.path ==> got.path[n] == if n in args then StrVal(args[n]) else ""))
            && (forall n :: (n in got.query <==> n in b.queryParams && n in args)
                            && (n in got.query ==> got.query[n] == [StrVal(args[n])]))
            && (got.body.Some? <==> b.bodyProps != [])
            && (got.body.Some? ==>
                  forall n :: (n in got.body.value <==> n in b.bodyProps && n in args)
                              && (n in got.body.value ==> got.body.value[n] == args[n]))
  {
    hide Rebuilt, Receive, TemplateOf, PlainSegments, ByteArguments, Params, StrVal, BodyOf, QueryOf, PathArguments;
    RebuildingLosesNothing(b, args, segs, r);
    SentBody(b, args, r);
    RebuiltParts(b, args, r);
    QueryParts(b, args);
    PathParts(segs, args);
  }

  lemma RebuiltParts(b: Binding, args: Arguments, r: Upstream)
    requires Rebuilt(b, args, r)
    ensures r.verb == b.verb && r.body == BodyOf(b, args)
  {
    hide ReplaceEach, Encode, QueryOf, BodyOf;
  }

  lemma QueryParts(b: Binding, args: Arguments)
    ensures var q := QueryOf(b, args);
            forall n :: (n in q <==> n in b.queryParams && n in args) && (n in q ==> q[n] == [StrVal(args[n])])
  {
    hide StrVal;
  }

  lemma PathParts(segs: seq<Segment>, args: Arguments)
    ensures var p := PathArguments(segs, args);
            forall n :: (n in p <==> n in Params(segs))
                        && (n in p ==> p[n] == if n in args then StrVal(args[n]) else "")
  {
    hide StrVal, Params;
  }

  /** The texts of scalar arguments. */
  lemma ScalarTexts(s: string, flag: bool)
    ensures StrVal(Text(s)) == s && StrVal(Null) == ""
    ensures StrVal(Bool(flag)) == "true" <==> flag
    ensures StrVal(Bool(flag)) == "false" <==> !flag
  {
    assert |"true"| == 4 && |"false"| == 5;
  }

  // ---- The schema covers the binding -------------------------------------------------------------------

  lemma {:induction false} ExposedNames(ps: seq<Option<Parameter>>)
    ensures ParameterProperties(ps).Keys == Elements(NamesAt(ps, "path")) + Elements(NamesAt(ps, "query"))
    ensures forall n :: n in RequiredNames(ps) ==> n in ParameterProperties(ps)
  {
    if ps != [] {
      ExposedNames(ps[..|ps| - 1]);
    }
  }

  /** What `BuildToolFor` promises about the pair it returns, as far as names and properties go. */
  predicate BuiltFor(op: Operation, schema: ToolSchema, b: Binding) {
    && b.pathParams == NamesAt(op.parameters, "path") && b.queryParams == NamesAt(op.parameters, "query")
    && Enumerates(b.bodyProps, BodyProperties(op).Keys)
    && schema.properties == ParameterProperties(op.parameters) + BodyProperties(op)
  }

  /** The schema names exactly the arguments the binding uses. */
  lemma SchemaCoversBinding(op: Operation, schema: ToolSchema, b: Binding)
    requires BuiltFor(op, schema, b)
    ensures schema.properties.Keys == Elements(b.pathParams) + Elements(b.queryParams) + Elements(b.bodyProps)
  {
    ExposedNames(op.parameters);
  }

  /** The argument is found in what the upstream server reads, in at least one place and unchanged. */
  predicate Lands(got: Received, args: Arguments, name: string)
    requires name in args
  {
    || (name in got.path && got.path[name] == StrVal(args[name]))
    || (name in got.query && got.query[name] == [StrVal(args[name])])
    || (got.body.Some? && name in got.body.value && got.body.value[name] == args[name])
  }

  /**
   Exactly which arguments reach the upstream server: those with a placeholder in the path, a query parameter or a body
   property of their name. Of what the schema names, only path parameters that the template does not mention are lost.
   */
  lemma EveryArgumentLands(op: Operation, schema: ToolSchema, b: Binding, args: Arguments, segs: seq<Segment>,
      r: Upstream, name: string)
    requires BuiltFor(op, schema, b) && name in args
    requires PlainSegments(segs) && b.pathTemplate == TemplateOf(segs) && Params(segs) <= Elements(b.pathParams)
    requires (forall n :: n in b.pathParams ==> BraceFree(n)) && ByteArguments(args) && Rebuilt(b, args, r)
    ensures Receive(segs, r).Some?
    ensures Lands(Receive(segs, r).value, args, name) <==>
            name in Params(segs) || name in b.queryParams || name in b.bodyProps
    ensures name in schema.properties && !Lands(Receive(segs, r).value, args, name) ==>
              name in b.pathParams && name !in Params(segs)
  {
    hide Rebuilt, Receive, TemplateOf, PlainSegments, PathArguments, QueryOf, BodyOf, ByteArguments, Params;
    SchemaCoversBinding(op, schema, b);
    RebuildingLosesNothing(b, args, segs, r);
    DeliveredPlaces(segs, b, args, name);
  }

  lemma DeliveredPlaces(segs: seq<Segment>, b: Binding, args: Arguments, name: string)
    requires name in args
    ensures var got := Received(PathArguments(segs, args), QueryOf(b, args), BodyOf(b, args));
            Lands(got, args, name) <==> name in Params(segs) || name in b.queryParams || name in b.bodyProps
  {
    hide Params;
  }

  lemma PathValuesBraceFree(names: seq<string>, args: Arguments)
    requires forall n :: n in names ==> BraceFree(n)
    ensures AllBraceFree(names, PathValue(args))
  {
    hide Escape, BraceFree;
    forall n | n in names ensures BraceFree(PathValue(args)(n)) {
      EscapedIsBraceFree(ArgumentText(args, n));
    }
  }

  lemma PathValueAt(args: Arguments, n: string)
    ensures PathValue(args)(n) == Escape(ArgumentText(args, n), PathSegment)
  {
    hide Escape, ArgumentText;
  }

  lemma OtherText(args: Arguments, name: string, v: Value, n: string)
    requires n != name
    ensures ArgumentText(args, n) == ArgumentText(args[name := v], n)
  {
    hide StrVal;
  }

  lemma OtherPathValue(args: Arguments, name: string, v: Value, n: string)
    requires n != name
    ensures PathValue(args)(n) == PathValue(args[name := v])(n)
  {
    hide Escape, PathValue, ArgumentText;
    PathValueAt(args, n);
    PathValueAt(args[name := v], n);
    OtherText(args, name, v, n);
  }

  lemma PathIgnores(b: Binding, args: Arguments, name: string, v: Value)
    requires GroupFree(b.pathTemplate) && (forall n :: n in b.pathParams ==> BraceFree(n))
    requires name !in OpenNames(Pieces(b.pathTemplate))
    ensures ReplaceEach(b.pathTemplate, b.pathParams, PathValue(args)) ==
            ReplaceEach(b.pathTemplate, b.pathParams, PathValue(args[name := v]))
  {
    hide ReplaceEach, GroupFree, Pieces, OpenNames, PathValue, BraceFree;
    PathValuesBraceFree(b.pathParams, args);
    PathValuesBraceFree(b.pathParams, args[name := v]);
    forall n | n in b.pathParams && n in OpenNames(Pieces(b.pathTemplate))
      ensures PathValue(args)(n) == PathValue(args[name := v])(n)
    {
      OtherPathValue(args, name, v, n);
    }
    OnlyHolesMatter(b.pathTemplate, b.pathParams, PathValue(args), PathValue(args[name := v]));
  }

  lemma QueryAndBodyIgnore(b: Binding, args: Arguments, name: string, v: Value)
    requires name !in b.queryParams && name !in b.bodyProps
    ensures QueryOf(b, args) == QueryOf(b, args[name := v]) && BodyOf(b, args) == BodyOf(b, args[name := v])
  {
    var other := args[name := v];
    assert QueryOf(b, args) == QueryOf(b, other);
    assert (map n | n in b.bodyProps && n in args :: args[n]) == (map n | n in b.bodyProps && n in other :: other[n]);
  }

  /**
   A declared path parameter that the template does not mention is lost: the request is the same for every value of it.
   */
  lemma UnmentionedIsLost(b: Binding, args: Arguments, name: string, v: Value, r: Upstream)
    requires GroupFree(b.pathTemplate) && (forall n :: n in b.pathParams ==> BraceFree(n))
    requires name !in OpenNames(Pieces(b.pathTemplate)) && name !in b.queryParams && name !in b.bodyProps
    ensures Rebuilt(b, args, r) <==> Rebuilt(b, args[name := v], r)
  {
    hide GroupFree, Pieces, OpenNames, ReplaceEach, Encode, QueryOf, BodyOf, PathValue;
    PathIgnores(b, args, name, v);
    QueryAndBodyIgnore(b, args, name, v);
  }

  lemma PlainPath()
    ensures GroupFree("/x") && OpenNames(Pieces("/x")) == {}
  {
    assert "/x"[1..] == "x" && "x"[1..] == "";
    assert Pieces("/x") == [Literal("/"), Literal("x")];
  }

  const LOSING := Operation([Some(Parameter("id", "path", true, "", map[]))], None)
  const LOSING_SCHEMA := ToolSchema(map["id" := map[]], ["id"])
  const LOSING_BINDING := Binding("GET", "/x", ["id"], [], [])

  lemma LosingIsBuilt()
    ensures BuiltFor(LOSING, LOSING_SCHEMA, LOSING_BINDING)
  {
    var ps := LOSING.parameters;
    assert ps[..0] == [];
    assert NamesAt(ps, "path") == ["id"] && NamesAt(ps, "query") == [];
    assert ParameterProperties(ps) == map["id" := map[]];
  }

  /** Such an operation: a required path parameter `id`, but the path is just `/x`. */
  lemma LosingOperation(args: Arguments, v: Value, r: Upstream)
    ensures BuiltFor(LOSING, LOSING_SCHEMA, LOSING_BINDING) && "id" in LOSING_SCHEMA.required
    ensures Rebuilt(LOSING_BINDING, args, r) <==> Rebuilt(LOSING_BINDING, args["id" := v], r)
  {
    hide GroupFree, Pieces, OpenNames, Rebuilt, BuiltFor;
    LosingIsBuilt();
    PlainPath();
    UnmentionedIsLost(LOSING_BINDING, args, "id", v, r);
  }
}
