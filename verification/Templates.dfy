/** Path templates: replacing placeholders one after the other against replacing all of them at once. */
module Templates {
  import opened UrlCodec

  /** `strings.ReplaceAll` */
  function ReplaceAll(s: string, pattern: string, value: string): string
    requires pattern != ""
  {
    if |s| < |pattern| then s
    else if s[..|pattern|] == pattern then value + ReplaceAll(s[|pattern|..], pattern, value)
    else [s[0]] + ReplaceAll(s[1..], pattern, value)
  }

  function Placeholder(name: string): string {
    "{" + name + "}"
  }

  /** The handler's loop: one `ReplaceAll` per declared path parameter, in declaration order. */
  function ReplaceEach(s: string, names: seq<string>, value: string -> string): string {
    if names == [] then s
    else
      var last := |names| - 1;
      ReplaceAll(ReplaceEach(s, names[..last], value), Placeholder(names[last]), value(names[last]))
  }

  // ---- Templates in pieces --------------------------------------------------------------------

  datatype Piece = Literal(text: string) | Hole(name: string)

  predicate BraceFree(s: string) {
    '{' !in s && '}' !in s
  }

  predicate WellFormed(ps: seq<Piece>) {
    forall i :: 0 <= i < |ps| ==> BraceFree(if ps[i].Literal? then ps[i].text else ps[i].name)
  }

  predicate Stray(p: Piece, brace: string) {
    p.Literal? && p.text == brace
  }

  /** No literal is, or contains, a closing brace. */
  predicate NothingCloses(ps: seq<Piece>) {
    forall i :: 0 <= i < |ps| && ps[i].Literal? ==> '}' !in ps[i].text
  }

  predicate Tidy(p: Piece) {
    Stray(p, "{") || Stray(p, "}") || BraceFree(if p.Literal? then p.text else p.name)
  }

  /** Apart from holes there are only stray braces, and no opening one comes before a closing one. */
  predicate Ungrouped(ps: seq<Piece>) {
    ps == [] || (Tidy(ps[0]) && (Stray(ps[0], "{") ==> NothingCloses(ps[1..])) && Ungrouped(ps[1..]))
  }

  lemma {:induction false} WellFormedIsUngrouped(ps: seq<Piece>)
    requires WellFormed(ps)
    ensures Ungrouped(ps)
  {
    if ps != [] {
      assert forall i :: 0 <= i < |ps[1..]| ==> ps[1..][i] == ps[i + 1];
      WellFormedIsUngrouped(ps[1..]);
    }
  }

  function RenderPiece(p: Piece): string {
    match p
    case Literal(text) => text
    case Hole(name) => Placeholder(name)
  }

  function Render(ps: seq<Piece>): string {
    if ps == [] then "" else RenderPiece(ps[0]) + Render(ps[1..])
  }

  function FillPiece(p: Piece, names: set<string>, value: string -> string): Piece {
    if p.Hole? && p.name in names then Literal(value(p.name)) else p
  }

  /** All declared holes are filled at the same time. */
  function FillHoles(ps: seq<Piece>, names: set<string>, value: string -> string): seq<Piece> {
    if ps == [] then [] else [FillPiece(ps[0], names, value)] + FillHoles(ps[1..], names, value)
  }

  lemma ReplaceHit(t: string, pattern: string, value: string)
    requires pattern != ""
    ensures ReplaceAll(pattern + t, pattern, value) == value + ReplaceAll(t, pattern, value)
  {
    var s := pattern + t;
    assert s[..|pattern|] == pattern && s[|pattern|..] == t;
  }

  lemma ReplaceMiss(c: char, t: string, pattern: string, value: string)
    requires pattern != "" && !(pattern <= [c] + t)
    ensures ReplaceAll([c] + t, pattern, value) == [c] + ReplaceAll(t, pattern, value)
  {
    var s := [c] + t;
    assert s[1..] == t && s[0] == c;
    if |s| >= |pattern| {
      assert s[..|pattern|] != pattern;
    } else {
      assert ReplaceAll(t, pattern, value) == t;
    }
  }

  lemma {:induction false} ReplaceSkips(a: string, t: string, pattern: string, value: string)
    requires pattern != "" && pattern[0] !in a
    ensures ReplaceAll(a + t, pattern, value) == a + ReplaceAll(t, pattern, value)
  {
    if a == "" {
      assert a + t == t;
    } else {
      var rest := a[1..];
      ReplaceSkips(rest, t, pattern, value);
      assert !(pattern <= [a[0]] + (rest + t));
      ReplaceMiss(a[0], rest + t, pattern, value);
      assert a == [a[0]] + rest;
      assert a + t == [a[0]] + (rest + t);
    }
  }

  /** A placeholder is a match exactly when it is the one looked for. */
  lemma OtherPlaceholder(m: string, n: string, t: string)
    requires BraceFree(m) && BraceFree(n) && Placeholder(n) <= Placeholder(m) + t
    ensures m == n
  {
    var s := Placeholder(m) + t;
    CutAtFirst(m, '}', t);
    CutAtFirst(n, '}', s[|Placeholder(n)|..]);
    assert s[1..] == m + ['}'] + t;
    assert s == Placeholder(n) + s[|Placeholder(n)|..];
    assert s[1..] == n + ['}'] + s[|Placeholder(n)|..];
  }

  lemma ReplaceAtHole(m: string, n: string, t: string, value: string)
    requires BraceFree(m) && BraceFree(n)
    ensures ReplaceAll(Placeholder(m) + t, Placeholder(n), value) ==
            (if m == n then value else Placeholder(m)) + ReplaceAll(t, Placeholder(n), value)
  {
    hide ReplaceAll;
    var pattern := Placeholder(n);
    if m == n {
      ReplaceHit(t, pattern, value);
    } else {
      var rest := m + "}";
      assert Placeholder(m) == ['{'] + rest;
      assert Placeholder(m) + t == ['{'] + (rest + t);
      if pattern <= Placeholder(m) + t {
        OtherPlaceholder(m, n, t);
      }
      ReplaceSkips(rest, t, pattern, value);
      ReplaceMiss('{', rest + t, pattern, value);
    }
  }

  lemma OpeningFirst(n: string, rest: string)
    requires BraceFree(n)
    ensures !(n + "}" <= "{" + rest)
  {
    assert ("{" + rest)[0] == '{';
    assert (n + "}")[0] == if n == "" then '}' else n[0];
  }

  lemma AfterLiteral(text: string, s: string, n: string)
    requires n + "}" <= text + s && '}' !in text
    ensures |text| <= |n| && n[|text|..] + "}" <= s
  {
    assert (text + s)[|n|] == (n + "}")[|n|];
    assert forall i :: 0 <= i < |text| ==> (text + s)[i] == text[i];
    assert (text + s)[|text|..] == s;
    assert (n + "}")[|text|..] == n[|text|..] + "}";
  }

  /** Where nothing closes, the first brace is an opening one. */
  lemma {:induction false} NothingClosesFirst(ps: seq<Piece>, n: string)
    requires NothingCloses(ps) && BraceFree(n)
    ensures !(n + "}" <= Render(ps))
  {
    if ps != [] {
      var s := Render(ps[1..]);
      match ps[0]
      case Hole(name) =>
        OpeningFirst(n, name + "}" + s);
        assert Render(ps) == "{" + (name + "}" + s);
      case Literal(text) =>
        if n + "}" <= text + s {
          AfterLiteral(text, s, n);
          NothingClosesFirst(ps[1..], n[|text|..]);
        }
    }
  }

  lemma ReplaceAtStray(ps: seq<Piece>, n: string, value: string)
    requires NothingCloses(ps) && BraceFree(n)
    ensures ReplaceAll("{" + Render(ps), Placeholder(n), value) == "{" + ReplaceAll(Render(ps), Placeholder(n), value)
  {
    hide ReplaceAll, Render;
    var t := Render(ps);
    NothingClosesFirst(ps, n);
    assert ("{" + t)[1..] == t && Placeholder(n)[1..] == n + "}";
    ReplaceMiss('{', t, Placeholder(n), value);
  }

  lemma {:induction false} ReplaceFillsHoles(ps: seq<Piece>, name: string, value: string -> string)
    requires Ungrouped(ps) && BraceFree(name)
    ensures ReplaceAll(Render(ps), Placeholder(name), value(name)) == Render(FillHoles(ps, {name}, value))
  {
    if ps != [] {
      ReplaceFillsHoles(ps[1..], name, value);
      var t := Render(ps[1..]);
      match ps[0]
      case Literal(text) =>
        if text == "{" {
          ReplaceAtStray(ps[1..], name, value(name));
        } else {
          ReplaceSkips(text, t, Placeholder(name), value(name));
        }
      case Hole(m) => ReplaceAtHole(m, name, t, value(name));
    }
  }

  lemma {:induction false} FillTwice(ps: seq<Piece>, a: set<string>, b: set<string>, value: string -> string)
    ensures FillHoles(FillHoles(ps, a, value), b, value) == FillHoles(ps, a + b, value)
  {
    if ps != [] {
      FillTwice(ps[1..], a, b, value);
    }
  }

  lemma {:induction false} FillKeepsClosing(ps: seq<Piece>, names: set<string>, value: string -> string)
    requires NothingCloses(ps) && forall n :: n in names ==> BraceFree(value(n))
    ensures NothingCloses(FillHoles(ps, names, value))
  {
    if ps != [] {
      assert forall i :: 0 <= i < |ps[1..]| ==> ps[1..][i] == ps[i + 1];
      FillKeepsClosing(ps[1..], names, value);
    }
  }

  lemma {:induction false} FillKeepsUngrouped(ps: seq<Piece>, names: set<string>, value: string -> string)
    requires Ungrouped(ps) && forall n :: n in names ==> BraceFree(value(n))
    ensures Ungrouped(FillHoles(ps, names, value))
  {
    if ps != [] {
      var filled := FillHoles(ps, names, value);
      FillKeepsUngrouped(ps[1..], names, value);
      assert filled[1..] == FillHoles(ps[1..], names, value);
      if Stray(ps[0], "{") {
        FillKeepsClosing(ps[1..], names, value);
      }
    }
  }

  lemma {:induction false} FillNothing(ps: seq<Piece>, value: string -> string)
    ensures FillHoles(ps, {}, value) == ps
  {
    if ps != [] {
      FillNothing(ps[1..], value);
    }
  }

  function Elements(names: seq<string>): set<string> {
    set n | n in names
  }

  lemma ElementsLast(names: seq<string>)
    requires names != []
    ensures Elements(names) == Elements(names[..|names| - 1]) + {names[|names| - 1]}
  {}

  /** On a template without groups the sequential loop is simultaneous substitution. */
  lemma {:induction false} SequentialIsSimultaneous(ps: seq<Piece>, names: seq<string>, value: string -> string)
    requires Ungrouped(ps) && forall n :: n in names ==> BraceFree(n) && BraceFree(value(n))
    ensures ReplaceEach(Render(ps), names, value) == Render(FillHoles(ps, Elements(names), value))
    decreases |names|
  {
    if names == [] {
      FillNothing(ps, value);
      assert Elements(names) == {};
    } else {
      var init, n := names[..|names| - 1], names[|names| - 1];
      assert Elements(names) == Elements(init) + {n} by { ElementsLast(names); }
      SequentialIsSimultaneous(ps, init, value);
      hide ReplaceAll, Render, FillHoles, Ungrouped, BraceFree, Placeholder;
      FillKeepsUngrouped(ps, Elements(init), value);
      ReplaceFillsHoles(FillHoles(ps, Elements(init), value), n, value);
      FillTwice(ps, Elements(init), {n}, value);
    }
  }

  // ---- The same on template strings -------------------------------------------------------------

  /** Braces are balanced and not nested. */
  predicate Balanced(s: string)
    decreases |s|
  {
    if s == "" then true
    else if s[0] == '{' then
      var r := Cut(s[1..], '}');
      '}' in s[1..] && '{' !in r.0 && Balanced(r.1)
    else s[0] != '}' && Balanced(s[1..])
  }

  /** The string begins with a complete placeholder: an opening brace whose next brace is a closing one. */
  predicate StartsHole(s: string) {
    s != "" && s[0] == '{' && '}' in s[1..] && '{' !in Cut(s[1..], '}').0
  }

  /** One pass from left to right, replacing each declared placeholder as it is met. */
  function SinglePass(s: string, names: set<string>, value: string -> string): string
    decreases |s|
  {
    if s == "" then ""
    else if StartsHole(s) then
      var (name, rest) := Cut(s[1..], '}');
      (if name in names then value(name) else Placeholder(name)) + SinglePass(rest, names, value)
    else [s[0]] + SinglePass(s[1..], names, value)
  }

  /** The complete placeholders of a string, and everything else character by character. */
  function Pieces(s: string): seq<Piece>
    decreases |s|
  {
    if s == "" then []
    else if StartsHole(s) then
      var (name, rest) := Cut(s[1..], '}');
      [Hole(name)] + Pieces(rest)
    else [Literal([s[0]])] + Pieces(s[1..])
  }

  /** Outside its complete placeholders, no opening brace comes before a closing one. */
  predicate GroupFree(template: string) {
    Ungrouped(Pieces(template))
  }

  lemma {:induction false} CutSplits(s: string, sep: char)
    requires sep in s
    ensures s == Cut(s, sep).0 + [sep] + Cut(s, sep).1 && sep !in Cut(s, sep).0
  {
    if s[0] != sep {
      CutSplits(s[1..], sep);
      assert s == [s[0]] + s[1..];
    }
  }

  lemma RenderFirst(p: Piece, ps: seq<Piece>)
    ensures Render([p] + ps) == RenderPiece(p) + Render(ps)
  {}

  lemma {:induction false} PiecesRender(s: string)
    ensures Render(Pieces(s)) == s
    decreases |s|
  {
    hide Render, Cut;
    if s == "" {
      assert Pieces(s) == [];
      RenderNothing();
    } else {
      assert s == [s[0]] + s[1..];
      if StartsHole(s) {
        var (name, rest) := Cut(s[1..], '}');
        CutSplits(s[1..], '}');
        PiecesRender(rest);
        RenderFirst(Hole(name), Pieces(rest));
        assert s == Placeholder(name) + rest;
      } else {
        PiecesRender(s[1..]);
        RenderFirst(Literal([s[0]]), Pieces(s[1..]));
      }
    }
  }

  lemma RenderNothing()
    ensures Render([]) == ""
  {}

  lemma {:induction false} BalancedIsWellFormed(s: string)
    requires Balanced(s)
    ensures WellFormed(Pieces(s))
    decreases |s|
  {
    if s != "" {
      if s[0] == '{' {
        CutSplits(s[1..], '}');
        BalancedIsWellFormed(Cut(s[1..], '}').1);
      } else {
        BalancedIsWellFormed(s[1..]);
      }
    }
  }

  lemma {:induction false} SinglePassFillsPieces(s: string, names: set<string>, value: string -> string)
    ensures SinglePass(s, names, value) == Render(FillHoles(Pieces(s), names, value))
    decreases |s|
  {
    if s != "" {
      if StartsHole(s) {
        SinglePassFillsPieces(Cut(s[1..], '}').1, names, value);
      } else {
        SinglePassFillsPieces(s[1..], names, value);
      }
    }
  }

  predicate AllBraceFree(names: seq<string>, value: string -> string) {
    forall n :: n in names ==> BraceFree(n) && BraceFree(value(n))
  }

  lemma BalancedIsGroupFree(template: string)
    requires Balanced(template)
    ensures GroupFree(template)
  {
    BalancedIsWellFormed(template);
    WellFormedIsUngrouped(Pieces(template));
  }

  /** On group-free templates, balanced or not, the loop of `ReplaceAll` is a single pass. */
  lemma LoopIsSinglePass(template: string, names: seq<string>, value: string -> string)
    requires GroupFree(template) && AllBraceFree(names, value)
    ensures ReplaceEach(template, names, value) == SinglePass(template, Elements(names), value)
  {
    PiecesRender(template);
    SequentialIsSimultaneous(Pieces(template), names, value);
    SinglePassFillsPieces(template, Elements(names), value);
  }

  /** So the order in which parameters are declared, or their repetition, does not matter. */
  lemma OrderIrrelevant(template: string, names: seq<string>, others: seq<string>, value: string -> string)
    requires GroupFree(template) && AllBraceFree(names, value) && Elements(names) == Elements(others)
    ensures ReplaceEach(template, names, value) == ReplaceEach(template, others, value)
  {
    assert forall n :: n in others ==> n in Elements(others);
    LoopIsSinglePass(template, names, value);
    LoopIsSinglePass(template, others, value);
  }

  /** Both hold of the templates OpenAPI means: balanced ones without nesting. */
  lemma BalancedTemplates(template: string, names: seq<string>, others: seq<string>, value: string -> string)
    requires Balanced(template) && AllBraceFree(names, value) && Elements(names) == Elements(others)
    ensures ReplaceEach(template, names, value) == SinglePass(template, Elements(names), value)
    ensures ReplaceEach(template, names, value) == ReplaceEach(template, others, value)
  {
    BalancedIsGroupFree(template);
    LoopIsSinglePass(template, names, value);
    OrderIrrelevant(template, names, others, value);
  }

  /** Escaped path values satisfy the condition on values. */
  lemma EscapedIsBraceFree(s: string)
    ensures BraceFree(Escape(s, PathSegment))
    ensures '/' !in Escape(s, PathSegment) && '?' !in Escape(s, PathSegment) && '#' !in Escape(s, PathSegment)
  {
    EscapedIsPlain(s, PathSegment);
    hide Escape;
  }

  function Occurrences(s: string, c: char): nat {
    if s == "" then 0 else (if s[0] == c then 1 else 0) + Occurrences(s[1..], c)
  }

  lemma {:induction false} OccurrencesAppend(a: string, b: string, c: char)
    ensures Occurrences(a + b, c) == Occurrences(a, c) + Occurrences(b, c)
  {
    if a == "" {
      assert a + b == b;
    } else {
      assert (a + b)[1..] == a[1..] + b;
      OccurrencesAppend(a[1..], b, c);
    }
  }

  lemma {:induction false} NoOccurrence(s: string, c: char)
    ensures Occurrences(s, c) == 0 <==> c !in s
  {
    if s != "" {
      NoOccurrence(s[1..], c);
      assert s == [s[0]] + s[1..];
    }
  }

  /** The names of the holes left open. */
  function OpenNames(ps: seq<Piece>): set<string> {
    set i | 0 <= i < |ps| && ps[i].Hole? :: ps[i].name
  }

  lemma {:induction false} FillCounts(ps: seq<Piece>, names: set<string>, value: string -> string, c: char)
    requires forall n :: n in names && n in OpenNames(ps) ==> c !in value(n) && c !in Placeholder(n)
    ensures Occurrences(Render(FillHoles(ps, names, value)), c) == Occurrences(Render(ps), c)
  {
    if ps != [] {
      var rest := FillHoles(ps[1..], names, value);
      assert forall i :: 0 <= i < |ps[1..]| ==> ps[1..][i] == ps[i + 1];
      FillCounts(ps[1..], names, value, c);
      OccurrencesAppend(RenderPiece(ps[0]), Render(ps[1..]), c);
      OccurrencesAppend(RenderPiece(FillPiece(ps[0], names, value)), Render(rest), c);
      if ps[0].Hole? && ps[0].name in names {
        assert ps[0].name in OpenNames(ps);
        NoOccurrence(value(ps[0].name), c);
        NoOccurrence(Placeholder(ps[0].name), c);
      }
    }
  }

  lemma {:induction false} FillDependsOnHoles(ps: seq<Piece>, names: set<string>, f: string -> string,
      g: string -> string)
    requires forall n :: n in names && n in OpenNames(ps) ==> f(n) == g(n)
    ensures FillHoles(ps, names, f) == FillHoles(ps, names, g)
  {
    if ps != [] {
      assert forall i :: 0 <= i < |ps[1..]| ==> ps[1..][i] == ps[i + 1];
      assert ps[0].Hole? ==> ps[0].name in OpenNames(ps);
      FillDependsOnHoles(ps[1..], names, f, g);
    }
  }

  lemma {:induction false} NoBraceLeft(ps: seq<Piece>, names: set<string>, value: string -> string)
    requires WellFormed(ps) && OpenNames(ps) <= names && forall n :: n in names ==> BraceFree(value(n))
    ensures BraceFree(Render(FillHoles(ps, names, value)))
  {
    if ps != [] {
      assert forall i :: 0 <= i < |ps[1..]| ==> ps[1..][i] == ps[i + 1];
      assert ps[0].Hole? ==> ps[0].name in OpenNames(ps);
      NoBraceLeft(ps[1..], names, value);
    }
  }

  /**
   Filling a path keeps its slashes, and leaves no brace when the template is balanced and every placeholder is
   declared: no value can open a new segment or create a placeholder.
   */
  lemma FilledPathShape(template: string, names: seq<string>, value: string -> string)
    requires GroupFree(template) && AllBraceFree(names, value)
    requires forall n :: n in names ==> '/' !in n && '/' !in value(n)
    ensures Occurrences(ReplaceEach(template, names, value), '/') == Occurrences(template, '/')
    ensures Balanced(template) && OpenNames(Pieces(template)) <= Elements(names) ==>
              BraceFree(ReplaceEach(template, names, value))
  {
    var ps := Pieces(template);
    PiecesRender(template);
    SequentialIsSimultaneous(ps, names, value);
    FillCounts(ps, Elements(names), value, '/');
    if Balanced(template) && OpenNames(ps) <= Elements(names) {
      BalancedIsWellFormed(template);
      NoBraceLeft(ps, Elements(names), value);
    }
  }

  /** What comes out depends on the values of the placeholders in the template only. */
  lemma OnlyHolesMatter(template: string, names: seq<string>, f: string -> string, g: string -> string)
    requires GroupFree(template) && AllBraceFree(names, f) && AllBraceFree(names, g)
    requires forall n :: n in names && n in OpenNames(Pieces(template)) ==> f(n) == g(n)
    ensures ReplaceEach(template, names, f) == ReplaceEach(template, names, g)
  {
    PiecesRender(template);
    SequentialIsSimultaneous(Pieces(template), names, f);
    SequentialIsSimultaneous(Pieces(template), names, g);
    FillDependsOnHoles(Pieces(template), Elements(names), f, g);
  }

  // ---- When the order matters -------------------------------------------------------------------

  /** Some declaration of brace-free parameters and values gives different paths in different orders. */
  ghost predicate OrderMatters(template: string) {
    exists names, others, value ::
      Elements(names) == Elements(others) && AllBraceFree(names, value)
      && ReplaceEach(template, names, value) != ReplaceEach(template, others, value)
  }

  lemma {:induction false} RenderAppend(ps: seq<Piece>, qs: seq<Piece>)
    ensures Render(ps + qs) == Render(ps) + Render(qs)
  {
    if ps == [] {
      assert ps + qs == qs;
    } else {
      assert (ps + qs)[1..] == ps[1..] + qs;
      RenderAppend(ps[1..], qs);
    }
  }

  /** The pieces up to the first closing brace that is not part of a placeholder. */
  lemma {:induction false} UpToClose(ps: seq<Piece>) returns (group: seq<Piece>, rest: seq<Piece>)
    requires Ungrouped(ps) && !NothingCloses(ps)
    ensures ps == group + [Literal("}")] + rest && WellFormed(group)
  {
    if Stray(ps[0], "}") {
      group, rest := [], ps[1..];
    } else {
      assert forall i :: 0 < i < |ps| ==> ps[1..][i - 1] == ps[i];
      group, rest := UpToClose(ps[1..]);
      group := [ps[0]] + group;
    }
  }

  lemma HoleIsOpen(ps: seq<Piece>, i: nat)
    requires i < |ps| && ps[i].Hole?
    ensures ps[i].name in OpenNames(ps)
  {}

  lemma {:induction false} LiteralsAreBraceFree(ps: seq<Piece>)
    requires WellFormed(ps) && forall i :: 0 <= i < |ps| ==> ps[i].Literal?
    ensures BraceFree(Render(ps))
  {
    if ps != [] {
      assert forall i :: 0 <= i < |ps[1..]| ==> ps[1..][i] == ps[i + 1];
      LiteralsAreBraceFree(ps[1..]);
    }
  }

  lemma HoleFree(ps: seq<Piece>)
    requires WellFormed(ps) && OpenNames(ps) == {}
    ensures BraceFree(Render(ps))
  {
    hide OpenNames, WellFormed;
    forall i | 0 <= i < |ps| ensures ps[i].Literal? {
      if ps[i].Hole? {
        HoleIsOpen(ps, i);
      }
    }
    LiteralsAreBraceFree(ps);
  }

  /** An opening brace and its group: it holds a placeholder, or else it would be one itself. */
  lemma GroupAt(s: string) returns (group: seq<Piece>, after: string)
    requires s != "" && s[0] == '{' && !StartsHole(s) && GroupFree(s[1..]) && !NothingCloses(Pieces(s[1..]))
    ensures s == "{" + Render(group) + "}" + after && WellFormed(group) && OpenNames(group) != {}
  {
    hide Render, WellFormed, OpenNames, NothingCloses, Ungrouped, StartsHole, Pieces;
    var rest;
    group, rest := UpToClose(Pieces(s[1..]));
    after := Render(rest);
    PiecesRender(s[1..]);
    RenderAppend(group + [Literal("}")], rest);
    RenderAppend(group, [Literal("}")]);
    RenderFirst(Literal("}"), []);
    RenderNothing();
    assert [Literal("}")] == [Literal("}")] + [];
    assert s == "{" + s[1..];
    assert s == "{" + Render(group) + "}" + after;
    if OpenNames(group) == {} {
      HoleFreeGroupIsHole(group, after);
    }
  }

  lemma HoleFreeGroupIsHole(group: seq<Piece>, after: string)
    requires WellFormed(group) && OpenNames(group) == {}
    ensures StartsHole("{" + Render(group) + "}" + after)
  {
    HoleFree(group);
    CutAtFirst(Render(group), '}', after);
    var s := "{" + Render(group) + "}" + after;
    assert s[1..] == Render(group) + ['}'] + after;
    assert s[1..][|Render(group)|] == '}';
  }

  lemma GroupFreeAfterHole(s: string)
    requires StartsHole(s)
    ensures var (name, rest) := Cut(s[1..], '}');
            s == Placeholder(name) + rest && (GroupFree(s) <==> GroupFree(rest))
  {
    var (name, rest) := Cut(s[1..], '}');
    CutSplits(s[1..], '}');
    assert s == [s[0]] + s[1..];
    assert Pieces(s) == [Hole(name)] + Pieces(rest);
  }

  lemma GroupFreeAfterChar(s: string)
    requires s != "" && !StartsHole(s)
    ensures s == [s[0]] + s[1..]
    ensures GroupFree(s) <==> GroupFree(s[1..]) && (s[0] == '{' ==> NothingCloses(Pieces(s[1..])))
  {
    hide StartsHole;
    assert Pieces(s) == [Literal([s[0]])] + Pieces(s[1..]);
  }

  lemma NothingIsGroupFree()
    ensures GroupFree("")
  {}

  lemma {:induction false} FindGroup(s: string) returns (before: string, group: seq<Piece>, after: string)
    requires !GroupFree(s)
    ensures s == before + "{" + Render(group) + "}" + after && WellFormed(group) && OpenNames(group) != {}
    decreases |s|
  {
    hide GroupFree, Pieces, Render, WellFormed, OpenNames, NothingCloses, Cut;
    NothingIsGroupFree();
    if StartsHole(s) {
      GroupFreeAfterHole(s);
      var (name, rest) := Cut(s[1..], '}');
      before, group, after := FindGroup(rest);
      before := Placeholder(name) + before;
    } else {
      GroupFreeAfterChar(s);
      if !GroupFree(s[1..]) {
        before, group, after := FindGroup(s[1..]);
        before := [s[0]] + before;
      } else {
        before := "";
        group, after := GroupAt(s);
      }
    }
  }

  /** The place between `a` and `b` is the end of a placeholder or the start of one, or neither side has any. */
  predicate Boundary(a: string, b: string) {
    a == "" || a[|a| - 1] == '}' || (b != "" && b[0] == '{')
  }

  /** No placeholder reaches across a boundary. */
  lemma {:induction false} ReplaceSplits(a: string, b: string, n: string, value: string)
    requires BraceFree(n) && Boundary(a, b)
    ensures ReplaceAll(a + b, Placeholder(n), value) == ReplaceAll(a, Placeholder(n), value)
      + ReplaceAll(b, Placeholder(n), value)
    decreases |a|
  {
    hide ReplaceAll, Boundary, BraceFree;
    var p := Placeholder(n);
    if a == "" {
      assert a + b == b;
      TooLongIsAbsent(a, n, value);
    } else if p <= a {
      var rest := a[|p|..];
      assert a == p + rest && a + b == p + (rest + b);
      BoundaryStays(a, |p|, b);
      ReplaceSplits(rest, b, n, value);
      ReplaceHit(rest + b, p, value);
      ReplaceHit(rest, p, value);
    } else {
      var rest := a[1..];
      assert a == [a[0]] + rest && a + b == [a[0]] + (rest + b);
      BoundaryStays(a, 1, b);
      ReplaceSplits(rest, b, n, value);
      if p <= a + b {
        MatchInside(a, b, n);
      }
      ReplaceMiss(a[0], rest + b, p, value);
      ReplaceMiss(a[0], rest, p, value);
    }
  }

  lemma BoundaryStays(a: string, k: nat, b: string)
    requires Boundary(a, b) && k <= |a|
    ensures Boundary(a[k..], b)
  {}

  lemma MatchInside(a: string, b: string, n: string)
    requires BraceFree(n) && a != "" && Boundary(a, b) && Placeholder(n) <= a + b
    ensures Placeholder(n) <= a
  {
    var p := Placeholder(n);
    assert forall i :: 0 < i < |p| - 1 ==> p[i] == n[i - 1];
    assert forall i :: 0 <= i < |p| ==> p[i] == (a + b)[i];
    assert (a + b)[|a| - 1] == a[|a| - 1];
    assert b != "" ==> (a + b)[|a|] == b[0];
  }

  /** The values of the counterexample: all the same, and longer than any name in the template. */
  function Padding(k: nat): string {
    seq(k, _ => 'x')
  }

  lemma PaddingBraceFree(k: nat)
    ensures BraceFree(Padding(k)) && |Padding(k)| == k
  {}

  lemma TooLongIsAbsent(s: string, n: string, value: string)
    requires |s| < |Placeholder(n)|
    ensures ReplaceAll(s, Placeholder(n), value) == s
  {}

  lemma {:induction false} ReplaceShortens(s: string, p: string, value: string)
    requires p != "" && |value| <= |p|
    ensures |ReplaceAll(s, p, value)| <= |s|
    decreases |s|
  {
    if |s| >= |p| {
      if s[..|p|] == p {
        ReplaceShortens(s[|p|..], p, value);
      } else {
        ReplaceShortens(s[1..], p, value);
      }
    }
  }

  lemma {:induction false} EachSplits(a: string, group: seq<Piece>, c: string, names: seq<string>, x: string)
    requires WellFormed(group) && OpenNames(group) != {} && BraceFree(x)
    requires forall n :: n in names ==> BraceFree(n) && |n| < |x|
    ensures var value := (n: string) => x;
            ReplaceEach(a + ("{" + Render(group) + "}") + c, names, value) ==
            ReplaceEach(a, names, value) + ("{" + Render(FillHoles(group, Elements(names), value)) + "}")
              + ReplaceEach(c, names, value)
  {
    var value := (n: string) => x;
    if names == [] {
      FillNothing(group, value);
      assert Elements(names) == {};
    } else {
      var init, n := names[..|names| - 1], names[|names| - 1];
      EachSplits(a, group, c, init, x);
      ElementsLast(names);
      var filled := FillHoles(group, Elements(init), value);
      FillTwice(group, Elements(init), {n}, value);
      EachSplitsOnce(ReplaceEach(a, init, value), group, Elements(init), ReplaceEach(c, init, value), n, x);
    }
  }

  lemma EachSplitsOnce(a: string, group: seq<Piece>, names: set<string>, c: string, n: string, x: string)
    requires WellFormed(group) && OpenNames(group) != {} && BraceFree(x) && BraceFree(n) && |n| < |x|
    ensures var value := (n: string) => x;
            var filled := FillHoles(group, names, value);
            ReplaceAll(a + ("{" + Render(filled) + "}") + c, Placeholder(n), x) ==
            ReplaceAll(a, Placeholder(n), x) + ("{" + Render(FillHoles(filled, {n}, value)) + "}")
              + ReplaceAll(c, Placeholder(n), x)
  {
    hide ReplaceAll, Render, WellFormed, OpenNames, FillHoles, BraceFree;
    var value := (n: string) => x;
    var filled := FillHoles(group, names, value);
    var g := "{" + Render(filled) + "}";
    FilledGroupIsWellFormed(group, names, value);
    GroupIsNoPlaceholder(group, names, n, x);
    ReplaceSplits(a + g, c, n, x);
    ReplaceSplits(a, g, n, x);
    ReplaceInGroup(filled, n, value);
  }

  lemma {:induction false} FilledGroupIsWellFormed(ps: seq<Piece>, names: set<string>, value: string -> string)
    requires WellFormed(ps) && forall n :: BraceFree(value(n))
    ensures WellFormed(FillHoles(ps, names, value))
  {
    if ps != [] {
      assert forall i :: 0 <= i < |ps[1..]| ==> ps[1..][i] == ps[i + 1];
      FilledGroupIsWellFormed(ps[1..], names, value);
    }
  }

  /** Filled or not, a hole leaves something that no short brace-free name can be equal to. */
  lemma {:induction false} GroupIsNoPlaceholder(ps: seq<Piece>, names: set<string>, n: string, x: string)
    requires OpenNames(ps) != {} && BraceFree(n) && |n| < |x|
    ensures Render(FillHoles(ps, names, (m: string) => x)) != n
    ensures |Render(FillHoles(ps, names, (m: string) => x))| >= |x|
      || '{' in Render(FillHoles(ps, names, (m: string) => x))
  {
    var value := (m: string) => x;
    if ps[0].Hole? {
      assert RenderPiece(FillPiece(ps[0], names, value)) == x || RenderPiece(FillPiece(ps[0], names, value))[0] == '{';
    } else {
      forall m | m in OpenNames(ps) ensures m in OpenNames(ps[1..]) {
        var i :| 0 <= i < |ps| && ps[i].Hole? && ps[i].name == m;
        assert ps[1..][i - 1] == ps[i];
      }
      GroupIsNoPlaceholder(ps[1..], names, n, x);
    }
  }

  lemma RenderClosed(ps: seq<Piece>)
    ensures Render(ps + [Literal("}")]) == Render(ps) + "}"
  {
    RenderAppend(ps, [Literal("}")]);
    assert Render([Literal("}")]) == "}";
  }

  lemma FillClosed(ps: seq<Piece>, names: set<string>, value: string -> string)
    ensures FillHoles(ps + [Literal("}")], names, value) == FillHoles(ps, names, value) + [Literal("}")]
  {
    FillAppend(ps, [Literal("}")], names, value);
    assert FillHoles([Literal("}")], names, value) == [Literal("}")];
  }

  /** Inside a group that is no placeholder itself, replacing fills the holes. */
  lemma ReplaceInGroup(ps: seq<Piece>, n: string, value: string -> string)
    requires WellFormed(ps) && BraceFree(n) && Render(ps) != n
    ensures ReplaceAll("{" + Render(ps) + "}", Placeholder(n), value(n)) ==
            "{" + Render(FillHoles(ps, {n}, value)) + "}"
  {
    hide ReplaceAll, Render, FillHoles, WellFormed, Ungrouped, BraceFree;
    var inner := ps + [Literal("}")];
    RenderClosed(ps);
    RenderClosed(FillHoles(ps, {n}, value));
    FillClosed(ps, {n}, value);
    GroupTailUngrouped(ps);
    ReplaceFillsHoles(inner, n, value);
    var t := Render(inner);
    assert "{" + Render(ps) + "}" == ['{'] + t;
    if Placeholder(n) <= ['{'] + t {
      GroupMatch(ps, n);
    }
    ReplaceMiss('{', t, Placeholder(n), value(n));
  }

  lemma {:induction false} GroupTailUngrouped(ps: seq<Piece>)
    requires WellFormed(ps)
    ensures Ungrouped(ps + [Literal("}")])
  {
    var all := ps + [Literal("}")];
    if ps != [] {
      assert forall i :: 0 <= i < |ps[1..]| ==> ps[1..][i] == ps[i + 1];
      GroupTailUngrouped(ps[1..]);
      assert all[1..] == ps[1..] + [Literal("}")];
    } else {
      assert all[1..] == [];
    }
  }

  lemma {:induction false} FillAppend(ps: seq<Piece>, qs: seq<Piece>, names: set<string>, value: string -> string)
    ensures FillHoles(ps + qs, names, value) == FillHoles(ps, names, value) + FillHoles(qs, names, value)
  {
    if ps == [] {
      assert ps + qs == qs;
    } else {
      assert (ps + qs)[1..] == ps[1..] + qs;
      FillAppend(ps[1..], qs, names, value);
    }
  }

  /** If a group begins with a placeholder at its own opening brace, it is that placeholder. */
  lemma GroupMatch(ps: seq<Piece>, n: string)
    requires WellFormed(ps) && BraceFree(n) && Placeholder(n) <= "{" + Render(ps) + "}"
    ensures Render(ps) == n
  {
    hide Render, WellFormed, NothingCloses, BraceFree;
    var s := Render(ps) + "}";
    assert ("{" + Render(ps) + "}")[1..] == s && Placeholder(n)[1..] == n + "}";
    assert s[..|n| + 1] == n + "}" && s[..|n|] == n;
    if |n| < |Render(ps)| {
      PrefixOfBoth(n + "}", Render(ps), s);
      WellFormedClosesNothing(ps);
      NothingClosesFirst(ps, n);
    }
  }

  lemma PrefixOfBoth(a: string, b: string, s: string)
    requires a <= s && b <= s && |a| <= |b|
    ensures a <= b
  {}

  lemma WellFormedClosesNothing(ps: seq<Piece>)
    requires WellFormed(ps)
    ensures NothingCloses(ps)
  {}

  function HoleNames(ps: seq<Piece>): seq<string> {
    if ps == [] then [] else (if ps[0].Hole? then [ps[0].name] else []) + HoleNames(ps[1..])
  }

  lemma {:induction false} HoleNamesAreOpen(ps: seq<Piece>)
    requires WellFormed(ps)
    ensures Elements(HoleNames(ps)) == OpenNames(ps)
    ensures forall n :: n in HoleNames(ps) ==> BraceFree(n) && |n| <= |Render(ps)|
  {
    if ps != [] {
      assert forall i :: 0 <= i < |ps[1..]| ==> ps[1..][i] == ps[i + 1];
      HoleNamesAreOpen(ps[1..]);
      assert forall n :: n in HoleNames(ps[1..]) <==> n in Elements(HoleNames(ps[1..]));
      forall n | n in OpenNames(ps) ensures n in HoleNames(ps) {
        var i :| 0 <= i < |ps| && ps[i].Hole? && ps[i].name == n;
        if i > 0 {
          assert ps[1..][i - 1] == ps[i];
          assert n in OpenNames(ps[1..]);
        }
      }
      forall n | n in HoleNames(ps) ensures n in OpenNames(ps) {
        if !(ps[0].Hole? && n == ps[0].name) {
          assert n in OpenNames(ps[1..]);
        }
      }
    }
  }

  lemma {:induction false} EachFirst(s: string, n: string, names: seq<string>, value: string -> string)
    requires ReplaceAll(s, Placeholder(n), value(n)) == s
    ensures ReplaceEach(s, [n] + names, value) == ReplaceEach(s, names, value)
  {
    var all := [n] + names;
    if names == [] {
      assert all[..0] == [];
    } else {
      EachFirst(s, n, names[..|names| - 1], value);
      assert all[..|all| - 1] == [n] + names[..|names| - 1];
    }
  }

  /** What the group of the counterexample becomes: a placeholder with a name longer than the template. */
  lemma FilledGroup(group: seq<Piece>, x: string)
    requires WellFormed(group) && OpenNames(group) != {} && BraceFree(x)
    ensures var outer := Render(FillHoles(group, Elements(HoleNames(group)), (n: string) => x));
            BraceFree(outer) && |outer| >= |x|
  {
    var value := (n: string) => x;
    HoleNamesAreOpen(group);
    NoBraceLeft(group, OpenNames(group), value);
    if x != "" {
      GroupIsNoPlaceholder(group, OpenNames(group), "", x);
    }
  }

  lemma GroupFills(before: string, group: seq<Piece>, after: string, x: string)
      returns (a: string, outer: string, c: string)
    requires WellFormed(group) && OpenNames(group) != {} && BraceFree(x) && |Render(group)| < |x|
    ensures var value, holes := (n: string) => x, HoleNames(group);
            ReplaceEach(before + ("{" + Render(group) + "}") + after, holes, value) == a + Placeholder(outer) + c
    ensures BraceFree(outer) && |outer| >= |x|
    ensures forall n :: n in HoleNames(group) ==> BraceFree(n)
  {
    hide Render, FillHoles, WellFormed, OpenNames, ReplaceEach, HoleNames, BraceFree;
    var value, holes := (n: string) => x, HoleNames(group);
    HoleNamesAreOpen(group);
    FilledGroup(group, x);
    EachSplits(before, group, after, holes, x);
    a, c := ReplaceEach(before, holes, value), ReplaceEach(after, holes, value);
    outer := Render(FillHoles(group, Elements(holes), value));
  }

  lemma EachLast(s: string, names: seq<string>, n: string, value: string -> string)
    ensures ReplaceEach(s, names + [n], value) == ReplaceAll(ReplaceEach(s, names, value), Placeholder(n), value(n))
  {
    assert (names + [n])[..|names|] == names;
  }

  lemma SwappedElements(names: seq<string>, n: string)
    ensures Elements(names + [n]) == Elements([n] + names)
  {}

  /** Filling the group first makes a placeholder of it, which comes too late if its name was tried before. */
  lemma GroupMakesOrderMatter(template: string)
    requires !GroupFree(template)
    ensures OrderMatters(template)
  {
    hide GroupFree, Render, WellFormed, OpenNames, ReplaceAll, ReplaceEach, HoleNames, Elements, BraceFree;
    var before, group, after := FindGroup(template);
    var x := Padding(|template| + 1);
    PaddingBraceFree(|template| + 1);
    var value, holes := (n: string) => x, HoleNames(group);
    assert template == before + ("{" + Render(group) + "}") + after;
    var a, outer, c := GroupFills(before, group, after, x);
    EachLast(template, holes, outer, value);
    LateIsDifferent(a, outer, c, x);
    TooLongIsAbsent(template, outer, x);
    EachFirst(template, outer, holes, value);
    SwappedElements(holes, outer);
    assert AllBraceFree(holes + [outer], value);
  }

  lemma LateIsDifferent(a: string, outer: string, c: string, x: string)
    requires BraceFree(outer) && |x| <= |outer|
    ensures ReplaceAll(a + Placeholder(outer) + c, Placeholder(outer), x) != a + Placeholder(outer) + c
  {
    hide ReplaceAll, BraceFree;
    var p := Placeholder(outer);
    ReplaceSplits(a + p, c, outer, x);
    ReplaceSplits(a, p, outer, x);
    ReplaceHit("", p, x);
    TooLongIsAbsent("", outer, x);
    assert p + "" == p && x + "" == x && |p| == |outer| + 2;
    ReplaceShortens(a, p, x);
    ReplaceShortens(c, p, x);
  }

  /** Exactly when the order of the parameters can matter: when the template has a group outside its placeholders. */
  lemma OrderMattersExactly(template: string)
    ensures OrderMatters(template) <==> !GroupFree(template)
  {
    if GroupFree(template) {
      forall names, others, value: string -> string
        | Elements(names) == Elements(others) && AllBraceFree(names, value)
        ensures ReplaceEach(template, names, value) == ReplaceEach(template, others, value)
      {
        OrderIrrelevant(template, names, others, value);
      }
    } else {
      GroupMakesOrderMatter(template);
    }
  }

  /** Balance is needed: with nested braces the order of the parameters decides what comes out. */
  lemma NestedBracesDependOnOrder()
    ensures var value := (n: string) => if n == "b" then "c" else "v";
            && ReplaceEach("{a{b}}", ["b", "ac"], value) == "v"
            && ReplaceEach("{a{b}}", ["ac", "b"], value) == "{ac}"
  {
    var value := (n: string) => if n == "b" then "c" else "v";
    var t := "{a{b}}";
    assert Placeholder("b") == "{b}" && Placeholder("ac") == "{ac}";
    ReplaceSkips("}", "", "{b}", "c");
    assert "}" + "" == "}";
    calc {
      ReplaceAll(t, "{b}", "c");
      { assert t[..3] == "{a{" && t[1..] == "a{b}}"; assert t[..3][1] != "{b}"[1]; }
      ['{'] + ReplaceAll("a{b}}", "{b}", "c");
      { ReplaceSkips("a", "{b}}", "{b}", "c"); assert "a" + "{b}}" == "a{b}}"; }
      ['{'] + ("a" + ReplaceAll("{b}}", "{b}", "c"));
      { ReplaceAtHole("b", "b", "}", "c"); assert Placeholder("b") + "}" == "{b}}"; }
      ['{'] + ("a" + ("c" + ReplaceAll("}", "{b}", "c")));
      "{ac}";
    }
    calc {
      ReplaceAll("{ac}", "{ac}", "v");
      { ReplaceAtHole("ac", "ac", "", "v"); assert Placeholder("ac") + "" == "{ac}"; }
      "v" + ReplaceAll("", "{ac}", "v");
      "v";
    }
    calc {
      ReplaceAll(t, "{ac}", "v");
      { assert t[..4] == "{a{b" && t[..4][2] != "{ac}"[2]; assert t[1..] == "a{b}}"; }
      ['{'] + ReplaceAll("a{b}}", "{ac}", "v");
      { ReplaceSkips("a", "{b}}", "{ac}", "v"); assert "a" + "{b}}" == "a{b}}"; }
      ['{'] + ("a" + ReplaceAll("{b}}", "{ac}", "v"));
      { ReplaceAtHole("b", "ac", "}", "v"); assert Placeholder("b") + "}" == "{b}}"; }
      ['{'] + ("a" + ("{b}" + ReplaceAll("}", "{ac}", "v")));
      t;
    }
    assert ["b", "ac"][..1] == ["b"] && ["ac", "b"][..1] == ["ac"];
    assert ["b"][..0] == [] && ["ac"][..0] == [];
    assert ReplaceEach(t, ["b"], value) == "{ac}" && ReplaceEach(t, ["ac"], value) == t;
  }
}
