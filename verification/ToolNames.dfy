/** Tool names derived from operation ids. */
module ToolNames {

  predicate Capital(c: char) {
    'A' <= c <= 'Z'
  }

  predicate Small(c: char) {
    'a' <= c <= 'z'
  }

  function Lower(c: char): char {
    if Capital(c) then c - 'A' + 'a' else c
  }

  function Raise(c: char): char {
    if Small(c) then c - 'a' + 'A' else c
  }

  /** Every capital becomes an underscore and the small letter, except that no underscore goes in front. */
  function Snake(s: string): string {
    if s == "" then ""
    else Snake(s[..|s| - 1]) + SnakeChar(s[|s| - 1], |s| > 1)
  }

  function SnakeChar(c: char, inside: bool): string {
    if Capital(c) then (if inside then "_" else "") + [Lower(c)] else [c]
  }

  method CamelToSnake(s: string) returns (b: string)
    ensures b == Snake(s)
  {
    b := "";
    for i := 0 to |s|
      invariant b == Snake(s[..i])
    {
      assert s[..i + 1][..i] == s[..i];
      if Capital(s[i]) {
        if i > 0 {
          b := b + "_";
        }
        b := b + [s[i] - 'A' + 'a'];
        continue;
      }
      b := b + [s[i]];
    }
    assert s[..|s|] == s;
  }

  lemma SnakeAppend(s: string, c: char)
    ensures Snake(s + [c]) == Snake(s) + SnakeChar(c, s != "")
  {
    assert (s + [c])[..|s|] == s;
  }

  predicate NoCapital(s: string) {
    forall i :: 0 <= i < |s| ==> !Capital(s[i])
  }

  lemma SnakeCharHasNoCapital(c: char, inside: bool)
    ensures NoCapital(SnakeChar(c, inside))
  {}

  lemma {:induction false} SnakeHasNoCapital(s: string)
    ensures NoCapital(Snake(s))
  {
    if s != "" {
      var init, c := s[..|s| - 1], s[|s| - 1];
      SnakeHasNoCapital(init);
      SnakeAppend(init, c);
      SnakeCharHasNoCapital(c, init != "");
      hide Snake, SnakeChar, Capital;
      assert s == init + [c];
    }
  }

  lemma {:induction false} SnakeOfNoCapital(s: string)
    requires NoCapital(s)
    ensures Snake(s) == s
  {
    if s != "" {
      var init, c := s[..|s| - 1], s[|s| - 1];
      SnakeOfNoCapital(init);
      SnakeAppend(init, c);
      hide Snake;
      assert s == init + [c];
    }
  }

  /** Names that are already in snake case are left alone; so converting twice is converting once. */
  lemma SnakeIdempotent(s: string)
    ensures Snake(Snake(s)) == Snake(s)
  {
    SnakeHasNoCapital(s);
    SnakeOfNoCapital(Snake(s));
  }

  /** Undoes the conversion: an underscore stands for the capital of the letter after it. */
  function Camel(s: string): string
    decreases |s|
  {
    if s == "" then ""
    else if |s| >= 2 && s[|s| - 2] == '_' then Camel(s[..|s| - 2]) + [Raise(s[|s| - 1])]
    else Camel(s[..|s| - 1]) + [s[|s| - 1]]
  }

  /** Operation ids without underscore that do not start with a capital. */
  predicate CamelId(s: string) {
    '_' !in s && (s != "" ==> !Capital(s[0]))
  }

  lemma SnakeEndsInLetter(s: string)
    requires '_' !in s && s != ""
    ensures Snake(s) != "" && Snake(s)[|Snake(s)| - 1] != '_'
  {
    var init, c := s[..|s| - 1], s[|s| - 1];
    hide Snake;
    assert s == init + [c] && c != '_';
    SnakeAppend(init, c);
  }

  lemma CamelOfPair(s: string, c: char)
    ensures Camel(s + ['_', c]) == Camel(s) + [Raise(c)]
  {
    assert (s + ['_', c])[..|s|] == s;
  }

  lemma CamelOfOther(s: string, c: char)
    requires s != "" ==> s[|s| - 1] != '_'
    ensures Camel(s + [c]) == Camel(s) + [c]
  {
    assert (s + [c])[..|s|] == s;
  }

  lemma RaiseLower(c: char)
    requires Capital(c)
    ensures Raise(Lower(c)) == c
  {}

  lemma CamelOfCapital(init: string, c: char)
    requires init != "" && Capital(c)
    requires Camel(Snake(init)) == init
    ensures Camel(Snake(init + [c])) == init + [c]
  {
    hide Camel, Snake, Lower, Raise;
    SnakeAppend(init, c);
    assert SnakeChar(c, true) == ['_', Lower(c)];
    CamelOfPair(Snake(init), Lower(c));
    RaiseLower(c);
  }

  lemma CamelOfPlain(init: string, c: char)
    requires '_' !in init && !Capital(c)
    requires Camel(Snake(init)) == init
    ensures Camel(Snake(init + [c])) == init + [c]
  {
    hide Camel, Snake;
    SnakeAppend(init, c);
    if init == "" {
      SnakeOfNoCapital(init);
    } else {
      SnakeEndsInLetter(init);
    }
    CamelOfOther(Snake(init), c);
  }

  lemma CamelOfNextChar(init: string, c: char)
    requires '_' !in init && (init == "" ==> !Capital(c))
    requires Camel(Snake(init)) == init
    ensures Camel(Snake(init + [c])) == init + [c]
  {
    if Capital(c) {
      CamelOfCapital(init, c);
    } else {
      CamelOfPlain(init, c);
    }
  }

  /** On such ids the conversion loses nothing. */
  lemma {:induction false} CamelOfSnake(s: string)
    requires CamelId(s)
    ensures Camel(Snake(s)) == s
  {
    if s != "" {
      var init := s[..|s| - 1];
      assert s == init + [s[|s| - 1]];
      assert init != "" ==> init[0] == s[0];
      CamelOfSnake(init);
      hide Camel, Snake;
      CamelOfNextChar(init, s[|s| - 1]);
    }
  }

  /** So distinct ids of this kind become distinct tools. */
  lemma SnakeInjective(s: string, t: string)
    requires CamelId(s) && CamelId(t) && Snake(s) == Snake(t)
    ensures s == t
  {
    CamelOfSnake(s);
    CamelOfSnake(t);
  }

  lemma {:induction false} SnakeSuffix(s: string, t: string, suffix: string)
    requires s != "" && t != "" && Snake(s) == Snake(t)
    ensures Snake(s + suffix) == Snake(t + suffix)
    decreases |suffix|
  {
    hide Snake;
    if suffix == "" {
      assert s + suffix == s && t + suffix == t;
    } else {
      var c, rest := suffix[0], suffix[1..];
      SnakeAppend(s, c);
      SnakeAppend(t, c);
      SnakeSuffix(s + [c], t + [c], rest);
      assert suffix == [c] + rest;
      assert s + suffix == s + [c] + rest && t + suffix == t + [c] + rest;
    }
  }

  /**
   Both conditions are needed: a capital past the start collides with the underscore form of itself, and a leading
   capital with its small letter, whatever surrounds them.
   */
  lemma OtherIdsCollide(prefix: string, c: char, suffix: string)
    requires Capital(c)
    ensures Snake([c] + suffix) == Snake([Lower(c)] + suffix)
    ensures prefix != "" ==> Snake(prefix + [c] + suffix) == Snake(prefix + ['_', Lower(c)] + suffix)
  {
    LeadingCapital(c);
    SnakeSuffix([c], [Lower(c)], suffix);
    if prefix != "" {
      InnerCapital(prefix, c);
      SnakeSuffix(prefix + [c], prefix + ['_', Lower(c)], suffix);
    }
  }

  lemma LeadingCapital(c: char)
    requires Capital(c)
    ensures Snake([c]) == Snake([Lower(c)])
  {
    SnakeAppend("", c);
    SnakeAppend("", Lower(c));
    assert "" + [c] == [c] && "" + [Lower(c)] == [Lower(c)];
  }

  lemma InnerCapital(prefix: string, c: char)
    requires prefix != "" && Capital(c)
    ensures Snake(prefix + [c]) == Snake(prefix + ['_', Lower(c)])
  {
    var under := prefix + ['_'];
    SnakeAppend(prefix, c);
    SnakeAppend(prefix, '_');
    SnakeAppend(under, Lower(c));
    hide Snake;
    assert SnakeChar(c, true) == ['_', Lower(c)] && SnakeChar('_', true) == ['_'];
    assert SnakeChar(Lower(c), true) == [Lower(c)];
    assert prefix + ['_', Lower(c)] == under + [Lower(c)];
    assert Snake(prefix) + ['_', Lower(c)] == Snake(prefix) + ['_'] + [Lower(c)];
  }

  // ---- Exactly which ids share a name --------------------------------------------------------

  predicate Letter(c: char) {
    Capital(c) || Small(c)
  }

  /** Past the start: a capital, or an underscore in front of a small letter. */
  predicate CapitalForm(s: string, i: nat)
    requires i < |s|
  {
    i > 0 && (Capital(s[i]) || (s[i] == '_' && i + 1 < |s| && Small(s[i + 1])))
  }

  /** The id begins with a letter, or has a capital in one form or the other further on. */
  predicate Ambiguous(s: string) {
    (s != "" && Letter(s[0])) || exists i :: 0 <= i < |s| && CapitalForm(s, i)
  }

  ghost predicate HasTwin(s: string) {
    exists t :: t != s && Snake(t) == Snake(s)
  }

  /** Ids without capitals are never confused with one another, underscores or not. */
  lemma CapitalFreeIdsDistinct(s: string, t: string)
    requires NoCapital(s) && NoCapital(t)
    ensures Snake(s) == Snake(t) <==> s == t
  {
    SnakeOfNoCapital(s);
    SnakeOfNoCapital(t);
  }

  lemma FirstLetterTwin(s: string)
    requires s != "" && Letter(s[0])
    ensures HasTwin(s)
  {
    hide Snake;
    var c := Raise(s[0]);
    assert s == [s[0]] + s[1..];
    OtherIdsCollide("", c, s[1..]);
    var t := [if Capital(s[0]) then Lower(s[0]) else c] + s[1..];
    assert t[0] != s[0];
    assert Snake(t) == Snake(s);
  }

  lemma InnerCapitalTwin(s: string, i: nat)
    requires 0 < i < |s| && Capital(s[i])
    ensures HasTwin(s)
  {
    hide Snake;
    assert s == s[..i] + [s[i]] + s[i + 1..];
    var t := s[..i] + ['_', Lower(s[i])] + s[i + 1..];
    OtherIdsCollide(s[..i], s[i], s[i + 1..]);
    assert |t| == |s| + 1;
  }

  lemma UnderscoreTwin(s: string, i: nat)
    requires 0 < i && i + 1 < |s| && s[i] == '_' && Small(s[i + 1])
    ensures HasTwin(s)
  {
    hide Snake;
    var c := Raise(s[i + 1]);
    assert s == s[..i] + ['_', Lower(c)] + s[i + 2..];
    var t := s[..i] + [c] + s[i + 2..];
    OtherIdsCollide(s[..i], c, s[i + 2..]);
    assert |t| == |s| - 1;
  }

  lemma {:induction false} SnakePrefix(t: string, i: nat)
    requires i <= |t|
    ensures Snake(t[..i]) <= Snake(t)
    ensures i > 0 ==> Snake(t[..i]) != ""
    decreases |t|
  {
    if i == |t| {
      assert t[..i] == t;
      if i > 0 {
        SnakeAppend(t[..i - 1], t[i - 1]);
        assert t == t[..i - 1] + [t[i - 1]];
      }
    } else {
      var init := t[..|t| - 1];
      SnakePrefix(init, i);
      assert init[..i] == t[..i];
    }
  }

  /** What a capital at position `i` leaves in the snake form. */
  lemma CapitalShows(t: string, i: nat)
    requires i < |t| && Capital(t[i])
    ensures Ambiguous(Snake(t))
  {
    hide Snake;
    var before := Snake(t[..i]);
    SnakePrefix(t, i);
    SnakePrefix(t, i + 1);
    assert t[..i + 1] == t[..i] + [t[i]];
    SnakeAppend(t[..i], t[i]);
    var r := Snake(t);
    var shown := SnakeChar(t[i], t[..i] != "");
    assert before + shown <= r;
    if i == 0 {
      SnakeOfNoCapital("");
      assert t[..0] == "" && before == "";
      assert r[0] == Lower(t[0]);
    } else {
      assert shown == ['_', Lower(t[i])];
      assert r[|before|] == '_' && r[|before| + 1] == Lower(t[i]);
      assert CapitalForm(r, |before|);
    }
  }

  /** Exactly which ids share their tool name with another id. */
  lemma TwinsExactly(s: string)
    ensures HasTwin(s) <==> Ambiguous(s)
  {
    hide Snake;
    if Ambiguous(s) {
      if s != "" && Letter(s[0]) {
        FirstLetterTwin(s);
      } else {
        var i :| 0 <= i < |s| && CapitalForm(s, i);
        if Capital(s[i]) {
          InnerCapitalTwin(s, i);
        } else {
          UnderscoreTwin(s, i);
        }
      }
    } else {
      assert NoCapital(s) by {
        forall i | 0 <= i < |s| ensures !Capital(s[i]) {
          assert i > 0 ==> !CapitalForm(s, i);
        }
      }
      SnakeOfNoCapital(s);
      forall t | Snake(t) == Snake(s) ensures t == s {
        forall i | 0 <= i < |t| ensures !Capital(t[i]) {
          if Capital(t[i]) {
            CapitalShows(t, i);
          }
        }
        CapitalFreeIdsDistinct(s, t);
      }
    }
  }

  // ---- Tool names ---------------------------------------------------------------------------

  /** `strings.NewReplacer` with a slash becoming an underscore and braces vanishing. */
  function Replaced(path: string): string {
    if path == "" then ""
    else
      (if path[0] == '/' then "_" else if path[0] == '{' || path[0] == '}' then "" else [path[0]]) + Replaced(path[1..])
  }

  function TrimLeft(s: string): string {
    if s != "" && s[0] == '_' then TrimLeft(s[1..]) else s
  }

  function TrimRight(s: string): string {
    if s != "" && s[|s| - 1] == '_' then TrimRight(s[..|s| - 1]) else s
  }

  function Slug(path: string): string {
    TrimRight(TrimLeft(Replaced(path)))
  }

  function LowerAll(s: string): string {
    seq(|s|, i requires 0 <= i < |s| => Lower(s[i]))
  }

  function ToolName(opID: string, verb: string, path: string): string {
    if opID != "" then Snake(opID) else LowerAll(verb) + "_" + Slug(path)
  }

  /** Operations with ids of the camel kind get the same name only if their ids are the same. */
  lemma CamelToolsDistinct(opID: string, verb: string, path: string, otherID: string, otherVerb: string,
      otherPath: string)
    requires CamelId(opID) && CamelId(otherID) && opID != "" && otherID != ""
    ensures ToolName(opID, verb, path) == ToolName(otherID, otherVerb, otherPath) <==> opID == otherID
  {
    if Snake(opID) == Snake(otherID) {
      SnakeInjective(opID, otherID);
    }
  }

  predicate SlugChars(s: string) {
    '/' !in s && '{' !in s && '}' !in s
  }

  lemma {:induction false} ReplacedChars(path: string)
    ensures SlugChars(Replaced(path))
  {
    if path != "" {
      ReplacedChars(path[1..]);
    }
  }

  lemma {:induction false} TrimLeftShape(s: string)
    ensures SlugChars(s) ==> SlugChars(TrimLeft(s))
    ensures TrimLeft(s) != "" ==> TrimLeft(s)[0] != '_'
  {
    if s != "" && s[0] == '_' {
      TrimLeftShape(s[1..]);
    }
  }

  lemma {:induction false} TrimRightShape(s: string)
    ensures SlugChars(s) ==> SlugChars(TrimRight(s))
    ensures TrimRight(s) <= s && (TrimRight(s) != "" ==> TrimRight(s)[|TrimRight(s)| - 1] != '_')
  {
    if s != "" && s[|s| - 1] == '_' {
      TrimRightShape(s[..|s| - 1]);
    }
  }

  /** A slug is free of slashes and braces and has no underscore at either end. */
  lemma SlugShape(path: string)
    ensures SlugChars(Slug(path))
    ensures Slug(path) != "" ==> Slug(path)[0] != '_' && Slug(path)[|Slug(path)| - 1] != '_'
  {
    ReplacedChars(path);
    TrimLeftShape(Replaced(path));
    TrimRightShape(TrimLeft(Replaced(path)));
  }

  function WithoutBraces(path: string): string {
    if path == "" then ""
    else (if path[0] == '{' || path[0] == '}' then "" else [path[0]]) + WithoutBraces(path[1..])
  }

  lemma {:induction false} ReplacedIgnoresBraces(path: string)
    ensures Replaced(WithoutBraces(path)) == Replaced(path)
  {
    if path != "" {
      var rest := WithoutBraces(path[1..]);
      ReplacedIgnoresBraces(path[1..]);
      if path[0] == '{' || path[0] == '}' {
        assert WithoutBraces(path) == rest;
      } else {
        assert WithoutBraces(path) == [path[0]] + rest;
      }
    }
  }

  /**
   Without an id, routes of one method that differ in braces only share a name: a fixed segment and a parameter collide.
   */
  lemma BracesCollide(verb: string, path: string, other: string)
    requires WithoutBraces(path) == WithoutBraces(other)
    ensures ToolName("", verb, path) == ToolName("", verb, other)
  {
    ReplacedIgnoresBraces(path);
    ReplacedIgnoresBraces(other);
  }

  predicate Separator(c: char) {
    c == '/' || c == '_'
  }

  predicate AllSeparators(s: string) {
    forall i :: 0 <= i < |s| ==> Separator(s[i])
  }

  /** Equal up to a slash standing where the other has an underscore. */
  predicate Alike(s: string, t: string) {
    |s| == |t| && forall i :: 0 <= i < |s| ==> s[i] == t[i] || (Separator(s[i]) && Separator(t[i]))
  }

  /**
   Without their braces and without slashes and underscores at either end, the two paths are equal up to slashes
   standing for underscores.
   */
  ghost predicate SameRoute(path: string, other: string) {
    exists a, s, b, c, t, d ::
      && AllSeparators(a) && AllSeparators(b) && AllSeparators(c) && AllSeparators(d) && Alike(s, t)
      && WithoutBraces(path) == a + s + b && WithoutBraces(other) == c + t + d
  }

  predicate NoBraces(s: string) {
    '{' !in s && '}' !in s
  }

  function Underscored(s: string): string {
    seq(|s|, i requires 0 <= i < |s| => if s[i] == '/' then '_' else s[i])
  }

  lemma {:induction false} ReplacedIsUnderscored(path: string)
    ensures Replaced(path) == Underscored(WithoutBraces(path)) && NoBraces(WithoutBraces(path))
  {
    if path != "" {
      ReplacedIsUnderscored(path[1..]);
    }
  }

  predicate AllUnderscores(s: string) {
    forall i :: 0 <= i < |s| ==> s[i] == '_'
  }

  lemma {:induction false} TrimLeftSplits(s: string) returns (a: string)
    ensures s == a + TrimLeft(s) && AllUnderscores(a)
  {
    if s != "" && s[0] == '_' {
      a := TrimLeftSplits(s[1..]);
      a := "_" + a;
    } else {
      a := "";
    }
  }

  lemma {:induction false} TrimRightSplits(s: string) returns (b: string)
    ensures s == TrimRight(s) + b && AllUnderscores(b)
  {
    if s != "" && s[|s| - 1] == '_' {
      b := TrimRightSplits(s[..|s| - 1]);
      b := b + "_";
    } else {
      b := "";
    }
  }

  lemma {:induction false} TrimLeftSkips(a: string, s: string)
    requires AllUnderscores(a)
    ensures TrimLeft(a + s) == TrimLeft(s)
  {
    if a == "" {
      assert a + s == s;
    } else {
      assert (a + s)[1..] == a[1..] + s;
      TrimLeftSkips(a[1..], s);
    }
  }

  lemma {:induction false} TrimRightSkips(s: string, b: string)
    requires AllUnderscores(b)
    ensures TrimRight(s + b) == TrimRight(s)
  {
    if b == "" {
      assert s + b == s;
    } else {
      var init := b[..|b| - 1];
      assert (s + b)[..|s + b| - 1] == s + init;
      TrimRightSkips(s, init);
    }
  }

  lemma {:induction false} TrimLeftOfAll(s: string)
    requires AllUnderscores(s)
    ensures TrimLeft(s) == ""
  {
    if s != "" {
      TrimLeftOfAll(s[1..]);
    }
  }

  /** Underscores at the end do not matter to trimming, wherever they end up. */
  lemma {:induction false} TrimSkips(s: string, b: string)
    requires AllUnderscores(b)
    ensures TrimRight(TrimLeft(s + b)) == TrimRight(TrimLeft(s))
  {
    if s == "" {
      assert s + b == b;
      TrimLeftOfAll(b);
    } else if s[0] == '_' {
      assert (s + b)[1..] == s[1..] + b;
      TrimSkips(s[1..], b);
    } else {
      TrimRightSkips(s, b);
    }
  }

  lemma UnderscoredParts(a: string, s: string, b: string)
    requires AllSeparators(a) && AllSeparators(b)
    ensures Underscored(a + s + b) == Underscored(a) + Underscored(s) + Underscored(b)
    ensures AllUnderscores(Underscored(a)) && AllUnderscores(Underscored(b))
  {}

  lemma CoreDecides(path: string, a: string, s: string, b: string)
    requires AllSeparators(a) && AllSeparators(b) && WithoutBraces(path) == a + s + b
    ensures Slug(path) == TrimRight(TrimLeft(Underscored(s)))
  {
    hide Underscored, AllUnderscores, WithoutBraces, Replaced;
    ReplacedIsUnderscored(path);
    UnderscoredParts(a, s, b);
    var u, v, w := Underscored(a), Underscored(s), Underscored(b);
    assert u + v + w == u + (v + w);
    TrimLeftSkips(u, v + w);
    TrimSkips(v, w);
  }

  lemma UnderscoredSlice(w: string, k: nat, m: nat)
    requires k <= m <= |w|
    ensures |Underscored(w)| == |w| && Underscored(w[k..m]) == Underscored(w)[k..m]
  {}

  lemma SeparatorsOf(s: string)
    requires AllUnderscores(Underscored(s))
    ensures AllSeparators(s)
  {
    assert forall i :: 0 <= i < |s| ==> Underscored(s)[i] == if s[i] == '/' then '_' else s[i];
  }

  lemma CutInThree(w: string, x: string, y: string, z: string) returns (a: string, s: string, b: string)
    requires Underscored(w) == x + (y + z)
    ensures w == a + s + b && Underscored(a) == x && Underscored(s) == y && Underscored(b) == z
  {
    hide Underscored;
    UnderscoredSlice(w, 0, 0);
    var k, m := |x|, |x| + |y|;
    a, s, b := w[0..k], w[k..m], w[m..|w|];
    assert w == a + s + b;
    UnderscoredSlice(w, 0, k);
    UnderscoredSlice(w, k, m);
    UnderscoredSlice(w, m, |w|);
  }

  /** Where the slug sits in the path. */
  lemma SlugSplits(path: string) returns (a: string, s: string, b: string)
    ensures WithoutBraces(path) == a + s + b && AllSeparators(a) && AllSeparators(b) && Underscored(s) == Slug(path)
  {
    hide WithoutBraces, Replaced, TrimLeft, TrimRight, Underscored, AllUnderscores, AllSeparators;
    ReplacedIsUnderscored(path);
    var u := TrimLeftSplits(Replaced(path));
    var v := TrimRightSplits(TrimLeft(Replaced(path)));
    a, s, b := CutInThree(WithoutBraces(path), u, Slug(path), v);
    SeparatorsOf(a);
    SeparatorsOf(b);
  }

  lemma AlikeUnderscored(s: string, t: string)
    ensures Alike(s, t) <==> Underscored(s) == Underscored(t)
  {
    if Underscored(s) == Underscored(t) {
      assert |s| == |Underscored(s)| && |t| == |Underscored(t)|;
      forall i | 0 <= i < |s| ensures s[i] == t[i] || (Separator(s[i]) && Separator(t[i])) {
        assert Underscored(s)[i] == Underscored(t)[i];
      }
    }
  }

  lemma SlugsCollideExactly(path: string, other: string)
    ensures Slug(path) == Slug(other) <==> SameRoute(path, other)
  {
    hide Slug, Underscored, Alike, AllSeparators, WithoutBraces;
    if Slug(path) == Slug(other) {
      var a, s, b := SlugSplits(path);
      var c, t, d := SlugSplits(other);
      AlikeUnderscored(s, t);
    }
    if SameRoute(path, other) {
      var a, s, b, c, t, d :|
        && AllSeparators(a) && AllSeparators(b) && AllSeparators(c) && AllSeparators(d) && Alike(s, t)
        && WithoutBraces(path) == a + s + b && WithoutBraces(other) == c + t + d;
      AlikeUnderscored(s, t);
      CoreDecides(path, a, s, b);
      CoreDecides(other, c, t, d);
    }
  }

  /** Exactly when two operations without ids share a tool name; HTTP methods contain no underscore. */
  lemma SlugToolsCollideExactly(verb: string, path: string, otherVerb: string, otherPath: string)
    requires '_' !in verb && '_' !in otherVerb
    ensures ToolName("", verb, path) == ToolName("", otherVerb, otherPath) <==>
            LowerAll(verb) == LowerAll(otherVerb) && SameRoute(path, otherPath)
  {
    hide Slug, SameRoute;
    SlugsCollideExactly(path, otherPath);
    var v, w := LowerAll(verb), LowerAll(otherVerb);
    assert '_' !in v && '_' !in w;
    if v + "_" + Slug(path) == w + "_" + Slug(otherPath) {
      CutAtUnderscore(v, Slug(path), w, Slug(otherPath));
    }
  }

  lemma {:induction false} CutAtUnderscore(v: string, x: string, w: string, y: string)
    requires '_' !in v && '_' !in w && v + "_" + x == w + "_" + y
    ensures v == w && x == y
  {
    var s, t := v + "_" + x, w + "_" + y;
    assert s[0] == (if v == "" then '_' else v[0]) && t[0] == (if w == "" then '_' else w[0]);
    if v == "" {
      assert s[1..] == x && t[1..] == y;
    } else {
      assert s[1..] == v[1..] + "_" + x && t[1..] == w[1..] + "_" + y;
      CutAtUnderscore(v[1..], x, w[1..], y);
    }
  }

  // ---- Operations with an id and operations without ---------------------------------------------

  /** One capital spelled out: a leading one as its small letter, another one with an underscore in front. */
  predicate SpelledOutAt(s: string, t: string, i: nat)
    requires i < |s|
  {
    Capital(s[i]) && t == s[..i] + SnakeChar(s[i], i > 0) + s[i + 1..]
  }

  ghost predicate SpelledOut(s: string, t: string) {
    exists i: nat :: i < |s| && SpelledOutAt(s, t, i)
  }

  /** From `s` one gets to `t` by spelling out capitals, one at a time, in the order of `path`. */
  ghost predicate SpellingPath(path: seq<string>, s: string, t: string) {
    && path != [] && path[0] == s && path[|path| - 1] == t
    && forall k :: 0 <= k < |path| - 1 ==> SpelledOut(path[k], path[k + 1])
  }

  ghost predicate SpellsOutTo(s: string, t: string) {
    exists path :: SpellingPath(path, s, t)
  }

  lemma SpellingKeepsSnake(s: string, t: string)
    requires SpelledOut(s, t)
    ensures Snake(s) == Snake(t)
  {
    hide Snake;
    var i: nat :| i < |s| && SpelledOutAt(s, t, i);
    OtherIdsCollide(s[..i], s[i], s[i + 1..]);
    if i == 0 {
      assert s == [s[0]] + s[1..] && t == [Lower(s[0])] + s[1..];
    } else {
      assert s == s[..i] + [s[i]] + s[i + 1..] && t == s[..i] + ['_', Lower(s[i])] + s[i + 1..];
    }
  }

  lemma {:induction false} PathKeepsSnake(path: seq<string>, s: string, t: string)
    requires SpellingPath(path, s, t)
    ensures Snake(s) == Snake(t)
    decreases |path|
  {
    hide Snake, SpelledOut;
    if |path| > 1 {
      var rest := path[1..];
      assert forall k :: 0 <= k < |rest| ==> rest[k] == path[k + 1];
      SpellingKeepsSnake(path[0], path[1]);
      PathKeepsSnake(rest, path[1], t);
    }
  }

  function Capitals(s: string): nat {
    if s == "" then 0 else (if Capital(s[0]) then 1 else 0) + Capitals(s[1..])
  }

  lemma {:induction false} CapitalsAppend(a: string, b: string)
    ensures Capitals(a + b) == Capitals(a) + Capitals(b)
  {
    if a == "" {
      assert a + b == b;
    } else {
      assert (a + b)[1..] == a[1..] + b;
      CapitalsAppend(a[1..], b);
    }
  }

  lemma OneCapitalLess(s: string, t: string, i: nat)
    requires i < |s| && SpelledOutAt(s, t, i)
    ensures Capitals(t) == Capitals(s) - 1
  {
    hide Capitals;
    var shown := SnakeChar(s[i], i > 0);
    assert s == s[..i] + ([s[i]] + s[i + 1..]) && t == s[..i] + (shown + s[i + 1..]);
    CapitalsAppend(s[..i], [s[i]] + s[i + 1..]);
    CapitalsAppend(s[..i], shown + s[i + 1..]);
    CapitalsAppend([s[i]], s[i + 1..]);
    CapitalsAppend(shown, s[i + 1..]);
    ShownCapitals(s[i], i > 0);
  }

  lemma ShownCapitals(c: char, inside: bool)
    requires Capital(c)
    ensures Capitals([c]) == 1 && Capitals(SnakeChar(c, inside)) == 0
  {
    assert [c][1..] == "";
    assert [Lower(c)][1..] == "" && ("_" + [Lower(c)])[1..] == [Lower(c)];
    assert "" + [Lower(c)] == [Lower(c)];
  }

  /** Spelling out all capitals leads to the tool name. */
  lemma {:induction false} SpellsOutToSnake(s: string)
    ensures SpellsOutTo(s, Snake(s))
    decreases Capitals(s)
  {
    hide Snake, Capitals;
    if NoCapital(s) {
      SnakeOfNoCapital(s);
      assert SpellingPath([s], s, Snake(s));
    } else {
      var i: nat :| i < |s| && Capital(s[i]);
      var t := s[..i] + SnakeChar(s[i], i > 0) + s[i + 1..];
      OneCapitalLess(s, t, i);
      SpellsOutToSnake(t);
      assert SpelledOutAt(s, t, i);
      SpellingKeepsSnake(s, t);
      PathOneMore(s, t, Snake(t));
    }
  }

  lemma PathOneMore(s: string, t: string, u: string)
    requires SpelledOut(s, t) && SpellsOutTo(t, u)
    ensures SpellsOutTo(s, u)
  {
    hide SpelledOut;
    var path :| SpellingPath(path, t, u);
    assert SpellingPath([s] + path, s, u);
  }

  /**
   Exactly when an operation with an id and one without share a tool name: when the slug has no capital and the id leads
   to the method and slug by spelling out its capitals.
   */
  lemma MixedToolsCollideExactly(opID: string, verb: string, path: string, otherVerb: string, otherPath: string)
    requires opID != ""
    ensures ToolName(opID, verb, path) == ToolName("", otherVerb, otherPath) <==>
            NoCapital(Slug(otherPath)) && SpellsOutTo(opID, ToolName("", otherVerb, otherPath))
  {
    hide Snake, Slug, SpellingPath;
    var name := ToolName("", otherVerb, otherPath);
    NameCapitals(otherVerb, Slug(otherPath));
    SnakeHasNoCapital(opID);
    SpellsOutToSnake(opID);
    if NoCapital(name) && SpellsOutTo(opID, name) {
      var steps :| SpellingPath(steps, opID, name);
      PathKeepsSnake(steps, opID, name);
      SnakeOfNoCapital(name);
    }
  }

  lemma NameCapitals(verb: string, slug: string)
    ensures NoCapital(LowerAll(verb) + "_" + slug) <==> NoCapital(slug)
  {
    var before := LowerAll(verb) + "_";
    assert NoCapital(before);
    assert forall i :: 0 <= i < |slug| ==> (before + slug)[|before| + i] == slug[i];
  }
}
