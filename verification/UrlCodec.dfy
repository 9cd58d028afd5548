/**
 Percent-encoding and query encoding as in Go's net/url (RFC 3986 sections 2.1 and 3.3). A Go string is a sequence of
 bytes: here each character stands for one byte, which `IsBytes` says.
 */
module UrlCodec {
  import opened Options
  import opened UrlValues
  import opened Enumerations
  import Callback

  predicate IsBytes(s: string) {
    forall i :: 0 <= i < |s| ==> s[i] as int < 256
  }

  datatype Mode = PathSegment | QueryComponent

  predicate Unreserved(c: char) {
    'a' <= c <= 'z' || 'A' <= c <= 'Z' || '0' <= c <= '9' || c == '-' || c == '_' || c == '.' || c == '~'
  }

  predicate KeptInPath(c: char) {
    c == '$' || c == '&' || c == '+' || c == ':' || c == '=' || c == '@'
  }

  predicate ShouldEscape(c: char, mode: Mode) {
    !Unreserved(c) && !(mode == PathSegment && KeptInPath(c))
  }

  function HexDigit(d: int): char
    requires 0 <= d < 16
  {
    if d < 10 then '0' + d as char else 'A' + (d - 10) as char
  }

  function HexValue(c: char): Option<int> {
    if '0' <= c <= '9' then Some(c as int - '0' as int)
    else if 'a' <= c <= 'f' then Some(c as int - 'a' as int + 10)
    else if 'A' <= c <= 'F' then Some(c as int - 'A' as int + 10)
    else None
  }

  function EscapeChar(c: char, mode: Mode): string {
    if mode == QueryComponent && c == ' ' then "+"
    else if ShouldEscape(c, mode) then ['%', HexDigit(c as int / 16 % 16), HexDigit(c as int % 16)]
    else [c]
  }

  /** `url.PathEscape` and `url.QueryEscape` */
  function Escape(s: string, mode: Mode): string {
    if s == "" then "" else EscapeChar(s[0], mode) + Escape(s[1..], mode)
  }

  function Prepend(c: char, rest: Option<string>): Option<string> {
    if rest.Some? then Some([c] + rest.value) else None
  }

  /** `url.PathUnescape` and `url.QueryUnescape`; None is an invalid escape. */
  function Unescape(s: string, mode: Mode): Option<string> {
    if s == "" then Some("")
    else if s[0] == '%' then
      if |s| < 3 || HexValue(s[1]).None? || HexValue(s[2]).None? then None
      else Prepend((16 * HexValue(s[1]).value + HexValue(s[2]).value) as char, Unescape(s[3..], mode))
    else if s[0] == '+' && mode == QueryComponent then Prepend(' ', Unescape(s[1..], mode))
    else Prepend(s[0], Unescape(s[1..], mode))
  }

  lemma UnescapeFirst(c: char, rest: string, mode: Mode)
    requires c as int < 256
    ensures Unescape(EscapeChar(c, mode) + rest, mode) == Prepend(c, Unescape(rest, mode))
  {
    var e := EscapeChar(c, mode);
    assert (e + rest)[|e|..] == rest;
    if |e| == 3 {
      var n := c as int;
      assert (e + rest)[1] == e[1] && (e + rest)[2] == e[2];
      assert HexValue(e[1]) == Some(n / 16) && HexValue(e[2]) == Some(n % 16);
      assert 16 * (n / 16) + n % 16 == n;
    }
  }

  /** Unescaping gives back what was escaped, in either mode. */
  lemma {:induction false} EscapeRoundTrip(s: string, mode: Mode)
    requires IsBytes(s)
    ensures Unescape(Escape(s, mode), mode) == Some(s)
  {
    if s != "" {
      EscapeRoundTrip(s[1..], mode);
      UnescapeFirst(s[0], Escape(s[1..], mode), mode);
      assert [s[0]] + s[1..] == s;
    }
  }

  /** The characters an escaped string is made of. */
  predicate Plain(c: char, mode: Mode) {
    Unreserved(c) || c == '%' || (if mode == PathSegment then KeptInPath(c) else c == '+')
  }

  predicate AllPlain(s: string, mode: Mode) {
    forall i :: 0 <= i < |s| ==> Plain(s[i], mode)
  }

  /**
   Escaped values contain no brace, slash, question mark, hash, semicolon or space; in a query, also no `&` or `=`.
   */
  lemma {:induction false} EscapedIsPlain(s: string, mode: Mode)
    ensures AllPlain(Escape(s, mode), mode)
  {
    if s != "" {
      EscapedIsPlain(s[1..], mode);
    }
  }

  /**
   Which bytes are left as they are, and how the others look: two capital hexadecimal digits, or a plus for a space.
   */
  lemma EscapedForm(c: char, mode: Mode)
    requires c as int < 256
    ensures EscapeChar(c, mode) == [c] <==>
            || 'a' <= c <= 'z' || 'A' <= c <= 'Z' || '0' <= c <= '9' || c in "-_.~"
            || (mode == PathSegment && c in "$&+:=@")
    ensures mode == QueryComponent ==> EscapeChar(' ', mode) == "+"
    ensures EscapeChar(c, mode) != [c] && !(mode == QueryComponent && c == ' ') ==>
              var e := EscapeChar(c, mode);
              |e| == 3 && e[0] == '%' && e[1] == HEX[c as int / 16] && e[2] == HEX[c as int % 16]
  {
    assert "-_.~"[0] == '-' && "-_.~"[1] == '_' && "-_.~"[2] == '.' && "-_.~"[3] == '~';
    assert "$&+:=@"[0] == '$' && "$&+:=@"[1] == '&' && "$&+:=@"[2] == '+';
    assert "$&+:=@"[3] == ':' && "$&+:=@"[4] == '=' && "$&+:=@"[5] == '@';
  }

  const HEX := "0123456789ABCDEF"

  // ---- Query strings ------------------------------------------------------------------------

  /** `strings.Cut` at a character: what is before its first occurrence, and what is after. */
  function Cut(s: string, sep: char): (r: (string, string))
    ensures s != "" ==> |r.1| < |s|
  {
    if s == "" then ("", "")
    else if s[0] == sep then ("", s[1..])
    else
      var r := Cut(s[1..], sep);
      ([s[0]] + r.0, r.1)
  }

  lemma {:induction false} CutAtFirst(a: string, sep: char, b: string)
    requires sep !in a
    ensures Cut(a + [sep] + b, sep) == (a, b)
    ensures Cut(a, sep) == (a, "")
  {
    if a != "" {
      CutAtFirst(a[1..], sep, b);
      assert (a + [sep] + b)[1..] == a[1..] + [sep] + b;
      assert [a[0]] + a[1..] == a;
    } else {
      assert (a + [sep] + b)[1..] == b;
    }
  }

  /** One `key=value` piece of a query; malformed pieces are dropped. */
  function AddPiece(acc: Values, piece: string): Values {
    if piece == "" || ';' in piece then acc
    else
      var (rawKey, rawValue) := Cut(piece, '=');
      var key, value := Unescape(rawKey, QueryComponent), Unescape(rawValue, QueryComponent);
      if key.None? || value.None? then acc else Add(acc, key.value, value.value)
  }

  function ParseInto(s: string, acc: Values): Values
    decreases |s|
  {
    if s == "" then acc
    else
      var (piece, rest) := Cut(s, '&');
      ParseInto(rest, AddPiece(acc, piece))
  }

  /** `url.ParseQuery`, as `URL.Query` uses it */
  function ParseQuery(s: string): Values {
    ParseInto(s, map[])
  }

  type Pair = (string, string)

  function EncodePair(p: Pair): string {
    Escape(p.0, QueryComponent) + "=" + Escape(p.1, QueryComponent)
  }

  function EncodePairs(pairs: seq<Pair>): string {
    if pairs == [] then ""
    else if |pairs| == 1 then EncodePair(pairs[0])
    else EncodePair(pairs[0]) + "&" + EncodePairs(pairs[1..])
  }

  function PairsFor(key: string, values: seq<string>): seq<Pair> {
    seq(|values|, i requires 0 <= i < |values| => (key, values[i]))
  }

  function PairsOf(v: Values, order: seq<string>): seq<Pair>
    requires forall k :: k in order ==> k in v
  {
    if order == [] then [] else PairsFor(order[0], v[order[0]]) + PairsOf(v, order[1..])
  }

  /** `Values.Encode`, for a given order of the keys. The library sorts them; what is proved does not depend on how. */
  function Encode(v: Values, order: seq<string>): string
    requires Enumerates(order, v.Keys)
  {
    assert forall k :: k in order ==> k in (set x | x in order);
    EncodePairs(PairsOf(v, order))
  }

  function AddAll(acc: Values, pairs: seq<Pair>): Values
    decreases |pairs|
  {
    if pairs == [] then acc else AddAll(Add(acc, pairs[0].0, pairs[0].1), pairs[1..])
  }

  predicate BytePairs(pairs: seq<Pair>) {
    forall i :: 0 <= i < |pairs| ==> IsBytes(pairs[i].0) && IsBytes(pairs[i].1)
  }

  lemma NoSeparators(s: string)
    ensures '&' !in Escape(s, QueryComponent) && '=' !in Escape(s, QueryComponent) && ';' !in Escape(s, QueryComponent)
  {
    EscapedIsPlain(s, QueryComponent);
    hide Escape;
  }

  lemma PairParses(acc: Values, p: Pair)
    requires IsBytes(p.0) && IsBytes(p.1)
    ensures '&' !in EncodePair(p) && EncodePair(p) != ""
    ensures AddPiece(acc, EncodePair(p)) == Add(acc, p.0, p.1)
  {
    hide Escape, Unescape, Cut;
    var k, v := Escape(p.0, QueryComponent), Escape(p.1, QueryComponent);
    NoSeparators(p.0);
    NoSeparators(p.1);
    EscapeRoundTrip(p.0, QueryComponent);
    EscapeRoundTrip(p.1, QueryComponent);
    CutAtFirst(k, '=', v);
    assert k + ['='] + v == EncodePair(p);
  }

  lemma {:induction false} PairsParse(acc: Values, pairs: seq<Pair>)
    requires BytePairs(pairs)
    ensures ParseInto(EncodePairs(pairs), acc) == AddAll(acc, pairs)
    decreases |pairs|
  {
    if pairs != [] {
      var s := EncodePair(pairs[0]);
      PairParses(acc, pairs[0]);
      CutAtFirst(s, '&', EncodePairs(pairs[1..]));
      if |pairs| > 1 {
        PairsParse(Add(acc, pairs[0].0, pairs[0].1), pairs[1..]);
        assert EncodePairs(pairs) == s + ['&'] + EncodePairs(pairs[1..]);
      } else {
        assert EncodePairs(pairs) == s;
        assert ParseInto(s, acc) == ParseInto("", AddPiece(acc, s));
        assert pairs[1..] == [];
      }
    }
  }

  lemma {:induction false} AddAllSplits(acc: Values, a: seq<Pair>, b: seq<Pair>)
    ensures AddAll(acc, a + b) == AddAll(AddAll(acc, a), b)
    decreases |a|
  {
    if a == [] {
      assert a + b == b;
    } else {
      assert (a + b)[1..] == a[1..] + b;
      AddAllSplits(Add(acc, a[0].0, a[0].1), a[1..], b);
    }
  }

  lemma {:induction false} AddOneKey(acc: Values, key: string, values: seq<string>)
    requires values != []
    ensures AddAll(acc, PairsFor(key, values)) == acc[key := (if key in acc then acc[key] else []) + values]
    decreases |values|
  {
    var pairs := PairsFor(key, values);
    var first := Add(acc, key, values[0]);
    assert pairs[1..] == PairsFor(key, values[1..]);
    if |values| == 1 {
      assert pairs[1..] == [] && values == [values[0]];
    } else {
      AddOneKey(first, key, values[1..]);
      assert [values[0]] + values[1..] == values;
      assert (if key in acc then acc[key] else []) + [values[0]] + values[1..] == (if key in acc then acc[key] else [])
        + values;
    }
  }

  function Restrict(v: Values, order: seq<string>): Values {
    map k | k in v && k in order :: v[k]
  }

  lemma RestrictCons(acc: Values, v: Values, order: seq<string>)
    requires order != [] && order[0] in v && order[0] !in order[1..]
    ensures acc[order[0] := v[order[0]]] + Restrict(v, order[1..]) == acc + Restrict(v, order)
  {
    assert forall k :: k in order <==> k == order[0] || k in order[1..];
  }

  lemma {:induction false} AddEveryKey(acc: Values, v: Values, order: seq<string>)
    requires Inhabited(v) && (forall k :: k in order ==> k in v && k !in acc)
    requires forall i, j :: 0 <= i < j < |order| ==> order[i] != order[j]
    ensures AddAll(acc, PairsOf(v, order)) == acc + Restrict(v, order)
    decreases |order|
  {
    if order == [] {
      assert acc + Restrict(v, order) == acc;
    } else {
      var key, rest := order[0], order[1..];
      AddAllSplits(acc, PairsFor(key, v[key]), PairsOf(v, rest));
      AddOneKey(acc, key, v[key]);
      assert [] + v[key] == v[key];
      AddEveryKey(acc[key := v[key]], v, rest);
      RestrictCons(acc, v, order);
    }
  }

  predicate ByteValues(v: Values) {
    forall k :: k in v ==> IsBytes(k) && forall i :: 0 <= i < |v[k]| ==> IsBytes(v[k][i])
  }

  lemma {:induction false} PairsAreBytes(v: Values, order: seq<string>)
    requires ByteValues(v) && forall k :: k in order ==> k in v
    ensures BytePairs(PairsOf(v, order))
  {
    if order != [] {
      PairsAreBytes(v, order[1..]);
    }
  }

  /** Parsing an encoded query gives back the parameter map, whatever the order of its keys. */
  lemma QueryRoundTrip(v: Values, order: seq<string>)
    requires Inhabited(v) && ByteValues(v) && Enumerates(order, v.Keys)
    ensures ParseQuery(Encode(v, order)) == v
  {
    assert forall k :: k in order <==> k in (set x | x in order);
    PairsAreBytes(v, order);
    PairsParse(map[], PairsOf(v, order));
    AddEveryKey(map[], v, order);
    assert map[] + Restrict(v, order) == v;
  }

  /** The client that parses the redirect's query finds exactly the callback parameters. */
  lemma CallbackRoundTrip(query: Values, registered: Values, issuer: string, code: Option<string>, order: seq<string>)
    requires Inhabited(registered)
    requires ByteValues(Callback.Parameters(query, registered, issuer, code))
    requires Enumerates(order, Callback.Parameters(query, registered, issuer, code).Keys)
    ensures ParseQuery(Encode(Callback.Parameters(query, registered, issuer, code), order)) ==
            Callback.Parameters(query, registered, issuer, code)
  {
    Callback.ParametersInhabited(query, registered, issuer, code);
    QueryRoundTrip(Callback.Parameters(query, registered, issuer, code), order);
  }

  /** Every parsed query has a value for each of its keys. */
  lemma {:induction false} ParsedIsInhabited(s: string, acc: Values)
    requires Inhabited(acc)
    ensures Inhabited(ParseInto(s, acc))
    decreases |s|
  {
    if s != "" {
      var (piece, rest) := Cut(s, '&');
      ParsedIsInhabited(rest, AddPiece(acc, piece));
    }
  }
}
