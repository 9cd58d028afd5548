/** Unpadded base64url (RFC 4648 section 5) and the PKCE checks built on it (RFC 7636 sections 4.1, 4.2 and 4.6). */
module Pkce {
  import opened Options

  type byte = n: nat | n < 256
  type sextet = n: nat | n < 64

  /** A SHA-256 digest; the hash itself is a parameter of the server. */
  type Digest = d: seq<byte> | |d| == 32 witness seq(32, _ => 0)

  function Symbol(v: sextet): char {
    if v < 26 then 'A' + v as char
    else if v < 52 then 'a' + (v - 26) as char
    else if v < 62 then '0' + (v - 52) as char
    else if v == 62 then '-'
    else '_'
  }

  function Sextet(c: char): Option<sextet> {
    if 'A' <= c <= 'Z' then Some(c as int - 'A' as int)
    else if 'a' <= c <= 'z' then Some(c as int - 'a' as int + 26)
    else if '0' <= c <= '9' then Some(c as int - '0' as int + 52)
    else if c == '-' then Some(62)
    else if c == '_' then Some(63)
    else None
  }

  function EncodeSextets(bs: seq<byte>): seq<sextet> {
    if |bs| == 0 then []
    else if |bs| == 1 then [bs[0] / 4, bs[0] % 4 * 16]
    else if |bs| == 2 then [bs[0] / 4, bs[0] % 4 * 16 + bs[1] / 16, bs[1] % 16 * 4]
    else [bs[0] / 4, bs[0] % 4 * 16 + bs[1] / 16, bs[1] % 16 * 4 + bs[2] / 64, bs[2] % 64] + EncodeSextets(bs[3..])
  }

  // The bytes that two adjacent sextets contribute to.
  function FirstByte(a: sextet, b: sextet): byte {
    var x: int, y: int := a, b;
    x * 4 + y / 16
  }

  function SecondByte(b: sextet, c: sextet): byte {
    var x: int, y: int := b, c;
    x % 16 * 16 + y / 4
  }

  function ThirdByte(c: sextet, d: sextet): byte {
    var x: int, y: int := c, d;
    x % 4 * 64 + y
  }

  function DecodeSextets(vs: seq<sextet>): seq<byte> {
    if |vs| < 2 then []
    else if |vs| == 2 then [FirstByte(vs[0], vs[1])]
    else if |vs| == 3 then [FirstByte(vs[0], vs[1]), SecondByte(vs[1], vs[2])]
    else [FirstByte(vs[0], vs[1]), SecondByte(vs[1], vs[2]), ThirdByte(vs[2], vs[3])] + DecodeSextets(vs[4..])
  }

  function Symbols(vs: seq<sextet>): string {
    seq(|vs|, i requires 0 <= i < |vs| => Symbol(vs[i]))
  }

  /** `base64.RawURLEncoding.EncodeToString` */
  function Encode(bs: seq<byte>): string {
    Symbols(EncodeSextets(bs))
  }

  predicate InAlphabet(s: string) {
    forall i :: 0 <= i < |s| ==> Sextet(s[i]).Some?
  }

  function Sextets(s: string): seq<sextet>
    requires InAlphabet(s)
  {
    seq(|s|, i requires 0 <= i < |s| => Sextet(s[i]).value)
  }

  function Decode(s: string): seq<byte>
    requires InAlphabet(s)
  {
    DecodeSextets(Sextets(s))
  }

  lemma SymbolRoundTrip(v: sextet)
    ensures Sextet(Symbol(v)) == Some(v)
  {}

  /** The alphabet of RFC 4648, table 2: where its runs of characters start, and that they go up one by one. */
  lemma SymbolsInOrder(v: nat)
    requires v < 63
    ensures Symbol(0) == 'A' && Symbol(26) == 'a' && Symbol(52) == '0' && Symbol(62) == '-' && Symbol(63) == '_'
    ensures v != 25 && v != 51 && v != 61 && v != 62 ==> Symbol(v + 1) == Symbol(v) + 1 as char
  {}

  function OrZero(s: seq<int>, i: nat): int {
    if i < |s| then s[i] else 0
  }

  /** Three bytes and four symbols are the same 24 bits, high bits first; a shorter end is padded with zero bits. */
  lemma {:induction false} EncodesTheSameBits(bs: seq<byte>, k: nat)
    requires 3 * k < |bs|
    ensures var vs := EncodeSextets(bs);
            OrZero(vs, 4 * k) * 262144 + OrZero(vs, 4 * k + 1) * 4096
            + OrZero(vs, 4 * k + 2) * 64 + OrZero(vs, 4 * k + 3)
            == OrZero(bs, 3 * k) * 65536 + OrZero(bs, 3 * k + 1) * 256 + OrZero(bs, 3 * k + 2)
  {
    var vs := EncodeSextets(bs);
    if k > 0 {
      EncodesTheSameBits(bs[3..], k - 1);
      assert vs[4..] == EncodeSextets(bs[3..]);
      assert forall i: nat :: 4 <= i ==> OrZero(vs, i) == OrZero(vs[4..], i - 4);
      assert forall i: nat :: 3 <= i ==> OrZero(bs, i) == OrZero(bs[3..], i - 3);
    } else {
      FirstBits(OrZero(bs, 0), OrZero(bs, 1), OrZero(bs, 2));
    }
  }

  lemma FirstBits(a: int, b: int, c: int)
    requires 0 <= a < 256 && 0 <= b < 256 && 0 <= c < 256
    ensures a / 4 * 262144 + (a % 4 * 16 + b / 16) * 4096 + (b % 16 * 4 + c / 64) * 64 + c % 64
            == a * 65536 + b * 256 + c
  {}

  lemma TripleRoundTrip(a: byte, b: byte, c: byte)
    ensures FirstByte(a / 4, a % 4 * 16 + b / 16) == a
    ensures SecondByte(a % 4 * 16 + b / 16, b % 16 * 4 + c / 64) == b
    ensures ThirdByte(b % 16 * 4 + c / 64, c % 64) == c
  {}

  lemma {:induction false} SextetsRoundTrip(bs: seq<byte>)
    ensures DecodeSextets(EncodeSextets(bs)) == bs
    ensures |EncodeSextets(bs)| == (4 * |bs| + 2) / 3
  {
    if |bs| >= 3 {
      SextetsRoundTrip(bs[3..]);
      TripleRoundTrip(bs[0], bs[1], bs[2]);
      var vs := EncodeSextets(bs);
      assert vs[4..] == EncodeSextets(bs[3..]);
      assert DecodeSextets(vs) == [bs[0], bs[1], bs[2]] + DecodeSextets(vs[4..]);
      assert bs == [bs[0], bs[1], bs[2]] + bs[3..];
    } else if |bs| == 2 {
      TripleRoundTrip(bs[0], bs[1], 0);
      assert bs == [bs[0], bs[1]];
    } else if |bs| == 1 {
      TripleRoundTrip(bs[0], 0, 0);
      assert bs == [bs[0]];
    }
  }

  /** The encoder is injective: it stays in its alphabet and `Decode` is a left inverse. */
  lemma RoundTrip(bs: seq<byte>)
    ensures InAlphabet(Encode(bs))
    ensures Decode(Encode(bs)) == bs
    ensures |Encode(bs)| == (4 * |bs| + 2) / 3
  {
    SextetsRoundTrip(bs);
    var vs := EncodeSextets(bs);
    forall i | 0 <= i < |vs| ensures Sextet(Encode(bs)[i]) == Some(vs[i]) {
      SymbolRoundTrip(vs[i]);
    }
    assert Sextets(Encode(bs)) == vs;
  }

  // ---- PKCE -------------------------------------------------------------------

  predicate PkceChar(c: char) {
    'a' <= c <= 'z' || 'A' <= c <= 'Z' || '0' <= c <= '9' || c == '-' || c == '.' || c == '_' || c == '~'
  }

  predicate IsPkceValue(s: string) {
    43 <= |s| <= 128 && forall i :: 0 <= i < |s| ==> PkceChar(s[i])
  }

  /** The characters are those of RFC 7636 section 4.1, and all lengths from 43 to 128 and no others occur. */
  lemma PkceValues(c: char, n: nat)
    ensures PkceChar(c) <==> Sextet(c).Some? || c == '.' || c == '~'
    ensures (exists s :: |s| == n && IsPkceValue(s)) <==> 43 <= n <= 128
  {
    if 43 <= n <= 128 {
      var s := seq(n, i => 'a');
      assert IsPkceValue(s);
    }
  }

  method ValidPkceValue(value: string) returns (ok: bool)
    ensures ok <==> IsPkceValue(value)
  {
    if |value| < 43 || |value| > 128 {
      return false;
    }
    for k := 0 to |value|
      invariant forall i :: 0 <= i < k ==> PkceChar(value[i])
    {
      if !PkceChar(value[k]) {
        return false;
      }
    }
    return true;
  }

  /** The S256 transformation, for a given hash. */
  function Challenge(sha256: string -> Digest, verifier: string): string {
    Encode(sha256(verifier))
  }

  /** The strings that are the encoding of some 32-byte digest: 43 symbols whose last one carries two zero bits. */
  predicate IsChallengeImage(s: string) {
    |s| == 43 && InAlphabet(s) && Sextet(s[42]).value % 4 == 0
  }

  /** Every S256 challenge is one that `authorize` accepts. */
  lemma ChallengeIsPkceValue(sha256: string -> Digest, verifier: string)
    ensures |Challenge(sha256, verifier)| == 43
    ensures IsPkceValue(Challenge(sha256, verifier))
  {
    RoundTrip(sha256(verifier));
    var c := Challenge(sha256, verifier);
    forall i | 0 <= i < |c| ensures PkceChar(c[i]) {
      assert Sextet(c[i]).Some?;
    }
  }

  lemma {:induction false} LastSextet(bs: seq<byte>)
    requires |bs| % 3 == 2
    ensures EncodeSextets(bs) != [] && EncodeSextets(bs)[|EncodeSextets(bs)| - 1] % 4 == 0
  {
    if |bs| > 2 {
      LastSextet(bs[3..]);
    }
  }

  lemma QuadReencodes(a: sextet, b: sextet, c: sextet, d: sextet)
    ensures FirstByte(a, b) / 4 == a
    ensures FirstByte(a, b) % 4 * 16 + SecondByte(b, c) / 16 == b
    ensures SecondByte(b, c) % 16 * 4 + ThirdByte(c, d) / 64 == c
    ensures ThirdByte(c, d) % 64 == d
    ensures c % 4 == 0 ==> SecondByte(b, c) % 16 * 4 == c
  {}

  lemma {:induction false} DecodedReencodes(vs: seq<sextet>)
    requires |vs| % 4 == 3 && vs[|vs| - 1] % 4 == 0
    ensures |DecodeSextets(vs)| == (3 * |vs| - 1) / 4
    ensures EncodeSextets(DecodeSextets(vs)) == vs
  {
    if |vs| == 3 {
      QuadReencodes(vs[0], vs[1], vs[2], 0);
      assert vs == [vs[0], vs[1], vs[2]];
    } else {
      var rest := DecodeSextets(vs[4..]);
      DecodedReencodes(vs[4..]);
      QuadReencodes(vs[0], vs[1], vs[2], vs[3]);
      var bs := DecodeSextets(vs);
      assert bs[3..] == rest;
      assert EncodeSextets(bs) == [vs[0], vs[1], vs[2], vs[3]] + EncodeSextets(rest);
    }
  }

  /** Exactly which challenges are the encoding of a digest at all. */
  lemma ChallengeImage(s: string)
    ensures IsChallengeImage(s) <==> exists d: Digest :: Encode(d) == s
  {
    if IsChallengeImage(s) {
      var vs := Sextets(s);
      DecodedReencodes(vs);
      var d: Digest := DecodeSextets(vs);
      forall i | 0 <= i < |s| ensures Symbol(vs[i]) == s[i] {
        assert Sextet(s[i]).Some?;
      }
      assert Encode(d) == s;
    }
    forall d: Digest | Encode(d) == s ensures IsChallengeImage(s) {
      RoundTrip(d);
      LastSextet(d);
      SymbolRoundTrip(EncodeSextets(d)[42]);
    }
  }
}
