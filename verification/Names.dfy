/** Optional values, shared by every module. */
module Options {
  datatype Option<+T> = None | Some(value: T)
}

/** The decimal printing behind `%d` and the five kinds of credential name the OAuth fixture mints. */
module Names {

  function Digit(d: nat): char
    requires d < 10
  {
    '0' + d as char
  }

  /** What `fmt.Sprintf("%d", n)` prints for a non-negative counter. */
  function Decimal(n: nat): string {
    if n < 10 then [Digit(n)] else Decimal(n / 10) + [Digit(n % 10)]
  }

  function DigitValue(c: char): int {
    c as int - '0' as int
  }

  /** Reads a string of digits back, most significant first. */
  function Number(s: string): int {
    if s == "" then 0 else 10 * Number(s[..|s| - 1]) + DigitValue(s[|s| - 1])
  }

  lemma {:induction false} NumberOfDecimal(n: nat)
    ensures Number(Decimal(n)) == n
  {
    if n < 10 {
      assert Decimal(n)[..0] == "";
    } else {
      NumberOfDecimal(n / 10);
      assert Decimal(n)[..|Decimal(n)| - 1] == Decimal(n / 10);
    }
  }

  lemma DecimalInjective(m: nat, n: nat)
    requires Decimal(m) == Decimal(n)
    ensures m == n
  {
    NumberOfDecimal(m);
    NumberOfDecimal(n);
  }

  /** Only digits are printed, and no zero in front of others. */
  lemma {:induction false} DecimalIsPlain(n: nat)
    ensures Decimal(n) != "" && forall i :: 0 <= i < |Decimal(n)| ==> '0' <= Decimal(n)[i] <= '9'
    ensures Decimal(n)[0] == '0' ==> n == 0
  {
    if n >= 10 {
      DecimalIsPlain(n / 10);
    }
  }

  datatype Kind = ClientKind | RegistrationKind | CodeKind | AccessKind | RefreshKind

  function Prefix(kind: Kind): string {
    match kind
    case ClientKind => "fixture-client-"
    case RegistrationKind => "fixture-registration-token-"
    case CodeKind => "fixture-code-"
    case AccessKind => "fixture-access-"
    case RefreshKind => "fixture-refresh-"
  }

  /** The credential of the given kind minted when the counter has reached `n`. */
  function Name(kind: Kind, n: nat): string {
    Prefix(kind) + Decimal(n)
  }

  /** Decimal printing is injective and no prefix can be mistaken for another one. */
  lemma NameInjective(k: Kind, m: nat, l: Kind, n: nat)
    requires Name(k, m) == Name(l, n)
    ensures k == l && m == n
  {
    var a, b := Name(k, m), Name(l, n);
    assert a[8] == Prefix(k)[8] && b[8] == Prefix(l)[8];
    assert a[9] == Prefix(k)[9] && b[9] == Prefix(l)[9];
    assert a[10] == Prefix(k)[10] && b[10] == Prefix(l)[10];
    assert k == l;
    assert a[|Prefix(k)|..] == Decimal(m);
    assert b[|Prefix(k)|..] == Decimal(n);
    DecimalInjective(m, n);
  }

  /** How the credentials look. */
  lemma PrintedNames(n: nat)
    ensures Name(ClientKind, n) == "fixture-client-" + Decimal(n)
    ensures Name(RegistrationKind, n) == "fixture-registration-token-" + Decimal(n)
    ensures Name(CodeKind, n) == "fixture-code-" + Decimal(n)
    ensures Name(AccessKind, n) == "fixture-access-" + Decimal(n)
    ensures Name(RefreshKind, n) == "fixture-refresh-" + Decimal(n)
  {}

  lemma KindsDiffer(k: Kind, m: nat, l: Kind, n: nat)
    requires k != l
    ensures Name(k, m) != Name(l, n)
  {
    hide Prefix, Decimal;
    if Name(k, m) == Name(l, n) {
      NameInjective(k, m, l, n);
    }
  }

  lemma ClientNames(n: nat)
    ensures '/' !in Name(ClientKind, n) && Name(ClientKind, n) != ""
  {
    DecimalIsPlain(n);
  }
}
