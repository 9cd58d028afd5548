/** Finite sums over sets, of integers and of reals. */
module Sums {

  ghost function Fold<K, V>(zero: V, plus: (V, V) -> V, s: set<K>, f: K -> V): V {
    if s == {} then zero
    else
      var x :| x in s;
      plus(f(x), Fold(zero, plus, s - {x}, f))
  }

  ghost predicate LeftCommutative<V(!new)>(plus: (V, V) -> V) {
    forall a, b, c :: plus(a, plus(b, c)) == plus(b, plus(a, c))
  }

  lemma {:induction false} FoldRemove<K, V(!new)>(zero: V, plus: (V, V) -> V, s: set<K>, f: K -> V, x: K)
    requires LeftCommutative(plus) && x in s
    ensures Fold(zero, plus, s, f) == plus(f(x), Fold(zero, plus, s - {x}, f))
  {
    var y :| y in s && Fold(zero, plus, s, f) == plus(f(y), Fold(zero, plus, s - {y}, f));
    if y != x {
      FoldRemove(zero, plus, s - {y}, f, x);
      FoldRemove(zero, plus, s - {x}, f, y);
      assert s - {y} - {x} == s - {x} - {y};
    }
  }

  lemma {:induction false} FoldSame<K, V(!new)>(zero: V, plus: (V, V) -> V, s: set<K>, f: K -> V, g: K -> V)
    requires LeftCommutative(plus) && forall x :: x in s ==> f(x) == g(x)
    ensures Fold(zero, plus, s, f) == Fold(zero, plus, s, g)
  {
    if s != {} {
      var x :| x in s;
      FoldRemove(zero, plus, s, f, x);
      FoldRemove(zero, plus, s, g, x);
      FoldSame(zero, plus, s - {x}, f, g);
    }
  }

  function PlusInt(a: int, b: int): int {
    a + b
  }

  function PlusReal(a: real, b: real): real {
    a + b
  }

  ghost function Sum<K>(s: set<K>, f: K -> int): int {
    Fold(0, PlusInt, s, f)
  }

  ghost function RealSum<K>(s: set<K>, f: K -> real): real {
    Fold(0.0, PlusReal, s, f)
  }

  lemma SumRemove<K>(s: set<K>, f: K -> int, x: K)
    requires x in s
    ensures Sum(s, f) == f(x) + Sum(s - {x}, f)
  {
    FoldRemove(0, PlusInt, s, f, x);
  }

  lemma SumSame<K>(s: set<K>, f: K -> int, g: K -> int)
    requires forall x :: x in s ==> f(x) == g(x)
    ensures Sum(s, f) == Sum(s, g)
  {
    FoldSame(0, PlusInt, s, f, g);
  }

  /** A new element, the summand being the same on the old ones. */
  lemma SumInsert<K>(s: set<K>, f: K -> int, g: K -> int, x: K)
    requires x !in s && forall y :: y in s ==> f(y) == g(y)
    ensures Sum(s + {x}, g) == g(x) + Sum(s, f)
  {
    SumRemove(s + {x}, g, x);
    assert s + {x} - {x} == s;
    SumSame(s, f, g);
  }

  /** Changing the summand at one point changes the sum by as much. */
  lemma SumUpdate<K>(s: set<K>, f: K -> int, g: K -> int, x: K)
    requires x in s && forall y :: y in s && y != x ==> f(y) == g(y)
    ensures Sum(s, g) - g(x) == Sum(s, f) - f(x)
  {
    SumRemove(s, f, x);
    SumRemove(s, g, x);
    SumSame(s - {x}, f, g);
  }

  /** A sum whose non-zero summands are at most `bound` each. */
  lemma {:induction false} SumBound<K>(s: set<K>, t: set<K>, f: K -> int, bound: int)
    requires t <= s && (forall x :: x in t ==> f(x) <= bound) && (forall x :: x in s - t ==> f(x) == 0)
    ensures Sum(s, f) <= |t| * bound
  {
    if s != {} {
      var x :| x in s;
      SumRemove(s, f, x);
      SumBound(s - {x}, t - {x}, f, bound);
      if x in t {
        assert |t - {x}| == |t| - 1;
        assert |t| * bound == (|t| - 1) * bound + bound;
      } else {
        assert t - {x} == t;
      }
    }
  }

  lemma RealSumRemove<K>(s: set<K>, f: K -> real, x: K)
    requires x in s
    ensures RealSum(s, f) == f(x) + RealSum(s - {x}, f)
  {
    FoldRemove(0.0, PlusReal, s, f, x);
  }

  lemma RealSumSame<K>(s: set<K>, f: K -> real, g: K -> real)
    requires forall x :: x in s ==> f(x) == g(x)
    ensures RealSum(s, f) == RealSum(s, g)
  {
    FoldSame(0.0, PlusReal, s, f, g);
  }

  lemma RealSumInsert<K>(s: set<K>, f: K -> real, g: K -> real, x: K)
    requires x !in s && forall y :: y in s ==> f(y) == g(y)
    ensures RealSum(s + {x}, g) == g(x) + RealSum(s, f)
  {
    RealSumRemove(s + {x}, g, x);
    assert s + {x} - {x} == s;
    RealSumSame(s, f, g);
  }

  lemma RealSumUpdate<K>(s: set<K>, f: K -> real, g: K -> real, x: K)
    requires x in s && forall y :: y in s && y != x ==> f(y) == g(y)
    ensures RealSum(s, g) - g(x) == RealSum(s, f) - f(x)
  {
    RealSumRemove(s, f, x);
    RealSumRemove(s, g, x);
    RealSumSame(s - {x}, f, g);
  }
}
