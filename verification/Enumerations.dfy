/** Listing the elements of a set, as iterating over a Go map does, in some order. */
module Enumerations {

  /** `order` lists each element of `keys` once and nothing else. */
  predicate Enumerates<T(==)>(order: seq<T>, keys: set<T>) {
    && (forall i, j :: 0 <= i < j < |order| ==> order[i] != order[j])
    && (set k | k in order) == keys
  }

  lemma EnumerateMore<T>(order: seq<T>, keys: set<T>, k: T)
    requires Enumerates(order, keys) && k !in keys
    ensures Enumerates(order + [k], keys + {k})
  {
    assert forall n :: n in order <==> n in (set x | x in order);
    assert forall n :: n in order + [k] <==> n in order || n == k;
  }

  lemma {:induction false} EnumerationLength<T>(order: seq<T>, keys: set<T>)
    requires Enumerates(order, keys)
    ensures |order| == |keys|
  {
    if order != [] {
      var init, k := order[..|order| - 1], order[|order| - 1];
      assert order == init + [k];
      assert forall n :: n in order <==> n in init || n == k;
      assert k !in init;
      assert keys - {k} == set n | n in init;
      EnumerationLength(init, keys - {k});
    }
  }

  function ElementsOf<T>(s: seq<T>): set<T> {
    set x | x in s
  }

  /** A sequence repeats nothing exactly when it has as many elements as positions. */
  lemma {:induction false} AllDifferent<T>(s: seq<T>)
    ensures (forall i, j :: 0 <= i < j < |s| ==> s[i] != s[j]) <==> |ElementsOf(s)| == |s|
    ensures |ElementsOf(s)| <= |s|
  {
    if s == [] {
      assert ElementsOf(s) == {};
    } else {
      var init, last := s[..|s| - 1], s[|s| - 1];
      AllDifferent(init);
      assert s == init + [last];
      assert ElementsOf(s) == ElementsOf(init) + {last};
    }
  }
}
