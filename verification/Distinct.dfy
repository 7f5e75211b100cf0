// Lists without duplicates, and the test that compares their length with the size of their set.
module Distinct {
  ghost predicate NoDuplicates<T(!new)>(xs: seq<T>) {
    forall i, j :: 0 <= i < j < |xs| ==> xs[i] != xs[j]
  }

  function ToSet<T(==,!new)>(xs: seq<T>): (r: set<T>)
    ensures forall x :: x in r <==> x in xs
    ensures |r| <= |xs|
  {
    if xs == [] then {} else {xs[0]} + ToSet(xs[1..])
  }

  lemma ConsKeepsDistinct<T(!new)>(x: T, rest: seq<T>)
    ensures NoDuplicates([x] + rest) <==> x !in rest && NoDuplicates(rest)
  {
    var xs := [x] + rest;
    assert forall k :: 0 <= k < |rest| ==> rest[k] == xs[k + 1];
    if NoDuplicates(xs) {
      forall k | 0 <= k < |rest| ensures rest[k] != x { assert xs[k + 1] != xs[0]; }
    }
    if x !in rest && NoDuplicates(rest) {
      forall i, j | 0 <= i < j < |xs| ensures xs[i] != xs[j] {
        assert xs[j] == rest[j - 1];
        if i > 0 { assert xs[i] == rest[i - 1]; }
      }
    }
  }

  lemma ToSetStep<T(!new)>(x: T, rest: seq<T>)
    ensures |ToSet([x] + rest)| == |ToSet(rest)| + (if x in rest then 0 else 1)
  {
    assert ([x] + rest)[1..] == rest;
    if x in rest {
      assert ToSet([x] + rest) == ToSet(rest);
    } else {
      assert ToSet([x] + rest) == ToSet(rest) + {x};
    }
  }

  /** Comparing the size of the set with the length of the list decides whether the list has a duplicate. */
  lemma {:induction false} SizeTestFindsDuplicates<T(!new)>(xs: seq<T>)
    ensures |ToSet(xs)| == |xs| <==> NoDuplicates(xs)
  {
    if xs != [] {
      SizeTestFindsDuplicates(xs[1..]);
      assert xs == [xs[0]] + xs[1..];
      ToSetStep(xs[0], xs[1..]);
      ConsKeepsDistinct(xs[0], xs[1..]);
    }
  }
}
