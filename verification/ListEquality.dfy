/** Equality of lists regardless of order, as decided by the nested loops over owner references,
    environment variables and ports: equal lengths, and every element of the first is in the second. */
module ListEquality {

  predicate Distinct<T(==)>(a: seq<T>) {
    forall i, j :: 0 <= i < j < |a| ==> a[i] != a[j]
  }

  predicate Included<T(==)>(a: seq<T>, b: seq<T>) {
    |a| == |b| && forall x :: x in a ==> x in b
  }

  /** ownerReferencesDeepEqual */
  method OwnerReferencesDeepEqual<T(==)>(a: seq<T>, b: seq<T>) returns (equal: bool)
    ensures equal <==> Included(a, b)
  {
    if |a| != |b| {
      return false;
    }
    for i := 0 to |a|
      invariant forall k :: 0 <= k < i ==> a[k] in b
    {
      var found := false;
      for j := 0 to |b|
        invariant !found && a[i] !in b[..j]
      {
        if a[i] == b[j] {
          found := true;
          break;
        }
      }
      if !found {
        assert b[..|b|] == b && a[i] in a;
        return false;
      }
    }
    equal := true;
  }

  /** envEqual, whose flag is left over from the last element looked at. */
  method EnvEqual<T(==)>(a: seq<T>, b: seq<T>) returns (equal: bool)
    ensures equal <==> Included(a, b)
  {
    if |a| != |b| {
      return false;
    }
    if |a| == 0 {
      return true;
    }
    equal := false;
    for i := 0 to |a|
      invariant i > 0 ==> equal
      invariant forall k :: 0 <= k < i ==> a[k] in b
    {
      equal := false;
      for j := 0 to |b|
        invariant !equal && a[i] !in b[..j]
      {
        if a[i] == b[j] {
          equal := true;
          break;
        }
      }
      if !equal {
        assert b[..|b|] == b && a[i] in a;
        break;
      }
    }
  }

  lemma {:induction false} RemoveOne<T>(b: seq<T>, j: nat)
    requires j < |b|
    ensures multiset(b) == multiset(b[..j] + b[j + 1..]) + multiset{b[j]}
  {
    assert b == b[..j] + [b[j]] + b[j + 1..];
  }

  /** The pigeonhole principle: a list without duplicates that fits into another of its length is a
      permutation of it. */
  lemma {:induction false} Pigeonhole<T>(a: seq<T>, b: seq<T>)
    requires Distinct(a) && Included(a, b)
    ensures multiset(a) == multiset(b)
  {
    if a == [] {
    } else {
      var n := |a| - 1;
      assert a[n] in a;
      var j :| 0 <= j < |b| && b[j] == a[n];
      var rest := b[..j] + b[j + 1..];
      forall x | x in a[..n]
        ensures x in rest
      {
        assert x in a && x != a[n];
        var k :| 0 <= k < |b| && b[k] == x;
        if k < j {
          assert rest[k] == x;
        } else {
          assert rest[k - 1] == x;
        }
      }
      Pigeonhole(a[..n], rest);
      RemoveOne(b, j);
      assert a == a[..n] + [a[n]];
    }
  }

  lemma {:induction false} PermutationMembers<T>(a: seq<T>, b: seq<T>)
    requires multiset(a) == multiset(b)
    ensures Included(a, b)
  {
    assert |multiset(a)| == |a| && |multiset(b)| == |b|;
    forall x | x in a
      ensures x in b
    {
      assert x in multiset(a);
    }
  }

  lemma {:induction false} DistinctCounts<T>(a: seq<T>)
    ensures Distinct(a) <==> forall x :: multiset(a)[x] <= 1
  {
    if a != [] {
      var n := |a| - 1;
      var init, last := a[..n], a[n];
      assert a == init + [last];
      DistinctCounts(init);
      assert forall x :: x in init <==> multiset(init)[x] > 0;
      if Distinct(a) {
        assert last !in init;
      }
      if forall x :: multiset(a)[x] <= 1 {
        assert multiset(a)[last] == multiset(init)[last] + 1;
        assert forall x :: multiset(init)[x] <= multiset(a)[x];
      }
    }
  }

  /** Without duplicates in the first list, the loops decide whether the lists are permutations. */
  lemma EqualIffPermutation<T>(a: seq<T>, b: seq<T>)
    requires Distinct(a)
    ensures Included(a, b) <==> multiset(a) == multiset(b)
    ensures Included(a, b) ==> Distinct(b)
  {
    if Included(a, b) {
      Pigeonhole(a, b);
      DistinctCounts(a);
      DistinctCounts(b);
    }
    if multiset(a) == multiset(b) {
      PermutationMembers(a, b);
    }
  }

  /** The loops decide this for every second list if and only if the first has no duplicates, as long as
      there is any value outside of it. */
  lemma DistinctIffDecidesPermutation<T(!new)>(a: seq<T>, outside: T)
    requires outside !in a
    ensures Distinct(a) <==> forall b :: Included(a, b) <==> multiset(a) == multiset(b)
  {
    if Distinct(a) {
      forall b
        ensures Included(a, b) <==> multiset(a) == multiset(b)
      {
        EqualIffPermutation(a, b);
      }
    } else {
      var i, j :| 0 <= i < j < |a| && a[i] == a[j];
      OneReplaced(a, i, j, outside);
    }
  }

  lemma OneReplaced<T>(a: seq<T>, i: nat, j: nat, outside: T)
    requires i < j < |a| && a[i] == a[j] && outside !in a
    ensures Included(a, a[j := outside]) && multiset(a) != multiset(a[j := outside])
  {
    var b := a[j := outside];
    forall x | x in a
      ensures x in b
    {
      var k: nat :| k < |a| && a[k] == x;
      if k == j {
        assert b[i] == x;
      } else {
        assert b[k] == x;
      }
    }
    assert b[j] == outside && outside in multiset(b) && outside !in multiset(a);
  }

  lemma InclusionSymmetric<T>(a: seq<T>, b: seq<T>)
    requires Distinct(a) && Included(a, b)
    ensures Included(b, a)
  {
    EqualIffPermutation(a, b);
    PermutationMembers(b, a);
  }

  lemma InclusionTransitive<T>(a: seq<T>, b: seq<T>, c: seq<T>)
    requires Distinct(a) && Included(a, b) && Included(b, c)
    ensures Included(a, c) && multiset(a) == multiset(c)
  {
    EqualIffPermutation(a, b);
    EqualIffPermutation(b, c);
    PermutationMembers(a, c);
  }

  /** With duplicates the loops are not even symmetric. */
  lemma DuplicatesBreakSymmetry<T>(x: T, y: T)
    requires x != y
    ensures Included([x, x], [x, y]) && !Included([x, y], [x, x])
  {
    assert y in [x, y];
  }
}
