/** The library sort: for a strict weak order it returns a sorted permutation. Where equal elements
    end up is not part of its contract. */
module Sorting {
  import opened Sequences

  ghost predicate StrictWeakOrder<T(!new)>(less: (T, T) -> bool) {
    && (forall a, b :: less(a, b) ==> !less(b, a))
    && (forall a, b, c :: !less(a, b) && !less(b, c) ==> !less(a, c))
  }

  ghost predicate Sorted<T>(s: seq<T>, less: (T, T) -> bool) {
    forall i, j :: 0 <= i < j < |s| ==> !less(s[j], s[i])
  }

  lemma InsertedIsSorted<T(!new)>(s: seq<T>, p: nat, x: T, less: (T, T) -> bool)
    requires StrictWeakOrder(less) && Sorted(s, less) && p <= |s|
    requires forall i :: 0 <= i < p ==> !less(x, s[i])
    requires p < |s| ==> less(x, s[p])
    ensures Sorted(s[..p] + [x] + s[p..], less)
  {
    var r := s[..p] + [x] + s[p..];
    forall i, j | 0 <= i < j < |r| ensures !less(r[j], r[i]) {
      if i == p {
        assert !less(s[p], x);
        assert p < j - 1 ==> !less(s[j - 1], s[p]);
      }
    }
  }

  method Insert<T(!new)>(s: seq<T>, x: T, less: (T, T) -> bool) returns (r: seq<T>)
    requires StrictWeakOrder(less) && Sorted(s, less)
    ensures Sorted(r, less) && multiset(r) == multiset(s) + multiset{x}
  {
    hide StrictWeakOrder, Sorted;
    var p := 0;
    while p < |s| && !less(x, s[p])
      invariant 0 <= p <= |s| && forall i :: 0 <= i < p ==> !less(x, s[i])
    {
      p := p + 1;
    }
    assert s == s[..p] + s[p..];
    r := s[..p] + [x] + s[p..];
    InsertedIsSorted(s, p, x, less);
  }

  method Sort<T(!new)>(s: seq<T>, less: (T, T) -> bool) returns (r: seq<T>)
    requires StrictWeakOrder(less)
    ensures Sorted(r, less) && multiset(r) == multiset(s)
    ensures |r| == |s|
  {
    r := [];
    for i := 0 to |s|
      invariant Sorted(r, less) && multiset(r) == multiset(s[..i])
    {
      r := Insert(r, s[i], less);
      assert s[..i + 1] == s[..i] + [s[i]];
    }
    assert s[..|s|] == s;
    assert |multiset(r)| == |multiset(s)|;
  }

  lemma {:induction false} DistinctCounts<T>(s: seq<T>, x: T)
    requires Distinct(s)
    ensures multiset(s)[x] <= 1
  {
    if s != [] {
      var front, last := s[..|s| - 1], s[|s| - 1];
      assert s == front + [last];
      DistinctCounts(front, x);
      if x == last {
        assert x !in front;
      }
    }
  }

  /** A permutation of a sequence without duplicates has none, and the same members. */
  lemma PermutedDistinct<T>(s: seq<T>, r: seq<T>)
    requires multiset(s) == multiset(r)
    requires Distinct(s)
    ensures Distinct(r)
    ensures forall x :: x in r <==> x in s
  {
    forall i, j | 0 <= i < j < |r| ensures r[i] != r[j] {
      DistinctCounts(s, r[i]);
      assert r == r[..j] + r[j..];
      assert r[i] in r[..j] && r[j] in r[j..];
      assert multiset(r) == multiset(r[..j]) + multiset(r[j..]);
    }
    forall x ensures x in r <==> x in s {
      assert x in r <==> x in multiset(r);
      assert x in s <==> x in multiset(s);
    }
  }
}
