/** Concatenation of lists of sequences, and sequences without duplicates. */
module Sequences {

  function Concat<T>(parts: seq<seq<T>>): seq<T> {
    if parts == [] then [] else Concat(parts[..|parts| - 1]) + parts[|parts| - 1]
  }

  lemma ConcatSnoc<T>(parts: seq<seq<T>>, p: seq<T>)
    ensures Concat(parts + [p]) == Concat(parts) + p
  {
    assert (parts + [p])[..|parts|] == parts;
  }

  lemma {:induction false} ConcatAppend<T>(a: seq<seq<T>>, b: seq<seq<T>>)
    ensures Concat(a + b) == Concat(a) + Concat(b)
    decreases |b|
  {
    if b == [] {
      assert a + b == a;
    } else {
      var c, last := b[..|b| - 1], b[|b| - 1];
      assert a + b == (a + c) + [last];
      ConcatSnoc(a + c, last);
      ConcatAppend(a, c);
    }
  }

  lemma ConcatCons<T>(p: seq<T>, rest: seq<seq<T>>)
    ensures Concat([p] + rest) == p + Concat(rest)
  {
    ConcatAppend([p], rest);
    assert Concat([p]) == [] + p;
  }

  ghost predicate Distinct<T>(s: seq<T>) {
    forall i, j :: 0 <= i < j < |s| ==> s[i] != s[j]
  }

  lemma {:induction false} DistinctCount<T>(s: seq<T>, x: T)
    requires Distinct(s)
    ensures multiset(s)[x] <= 1
  {
    if s != [] {
      var front, last := s[..|s| - 1], s[|s| - 1];
      assert s == front + [last];
      DistinctCount(front, x);
      assert last !in front;
    }
  }

  /** A permutation of a sequence without duplicates has none. */
  lemma DistinctPermuted<T>(s: seq<T>, r: seq<T>)
    requires Distinct(s) && multiset(s) == multiset(r)
    ensures Distinct(r)
  {
    forall i, j | 0 <= i < j < |r| ensures r[i] != r[j] {
      DistinctCount(s, r[i]);
      assert r == r[..j] + r[j..];
      assert r[i] in r[..j] && r[j] in r[j..];
    }
  }
}
