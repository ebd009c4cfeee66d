/** Sorting by a key, as `std::sort` and Python's `sorted` are called throughout the source. The
    contract promises what `std::sort` promises and no more: an ordered permutation; elements of
    equal keys may come out in any order. */
module Sorting {
  ghost predicate Sorted<T>(s: seq<T>, key: T -> real) {
    forall i, j :: 0 <= i < j < |s| ==> key(s[i]) <= key(s[j])
  }

  lemma {:induction false} SpliceMembers<T>(s: seq<T>, x: T, i: nat)
    requires i <= |s|
    ensures multiset(s[..i] + [x] + s[i..]) == multiset(s) + multiset{x}
  {
    assert multiset(s) == multiset(s[..i]) + multiset(s[i..]) by {
      assert s == s[..i] + s[i..];
    }
  }

  method Insert<T>(s: seq<T>, x: T, key: T -> real) returns (out: seq<T>)
    requires Sorted(s, key)
    ensures Sorted(out, key)
    ensures multiset(out) == multiset(s) + multiset{x}
  {
    var i := |s|;
    while i > 0 && key(x) < key(s[i - 1])
      invariant 0 <= i <= |s|
      invariant forall k :: i <= k < |s| ==> key(x) < key(s[k])
    {
      i := i - 1;
    }
    out := s[..i] + [x] + s[i..];
    SpliceMembers(s, x, i);
  }

  method SortBy<T>(s: seq<T>, key: T -> real) returns (out: seq<T>)
    ensures Sorted(out, key)
    ensures multiset(out) == multiset(s)
  {
    out := [];
    for i := 0 to |s|
      invariant Sorted(out, key)
      invariant multiset(out) == multiset(s[..i])
    {
      assert s[..i + 1] == s[..i] + [s[i]];
      out := Insert(out, s[i], key);
    }
    assert s[..|s|] == s;
  }

  /** A permutation has the same members and the same length. */
  lemma {:induction false} SameMembers<T>(a: seq<T>, b: seq<T>)
    requires multiset(a) == multiset(b)
    ensures |a| == |b|
    ensures forall x :: x in a <==> x in b
  {
    assert |multiset(a)| == |a| && |multiset(b)| == |b|;
    forall x
      ensures x in a <==> x in b
    {
      assert x in a <==> x in multiset(a);
      assert x in b <==> x in multiset(b);
    }
  }

  ghost predicate Distinct<T>(s: seq<T>) {
    forall i, j :: 0 <= i < j < |s| ==> s[i] != s[j]
  }

  lemma {:induction false} DistinctOnce<T>(s: seq<T>, x: T)
    requires Distinct(s)
    ensures multiset(s)[x] <= 1
  {
    if s != [] {
      var n := |s| - 1;
      assert s == s[..n] + [s[n]];
      DistinctOnce(s[..n], x);
    }
  }

  /** A permutation of distinct elements is distinct. */
  lemma {:induction false} DistinctPermutation<T>(a: seq<T>, b: seq<T>)
    requires multiset(a) == multiset(b) && Distinct(a)
    ensures Distinct(b)
  {
    forall i, j | 0 <= i < j < |b|
      ensures b[i] != b[j]
    {
      DistinctOnce(a, b[i]);
      assert b == b[..i] + [b[i]] + b[i + 1..j] + [b[j]] + b[j + 1..];
    }
  }
}
