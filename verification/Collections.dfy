/** Optional values, and the members of sequences. */
module Collections {
  import Sorting

  datatype Option<T> = None | Some(value: T)

  function Members<T>(s: seq<T>): set<T> {
    set x | x in s
  }

  lemma {:induction false} PrefixGrows<T>(s: seq<T>, i: nat)
    requires i < |s|
    ensures s[..i + 1] == s[..i] + [s[i]]
  {
  }

  lemma {:induction false} DistinctSize<T>(s: seq<T>)
    requires Sorting.Distinct(s)
    ensures |Members(s)| == |s|
  {
    if s != [] {
      var n := |s| - 1;
      DistinctSize(s[..n]);
      assert Members(s) == Members(s[..n]) + {s[n]};
      assert s[n] !in s[..n];
    }
  }

  lemma {:induction false} SubsetSize<T>(a: set<T>, b: set<T>)
    requires a <= b
    ensures |a| <= |b|
  {
    assert b == a + (b - a);
  }
}
