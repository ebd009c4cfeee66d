/** Grouping a sequence by a key while accumulating the members of each group, in the abstract: what
    every such loop conserves and why the order of its input does not matter. */
module Grouping {
  import opened Folds
  import Sorting

  /** The map a loop builds that starts a group with its first record and adds every later one. */
  function Groups<R, K>(key: R -> K, add: (R, R) -> R, input: seq<R>): map<K, R> {
    if input == [] then map[]
    else
      var g, r := Groups(key, add, input[..|input| - 1]), input[|input| - 1];
      g[key(r) := if key(r) in g then add(g[key(r)], r) else r]
  }

  /** `out` lists a grouping: one record for each key, each under its own key. */
  ghost predicate Lists<R, K>(key: R -> K, out: seq<R>, g: map<K, R>) {
    && (forall i :: 0 <= i < |out| ==> key(out[i]) in g && out[i] == g[key(out[i])])
    && (forall k :: k in g ==> g[k] in out)
    && Sorting.Distinct(out)
  }

  /** Accumulating within a group does not move the group. */
  ghost predicate Stable<R(!new), K>(key: R -> K, add: (R, R) -> R) {
    forall a, b :: key(a) == key(b) ==> key(add(a, b)) == key(a)
  }

  /** `part` is what accumulation within a group adds up: `op`, with `unit` for nothing. */
  ghost predicate Accumulates<R(!new), K, T(!new)>(
      key: R -> K, add: (R, R) -> R, part: R -> T, op: (T, T) -> T, unit: T) {
    && Commutes(op) && Associates(op)
    && (forall p :: op(unit, p) == p && op(p, unit) == p)
    && forall a, b :: key(a) == key(b) ==> part(add(a, b)) == op(part(a), part(b))
  }

  lemma {:induction false} GroupsKeepTheirKeys<R(!new), K>(key: R -> K, add: (R, R) -> R, input: seq<R>)
    requires Stable(key, add)
    ensures forall k :: k in Groups(key, add, input) ==> key(Groups(key, add, input)[k]) == k
  {
    if input != [] {
      GroupsKeepTheirKeys(key, add, input[..|input| - 1]);
    }
  }

  /** The values of a grouping, in any order. */
  method Values<R, K(!new)>(ghost key: R -> K, groups: map<K, R>) returns (out: seq<R>)
    requires forall k :: k in groups ==> key(groups[k]) == k
    ensures Lists(key, out, groups)
  {
    out := [];
    var rest := groups.Keys;
    while rest != {}
      invariant rest <= groups.Keys
      invariant forall i :: 0 <= i < |out| ==>
                              key(out[i]) in groups.Keys - rest && out[i] == groups[key(out[i])]
      invariant forall k :: k in groups.Keys - rest ==> groups[k] in out
      invariant Sorting.Distinct(out)
    {
      var k :| k in rest;
      out := out + [groups[k]];
      rest := rest - {k};
    }
  }

  lemma {:induction false} ListsInAnyOrder<R, K>(key: R -> K, a: seq<R>, b: seq<R>, g: map<K, R>)
    requires Lists(key, a, g) && multiset(a) == multiset(b)
    ensures Lists(key, b, g)
  {
    Sorting.SameMembers(a, b);
    Sorting.DistinctPermutation(a, b);
    forall i | 0 <= i < |b|
      ensures key(b[i]) in g && b[i] == g[key(b[i])]
    {
      assert b[i] in a;
    }
  }

  /** Where a listing of a grouping keeps a key. */
  lemma {:induction false} KeyIndex<R, K>(key: R -> K, out: seq<R>, g: map<K, R>, k: K) returns (i: nat)
    requires Lists(key, out, g) && k in g && key(g[k]) == k
    ensures i < |out| && out[i] == g[k]
    ensures forall j :: 0 <= j < |out| && j != i ==> key(out[j]) != k
  {
    i :| 0 <= i < |out| && out[i] == g[k];
  }

  lemma {:induction false} FirstTwoDiffer<R>(s: seq<R>)
    requires Sorting.Distinct(s) && |s| > 1
    ensures s[0] != s[1]
  {
  }

  lemma {:induction false} SingleListing<R, K>(key: R -> K, out: seq<R>, g: map<K, R>, k: K)
    requires Lists(key, out, g) && g.Keys == {k}
    ensures out == [g[k]]
  {
    assert g[k] in out;
    assert forall i :: 0 <= i < |out| ==> out[i] == g[k];
    if |out| > 1 {
      FirstTwoDiffer(out);
      assert false;
    }
  }

  /** Dropping the record of one key from a listing. */
  lemma {:induction false} ListsWithout<R, K(!new)>(
      key: R -> K, out: seq<R>, i: nat, g: map<K, R>, g0: map<K, R>, k: K)
    requires Lists(key, out, g) && i < |out| && k in g && out[i] == g[k] && key(g[k]) == k
    requires k !in g0 && g == g0[k := g[k]]
    requires forall j :: 0 <= j < |out| && j != i ==> key(out[j]) != k
    requires forall c :: c in g0 ==> key(g0[c]) == c
    ensures Lists(key, Without(out, i), g0)
  {
    var rest := Without(out, i);
    assert forall j :: 0 <= j < |rest| ==> rest[j] == out[if j < i then j else j + 1];
    forall c | c in g0
      ensures g0[c] in rest
    {
      assert g[c] in out;
      var j :| 0 <= j < |out| && out[j] == g[c];
      assert rest[if j < i then j else j - 1] == g0[c];
    }
  }

  /** Putting an earlier record of the same key in its place. */
  lemma {:induction false} ListsBefore<R, K(!new)>(key: R -> K, rest: seq<R>, g0: map<K, R>, k: K)
    requires k in g0 && Lists(key, rest, g0 - {k})
    requires forall c :: c in g0 ==> key(g0[c]) == c
    ensures Lists(key, rest + [g0[k]], g0)
  {
    var before := rest + [g0[k]];
    assert before[|rest|] == g0[k];
    forall c | c in g0
      ensures g0[c] in before
    {
      assert c != k ==> c in g0 - {k} && (g0 - {k})[c] in rest;
    }
  }

  /** Conservation: whatever listing of the groups comes out, it accounts for exactly what went in. */
  lemma {:induction false} GroupingConserves<R(!new), K(!new), T(!new)>(
      key: R -> K, add: (R, R) -> R, part: R -> T, op: (T, T) -> T, unit: T, input: seq<R>, out: seq<R>)
    requires Stable(key, add) && Accumulates(key, add, part, op, unit)
    requires Lists(key, out, Groups(key, add, input))
    ensures Fold(out, part, op, unit) == Fold(input, part, op, unit)
    decreases |input|
  {
    var g := Groups(key, add, input);
    if input == [] {
      if out != [] {
        assert false;
      }
    } else {
      var n := |input| - 1;
      var g0, r := Groups(key, add, input[..n]), input[n];
      var k := key(r);
      GroupsKeepTheirKeys(key, add, input);
      GroupsKeepTheirKeys(key, add, input[..n]);
      var i := KeyIndex(key, out, g, k);
      PullOut(out, i, part, op, unit);
      ListsWithout(key, out, i, g, g0 - {k}, k);
      var rest := Without(out, i);
      if k in g0 {
        var before := rest + [g0[k]];
        ListsBefore(key, rest, g0, k);
        GroupingConserves(key, add, part, op, unit, input[..n], before);
        assert before[..|rest|] == rest;
        assert op(op(Fold(rest, part, op, unit), part(g0[k])), part(r))
            == op(Fold(rest, part, op, unit), op(part(g0[k]), part(r)));
      } else {
        assert g0 - {k} == g0;
        GroupingConserves(key, add, part, op, unit, input[..n], rest);
      }
    }
  }

  /** What one record contributes to the group of `k`. */
  function Share<R, K(==), T>(key: R -> K, part: R -> T, unit: T, k: K): R -> T {
    (r: R) => if key(r) == k then part(r) else unit
  }

  /** The group of a key is the accumulation of the records of that key. */
  lemma {:induction false} GroupIsItsShare<R(!new), K, T(!new)>(
      key: R -> K, add: (R, R) -> R, part: R -> T, op: (T, T) -> T, unit: T, input: seq<R>, k: K)
    requires Stable(key, add) && Accumulates(key, add, part, op, unit)
    ensures var g := Groups(key, add, input);
            Fold(input, Share(key, part, unit, k), op, unit) == if k in g then part(g[k]) else unit
  {
    if input != [] {
      GroupsKeepTheirKeys(key, add, input[..|input| - 1]);
      GroupIsItsShare(key, add, part, op, unit, input[..|input| - 1], k);
    }
  }

  lemma {:induction false} KeysOfGroups<R, K>(key: R -> K, add: (R, R) -> R, input: seq<R>, k: K)
    ensures k in Groups(key, add, input) <==> exists i :: 0 <= i < |input| && key(input[i]) == k
  {
    if input != [] {
      var n := |input| - 1;
      KeysOfGroups(key, add, input[..n], k);
      assert forall i :: 0 <= i < n ==> input[..n][i] == input[i];
    }
  }

  /** The order of the input does not matter: the same keys, and for each key the same
      accumulation. */
  lemma {:induction false} GroupsIgnoreOrder<R(!new), K, T(!new)>(
      key: R -> K, add: (R, R) -> R, part: R -> T, op: (T, T) -> T, unit: T, a: seq<R>, b: seq<R>, k: K)
    requires Stable(key, add) && Accumulates(key, add, part, op, unit) && multiset(a) == multiset(b)
    ensures k in Groups(key, add, a) <==> k in Groups(key, add, b)
    ensures k in Groups(key, add, a) ==> part(Groups(key, add, a)[k]) == part(Groups(key, add, b)[k])
  {
    GroupIsItsShare(key, add, part, op, unit, a, k);
    GroupIsItsShare(key, add, part, op, unit, b, k);
    FoldOfPermutation(a, b, Share(key, part, unit, k), op, unit);
    if k in Groups(key, add, a) { SameKeys(key, add, a, b, k); }
    if k in Groups(key, add, b) { SameKeys(key, add, b, a, k); }
  }

  lemma {:induction false} SameKeys<R, K>(key: R -> K, add: (R, R) -> R, a: seq<R>, b: seq<R>, k: K)
    requires multiset(a) == multiset(b) && k in Groups(key, add, a)
    ensures k in Groups(key, add, b)
  {
    KeysOfGroups(key, add, a, k);
    KeysOfGroups(key, add, b, k);
    Sorting.SameMembers(a, b);
    var i :| 0 <= i < |a| && key(a[i]) == k;
    assert a[i] in b;
  }

  /** A coarser key: one that groups of the finer key agree on. */
  ghost predicate Coarser<R(!new), K, L>(key: R -> K, add: (R, R) -> R, coarse: R -> L) {
    && (forall a, b :: key(a) == key(b) ==> coarse(a) == coarse(b))
    && (forall a, b :: key(a) == key(b) ==> coarse(add(a, b)) == coarse(a))
  }

  /** What the groups of a fine key hold of one coarse key is what the input held of it. */
  lemma {:induction false} CoarseShare<R(!new), K(!new), L, T(!new)>(
      key: R -> K, coarse: R -> L, add: (R, R) -> R, part: R -> T, op: (T, T) -> T, unit: T,
      input: seq<R>, out: seq<R>, l: L)
    requires Stable(key, add) && Accumulates(key, add, part, op, unit) && Coarser(key, add, coarse)
    requires Lists(key, out, Groups(key, add, input))
    ensures Fold(out, Share(coarse, part, unit, l), op, unit) == Fold(input, Share(coarse, part, unit, l), op, unit)
  {
    GroupingConserves(key, add, Share(coarse, part, unit, l), op, unit, input, out);
  }
}
