/** MiniCausalGraph of models/src/alg_models/causal/psi_pc.py: an adjacency matrix with the
    bookkeeping of the skeleton search. The conditional-independence test is a parameter. */
module CausalGraph {
  import opened Collections
  import Sorting

  /** p-value of the independence of two columns, the smaller first, given a set of columns. */
  type Test = (nat, nat, set<nat>) -> real
  type Edges = set<(nat, nat)>

  /** The test as the search uses it: on an unordered pair. */
  function P(test: Test, x: nat, y: nat, s: set<nat>): real {
    if x < y then test(x, y, s) else test(y, x, s)
  }

  function Adjacent(e: Edges, x: nat): set<nat> {
    set p | p in e && p.0 == x :: p.1
  }

  function Complete(n: nat): Edges {
    set i, j | 0 <= i < n && 0 <= j < n && i != j :: (i, j)
  }

  function Without(e: Edges, x: nat, y: nat): Edges {
    e - {(x, y), (y, x)}
  }

  /** Undirected edges between `n` nodes, without loops. */
  ghost predicate Undirected(e: Edges, n: nat) {
    forall i, j :: (i, j) in e ==> i < n && j < n && i != j && (j, i) in e
  }

  ghost predicate Degrees(e: Edges, n: nat, bound: nat) {
    forall i :: 0 <= i < n ==> |Adjacent(e, i)| <= bound
  }

  type Key = (nat, nat, set<nat>)

  ghost predicate Faithful(cache: map<Key, real>, test: Test) {
    forall k :: k in cache ==> cache[k] == test(k.0, k.1, k.2)
  }

  /** A separating set of an ordered pair: evidence that the edge had to go. */
  ghost predicate Separates(test: Test, alpha: real, x: nat, y: nat, sep: seq<nat>) {
    P(test, x, y, Members(sep)) > alpha && x !in sep && y !in sep
  }

  /** An edge is gone for a reason: it was waived beforehand, or both orders of the pair record the
      same separating set. */
  ghost predicate Explained(test: Test, alpha: real, waived: Edges, sepset: map<(nat, nat), seq<nat>>, x: nat, y: nat) {
    (x, y) in waived || ((x, y) in sepset && (y, x) in sepset && sepset[(x, y)] == sepset[(y, x)]
                         && Separates(test, alpha, x, y, sepset[(x, y)]))
  }

  ghost predicate AllExplained(
      test: Test, alpha: real, waived: Edges, sepset: map<(nat, nat), seq<nat>>, e: Edges, n: nat) {
    forall i, j :: 0 <= i < n && 0 <= j < n && i != j && (i, j) !in e ==>
      Explained(test, alpha, waived, sepset, i, j)
  }

  type PValues = map<(nat, nat), seq<real>>

  /** The kept p-values are symmetric, come from tests of their pair, and all spoke for an edge. */
  ghost predicate Dependent(test: Test, pValues: PValues, alpha: real) {
    forall x, y :: (x, y) in pValues ==>
      (y, x) in pValues && pValues[(x, y)] == pValues[(y, x)]
      && AllSpoke(test, x, y, pValues[(x, y)], alpha)
  }

  ghost predicate AllSpoke(test: Test, x: nat, y: nat, values: seq<real>, alpha: real) {
    forall i :: 0 <= i < |values| ==> values[i] <= alpha && Tested(test, x, y, values[i])
  }

  /** Some test of the pair gave `p`. */
  ghost predicate Tested(test: Test, x: nat, y: nat, p: real) {
    exists s: set<nat> :: P(test, x, y, s) == p
  }

  ghost predicate HasValue(pValues: PValues, x: nat, y: nat) {
    (x, y) in pValues && pValues[(x, y)] != []
  }

  /** Every edge of `x` has a p-value. */
  ghost predicate HasValues(pValues: PValues, e: Edges, x: nat) {
    forall y :: y in Adjacent(e, x) ==> HasValue(pValues, x, y)
  }

  /** p-values are only ever added. */
  ghost predicate Grown(before: PValues, after: PValues) {
    forall x, y :: HasValue(before, x, y) ==> HasValue(after, x, y)
  }

  lemma {:induction false} ValuesStay(before: PValues, after: PValues, e: Edges, e': Edges, x: nat)
    requires HasValues(before, e, x) && Grown(before, after) && e' <= e
    ensures HasValues(after, e', x)
  {
  }

  class MiniCausalGraph {
    const n: nat
    const test: Test
    const graph: array2<int>
    var sepset: map<(nat, nat), seq<nat>>
    var pValues: PValues
    var mi: seq<nat>
    var cache: map<Key, real>
    var tests: nat

    ghost predicate Valid()
      reads this`cache, graph
    {
      graph.Length0 == graph.Length1 == n && Undirected(EdgeSet(), n) && Faithful(cache, test)
    }

    ghost function EdgeSet(): Edges
      reads graph
    {
      set i, j | 0 <= i < graph.Length0 && 0 <= j < graph.Length1 && graph[i, j] != 0 :: (i, j)
    }

    /** The books are in order: what is gone is explained, and what was kept was dependent. */
    ghost predicate Consistent(alpha: real, waived: Edges)
      reads this`cache, this`sepset, this`pValues, graph
    {
      Valid() && AllExplained(test, alpha, waived, sepset, EdgeSet(), n) && Dependent(test, pValues, alpha)
    }

    constructor (n: nat, test: Test)
      ensures Valid() && fresh(graph) && this.n == n && this.test == test
      ensures EdgeSet() == Complete(n)
      ensures sepset == map[] && pValues == map[] && mi == [] && cache == map[] && tests == 0
    {
      this.n, this.test := n, test;
      graph := new int[n, n]((i, j) => if i == j then 0 else 1);
      sepset, pValues, mi, cache, tests := map[], map[], [], map[], 0;
    }

    method Neighbors(i: nat) returns (s: seq<nat>)
      requires Valid() && i < n
      ensures Sorting.Distinct(s) && Members(s) == Adjacent(EdgeSet(), i)
      ensures forall j :: 0 <= j < |s| ==> s[j] < n && s[j] in Adjacent(EdgeSet(), i)
    {
      s := [];
      for j := 0 to n
        invariant forall k :: 0 <= k < |s| ==> s[k] < j
        invariant Sorting.Distinct(s)
        invariant forall k :: k in s <==> 0 <= k < j && (i, k) in EdgeSet()
      {
        if graph[i, j] != 0 { s := s + [j]; }
      }
      assert forall k :: k in Adjacent(EdgeSet(), i) <==> (i, k) in EdgeSet();
    }

    method MaxDegree() returns (m: nat)
      requires Valid() && n >= 1
      ensures Degrees(EdgeSet(), n, m)
      ensures exists i :: 0 <= i < n && |Adjacent(EdgeSet(), i)| == m
      ensures m <= n - 1
    {
      ghost var e, at := EdgeSet(), 0;
      m := Degree(0);
      for i := 1 to n
        invariant at < i && |Adjacent(e, at)| == m
        invariant forall k :: 0 <= k < i ==> |Adjacent(e, k)| <= m
      {
        var d := Degree(i);
        if d > m { m, at := d, i; }
      }
      DegreeBound(e, n, at);
    }

    method Degree(i: nat) returns (d: nat)
      requires Valid() && i < n
      ensures d == |Adjacent(EdgeSet(), i)|
    {
      var s := Neighbors(i);
      DistinctSize(s);
      d := |s|;
    }

    method RemoveEdge(x: nat, y: nat)
      requires Valid() && x < n && y < n
      modifies graph
      ensures Valid() && EdgeSet() == Without(old(EdgeSet()), x, y)
    {
      graph[x, y] := 0;
      graph[y, x] := 0;
      assert forall i, j :: (i, j) in EdgeSet() <==> (i, j) in Without(old(EdgeSet()), x, y);
    }

    method AppendToMi(node: nat)
      modifies this`mi
      ensures Members(mi) == Members(old(mi)) + {node}
      ensures Sorting.Distinct(old(mi)) ==> Sorting.Distinct(mi)
    {
      if node !in mi { mi := mi + [node]; }
    }

    /** Cached: but always what the test itself would say. */
    method CiTest(i: nat, j: nat, s: seq<nat>) returns (p: real)
      requires Valid()
      modifies this`cache, this`tests
      ensures Valid() && p == P(test, i, j, Members(s)) && tests == old(tests) + 1
    {
      tests := tests + 1;
      var lo, hi := if i < j then i else j, if i < j then j else i;
      var key := (lo, hi, set k | k in s);
      if key in cache {
        return cache[key];
      }
      p := test(lo, hi, set k | k in s);
      cache := cache[key := p];
    }

    method AppendValue(x: nat, y: nat, value: real)
      modifies this`pValues
      ensures pValues == Appended(old(pValues), x, y, value)
    {
      pValues := pValues[(x, y) := (if (x, y) in pValues then pValues[(x, y)] else []) + [value]];
    }

    method AppendBoth(x: nat, y: nat, value: real, ghost alpha: real)
      requires Dependent(test, pValues, alpha) && value <= alpha && x != y && Tested(test, x, y, value)
      modifies this`pValues
      ensures Dependent(test, pValues, alpha) && Grown(old(pValues), pValues) && HasValue(pValues, x, y)
    {
      AppendedStaysDependent(test, pValues, alpha, x, y, value);
      AppendValue(x, y, value);
      AppendValue(y, x, value);
    }
  }

  function Appended(m: PValues, x: nat, y: nat, value: real): PValues {
    m[(x, y) := (if (x, y) in m then m[(x, y)] else []) + [value]]
  }

  lemma {:induction false} AppendedStaysDependent(
      test: Test, pValues: PValues, alpha: real, x: nat, y: nat, value: real)
    requires Dependent(test, pValues, alpha) && value <= alpha && x != y && Tested(test, x, y, value)
    ensures Dependent(test, Appended(Appended(pValues, x, y, value), y, x, value), alpha)
  {
    var s: set<nat> :| P(test, x, y, s) == value;
    assert P(test, y, x, s) == value;
    var after := Appended(Appended(pValues, x, y, value), y, x, value);
    forall i, j | (i, j) in after
      ensures (j, i) in after && after[(i, j)] == after[(j, i)] && AllSpoke(test, i, j, after[(i, j)], alpha)
    {
      assert (i, j) in pValues ==> AllSpoke(test, i, j, pValues[(i, j)], alpha);
    }
  }

  function Upto(n: nat): set<nat> {
    if n == 0 then {} else Upto(n - 1) + {n - 1}
  }

  lemma {:induction false} UptoSize(n: nat)
    ensures |Upto(n)| == n
    ensures forall i: nat :: i in Upto(n) <==> i < n
  {
    if n > 0 {
      UptoSize(n - 1);
    }
  }

  lemma {:induction false} DegreeBound(e: Edges, n: nat, x: nat)
    requires Undirected(e, n) && x < n
    ensures |Adjacent(e, x)| <= n - 1
  {
    UptoSize(n);
    assert Adjacent(e, x) <= Upto(n) - {x};
    SubsetSize(Adjacent(e, x), Upto(n) - {x});
  }
}
