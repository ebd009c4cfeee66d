/** Skeleton discovery of models/src/alg_models/causal/psi_pc.py: both searches remove edges depth by
    depth, and what survives has withstood every test that the final graph still calls for. */
module Skeleton {
  import opened Collections
  import opened Combinations
  import opened CausalGraph
  import Sorting

  /** No separating set of size `k` within the pool. */
  ghost predicate Held(test: Test, alpha: real, x: nat, y: nat, pool: set<nat>, k: nat) {
    forall sub: set<nat> :: sub <= pool && |sub| == k ==> P(test, x, y, sub) <= alpha
  }

  // ---- testing one edge ----

  /** Tests an edge against all combinations of one size and removes it at the first that separates. */
  method TestEdge(cg: MiniCausalGraph, x: nat, y: nat, order: seq<nat>, depth: nat, alpha: real,
                  ghost waived: Edges)
    returns (removed: bool)
    requires cg.Consistent(alpha, waived) && (x, y) in cg.EdgeSet()
    requires Sorting.Distinct(order) && x !in order && y !in order
    modifies cg`cache, cg`tests, cg`sepset, cg`pValues, cg.graph
    ensures cg.Consistent(alpha, waived)
    ensures cg.EdgeSet() == if removed then Without(old(cg.EdgeSet()), x, y) else old(cg.EdgeSet())
    ensures removed <==> !Held(cg.test, alpha, x, y, Members(order), depth)
    ensures Grown(old(cg.pValues), cg.pValues)
    ensures depth == 0 && !removed ==> HasValue(cg.pValues, x, y)
  {
    var choices := Choose(order, depth);
    ChooseIsExact(order, depth);
    removed := false;
    for i := 0 to |choices|
      invariant cg.Consistent(alpha, waived) && cg.EdgeSet() == old(cg.EdgeSet())
      invariant forall k :: 0 <= k < i ==> P(cg.test, x, y, Members(choices[k])) <= alpha
      invariant Grown(old(cg.pValues), cg.pValues) && (i > 0 ==> HasValue(cg.pValues, x, y))
    {
      var p := cg.CiTest(x, y, choices[i]);
      if p > alpha {
        NotHeld(cg.test, alpha, x, y, order, depth, choices, i);
        Separate(cg, x, y, choices[i], alpha, waived);
        return true;
      }
      cg.AppendBoth(x, y, p, alpha);
    }
  }

  method Separate(cg: MiniCausalGraph, x: nat, y: nat, sep: seq<nat>, alpha: real, ghost waived: Edges)
    requires cg.Consistent(alpha, waived) && (x, y) in cg.EdgeSet()
    requires P(cg.test, x, y, Members(sep)) > alpha && x !in sep && y !in sep
    modifies cg`sepset, cg.graph
    ensures cg.Consistent(alpha, waived) && cg.EdgeSet() == Without(old(cg.EdgeSet()), x, y)
  {
    ghost var sepset0 := cg.sepset;
    cg.RemoveEdge(x, y);
    cg.sepset := cg.sepset[(x, y) := sep];
    cg.sepset := cg.sepset[(y, x) := sep];
  }

  lemma {:induction false} NotHeld(
      test: Test, alpha: real, x: nat, y: nat, order: seq<nat>, depth: nat, choices: seq<seq<nat>>, i: nat)
    requires Within(choices, depth, Members(order)) && Sorting.Distinct(order)
    requires i < |choices| && P(test, x, y, Members(choices[i])) > alpha
    requires x !in order && y !in order
    ensures !Held(test, alpha, x, y, Members(order), depth)
    ensures x !in choices[i] && y !in choices[i]
  {
    var sub := Members(choices[i]);
    assert sub <= Members(order) && |sub| == depth && P(test, x, y, sub) > alpha;
    assert x !in sub && y !in sub;
  }

  // ---- the search over all nodes ----

  ghost predicate NodeTested(test: Test, alpha: real, e: Edges, x: nat, depth: nat) {
    forall y :: y in Adjacent(e, x) ==> Held(test, alpha, x, y, Adjacent(e, x) - {y}, depth)
  }

  ghost predicate TestedBelow(test: Test, alpha: real, e: Edges, n: nat, depth: nat) {
    forall x, k :: 0 <= x < n && 0 <= k < depth ==> NodeTested(test, alpha, e, x, k)
  }

  /** Every surviving edge is dependent given any set of the other final neighbours of an end. */
  ghost predicate SkeletonComplete(test: Test, alpha: real, e: Edges) {
    forall x, y, sub: set<nat> :: (x, y) in e && sub <= Adjacent(e, x) - {y} ==> P(test, x, y, sub) <= alpha
  }

  lemma {:induction false} NodeStaysTested(test: Test, alpha: real, e: Edges, e': Edges, x: nat, depth: nat)
    requires e' <= e && NodeTested(test, alpha, e, x, depth)
    ensures NodeTested(test, alpha, e', x, depth)
  {
    forall y | y in Adjacent(e', x)
      ensures Held(test, alpha, x, y, Adjacent(e', x) - {y}, depth)
    {
      assert Held(test, alpha, x, y, Adjacent(e, x) - {y}, depth);
    }
  }

  lemma {:induction false} StaysTestedBelow(test: Test, alpha: real, e: Edges, e': Edges, n: nat, depth: nat)
    requires e' <= e && TestedBelow(test, alpha, e, n, depth)
    ensures TestedBelow(test, alpha, e', n, depth)
  {
    forall x, k | 0 <= x < n && 0 <= k < depth
      ensures NodeTested(test, alpha, e', x, k)
    {
      NodeStaysTested(test, alpha, e, e', x, k);
    }
  }

  /** Once the depth has caught up with the degrees, no test is missing. */
  lemma {:induction false} DeepEnough(test: Test, alpha: real, e: Edges, n: nat, depth: nat, degree: nat)
    requires Undirected(e, n) && Degrees(e, n, degree) && degree <= depth
    requires TestedBelow(test, alpha, e, n, depth)
    ensures SkeletonComplete(test, alpha, e)
  {
    forall x, y, sub: set<nat> | (x, y) in e && sub <= Adjacent(e, x) - {y}
      ensures P(test, x, y, sub) <= alpha
    {
      SubsetSize(sub, Adjacent(e, x) - {y});
      assert |sub| < |Adjacent(e, x)| <= degree;
      assert NodeTested(test, alpha, e, x, |sub|);
      assert Held(test, alpha, x, y, Adjacent(e, x) - {y}, |sub|);
    }
  }

  method RemoveAt(s: seq<nat>, y: nat) returns (t: seq<nat>)
    requires Sorting.Distinct(s)
    ensures Sorting.Distinct(t) && Members(t) == Members(s) - {y}
  {
    t := [];
    for i := 0 to |s|
      invariant Sorting.Distinct(t) && forall v :: v in t <==> v in s[..i] && v != y
    {
      assert s[i] !in s[..i];
      if s[i] != y { t := t + [s[i]]; }
    }
    assert s[..|s|] == s;
  }

  method Arranged(s: seq<nat>, key: nat -> real) returns (t: seq<nat>)
    requires Sorting.Distinct(s)
    ensures Sorting.Distinct(t) && Members(t) == Members(s) && multiset(t) == multiset(s)
    ensures forall k :: 0 <= k < |t| ==> t[k] in s
  {
    t := Sorting.SortBy(s, key);
    Sorting.DistinctPermutation(s, t);
    Sorting.SameMembers(s, t);
  }

  /** A node at one depth: each edge of the node against the neighbours it started with. */
  method VisitNode(cg: MiniCausalGraph, x: nat, depth: nat, alpha: real, key: nat -> real)
    requires cg.Consistent(alpha, {}) && x < cg.n
    modifies cg`cache, cg`tests, cg`sepset, cg`pValues, cg.graph
    ensures cg.Consistent(alpha, {}) && cg.EdgeSet() <= old(cg.EdgeSet())
    ensures NodeTested(cg.test, alpha, cg.EdgeSet(), x, depth)
    ensures Grown(old(cg.pValues), cg.pValues) && (depth == 0 ==> HasValues(cg.pValues, cg.EdgeSet(), x))
  {
    var neigh := cg.Neighbors(x);
    ghost var pool := Adjacent(cg.EdgeSet(), x);
    DistinctSize(neigh);
    if |neigh| < depth - 1 {
      TooFew(cg.test, alpha, cg.EdgeSet(), x, depth);
      return;
    }
    var order := Arranged(neigh, key);
    AllPending(old(cg.EdgeSet()), x, order);
    for i := 0 to |order|
      invariant cg.Consistent(alpha, {}) && cg.EdgeSet() <= old(cg.EdgeSet())
      invariant Progress(cg.test, alpha, cg.EdgeSet(), x, order, i, pool, depth)
      invariant Grown(old(cg.pValues), cg.pValues)
      invariant depth == 0 ==> ValuesSoFar(cg.pValues, cg.EdgeSet(), x, order, i)
    {
      ghost var e := cg.EdgeSet();
      VisitEdge(cg, x, order[i], neigh, depth, alpha, key);
      ProgressStep(cg.test, alpha, e, cg.EdgeSet(), x, order, i, pool, pool, depth);
    }
    NodeDone(cg.test, alpha, old(cg.EdgeSet()), cg.EdgeSet(), x, depth, order, pool);
    if depth == 0 { ValuesComplete(cg.pValues, pool, cg.EdgeSet(), x, order); }
  }

  /** Of the first `i` neighbours, those left have p-values. */
  ghost predicate ValuesSoFar(pValues: PValues, e: Edges, x: nat, order: seq<nat>, i: nat) {
    forall k :: 0 <= k < i && k < |order| && (x, order[k]) in e ==> HasValue(pValues, x, order[k])
  }

  lemma {:induction false} ValuesStep(
      before: PValues, after: PValues, e: Edges, e': Edges, x: nat, order: seq<nat>, i: nat)
    requires ValuesSoFar(before, e, x, order, i) && Grown(before, after) && e' <= e && i < |order|
    requires (x, order[i]) in e' ==> HasValue(after, x, order[i])
    ensures ValuesSoFar(after, e', x, order, i + 1)
  {
  }

  lemma {:induction false} ValuesComplete(pValues: PValues, pool: set<nat>, e: Edges, x: nat, order: seq<nat>)
    requires ValuesSoFar(pValues, e, x, order, |order|) && Members(order) == pool && Adjacent(e, x) <= pool
    ensures HasValues(pValues, e, x)
  {
    forall y | y in Adjacent(e, x)
      ensures HasValue(pValues, x, y)
    {
      assert y in Members(order);
      var k :| 0 <= k < |order| && order[k] == y;
    }
  }

  method VisitEdge(cg: MiniCausalGraph, x: nat, y: nat, neigh: seq<nat>, depth: nat, alpha: real, key: nat -> real)
    requires cg.Consistent(alpha, {}) && (x, y) in cg.EdgeSet()
    requires Sorting.Distinct(neigh) && x !in Members(neigh)
    modifies cg`cache, cg`tests, cg`sepset, cg`pValues, cg.graph
    ensures cg.Consistent(alpha, {})
    ensures cg.EdgeSet() == old(cg.EdgeSet()) || cg.EdgeSet() == Without(old(cg.EdgeSet()), x, y)
    ensures (x, y) in cg.EdgeSet() ==> Held(cg.test, alpha, x, y, Members(neigh) - {y}, depth)
    ensures Grown(old(cg.pValues), cg.pValues)
    ensures depth == 0 && (x, y) in cg.EdgeSet() ==> HasValue(cg.pValues, x, y)
  {
    var others := RemoveAt(neigh, y);
    var order := Arranged(others, key);
    assert x !in Members(order) && y !in Members(order);
    var removed := TestEdge(cg, x, y, order, depth, alpha, {});
  }

  lemma {:induction false} TooFew(test: Test, alpha: real, e: Edges, x: nat, depth: nat)
    requires |Adjacent(e, x)| < depth - 1
    ensures NodeTested(test, alpha, e, x, depth)
  {
    forall y, sub: set<nat> | y in Adjacent(e, x) && sub <= Adjacent(e, x) - {y}
      ensures |sub| < depth
    {
      SubsetSize(sub, Adjacent(e, x) - {y});
    }
  }

  /** The first `i` neighbours have been tested against the pool, the rest are still there. */
  ghost predicate Progress(
      test: Test, alpha: real, e: Edges, x: nat, order: seq<nat>, i: nat, pool: set<nat>, depth: nat) {
    && (forall k :: i <= k < |order| ==> (x, order[k]) in e)
    && (forall k :: 0 <= k < i && k < |order| && (x, order[k]) in e ==>
          Held(test, alpha, x, order[k], pool - {order[k]}, depth))
  }

  lemma {:induction false} AllPending(e: Edges, x: nat, order: seq<nat>)
    requires Members(order) == Adjacent(e, x)
    ensures forall k :: 0 <= k < |order| ==> (x, order[k]) in e
  {
    forall k | 0 <= k < |order|
      ensures (x, order[k]) in e
    {
      assert order[k] in Members(order);
    }
  }

  lemma {:induction false} ProgressStep(
      test: Test, alpha: real, e: Edges, e': Edges, x: nat, order: seq<nat>, i: nat,
                     pool: set<nat>, pool': set<nat>, depth: nat)
    requires Progress(test, alpha, e, x, order, i, pool, depth) && i < |order|
    requires Sorting.Distinct(order) && x !in order && pool' <= pool
    requires e' == e || e' == Without(e, x, order[i])
    requires (x, order[i]) in e' ==> Held(test, alpha, x, order[i], pool - {order[i]}, depth)
    ensures Progress(test, alpha, e', x, order, i + 1, pool', depth)
  {
    forall k | 0 <= k < i + 1 && (x, order[k]) in e'
      ensures Held(test, alpha, x, order[k], pool' - {order[k]}, depth)
    {
      assert Held(test, alpha, x, order[k], pool - {order[k]}, depth);
    }
  }

  lemma {:induction false} NodeDone(
      test: Test, alpha: real, e: Edges, e': Edges, x: nat, depth: nat, order: seq<nat>, pool: set<nat>)
    requires e' <= e && Members(order) == Adjacent(e, x) && Adjacent(e', x) <= pool
    requires Progress(test, alpha, e', x, order, |order|, pool, depth)
    ensures NodeTested(test, alpha, e', x, depth)
  {
    forall y | y in Adjacent(e', x)
      ensures Held(test, alpha, x, y, Adjacent(e', x) - {y}, depth)
    {
      assert y in Members(order);
      var k :| 0 <= k < |order| && order[k] == y;
      assert Held(test, alpha, x, order[k], pool - {order[k]}, depth);
    }
  }

  /** All nodes at one depth, in the order of `key`. */
  method VisitAll(cg: MiniCausalGraph, depth: nat, alpha: real, key: nat -> real)
    requires cg.Consistent(alpha, {}) && TestedBelow(cg.test, alpha, cg.EdgeSet(), cg.n, depth)
    modifies cg`cache, cg`tests, cg`sepset, cg`pValues, cg.graph
    ensures cg.Consistent(alpha, {}) && cg.EdgeSet() <= old(cg.EdgeSet())
    ensures TestedBelow(cg.test, alpha, cg.EdgeSet(), cg.n, depth + 1)
    ensures Grown(old(cg.pValues), cg.pValues) && (depth == 0 ==> AllHaveValues(cg.pValues, cg.EdgeSet(), cg.n))
  {
    var order := Arranged(seq(cg.n, i => i), key);
    for i := 0 to |order|
      invariant cg.Consistent(alpha, {}) && cg.EdgeSet() <= old(cg.EdgeSet())
      invariant NodesDone(cg.test, alpha, cg.pValues, cg.EdgeSet(), order, i, depth)
      invariant Grown(old(cg.pValues), cg.pValues)
    {
      assert order[i] in Members(order);
      ghost var e, values := cg.EdgeSet(), cg.pValues;
      VisitNode(cg, order[i], depth, alpha, key);
      OneNodeMore(cg.test, alpha, values, cg.pValues, e, cg.EdgeSet(), order, i, depth);
    }
    StaysTestedBelow(cg.test, alpha, old(cg.EdgeSet()), cg.EdgeSet(), cg.n, depth);
    EveryNodeVisited(cg.test, alpha, cg.pValues, cg.EdgeSet(), cg.n, depth, order);
  }

  /** Tested at this depth, and at the first, with a p-value for every edge that is left. */
  ghost predicate NodeDoneAt(test: Test, alpha: real, pValues: PValues, e: Edges, x: nat, depth: nat) {
    NodeTested(test, alpha, e, x, depth) && (depth == 0 ==> HasValues(pValues, e, x))
  }

  ghost predicate NodesDone(
      test: Test, alpha: real, pValues: PValues, e: Edges, order: seq<nat>, i: nat, depth: nat) {
    forall k :: 0 <= k < i && k < |order| ==> NodeDoneAt(test, alpha, pValues, e, order[k], depth)
  }

  lemma {:induction false} OneNodeMore(test: Test, alpha: real, before: PValues, after: PValues, e: Edges, e': Edges,
                                       order: seq<nat>, i: nat, depth: nat)
    requires NodesDone(test, alpha, before, e, order, i, depth) && i < |order|
    requires Grown(before, after) && e' <= e && NodeDoneAt(test, alpha, after, e', order[i], depth)
    ensures NodesDone(test, alpha, after, e', order, i + 1, depth)
  {
    forall k | 0 <= k < i
      ensures NodeDoneAt(test, alpha, after, e', order[k], depth)
    {
      NodeStaysDone(test, alpha, before, after, e, e', order[k], depth);
    }
  }

  lemma {:induction false} NodeStaysDone(
      test: Test, alpha: real, before: PValues, after: PValues, e: Edges, e': Edges, x: nat, depth: nat)
    requires NodeDoneAt(test, alpha, before, e, x, depth) && Grown(before, after) && e' <= e
    ensures NodeDoneAt(test, alpha, after, e', x, depth)
  {
    NodeStaysTested(test, alpha, e, e', x, depth);
    if depth == 0 { ValuesStay(before, after, e, e', x); }
  }

  ghost predicate AllHaveValues(pValues: PValues, e: Edges, n: nat) {
    forall x :: 0 <= x < n ==> HasValues(pValues, e, x)
  }

  lemma {:induction false} ValuesStayForAll(before: PValues, after: PValues, e: Edges, e': Edges, n: nat)
    requires AllHaveValues(before, e, n) && Grown(before, after) && e' <= e
    ensures AllHaveValues(after, e', n)
  {
    forall x | 0 <= x < n
      ensures HasValues(after, e', x)
    {
      ValuesStay(before, after, e, e', x);
    }
  }

  lemma {:induction false} NoEdgesNoValues(pValues: PValues, e: Edges, n: nat)
    requires Degrees(e, n, 0)
    ensures AllHaveValues(pValues, e, n)
  {
    forall x | 0 <= x < n
      ensures HasValues(pValues, e, x)
    {
      assert Adjacent(e, x) == {};
    }
  }

  lemma {:induction false} EveryNodeVisited(
      test: Test, alpha: real, pValues: PValues, e: Edges, n: nat, depth: nat, order: seq<nat>)
    requires TestedBelow(test, alpha, e, n, depth)
    requires Members(order) == Members(seq(n, i => i))
    requires NodesDone(test, alpha, pValues, e, order, |order|, depth)
    ensures TestedBelow(test, alpha, e, n, depth + 1) && (depth == 0 ==> AllHaveValues(pValues, e, n))
  {
    forall x | 0 <= x < n
      ensures NodeTested(test, alpha, e, x, depth) && (depth == 0 ==> HasValues(pValues, e, x))
    {
      assert seq(n, i => i)[x] == x;
      assert x in Members(order);
      var k :| 0 <= k < |order| && order[k] == x;
      assert NodeDoneAt(test, alpha, pValues, e, order[k], depth);
    }
  }

  /** `skeleton_discovery`: the graph it returns is undirected, every missing edge has a recorded
      separating set, and no surviving edge could be separated by neighbours of either end. */
  method SkeletonDiscovery(n: nat, test: Test, alpha: real, key: nat -> real) returns (cg: MiniCausalGraph)
    requires n >= 1
    ensures fresh(cg) && cg.n == n && cg.test == test
    ensures cg.Consistent(alpha, {})
    ensures SkeletonComplete(test, alpha, cg.EdgeSet())
    ensures AllHaveValues(cg.pValues, cg.EdgeSet(), n)
  {
    cg := new MiniCausalGraph(n, test);
    var depth := -1;
    var degree: nat := cg.MaxDegree();
    while degree - 1 > depth
      invariant fresh(cg) && fresh(cg.graph) && cg.n == n && cg.test == test
      invariant cg.Consistent(alpha, {}) && Degrees(cg.EdgeSet(), n, degree)
      invariant degree <= n - 1 && -1 <= depth && TestedBelow(test, alpha, cg.EdgeSet(), n, depth + 1)
      invariant depth >= 0 ==> AllHaveValues(cg.pValues, cg.EdgeSet(), n)
      decreases n - depth
    {
      depth := depth + 1;
      ghost var e, values := cg.EdgeSet(), cg.pValues;
      VisitAll(cg, depth, alpha, key);
      if depth > 0 { ValuesStayForAll(values, cg.pValues, e, cg.EdgeSet(), n); }
      degree := cg.MaxDegree();
    }
    if degree == 0 { NoEdgesNoValues(cg.pValues, cg.EdgeSet(), n); }
    DeepEnough(test, alpha, cg.EdgeSet(), n, depth + 1, degree);
  }

  // ---- the search around one node ----

  function Waived(x: nat, mi: seq<nat>): (e: Edges)
    ensures forall i, j :: (i, j) in e <==> (i == x && j in mi) || (j == x && i in mi)
  {
    (set i | i in mi :: (x, i)) + (set i | i in mi :: (i, x))
  }

  /** Only edges of `x` have been touched. */
  ghost predicate AwayIntact(e: Edges, n: nat, x: nat) {
    forall i, j :: 0 <= i < n && 0 <= j < n && i != j && i != x && j != x ==> (i, j) in e
  }

  /** What the register of marginally independent nodes may hold. */
  ghost predicate Marginal(test: Test, alpha: real, waived: Edges, n: nat, x: nat, y: nat) {
    y < n && y != x && (x, y) !in waived && P(test, x, y, {}) > alpha
  }

  ghost predicate OnlyMarginal(mi: seq<nat>, test: Test, alpha: real, waived: Edges, n: nat, x: nat) {
    forall y :: y in mi ==> Marginal(test, alpha, waived, n, x, y)
  }

  ghost predicate AllMarginal(mi: seq<nat>, test: Test, alpha: real, waived: Edges, n: nat, x: nat) {
    forall y :: Marginal(test, alpha, waived, n, x, y) ==> y in mi
  }

  /** What every step of the local search keeps. */
  ghost predicate LocallySound(cg: MiniCausalGraph, alpha: real, waived: Edges, x: nat)
    reads cg`cache, cg`sepset, cg`pValues, cg`mi, cg.graph
  {
    cg.Consistent(alpha, waived) && x < cg.n && AwayIntact(cg.EdgeSet(), cg.n, x)
    && cg.EdgeSet() !! waived && OnlyMarginal(cg.mi, cg.test, alpha, waived, cg.n, x)
  }

  /** The neighbours of `y`, other than `x`, that are also neighbours of `x`. */
  method CommonNeighbors(cg: MiniCausalGraph, x: nat, y: nat) returns (common: seq<nat>)
    requires cg.Valid() && x < cg.n && y < cg.n && x != y
    ensures Sorting.Distinct(common) && x !in common && y !in common
    ensures AwayIntact(cg.EdgeSet(), cg.n, x) ==> Adjacent(cg.EdgeSet(), x) - {y} <= Members(common)
  {
    var neigh := cg.Neighbors(y);
    ghost var e := cg.EdgeSet();
    common := [];
    for i := 0 to |neigh|
      invariant Sorting.Distinct(common)
      invariant forall s :: s in common <==> s in neigh[..i] && s != x && (s, x) in e
    {
      assert neigh[i] !in neigh[..i];
      var back := cg.Neighbors(neigh[i]);
      assert x in back <==> x in Members(back);
      if neigh[i] != x && x in back { common := common + [neigh[i]]; }
    }
    assert neigh[..|neigh|] == neigh;
    forall s | s in Adjacent(e, x) - {y} && AwayIntact(e, cg.n, x)
      ensures s in common
    {
      assert (s, x) in e && (y, s) in e;
      assert s in Members(neigh);
    }
  }

  lemma {:induction false} HeldAtZero(test: Test, alpha: real, x: nat, y: nat, pool: set<nat>)
    ensures Held(test, alpha, x, y, pool, 0) <==> P(test, x, y, {}) <= alpha
  {
    if P(test, x, y, {}) > alpha {
      var none: set<nat> := {};
      assert none <= pool && |none| == 0;
    }
  }

  method VisitLocalEdge(cg: MiniCausalGraph, x: nat, y: nat, depth: nat, alpha: real, ghost waived: Edges)
    requires LocallySound(cg, alpha, waived, x) && (x, y) in cg.EdgeSet()
    modifies cg`cache, cg`tests, cg`sepset, cg`pValues, cg`mi, cg.graph
    ensures LocallySound(cg, alpha, waived, x)
    ensures cg.EdgeSet() == old(cg.EdgeSet()) || cg.EdgeSet() == Without(old(cg.EdgeSet()), x, y)
    ensures (x, y) in cg.EdgeSet() ==>
              Held(cg.test, alpha, x, y, Adjacent(old(cg.EdgeSet()), x) - {y}, depth)
    ensures depth == 0 && (x, y) !in cg.EdgeSet() ==> y in cg.mi
    ensures Grown(old(cg.pValues), cg.pValues)
    ensures depth == 0 && (x, y) in cg.EdgeSet() ==> HasValue(cg.pValues, x, y)
    ensures Members(old(cg.mi)) <= Members(cg.mi)
  {
    var order := [];
    if depth > 0 {
      order := CommonNeighbors(cg, x, y);
    }
    var removed := TestEdge(cg, x, y, order, depth, alpha, waived);
    if depth == 0 {
      HeldAtZero(cg.test, alpha, x, y, Members(order));
      HeldAtZero(cg.test, alpha, x, y, Adjacent(old(cg.EdgeSet()), x) - {y});
    }
    if removed {
      if depth == 0 {
        cg.AppendToMi(y);
        assert Marginal(cg.test, alpha, waived, cg.n, x, y);
        assert forall v :: v in cg.mi <==> v in Members(cg.mi);
        assert forall v :: v in old(cg.mi) <==> v in Members(old(cg.mi));
      }
    }
  }

  /** All edges of `x` at one depth, in the order of `key`. */
  method VisitNeighborhood(cg: MiniCausalGraph, x: nat, depth: nat, alpha: real, key: nat -> real,
                           ghost waived: Edges)
    requires LocallySound(cg, alpha, waived, x)
    modifies cg`cache, cg`tests, cg`sepset, cg`pValues, cg`mi, cg.graph
    ensures LocallySound(cg, alpha, waived, x) && cg.EdgeSet() <= old(cg.EdgeSet())
    ensures NodeTested(cg.test, alpha, cg.EdgeSet(), x, depth)
    ensures Members(old(cg.mi)) <= Members(cg.mi)
    ensures depth == 0 ==> forall y :: y in Adjacent(old(cg.EdgeSet()), x) ==>
              (x, y) in cg.EdgeSet() || y in cg.mi
    ensures Grown(old(cg.pValues), cg.pValues) && (depth == 0 ==> HasValues(cg.pValues, cg.EdgeSet(), x))
  {
    var neigh := cg.Neighbors(x);
    ghost var e := cg.EdgeSet();
    var order := Arranged(neigh, key);
    AllPending(e, x, order);
    for i := 0 to |order|
      invariant LocallySound(cg, alpha, waived, x) && cg.EdgeSet() <= e
      invariant Progress(cg.test, alpha, cg.EdgeSet(), x, order, i, Adjacent(cg.EdgeSet(), x), depth)
      invariant Members(old(cg.mi)) <= Members(cg.mi)
      invariant depth == 0 ==> Registered(cg.EdgeSet(), x, order, i, Members(cg.mi))
      invariant Grown(old(cg.pValues), cg.pValues)
      invariant depth == 0 ==> ValuesSoFar(cg.pValues, cg.EdgeSet(), x, order, i)
    {
      ghost var before, mi0, values := cg.EdgeSet(), Members(cg.mi), cg.pValues;
      VisitLocalEdge(cg, x, order[i], depth, alpha, waived);
      if depth == 0 {
        ValuesStep(values, cg.pValues, before, cg.EdgeSet(), x, order, i);
        RegisteredStep(before, cg.EdgeSet(), x, order, i, mi0, Members(cg.mi));
      }
      ProgressStep(cg.test, alpha, before, cg.EdgeSet(), x, order, i,
                   Adjacent(before, x), Adjacent(cg.EdgeSet(), x), depth);
    }
    NodeDone(cg.test, alpha, e, cg.EdgeSet(), x, depth, order, Adjacent(cg.EdgeSet(), x));
    if depth == 0 { ValuesComplete(cg.pValues, Adjacent(e, x), cg.EdgeSet(), x, order); }
  }

  /** The first `i` neighbours are still there or have been registered. */
  ghost predicate Registered(e: Edges, x: nat, order: seq<nat>, i: nat, mi: set<nat>) {
    forall k :: 0 <= k < i && k < |order| ==> (x, order[k]) in e || order[k] in mi
  }

  lemma {:induction false} RegisteredStep(
      e: Edges, e': Edges, x: nat, order: seq<nat>, i: nat, mi: set<nat>, mi': set<nat>)
    requires Registered(e, x, order, i, mi) && mi <= mi' && i < |order|
    requires Sorting.Distinct(order) && x !in order && (e' == e || e' == Without(e, x, order[i]))
    requires (x, order[i]) in e' || order[i] in mi'
    ensures Registered(e', x, order, i + 1, mi')
  {
  }

  ghost predicate NodeTestedBelow(test: Test, alpha: real, e: Edges, x: nat, depth: nat) {
    forall k :: 0 <= k < depth ==> NodeTested(test, alpha, e, x, k)
  }

  /** Every surviving edge of `x` is dependent given any set of the other final neighbours of `x`. */
  ghost predicate LocallyComplete(test: Test, alpha: real, e: Edges, x: nat) {
    forall y, sub: set<nat> :: (x, y) in e && sub <= Adjacent(e, x) - {y} ==> P(test, x, y, sub) <= alpha
  }

  lemma {:induction false} DeepEnoughAround(
      test: Test, alpha: real, e: Edges, n: nat, x: nat, depth: nat, degree: nat)
    requires x < n && Degrees(e, n, degree) && degree <= depth
    requires NodeTestedBelow(test, alpha, e, x, depth)
    ensures LocallyComplete(test, alpha, e, x)
  {
    forall y, sub: set<nat> | (x, y) in e && sub <= Adjacent(e, x) - {y}
      ensures P(test, x, y, sub) <= alpha
    {
      SubsetSize(sub, Adjacent(e, x) - {y});
      assert |sub| < |Adjacent(e, x)| <= degree;
      assert NodeTested(test, alpha, e, x, |sub|);
      assert Held(test, alpha, x, y, Adjacent(e, x) - {y}, |sub|);
    }
  }

  lemma {:induction false} OneDepthMore(test: Test, alpha: real, e: Edges, e': Edges, x: nat, depth: nat)
    requires e' <= e && NodeTestedBelow(test, alpha, e, x, depth) && NodeTested(test, alpha, e', x, depth)
    ensures NodeTestedBelow(test, alpha, e', x, depth + 1)
  {
    forall k | 0 <= k < depth
      ensures NodeTested(test, alpha, e', x, k)
    {
      NodeStaysTested(test, alpha, e, e', x, k);
    }
  }

  /** Removes the edges to nodes already known to be independent. */
  method Waive(cg: MiniCausalGraph, x: nat, mi: seq<nat>, ghost alpha: real)
    requires cg.Consistent(alpha, {}) && x < cg.n && cg.EdgeSet() == Complete(cg.n) && cg.mi == []
    requires forall i :: 0 <= i < |mi| ==> mi[i] < cg.n
    modifies cg.graph
    ensures LocallySound(cg, alpha, Waived(x, mi), x)
    ensures cg.EdgeSet() == Complete(cg.n) - Waived(x, mi)
  {
    for i := 0 to |mi|
      invariant cg.Valid() && cg.EdgeSet() == Complete(cg.n) - Waived(x, mi[..i])
    {
      WaiveOneMore(x, mi, i);
      if cg.graph[x, mi[i]] != 0 {
        cg.RemoveEdge(x, mi[i]);
      }
    }
    assert mi[..|mi|] == mi;
  }

  lemma {:induction false} WaiveOneMore(x: nat, mi: seq<nat>, i: nat)
    requires i < |mi|
    ensures Waived(x, mi[..i + 1]) == Waived(x, mi[..i]) + {(x, mi[i]), (mi[i], x)}
  {
    assert mi[..i + 1] == mi[..i] + [mi[i]];
  }

  /** `local_skeleton_discovery`: the same around one node; besides, the nodes it registers are exactly
      those that are independent of `x` given nothing. `key` gives the visiting order at each depth. */
  method LocalSkeletonDiscovery(n: nat, test: Test, x: nat, alpha: real, mi: seq<nat>, key: (nat, nat) -> real)
    returns (cg: MiniCausalGraph)
    requires x < n && forall i :: 0 <= i < |mi| ==> mi[i] < n
    ensures fresh(cg) && cg.n == n && cg.test == test
    ensures cg.Consistent(alpha, Waived(x, mi)) && cg.EdgeSet() !! Waived(x, mi)
    ensures AwayIntact(cg.EdgeSet(), n, x)
    ensures LocallyComplete(test, alpha, cg.EdgeSet(), x) && HasValues(cg.pValues, cg.EdgeSet(), x)
    ensures OnlyMarginal(cg.mi, test, alpha, Waived(x, mi), n, x)
    ensures AllMarginal(cg.mi, test, alpha, Waived(x, mi), n, x)
  {
    ghost var waived := Waived(x, mi);
    cg := new MiniCausalGraph(n, test);
    Waive(cg, x, mi, alpha);
    var depth := -1;
    var degree: nat := cg.MaxDegree();
    while degree - 1 > depth
      invariant fresh(cg) && fresh(cg.graph) && cg.n == n && cg.test == test
      invariant LocallySound(cg, alpha, waived, x) && Degrees(cg.EdgeSet(), n, degree)
      invariant degree <= n - 1 && -1 <= depth && NodeTestedBelow(test, alpha, cg.EdgeSet(), x, depth + 1)
      invariant forall y: nat :: y < n && y != x && (x, y) !in waived ==> (x, y) in cg.EdgeSet() || depth >= 0
      invariant depth >= 0 ==> AllMarginal(cg.mi, test, alpha, waived, n, x) && HasValues(cg.pValues, cg.EdgeSet(), x)
      decreases n - depth
    {
      depth := depth + 1;
      ghost var e, mi0, values := cg.EdgeSet(), cg.mi, cg.pValues;
      VisitNeighborhood(cg, x, depth, alpha, (y: nat) => key(depth, y), waived);
      degree := cg.MaxDegree();
      OneDepthMore(test, alpha, e, cg.EdgeSet(), x, depth);
      RegisterIsComplete(test, alpha, waived, n, x, e, cg.EdgeSet(), mi0, cg.mi, depth);
      if depth > 0 { ValuesStay(values, cg.pValues, e, cg.EdgeSet(), x); }
    }
    if degree == 0 { NoEdgesNoValues(cg.pValues, cg.EdgeSet(), n); }
    DeepEnoughAround(test, alpha, cg.EdgeSet(), n, x, depth + 1, degree);
  }

  lemma {:induction false} RegisterIsComplete(test: Test, alpha: real, waived: Edges, n: nat, x: nat,
                           e: Edges, e': Edges, mi: seq<nat>, mi': seq<nat>, depth: nat)
    requires Members(mi) <= Members(mi')
    requires depth > 0 ==> AllMarginal(mi, test, alpha, waived, n, x)
    requires depth == 0 ==> forall y: nat :: y < n && y != x && (x, y) !in waived ==> (x, y) in e
    requires depth == 0 ==> forall y :: y in Adjacent(e, x) ==> (x, y) in e' || y in mi'
    requires NodeTested(test, alpha, e', x, depth)
    ensures AllMarginal(mi', test, alpha, waived, n, x)
  {
    forall y | Marginal(test, alpha, waived, n, x, y)
      ensures y in mi'
    {
      if depth > 0 {
        assert y in Members(mi) && y in Members(mi');
      } else {
        HeldAtZero(test, alpha, x, y, Adjacent(e', x) - {y});
      }
    }
  }
}
