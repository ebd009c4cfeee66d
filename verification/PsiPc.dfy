/** The Psi-PC driver of models/src/alg_models/causal/psi_pc.py: chunks of columns, one search per
    significance level, and the shrinking loop over levels. Discretised data enters only through the
    independence test of a list of columns. */
module PsiPc {
  import opened Collections
  import opened CausalGraph
  import opened Skeleton
  import opened Arith
  import Folds
  import Sorting

  type Column = string

  /** The independence test on the columns given, with the F-node as last column. */
  type Oracle = seq<Column> -> Test

  const ALPHA_STEP: real := 0.1
  const ALPHA_LIMIT: real := 1.0
  const START_ALPHA: real := 0.001
  const LOCAL_ALPHA: real := 0.01

  // ---- chunks ----

  /** `names[from..to]` as Python slices it: bounds beyond the end are cut off. */
  function Slice<T>(names: seq<T>, from: nat, to: nat): seq<T>
    requires from <= to
  {
    if from >= |names| then [] else if to >= |names| then names[from..] else names[from..to]
  }

  function Pieces<T>(names: seq<T>, gamma: nat, n: nat): (r: seq<seq<T>>)
    ensures |r| == n
  {
    seq(n, i requires 0 <= i < n => Slice(names, i * gamma, i * gamma + gamma))
  }

  /** `create_chunks` after the names have been shuffled. */
  function Chunks<T>(names: seq<T>, gamma: nat): seq<seq<T>>
    requires gamma >= 1
  {
    var pieces := Pieces(names, gamma, |names| / gamma + 1);
    if pieces[|names| / gamma] == [] then pieces[..|names| / gamma] else pieces
  }

  function Concat<T>(chunks: seq<seq<T>>): seq<T> {
    if chunks == [] then [] else Concat(chunks[..|chunks| - 1]) + chunks[|chunks| - 1]
  }

  lemma {:induction false} PiecesConcatenate<T>(names: seq<T>, gamma: nat, n: nat)
    requires gamma >= 1 && n * gamma <= |names|
    ensures Concat(Pieces(names, gamma, n)) == names[..n * gamma]
  {
    if n > 0 {
      var m := n - 1;
      assert n * gamma == m * gamma + gamma;
      PiecesConcatenate(names, gamma, m);
      assert Pieces(names, gamma, n)[..m] == Pieces(names, gamma, m);
      assert Pieces(names, gamma, n)[m] == names[m * gamma..n * gamma];
    }
  }

  lemma {:induction false} PieceSizes<T>(names: seq<T>, gamma: nat, i: nat)
    requires gamma >= 1 && i <= |names| / gamma
    ensures 0 <= i * gamma <= |names|
    ensures var piece := Slice(names, i * gamma, i * gamma + gamma);
            |piece| <= gamma && (i < |names| / gamma ==> |piece| == gamma)
  {
    var q := |names| / gamma;
    assert |names| == q * gamma + |names| % gamma;
    MulMono(i, q, gamma);
  }

  lemma {:induction false} LastPiece<T>(names: seq<T>, gamma: nat, q: nat)
    requires q * gamma <= |names| < q * gamma + gamma
    ensures Pieces(names, gamma, q + 1)[q] == names[q * gamma..]
    ensures Pieces(names, gamma, q + 1)[..q] == Pieces(names, gamma, q)
  {
  }

  lemma {:induction false} Quotient(n: nat, d: nat)
    requires d >= 1
    ensures n / d * d <= n < n / d * d + d
  {
    assert n == n / d * d + n % d;
  }

  /** Together the chunks are the columns. */
  lemma {:induction false} ChunksConcatenate<T>(names: seq<T>, gamma: nat)
    requires gamma >= 1
    ensures Concat(Chunks(names, gamma)) == names
  {
    var q := |names| / gamma;
    var pieces := Pieces(names, gamma, q + 1);
    Quotient(|names|, gamma);
    LastPiece(names, gamma, q);
    PiecesConcatenate(names, gamma, q);
    var start := q * gamma;
    assert names == names[..start] + names[start..];
  }

  /** No chunk is empty, none too large, and only the last may be smaller. */
  lemma {:induction false} ChunkSizes<T>(names: seq<T>, gamma: nat, i: nat)
    requires gamma >= 1 && i < |Chunks(names, gamma)|
    ensures 0 < |Chunks(names, gamma)[i]| <= gamma
    ensures i < |Chunks(names, gamma)| - 1 ==> |Chunks(names, gamma)[i]| == gamma
  {
    PieceSizes(names, gamma, i);
  }

  // ---- ordering neighbours ----

  /** The first index of a largest value. */
  method ArgMax(values: seq<real>) returns (k: nat)
    requires values != []
    ensures k < |values| && forall j :: 0 <= j < |values| ==> values[j] <= values[k]
    ensures forall j :: 0 <= j < k ==> values[j] < values[k]
  {
    k := 0;
    for i := 1 to |values|
      invariant k < i && forall j :: 0 <= j < i ==> values[j] <= values[k]
      invariant forall j :: 0 <= j < k ==> values[j] < values[k]
    {
      if values[i] > values[k] { k := i; }
    }
  }

  ghost predicate Follow(neigh: seq<nat>, pValues: seq<real>, p: nat -> real) {
    |neigh| == |pValues| && forall i :: 0 <= i < |neigh| ==> p(neigh[i]) == pValues[i]
  }

  ghost predicate AllAtLeast(stack: seq<nat>, rest: seq<nat>, p: nat -> real) {
    forall i, j :: 0 <= i < |stack| && 0 <= j < |rest| ==> p(rest[j]) <= p(stack[i])
  }

  lemma {:induction false} PushLargest(
      rest: seq<nat>, values: seq<real>, stack: seq<nat>, p: nat -> real, i: nat)
    requires Follow(rest, values, p) && i < |rest|
    requires forall j :: 0 <= j < |values| ==> values[j] <= values[i]
    requires Sorting.Sorted(stack, p) && AllAtLeast(stack, rest, p)
    ensures Follow(Folds.Without(rest, i), Folds.Without(values, i), p)
    ensures Sorting.Sorted([rest[i]] + stack, p) && AllAtLeast([rest[i]] + stack, Folds.Without(rest, i), p)
    ensures multiset([rest[i]] + stack) + multiset(Folds.Without(rest, i)) == multiset(stack) + multiset(rest)
  {
    assert rest == rest[..i] + [rest[i]] + rest[i + 1..];
    var less := Folds.Without(rest, i);
    assert forall j :: 0 <= j < |less| ==> less[j] == rest[if j < i then j else j + 1];
  }

  /** `_order_neighbors`: the largest p-value is taken off first but ends up last, since every node is
      put in front of those before it. `p` names the p-value of each node. */
  method OrderNeighbors(neigh: seq<nat>, pValues: seq<real>, ghost p: nat -> real) returns (stack: seq<nat>)
    requires Follow(neigh, pValues, p)
    ensures multiset(stack) == multiset(neigh) && Sorting.Sorted(stack, p)
  {
    var rest, values := neigh, pValues;
    stack := [];
    while rest != []
      invariant Follow(rest, values, p)
      invariant Sorting.Sorted(stack, p) && AllAtLeast(stack, rest, p)
      invariant multiset(stack) + multiset(rest) == multiset(neigh)
      decreases |rest|
    {
      var i := ArgMax(values);
      PushLargest(rest, values, stack, p, i);
      stack := [rest[i]] + stack;
      rest, values := Folds.Without(rest, i), Folds.Without(values, i);
    }
  }

  // ---- one search per significance level ----

  /** What a search around the F-node `f` (the last of `f` + 1 nodes) says about the other nodes:
      those found stay dependent on it given any set of the others found; each one not found was
      separated from it, unless it was waived. */
  ghost predicate Verdict(test: Test, f: nat, alpha: real, mi: seq<nat>, found: set<nat>) {
    && (forall y :: y in found ==> y < f)
    && (forall y, sub: set<nat> :: y in found && sub <= found - {y} ==> P(test, f, y, sub) <= alpha)
    && (forall y :: 0 <= y < f && y !in found && y !in mi ==> Separable(test, f, alpha, y))
  }

  ghost predicate Separable(test: Test, f: nat, alpha: real, y: nat) {
    exists sep: seq<nat> :: Separates(test, alpha, f, y, sep)
  }

  lemma {:induction false} VerdictOf(test: Test, f: nat, alpha: real, mi: seq<nat>, waived: Edges,
                  sepset: map<(nat, nat), seq<nat>>, e: Edges)
    requires Undirected(e, f + 1) && AllExplained(test, alpha, waived, sepset, e, f + 1)
    requires waived <= Waived(f, mi) && LocallyComplete(test, alpha, e, f)
    ensures Verdict(test, f, alpha, mi, Adjacent(e, f))
  {
    forall y | y in Adjacent(e, f)
      ensures y < f && (f, y) in e
    {
    }
    forall y | 0 <= y < f && y !in Adjacent(e, f) && y !in mi
      ensures Separable(test, f, alpha, y)
    {
      assert (f, y) !in Waived(f, mi);
      assert Explained(test, alpha, waived, sepset, f, y);
      assert Separates(test, alpha, f, y, sepset[(f, y)]);
    }
  }

  function LastP(pValues: PValues, f: nat, y: nat): (p: real)
    ensures forall ps, last :: (f, y) in pValues && pValues[(f, y)] == ps + [last] ==> p == last
  {
    if (f, y) in pValues && pValues[(f, y)] != [] then pValues[(f, y)][|pValues[(f, y)]| - 1] else 0.0
  }

  /** The p-value by which a found node is ranked. */
  function LastPOf(pValues: PValues, f: nat): nat -> real {
    (y: nat) => LastP(pValues, f, y)
  }

  method Search(test: Test, f: nat, alpha: real, localized: bool, mi: seq<nat>, key: (nat, nat) -> real)
    returns (found: seq<nat>, pValues: PValues)
    requires forall i :: 0 <= i < |mi| ==> mi[i] < f
    ensures Sorting.Distinct(found) && Verdict(test, f, alpha, mi, Members(found))
    ensures Dependent(test, pValues, alpha) && forall i :: 0 <= i < |found| ==> HasValue(pValues, f, found[i])
  {
    var cg: MiniCausalGraph;
    if localized {
      cg := LocalSkeletonDiscovery(f + 1, test, f, alpha, mi, key);
      VerdictOf(test, f, alpha, mi, Waived(f, mi), cg.sepset, cg.EdgeSet());
    } else {
      cg := SkeletonDiscovery(f + 1, test, alpha, (y: nat) => key(0, y));
      VerdictOf(test, f, alpha, mi, {}, cg.sepset, cg.EdgeSet());
    }
    found := cg.Neighbors(f);
    pValues := cg.pValues;
    assert HasValues(pValues, cg.EdgeSet(), f);
  }

  /** The length of `np.arange(alpha, ALPHA_LIMIT, ALPHA_STEP)`. */
  function Steps(alpha: real): nat {
    if alpha >= ALPHA_LIMIT then 0
    else
      var n := -((alpha - ALPHA_LIMIT) / ALPHA_STEP).Floor;
      if n >= 0 then n else 0
  }

  function AlphaAt(alpha: real, k: nat): real {
    alpha + k as real * ALPHA_STEP
  }

  /** The significance levels go up in tenths, as long as they are below one. */
  lemma {:induction false} AlphasAreTenths(alpha: real, k: nat)
    ensures AlphaAt(alpha, 0) == alpha && AlphaAt(alpha, k + 1) == AlphaAt(alpha, k) + 0.1
    ensures k < Steps(alpha) <==> AlphaAt(alpha, k) < 1.0
  {
    if alpha < ALPHA_LIMIT {
      var x := (alpha - ALPHA_LIMIT) / ALPHA_STEP;
      assert x * ALPHA_STEP == alpha - ALPHA_LIMIT;
      assert x.Floor as real <= x < (x.Floor + 1) as real;
      assert k < -x.Floor <==> k as real < -x;
    }
  }

  function Names(columns: seq<Column>, nodes: set<nat>): set<Column>
    requires forall y :: y in nodes ==> y < |columns|
  {
    set y | y in nodes :: columns[y]
  }

  ghost predicate Named(nodes: seq<nat>, n: nat) {
    forall i :: 0 <= i < |nodes| ==> nodes[i] < n
  }

  function Labels(columns: seq<Column>, nodes: seq<nat>): seq<Column>
    requires forall i :: 0 <= i < |nodes| ==> nodes[i] < |columns|
  {
    seq(|nodes|, i requires 0 <= i < |nodes| => columns[nodes[i]])
  }

  /** What a ranking reports, level by level: the batch of a level holds the columns found at that
      level and at none before, by ascending p-value. */
  datatype Level = Level(found: set<nat>, nodes: seq<nat>, batch: seq<Column>, pValues: PValues)

  function Batches(levels: seq<Level>): seq<Column> {
    if levels == [] then [] else Batches(levels[..|levels| - 1]) + levels[|levels| - 1].batch
  }

  ghost predicate LevelReports(test: Test, columns: seq<Column>, alpha: real, mi: seq<nat>,
                               l: Level, before: seq<Column>) {
    && Verdict(test, |columns|, alpha, mi, l.found)
    && Dependent(test, l.pValues, alpha) && AllHave(l.pValues, |columns|, l.nodes)
    && Sorting.Sorted(l.nodes, LastPOf(l.pValues, |columns|))
    && Named(l.nodes, |columns|) && |l.batch| == |l.nodes|
    && (forall i :: 0 <= i < |l.nodes| ==> l.batch[i] == columns[l.nodes[i]])
    && Sorting.Distinct(l.batch)
    && Members(l.batch) == Names(columns, l.found) - Members(before)
  }

  ghost predicate AllHave(pValues: PValues, f: nat, nodes: seq<nat>) {
    forall i :: 0 <= i < |nodes| ==> HasValue(pValues, f, nodes[i])
  }

  ghost predicate Ranking(test: Test, columns: seq<Column>, alpha: real, mi: seq<nat>, levels: seq<Level>) {
    forall k :: 0 <= k < |levels| ==>
      LevelReports(test, columns, AlphaAt(alpha, k), mi, levels[k], Batches(levels[..k]))
  }

  lemma {:induction false} DistinctConcat<T>(a: seq<T>, b: seq<T>)
    requires Sorting.Distinct(a) && Sorting.Distinct(b) && Members(a) !! Members(b)
    ensures Sorting.Distinct(a + b) && Members(a + b) == Members(a) + Members(b)
  {
    forall i, j | 0 <= i < j < |a + b|
      ensures (a + b)[i] != (a + b)[j]
    {
      if i < |a| <= j {
        assert a[i] in Members(a) && b[j - |a|] in Members(b);
      }
    }
    assert forall x :: x in a + b <==> x in a || x in b;
  }

  /** A ranking is free of duplicates and made of the columns it was given. */
  lemma {:induction false} RankingIsSound(
      test: Test, columns: seq<Column>, alpha: real, mi: seq<nat>, levels: seq<Level>)
    requires Ranking(test, columns, alpha, mi, levels)
    ensures Sorting.Distinct(Batches(levels)) && Members(Batches(levels)) <= Members(columns)
  {
    if levels != [] {
      var n := |levels| - 1;
      assert forall k :: 0 <= k < n ==> levels[..n][k] == levels[k] && levels[..n][..k] == levels[..k];
      RankingIsSound(test, columns, alpha, mi, levels[..n]);
      DistinctConcat(Batches(levels[..n]), levels[n].batch);
    }
  }

  lemma {:induction false} ReportedHere(
      test: Test, columns: seq<Column>, alpha: real, mi: seq<nat>, l: Level, before: seq<Column>, y: nat)
    requires Sorting.Distinct(columns) && y < |columns|
    requires LevelReports(test, columns, alpha, mi, l, before)
    ensures columns[y] in before + l.batch <==> columns[y] in before || y in l.found
  {
    assert columns[y] in Names(columns, l.found) <==> y in l.found;
    assert columns[y] in Members(l.batch) <==> columns[y] in l.batch;
    assert columns[y] in Members(before) <==> columns[y] in before;
  }

  ghost predicate FoundBy(levels: seq<Level>, y: nat) {
    exists k :: 0 <= k < |levels| && y in levels[k].found
  }

  lemma {:induction false} FoundByOneMore(levels: seq<Level>, y: nat)
    requires levels != []
    ensures FoundBy(levels, y) <==> FoundBy(levels[..|levels| - 1], y) || y in levels[|levels| - 1].found
  {
    if FoundBy(levels[..|levels| - 1], y) {
      var k :| 0 <= k < |levels| - 1 && y in levels[..|levels| - 1][k].found;
      assert y in levels[k].found;
    }
  }

  /** A column is reported if and only if some level found it. */
  lemma {:induction false} ReportedIffFound(test: Test, columns: seq<Column>, alpha: real, mi: seq<nat>,
                                            levels: seq<Level>, y: nat)
    requires Sorting.Distinct(columns) && y < |columns| && Ranking(test, columns, alpha, mi, levels)
    ensures columns[y] in Batches(levels) <==> FoundBy(levels, y)
  {
    if levels != [] {
      var n := |levels| - 1;
      assert forall k :: 0 <= k < n ==> levels[..n][k] == levels[k] && levels[..n][..k] == levels[..k];
      ReportedIffFound(test, columns, alpha, mi, levels[..n], y);
      FoundByOneMore(levels, y);
      ReportedHere(test, columns, AlphaAt(alpha, n), mi, levels[n], Batches(levels[..n]), y);
    }
  }

  /** The neighbours that have not been reported yet, with their last p-values. */
  method NewNeighbors(columns: seq<Column>, found: seq<nat>, rc: seq<Column>, pValues: PValues)
    returns (news: seq<nat>, last: seq<real>)
    requires Sorting.Distinct(found) && forall i :: 0 <= i < |found| ==> found[i] < |columns|
    ensures Sorting.Distinct(news)
    ensures forall y :: y in news <==> y in found && y < |columns| && columns[y] !in rc
    ensures Follow(news, last, LastPOf(pValues, |columns|))
  {
    news, last := [], [];
    for i := 0 to |found|
      invariant Sorting.Distinct(news)
      invariant forall y :: y in news <==> y in found[..i] && y < |columns| && columns[y] !in rc
      invariant Follow(news, last, LastPOf(pValues, |columns|))
    {
      assert found[i] !in found[..i];
      if columns[found[i]] !in rc {
        news := news + [found[i]];
        last := last + [LastP(pValues, |columns|, found[i])];
      }
    }
    assert found[..|found|] == found;
  }

  lemma {:induction false} LabelsAreDistinct(columns: seq<Column>, nodes: seq<nat>)
    requires Sorting.Distinct(columns) && Sorting.Distinct(nodes)
    requires forall i :: 0 <= i < |nodes| ==> nodes[i] < |columns|
    ensures Sorting.Distinct(Labels(columns, nodes))
    ensures forall y :: 0 <= y < |columns| ==> (columns[y] in Labels(columns, nodes) <==> y in nodes)
  {
    forall y | 0 <= y < |columns|
      ensures columns[y] in Labels(columns, nodes) <==> y in nodes
    {
      if y in nodes {
        var i :| 0 <= i < |nodes| && nodes[i] == y;
        assert Labels(columns, nodes)[i] == columns[y];
      }
    }
  }

  lemma {:induction false} BatchReports(
      test: Test, columns: seq<Column>, alpha: real, mi: seq<nat>, found: set<nat>,
                     nodes: seq<nat>, pValues: PValues, before: seq<Column>)
    requires Sorting.Distinct(columns) && Verdict(test, |columns|, alpha, mi, found)
    requires Sorting.Distinct(nodes) && Named(nodes, |columns|)
    requires Dependent(test, pValues, alpha) && AllHave(pValues, |columns|, nodes)
    requires Sorting.Sorted(nodes, LastPOf(pValues, |columns|))
    requires forall y :: y in nodes <==> y in found && y < |columns| && columns[y] !in before
    ensures LevelReports(test, columns, alpha, mi, Level(found, nodes, Labels(columns, nodes), pValues), before)
  {
    LabelsAreDistinct(columns, nodes);
    var batch := Labels(columns, nodes);
    forall c
      ensures c in Members(batch) <==> c in Names(columns, found) - Members(before)
    {
      if c in batch {
        var i :| 0 <= i < |batch| && batch[i] == c;
        assert nodes[i] in nodes && columns[nodes[i]] == c;
      }
    }
  }

  lemma {:induction false} RankingGrows(
      test: Test, columns: seq<Column>, alpha: real, mi: seq<nat>, levels: seq<Level>, l: Level)
    requires Ranking(test, columns, alpha, mi, levels)
    requires LevelReports(test, columns, AlphaAt(alpha, |levels|), mi, l, Batches(levels))
    ensures Ranking(test, columns, alpha, mi, levels + [l])
    ensures Batches(levels + [l]) == Batches(levels) + l.batch
  {
    var more := levels + [l];
    assert more[..|levels|] == levels;
    forall k | 0 <= k < |more|
      ensures LevelReports(test, columns, AlphaAt(alpha, k), mi, more[k], Batches(more[..k]))
    {
      EarlierLevel(levels, l, k);
    }
  }

  lemma {:induction false} EarlierLevel(levels: seq<Level>, l: Level, k: nat)
    requires k <= |levels|
    ensures (levels + [l])[..k] == levels[..k]
    ensures (levels + [l])[k] == if k < |levels| then levels[k] else l
    ensures k == |levels| ==> levels[..k] == levels
  {
  }

  /** One level of a ranking: search, drop what was reported before, order the rest by p-value. */
  method RankLevel(test: Test, columns: seq<Column>, alpha: real, localized: bool, mi: seq<nat>,
                   key: (nat, nat) -> real, rc: seq<Column>)
    returns (level: Level)
    requires Sorting.Distinct(columns) && forall i :: 0 <= i < |mi| ==> mi[i] < |columns|
    ensures LevelReports(test, columns, alpha, mi, level, rc)
  {
    var f := |columns|;
    var neigh, pValues := Search(test, f, alpha, localized, mi, key);
    var found := set n | n in neigh;
    assert found == Members(neigh);
    assert forall i :: 0 <= i < |neigh| ==> neigh[i] in found;
    var nodes, last := NewNeighbors(columns, neigh, rc, pValues);
    var ordered := OrderNeighbors(nodes, last, LastPOf(pValues, f));
    Sorting.SameMembers(nodes, ordered);
    Sorting.DistinctPermutation(nodes, ordered);
    assert forall i :: 0 <= i < |ordered| ==> ordered[i] in nodes;
    BatchReports(test, columns, alpha, mi, found, ordered, pValues, rc);
    level := Level(found, ordered, Labels(columns, ordered), pValues);
  }

  /** `run_psi_pc`: one level for each significance level, until `minNodes` columns are reported. */
  method RunPsiPc(columns: seq<Column>, oracle: Oracle, mi: seq<Column>, localized: bool,
                  startAlpha: real, minNodes: int, key: (nat, nat) -> real)
    returns (rc: seq<Column>, ghost levels: seq<Level>, ghost waived: seq<nat>)
    requires Sorting.Distinct(columns)
    ensures rc == Batches(levels) && Ranking(oracle(columns), columns, startAlpha, waived, levels)
    ensures forall y :: y in waived <==> 0 <= y < |columns| && columns[y] in mi
    ensures columns == [] ==> rc == []
    ensures columns != [] ==> |levels| == Steps(startAlpha)
                              || |rc| == if minNodes == -1 then |columns| else minNodes
  {
    rc, levels := [], [];
    var processed := Processed(columns, mi);
    waived := processed;
    if columns == [] {
      return;
    }
    var enough := if minNodes == -1 then |columns| else minNodes;
    var test := oracle(columns);
    for a := 0 to Steps(startAlpha)
      invariant |levels| == a && rc == Batches(levels)
      invariant Ranking(test, columns, startAlpha, processed, levels)
    {
      var level := RankLevel(test, columns, AlphaAt(startAlpha, a), localized, processed, key, rc);
      RankingGrows(test, columns, startAlpha, processed, levels, level);
      levels := levels + [level];
      rc := rc + level.batch;
      if level.batch != [] && |rc| == enough {
        return;
      }
    }
  }

  /** The positions of the known-independent columns that occur here. */
  method Processed(columns: seq<Column>, mi: seq<Column>) returns (nodes: seq<nat>)
    ensures forall y :: y in nodes <==> 0 <= y < |columns| && columns[y] in mi
    ensures forall i :: 0 <= i < |nodes| ==> nodes[i] < |columns|
  {
    nodes := [];
    for y := 0 to |columns|
      invariant forall z :: z in nodes <==> 0 <= z < y && columns[z] in mi
      invariant forall i :: 0 <= i < |nodes| ==> nodes[i] < |columns|
    {
      if columns[y] in mi { nodes := nodes + [y]; }
    }
  }

  // ---- levels of chunks ----

  lemma {:induction false} ConcatPrefix<T>(chunks: seq<seq<T>>, i: nat)
    requires i <= |chunks|
    ensures |Concat(chunks[..i])| <= |Concat(chunks)|
    ensures Concat(chunks)[..|Concat(chunks[..i])|] == Concat(chunks[..i])
    decreases |chunks|
  {
    if i == |chunks| {
      assert chunks[..i] == chunks;
    } else {
      var n := |chunks| - 1;
      assert chunks[..n][..i] == chunks[..i];
      ConcatPrefix(chunks[..n], i);
    }
  }

  /** Every chunk of distinct names is distinct, and disjoint from the chunks before it. */
  lemma {:induction false} ChunkIsNew(chunks: seq<seq<Column>>, i: nat)
    requires i < |chunks| && Sorting.Distinct(Concat(chunks))
    ensures Sorting.Distinct(chunks[i]) && Members(chunks[i]) !! Members(Concat(chunks[..i]))
    ensures Members(Concat(chunks[..i + 1])) == Members(Concat(chunks[..i])) + Members(chunks[i])
  {
    var before := Concat(chunks[..i]);
    ConcatPrefix(chunks, i + 1);
    assert chunks[..i + 1][..i] == chunks[..i];
    assert Concat(chunks[..i + 1]) == before + chunks[i];
    DistinctParts(before, chunks[i]);
  }

  lemma {:induction false} DistinctParts<T>(a: seq<T>, b: seq<T>)
    requires Sorting.Distinct(a + b)
    ensures Sorting.Distinct(b) && Members(a) !! Members(b)
  {
    forall i, j | 0 <= i < j < |b|
      ensures b[i] != b[j]
    {
      assert (a + b)[|a| + i] != (a + b)[|a| + j];
    }
    forall i, j | 0 <= i < |a| && 0 <= j < |b|
      ensures a[i] != b[j]
    {
      assert (a + b)[i] != (a + b)[|a| + j];
    }
  }

  /** A chunk ranked on its own: every significance level, or until one column is reported. */
  ghost predicate ChunkRanked(oracle: Oracle, chunk: seq<Column>, levels: seq<Level>) {
    Sorting.Distinct(chunk) && Ranking(oracle(chunk), chunk, LOCAL_ALPHA, [], levels)
    && (|levels| == Steps(LOCAL_ALPHA) || |Batches(levels)| == 1)
  }

  ghost predicate ChunksRanked(chunks: seq<seq<Column>>, oracle: Oracle, runs: seq<seq<Level>>) {
    |runs| == |chunks| && forall i :: 0 <= i < |runs| ==> ChunkRanked(oracle, chunks[i], runs[i])
  }

  function AllBatches(runs: seq<seq<Level>>): seq<seq<Column>> {
    seq(|runs|, i requires 0 <= i < |runs| => Batches(runs[i]))
  }

  /** One phase: the columns in some order, cut into chunks, each ranked; what the rankings report is
      concatenated. */
  ghost predicate PhaseRun(columns: seq<Column>, gamma: nat, oracle: Oracle,
                           names: seq<Column>, runs: seq<seq<Level>>, union: seq<Column>)
    requires gamma >= 1
  {
    && multiset(names) == multiset(columns) && ChunksRanked(Chunks(names, gamma), oracle, runs)
    && union == Concat(AllBatches(runs))
  }

  ghost predicate SomePhase(before: seq<Column>, gamma: nat, oracle: Oracle, after: seq<Column>)
    requires gamma >= 1
  {
    exists names, runs :: PhaseRun(before, gamma, oracle, names, runs, after)
  }

  /** `run_level`: `shuffle` decides how the names are mixed. */
  method RunLevel(columns: seq<Column>, gamma: nat, oracle: Oracle, localized: bool,
                  shuffle: Column -> real, key: (nat, nat) -> real)
    returns (union: seq<Column>, ghost names: seq<Column>, ghost runs: seq<seq<Level>>)
    requires Sorting.Distinct(columns) && gamma >= 1
    ensures Sorting.Distinct(union) && Members(union) <= Members(columns)
    ensures PhaseRun(columns, gamma, oracle, names, runs, union)
  {
    var mixed := Sorting.SortBy(columns, shuffle);
    Sorting.SameMembers(columns, mixed);
    Sorting.DistinctPermutation(columns, mixed);
    ChunksConcatenate(mixed, gamma);
    forall i | 0 <= i < |Chunks(mixed, gamma)|
      ensures Chunks(mixed, gamma)[i] != []
    {
      ChunkSizes(mixed, gamma, i);
    }
    union, runs := RankChunks(Chunks(mixed, gamma), oracle, localized, key);
    names := mixed;
  }

  method RankChunks(chunks: seq<seq<Column>>, oracle: Oracle, localized: bool, key: (nat, nat) -> real)
    returns (union: seq<Column>, ghost runs: seq<seq<Level>>)
    requires Sorting.Distinct(Concat(chunks)) && forall i :: 0 <= i < |chunks| ==> chunks[i] != []
    ensures Sorting.Distinct(union) && Members(union) <= Members(Concat(chunks))
    ensures ChunksRanked(chunks, oracle, runs) && union == Concat(AllBatches(runs))
  {
    union, runs := [], [];
    for i := 0 to |chunks|
      invariant RankedSoFar(chunks, i, oracle, runs, union)
    {
      ChunkIsNew(chunks, i);
      var rc;
      ghost var levels;
      rc, levels := RankChunk(chunks[i], oracle, localized, key);
      RankedOneMore(chunks, i, oracle, runs, union, rc, levels);
      union, runs := union + rc, runs + [levels];
    }
    assert chunks[..|chunks|] == chunks;
  }

  ghost predicate RankedSoFar(
      chunks: seq<seq<Column>>, i: nat, oracle: Oracle, runs: seq<seq<Level>>, union: seq<Column>)
    requires i <= |chunks|
  {
    && Sorting.Distinct(union) && Members(union) <= Members(Concat(chunks[..i]))
    && ChunksRanked(chunks[..i], oracle, runs) && union == Concat(AllBatches(runs))
  }

  lemma {:induction false} RankedOneMore(chunks: seq<seq<Column>>, i: nat, oracle: Oracle, runs: seq<seq<Level>>,
                                         union: seq<Column>, rc: seq<Column>, levels: seq<Level>)
    requires i < |chunks| && Sorting.Distinct(Concat(chunks)) && RankedSoFar(chunks, i, oracle, runs, union)
    requires ChunkRanked(oracle, chunks[i], levels) && rc == Batches(levels)
    requires Sorting.Distinct(rc) && Members(rc) <= Members(chunks[i])
    ensures RankedSoFar(chunks, i + 1, oracle, runs + [levels], union + rc)
  {
    UnionGrows(chunks, i, union, rc);
    AllBatchesAppend(runs, levels);
    PrefixRanked(chunks, i, oracle, runs, levels);
  }

  lemma {:induction false} PrefixRanked(
      chunks: seq<seq<Column>>, i: nat, oracle: Oracle, runs: seq<seq<Level>>, levels: seq<Level>)
    requires i < |chunks| && ChunksRanked(chunks[..i], oracle, runs) && ChunkRanked(oracle, chunks[i], levels)
    ensures ChunksRanked(chunks[..i + 1], oracle, runs + [levels])
  {
    ChunksRankedAppend(chunks[..i], chunks[i], oracle, runs, levels);
    assert chunks[..i + 1] == chunks[..i] + [chunks[i]];
  }

  lemma {:induction false} UnionGrows(chunks: seq<seq<Column>>, i: nat, union: seq<Column>, rc: seq<Column>)
    requires i < |chunks| && Sorting.Distinct(Concat(chunks)) && Sorting.Distinct(union) && Sorting.Distinct(rc)
    requires Members(union) <= Members(Concat(chunks[..i])) && Members(rc) <= Members(chunks[i])
    ensures Sorting.Distinct(union + rc) && Members(union + rc) <= Members(Concat(chunks[..i + 1]))
  {
    ChunkIsNew(chunks, i);
    DistinctConcat(union, rc);
  }

  lemma {:induction false} ChunksRankedAppend(
      chunks: seq<seq<Column>>, chunk: seq<Column>, oracle: Oracle, runs: seq<seq<Level>>, levels: seq<Level>)
    requires ChunksRanked(chunks, oracle, runs) && ChunkRanked(oracle, chunk, levels)
    ensures ChunksRanked(chunks + [chunk], oracle, runs + [levels])
  {
  }

  method RankChunk(chunk: seq<Column>, oracle: Oracle, localized: bool, key: (nat, nat) -> real)
    returns (rc: seq<Column>, ghost levels: seq<Level>)
    requires Sorting.Distinct(chunk) && chunk != []
    ensures ChunkRanked(oracle, chunk, levels) && rc == Batches(levels)
    ensures Sorting.Distinct(rc) && Members(rc) <= Members(chunk)
  {
    ghost var waived;
    rc, levels, waived := RunPsiPc(chunk, oracle, [], localized, LOCAL_ALPHA, 1, key);
    NothingWaived(waived);
    RankingIsSound(oracle(chunk), chunk, LOCAL_ALPHA, waived, levels);
  }

  lemma {:induction false} AllBatchesAppend(runs: seq<seq<Level>>, levels: seq<Level>)
    ensures Concat(AllBatches(runs + [levels])) == Concat(AllBatches(runs)) + Batches(levels)
  {
    var more := AllBatches(runs + [levels]);
    assert more[..|runs|] == AllBatches(runs) && more[|runs|] == Batches(levels);
  }

  lemma {:induction false} FewerColumns(a: seq<Column>, b: seq<Column>)
    requires Sorting.Distinct(a) && Sorting.Distinct(b) && Members(a) <= Members(b)
    ensures |a| <= |b|
  {
    DistinctSize(a);
    DistinctSize(b);
    SubsetSize(Members(a), Members(b));
  }

  ghost predicate Phased(stages: seq<seq<Column>>, gamma: nat, oracle: Oracle)
    requires gamma >= 1
  {
    forall k :: 0 <= k < |stages| - 1 ==> SomePhase(stages[k], gamma, oracle, stages[k + 1])
  }

  /** Every phase but the last dropped some columns and left too many. */
  ghost predicate Shrinking(stages: seq<seq<Column>>, gamma: nat) {
    forall k :: 1 <= k < |stages| ==> gamma < |stages[k]| < |stages[k - 1]|
  }

  /** The last phase left few enough or dropped none. */
  ghost predicate Narrowed(stages: seq<seq<Column>>, gamma: nat) {
    && |stages| >= 2 && Shrinking(stages[..|stages| - 1], gamma)
    && (|stages[|stages| - 1]| <= gamma || |stages[|stages| - 1]| == |stages[|stages| - 2]|)
  }

  lemma {:induction false} OnePhaseMore(
      stages: seq<seq<Column>>, next: seq<Column>, gamma: nat, oracle: Oracle)
    requires gamma >= 1 && stages != [] && Phased(stages, gamma, oracle)
    requires SomePhase(stages[|stages| - 1], gamma, oracle, next)
    ensures Phased(stages + [next], gamma, oracle)
  {
    var more := stages + [next];
    forall k | 0 <= k < |more| - 1
      ensures SomePhase(more[k], gamma, oracle, more[k + 1])
    {
      if k == |stages| - 1 {
        assert more[k] == stages[k] && more[k + 1] == next;
      } else {
        assert more[k] == stages[k] && more[k + 1] == stages[k + 1];
      }
    }
  }

  lemma {:induction false} OneStageMore(stages: seq<seq<Column>>, next: seq<Column>, gamma: nat)
    requires stages != [] && Shrinking(stages, gamma) && |next| <= |stages[|stages| - 1]|
    ensures if |next| <= gamma || |next| == |stages[|stages| - 1]| then Narrowed(stages + [next], gamma)
            else Shrinking(stages + [next], gamma)
  {
    var more := stages + [next];
    assert more[..|stages|] == stages && more[|stages|] == next && more[|stages| - 1] == stages[|stages| - 1];
  }

  /** `run_multi_phase`: phases until few enough columns are left or a phase drops none, then one
      ranking of the survivors. It terminates because every phase returns distinct columns of its
      input. */
  method RunMultiPhase(columns: seq<Column>, gamma: nat, oracle: Oracle, localized: bool,
                       shuffle: Column -> real, key: (nat, nat) -> real)
    returns (rc: seq<Column>, ghost stages: seq<seq<Column>>, ghost levels: seq<Level>)
    requires Sorting.Distinct(columns) && gamma >= 1
    ensures Sorting.Distinct(rc) && Members(rc) <= Members(columns)
    ensures Phased(stages, gamma, oracle) && Narrowed(stages, gamma) && stages[0] == columns
    ensures var survivors := stages[|stages| - 1];
            && Sorting.Distinct(survivors) && Members(survivors) <= Members(columns)
            && Sorting.Distinct(rc) && Members(rc) <= Members(survivors)
            && rc == Batches(levels) && Ranking(oracle(survivors), survivors, START_ALPHA, [], levels)
            && (survivors != [] ==> |levels| == Steps(START_ALPHA) || |rc| == |survivors|)
  {
    var children := columns;
    var prev := |children|;
    stages := [columns];
    while true
      invariant Sorting.Distinct(children) && Members(children) <= Members(columns)
      invariant prev == |children| && Phased(stages, gamma, oracle) && Shrinking(stages, gamma)
      invariant stages != [] && stages[0] == columns && stages[|stages| - 1] == children
      decreases prev
    {
      var next;
      ghost var names, runs;
      next, names, runs := RunLevel(children, gamma, oracle, localized, shuffle, key);
      FewerColumns(next, children);
      OnePhaseMore(stages, next, gamma, oracle);
      OneStageMore(stages, next, gamma);
      children := next;
      stages := stages + [next];
      if |children| <= gamma || |children| == prev {
        break;
      }
      prev := |children|;
    }
    ghost var waived;
    rc, levels, waived := RunPsiPc(children, oracle, [], localized, START_ALPHA, -1, key);
    NothingWaived(waived);
    RankingIsSound(oracle(children), children, START_ALPHA, waived, levels);
  }

  lemma {:induction false} NothingWaived(waived: seq<nat>)
    ensures (forall y :: y !in waived) ==> waived == []
  {
    if waived != [] {
      assert waived[0] in waived;
    }
  }
}
