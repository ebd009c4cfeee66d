/** The steps of one evaluation of the target selector (src/collect/target_selector.cpp): score the
    growth of counters over a sliding window, rank processes, move them in and out by hysteresis and
    a budget, choose threads, and edit the kernel's `targets` map. */
module SelectionSteps {
  import opened Arith
  import opened Collections
  import opened Hysteresis
  import opened Scoring
  import opened ThreadChoice
  import Folds
  import Sorting

  /** A row of the process table, with the counters ReadTid collects for its thread. */
  datatype Row = Row(pid: nat, tgid: nat, startTime: nat, counters: Counters)

  datatype Snapshot = Snapshot(ts: nat, counters: map<nat, Counters>)

  datatype Kind = Pinned | Dynamic

  datatype Config = Config(
    pinned: seq<nat>, meter: Meter, windowNs: nat, perProcThreads: nat, band: Band)

  ghost predicate ValidConfig(cfg: Config) {
    cfg.perProcThreads >= 1 && ValidBand(cfg.band)
  }

  // ---- step 1 and 2: the process table ----

  function OwnerOf(r: Row): nat {
    if r.tgid != 0 then r.tgid else r.pid
  }

  /** The last row of a thread is the one that counts. */
  ghost predicate LastRow(table: seq<Row>, tid: nat, i: nat) {
    i < |table| && table[i].pid == tid && forall j :: i < j < |table| ==> table[j].pid != tid
  }

  /** The process of every listed thread. */
  ghost predicate OwnersOf(table: seq<Row>, owner: map<nat, nat>) {
    && (forall i :: 0 <= i < |table| ==> table[i].pid in owner)
    && forall t :: t in owner ==>
         exists i: nat :: LastRow(table, t, i) && owner[t] == if table[i].tgid != 0 then table[i].tgid else t
  }

  /** The cumulative counters of every listed thread. */
  ghost predicate CountersOf(table: seq<Row>, counters: map<nat, Counters>) {
    && (forall i :: 0 <= i < |table| ==> table[i].pid in counters)
    && forall t :: t in counters ==> exists i: nat :: LastRow(table, t, i) && counters[t] == table[i].counters
  }

  lemma {:induction false} LastRowStays(rows: seq<Row>, r: Row, tid: nat, i: nat)
    requires LastRow(rows, tid, i) && tid != r.pid
    ensures LastRow(rows + [r], tid, i) && (rows + [r])[i] == rows[i]
  {
  }

  lemma {:induction false} OwnersOneMore(rows: seq<Row>, r: Row, owner: map<nat, nat>)
    requires OwnersOf(rows, owner)
    ensures OwnersOf(rows + [r], owner[r.pid := OwnerOf(r)])
  {
    var more := rows + [r];
    assert LastRow(more, r.pid, |rows|);
    forall t | t in owner && t != r.pid
      ensures exists i: nat :: LastRow(more, t, i) && owner[t] == OwnerOf(more[i])
    {
      var i: nat :| LastRow(rows, t, i) && owner[t] == OwnerOf(rows[i]);
      LastRowStays(rows, r, t, i);
    }
  }

  lemma {:induction false} CountersOneMore(rows: seq<Row>, r: Row, counters: map<nat, Counters>)
    requires CountersOf(rows, counters)
    ensures CountersOf(rows + [r], counters[r.pid := r.counters])
  {
    var more := rows + [r];
    assert LastRow(more, r.pid, |rows|);
    forall t | t in counters && t != r.pid
      ensures exists i: nat :: LastRow(more, t, i) && counters[t] == more[i].counters
    {
      var i: nat :| LastRow(rows, t, i) && counters[t] == rows[i].counters;
      LastRowStays(rows, r, t, i);
    }
  }

  lemma {:induction false} SameThreads(table: seq<Row>, owner: map<nat, nat>, counters: map<nat, Counters>)
    requires OwnersOf(table, owner) && CountersOf(table, counters)
    ensures owner.Keys == counters.Keys
  {
    forall t
      ensures t in owner <==> t in counters
    {
      if t in owner {
        var i: nat :| LastRow(table, t, i) && owner[t] == OwnerOf(table[i]);
      }
      if t in counters {
        var i: nat :| LastRow(table, t, i) && counters[t] == table[i].counters;
      }
    }
  }

  method IndexTable(table: seq<Row>) returns (owner: map<nat, nat>, counters: map<nat, Counters>)
    ensures OwnersOf(table, owner) && CountersOf(table, counters) && owner.Keys == counters.Keys
  {
    owner, counters := map[], map[];
    for i := 0 to |table|
      invariant OwnersOf(table[..i], owner) && CountersOf(table[..i], counters)
    {
      assert table[..i + 1] == table[..i] + [table[i]];
      OwnersOneMore(table[..i], table[i], owner);
      CountersOneMore(table[..i], table[i], counters);
      owner := owner[table[i].pid := OwnerOf(table[i])];
      counters := counters[table[i].pid := table[i].counters];
    }
    assert table[..|table|] == table;
    SameThreads(table, owner, counters);
  }

  // ---- threads whose number is used again ----

  /** The same rows but for the start times. */
  ghost predicate SameButForStarts(a: seq<Row>, b: seq<Row>) {
    |a| == |b| && forall i :: 0 <= i < |a| ==> a[i].(startTime := 0) == b[i].(startTime := 0)
  }

  /** Start times make no difference to what the table says. */
  lemma {:induction false} StartTimesAreIgnored(
      a: seq<Row>, b: seq<Row>, owner: map<nat, nat>, counters: map<nat, Counters>)
    requires SameButForStarts(a, b)
    ensures OwnersOf(a, owner) ==> OwnersOf(b, owner)
    ensures CountersOf(a, counters) ==> CountersOf(b, counters)
  {
    forall i | 0 <= i < |a|
      ensures a[i].pid == b[i].pid && OwnerOf(a[i]) == OwnerOf(b[i]) && a[i].counters == b[i].counters
    {
      assert a[i].(startTime := 0) == b[i].(startTime := 0);
    }
    if OwnersOf(a, owner) {
      forall t | t in owner
        ensures exists i: nat :: LastRow(b, t, i) && owner[t] == OwnerOf(b[i])
      {
        var i: nat :| LastRow(a, t, i) && owner[t] == OwnerOf(a[i]);
        assert LastRow(b, t, i);
      }
    }
    if CountersOf(a, counters) {
      forall t | t in counters
        ensures exists i: nat :: LastRow(b, t, i) && counters[t] == b[i].counters
      {
        var i: nat :| LastRow(a, t, i) && counters[t] == a[i].counters;
        assert LastRow(b, t, i);
      }
    }
  }

  /** No counter that both have used. */
  predicate Apart(a: Counters, b: Counters) {
    && (a.cpuTicks == 0 || b.cpuTicks == 0) && (a.swVol == 0 || b.swVol == 0)
    && (a.swInvol == 0 || b.swInvol == 0) && (a.ioOps == 0 || b.ioOps == 0)
    && (a.ioBytes == 0 || b.ioBytes == 0) && (a.pfMinor == 0 || b.pfMinor == 0)
    && (a.pfMajor == 0 || b.pfMajor == 0) && (a.lockWaits == 0 || b.lockWaits == 0)
  }

  /** A thread with a number that another had in the oldest snapshot of the window is measured since its
      own start, with all it has used, if and only if the two have no counter in common. */
  lemma {:induction false} ReusedThreadIsMeasuredRightIff(
      before: seq<Row>, after: seq<Row>, base: map<nat, Counters>, cur: map<nat, Counters>, tid: nat, i: nat, j: nat)
    requires CountersOf(before, base) && CountersOf(after, cur) && LastRow(before, tid, i) && LastRow(after, tid, j)
    ensures tid in cur
    ensures Grown(cur, base, tid) == after[j].counters <==> Apart(before[i].counters, after[j].counters)
  {
    assert before[i].pid in base && after[j].pid in cur;
    LastRowIsUnique(before, base, tid, i);
    LastRowIsUnique(after, cur, tid, j);
  }

  lemma {:induction false} LastRowIsUnique(table: seq<Row>, counters: map<nat, Counters>, tid: nat, i: nat)
    requires CountersOf(table, counters) && tid in counters && LastRow(table, tid, i)
    ensures counters[tid] == table[i].counters
  {
    var k: nat :| LastRow(table, tid, k) && counters[tid] == table[k].counters;
    assert i == k;
  }

  /** A thread that started later and has run for 30 ticks is taken for one that has not run at all,
      because another of that number had run for 500. */
  lemma {:induction false} ReusedThreadIsMissed()
    returns (before: seq<Row>, after: seq<Row>, base: map<nat, Counters>, cur: map<nat, Counters>)
    ensures CountersOf(before, base) && CountersOf(after, cur)
    ensures |before| == |after| == 1 && before[0].pid == after[0].pid == 7
    ensures before[0].startTime < after[0].startTime && after[0].counters.cpuTicks == 30
    ensures 7 in cur && Grown(cur, base, 7).cpuTicks == 0
  {
    var first, second := Counters(500, 0, 0, 0, 0, 0, 0, 0), Counters(30, 0, 0, 0, 0, 0, 0, 0);
    before, after := [Row(7, 7, 100, first)], [Row(7, 7, 200, second)];
    base, cur := map[7 := first], map[7 := second];
    assert LastRow(before, 7, 0) && LastRow(after, 7, 0);
  }

  // ---- step 3: the sliding window ----

  ghost predicate Clocked(history: seq<Snapshot>) {
    forall i :: 0 <= i < |history| ==> history[i].ts < U64
  }

  predicate InWindow(s: Snapshot, windowNs: nat, now: nat)
    requires now < U64 && s.ts < U64
  {
    Elapsed(now, s.ts) <= windowNs
  }

  ghost predicate Ascending(history: seq<Snapshot>, now: nat) {
    forall i, j :: 0 <= i <= j < |history| ==> history[i].ts <= history[j].ts <= now
  }

  /** What is kept of a history: the last snapshots, of two or more at least two; and when time does not
      run backwards, exactly those inside the window, and the last two. */
  ghost predicate WindowKept(history: seq<Snapshot>, kept: seq<Snapshot>, windowNs: nat, now: nat)
    requires Clocked(history) && now < U64
  {
    && kept != [] && |kept| <= |history|
    && (forall i :: 0 <= i < |kept| ==> kept[i] == history[|history| - |kept| + i])
    && (|history| >= 2 ==> |kept| >= 2)
    && (Ascending(history, now) ==> forall i :: 0 <= i < |history| ==>
          (i >= |history| - |kept| <==> i >= |history| - 2 || history[i].ts + windowNs >= now))
  }

  lemma {:induction false} LaterIsInWindow(history: seq<Snapshot>, windowNs: nat, now: nat, i: nat, j: nat)
    requires Clocked(history) && now < U64 && Ascending(history, now) && i <= j < |history|
    ensures InWindow(history[i], windowNs, now) ==> InWindow(history[j], windowNs, now)
  {
    assert history[i].ts <= history[j].ts <= now;
  }

  lemma {:induction false} DroppedWindow(history: seq<Snapshot>, drop: nat, windowNs: nat, now: nat)
    requires Clocked(history) && now < U64 && drop < |history| && (|history| >= 2 ==> drop <= |history| - 2)
    requires forall i :: 0 <= i < drop ==> !InWindow(history[i], windowNs, now)
    requires drop >= |history| - 2 || InWindow(history[drop], windowNs, now)
    ensures WindowKept(history, history[drop..], windowNs, now)
  {
    if Ascending(history, now) {
      forall i | 0 <= i < |history|
        ensures i >= drop <==> i >= |history| - 2 || history[i].ts + windowNs >= now
      {
        assert history[i].ts <= now;
        if drop <= i { LaterIsInWindow(history, windowNs, now, drop, i); }
      }
    }
  }

  /** Drops outdated snapshots from the front but keeps two. */
  method Slide(history: seq<Snapshot>, windowNs: nat, now: nat) returns (kept: seq<Snapshot>)
    requires Clocked(history) && now < U64 && history != []
    ensures Clocked(kept) && WindowKept(history, kept, windowNs, now)
    ensures kept[|kept| - 1] == history[|history| - 1]
  {
    var drop := 0;
    while |history| - drop > 2 && !InWindow(history[drop], windowNs, now)
      invariant 0 <= drop <= |history| - 1
      invariant |history| >= 2 ==> drop <= |history| - 2
      invariant forall i :: 0 <= i < drop ==> !InWindow(history[i], windowNs, now)
    {
      drop := drop + 1;
    }
    kept := history[drop..];
    DroppedWindow(history, drop, windowNs, now);
  }

  /** Length of the window in seconds; one second if the clock did not move. */
  function WindowSeconds(base: nat, cur: nat): (s: real)
    requires base < U64 && cur < U64
    ensures s > 0.0 && (cur == base ==> s == 1.0)
    ensures cur > base ==> s * 1000000000.0 == (cur - base) as real
  {
    if Elapsed(cur, base) == 0 then 1.0 else Elapsed(cur, base) as real / 1000000000.0
  }

  // ---- step 4: usage and scores ----

  /** What every listed thread used over the window. */
  function Usages(cur: map<nat, Counters>, base: map<nat, Counters>, toNs: nat -> nat): map<nat, Usage> {
    map t | t in cur :: UsageOf(Grown(cur, base, t), toNs)
  }

  /** Usage, thread by thread and field by field, for a process table and the counters of the oldest
      snapshot of the window. */
  ghost predicate UsedOver(
      table: seq<Row>, base: map<nat, Counters>, toNs: nat -> nat, usage: map<nat, Usage>) {
    && (forall t :: t in usage <==> exists i: nat :: LastRow(table, t, i))
    && forall t, i: nat, g :: t in usage && LastRow(table, t, i) && GrewFrom(table[i].counters, At(base, t), g) ==>
         && usage[t].cpuNs == toNs(g.cpuTicks)
         && usage[t].switches == g.swVol + g.swInvol
         && usage[t].ioOps == g.ioOps
         && usage[t].ioBytes == g.ioBytes
         && usage[t].faults == g.pfMinor + g.pfMajor
         && usage[t].lockWaits == g.lockWaits
  }

  ghost function At(base: map<nat, Counters>, t: nat): Option<Counters> {
    if t in base then Some(base[t]) else None
  }

  lemma {:induction false} UsagesAreOver(
      table: seq<Row>, cur: map<nat, Counters>, base: map<nat, Counters>, toNs: nat -> nat)
    requires CountersOf(table, cur)
    ensures UsedOver(table, base, toNs, Usages(cur, base, toNs))
  {
    forall t
      ensures t in cur <==> exists i: nat :: LastRow(table, t, i)
    {
      if i: nat :| LastRow(table, t, i) {
        assert table[i].pid in cur;
      }
    }
    forall t, i: nat, g | t in cur && LastRow(table, t, i) && GrewFrom(table[i].counters, At(base, t), g)
      ensures g == Grown(cur, base, t)
    {
      LastRowIsUnique(table, cur, t, i);
      GrownIsGrowth(cur, base, t, g);
    }
  }

  function Scores(scorer: Scorer, usage: map<nat, Usage>): (scores: map<nat, real>)
    ensures scores.Keys == usage.Keys
    ensures forall t :: t in scores ==> scores[t] == scorer.score(scorer.windowS, usage[t])
  {
    map t | t in usage :: ScoreOf(scorer, usage[t])
  }

  ghost predicate Enumerates(tids: seq<nat>, keys: set<nat>) {
    Sorting.Distinct(tids) && forall t :: t in tids <==> t in keys
  }

  /** The contributions of threads to their processes, in the order given. */
  function Loads(tids: seq<nat>, owner: map<nat, nat>, usage: map<nat, Usage>): seq<Load>
    requires owner.Keys == usage.Keys && forall t :: t in tids ==> t in owner
  {
    seq(|tids|, i requires 0 <= i < |tids| => Load(owner[tids[i]], usage[tids[i]]))
  }

  lemma {:induction false} LoadsOneMore(tids: seq<nat>, t: nat, owner: map<nat, nat>, usage: map<nat, Usage>)
    requires owner.Keys == usage.Keys && t in owner && forall u :: u in tids ==> u in owner
    ensures var more := tids + [t];
            Aggregates(Loads(more, owner, usage)) ==
            Grouping.Groups(TgidOf, AddLoad, Loads(tids, owner, usage) + [Load(owner[t], usage[t])])
  {
    assert Loads(tids + [t], owner, usage) == Loads(tids, owner, usage) + [Load(owner[t], usage[t])];
  }

  /** One pass over the threads: a score for each, and the aggregates of their processes. */
  method Measure(scorer: Scorer, owner: map<nat, nat>, usage: map<nat, Usage>)
    returns (scores: map<nat, real>, aggregates: map<nat, Load>, ghost tids: seq<nat>)
    requires owner.Keys == usage.Keys
    ensures scores == Scores(scorer, usage)
    ensures Enumerates(tids, usage.Keys)
    ensures aggregates == Aggregates(Loads(tids, owner, usage))
  {
    scores, aggregates, tids := map[], map[], [];
    var rest := usage.Keys;
    while rest != {}
      invariant rest <= usage.Keys && scores.Keys == usage.Keys - rest
      invariant forall t :: t in scores ==> scores[t] == ScoreOf(scorer, usage[t])
      invariant Enumerates(tids, usage.Keys - rest)
      invariant aggregates == Aggregates(Loads(tids, owner, usage))
    {
      var t :| t in rest;
      scores := scores[t := ScoreOf(scorer, usage[t])];
      var l := Load(owner[t], usage[t]);
      aggregates := aggregates[l.tgid := if l.tgid in aggregates then AddLoad(aggregates[l.tgid], l) else l];
      LoadsOneMore(tids, t, owner, usage);
      assert usage.Keys - rest + {t} == usage.Keys - (rest - {t});
      ghost var before := Loads(tids, owner, usage);
      assert (before + [l])[..|before|] == before;
      tids := tids + [t];
      rest := rest - {t};
    }
  }

  function ProcessScores(scorer: Scorer, aggregates: map<nat, Load>): map<nat, real> {
    map p | p in aggregates :: ScoreOf(scorer, aggregates[p].usage)
  }

  lemma {:induction false} EnumerationsArePermutations(a: seq<nat>, b: seq<nat>, keys: set<nat>)
    requires Enumerates(a, keys) && Enumerates(b, keys)
    ensures multiset(a) == multiset(b)
  {
    forall t
      ensures multiset(a)[t] == multiset(b)[t]
    {
      Sorting.DistinctOnce(a, t);
      Sorting.DistinctOnce(b, t);
      assert t in a <==> t in multiset(a);
      assert t in b <==> t in multiset(b);
    }
  }

  lemma {:induction false} LoadsOfPermutation(
      a: seq<nat>, b: seq<nat>, owner: map<nat, nat>, usage: map<nat, Usage>)
    requires owner.Keys == usage.Keys && multiset(a) == multiset(b)
    requires (forall t :: t in a ==> t in owner) && forall t :: t in b ==> t in owner
    ensures multiset(Loads(a, owner, usage)) == multiset(Loads(b, owner, usage))
    decreases |a|
  {
    if a == [] {
      assert |multiset(b)| == |b|;
    } else {
      var n := |a| - 1;
      var t := a[n];
      Sorting.SameMembers(a, b);
      assert t in b;
      var i :| 0 <= i < |b| && b[i] == t;
      assert a[..n] == Folds.Without(a, n);
      WithoutMembers(a, n);
      WithoutMembers(b, i);
      LoadsOfPermutation(a[..n], Folds.Without(b, i), owner, usage);
      LoadsWithout(a, n, owner, usage);
      LoadsWithout(b, i, owner, usage);
    }
  }

  lemma {:induction false} WithoutMembers(b: seq<nat>, i: nat)
    requires i < |b|
    ensures multiset(Folds.Without(b, i)) == multiset(b) - multiset{b[i]}
    ensures forall t :: t in Folds.Without(b, i) ==> t in b
  {
    assert b == b[..i] + [b[i]] + b[i + 1..];
  }

  lemma {:induction false} LoadsWithout(b: seq<nat>, i: nat, owner: map<nat, nat>, usage: map<nat, Usage>)
    requires owner.Keys == usage.Keys && i < |b| && forall t :: t in b ==> t in owner
    ensures multiset(Loads(b, owner, usage))
         == multiset(Loads(Folds.Without(b, i), owner, usage)) + multiset{Load(owner[b[i]], usage[b[i]])}
  {
    var all, rest := Loads(b, owner, usage), Loads(Folds.Without(b, i), owner, usage);
    assert rest == all[..i] + all[i + 1..];
    assert all == all[..i] + [all[i]] + all[i + 1..];
  }

  /** The hash-map order in which threads are visited has no influence on the process scores. */
  lemma {:induction false} VisitOrderDoesNotMatter(
      a: seq<nat>, b: seq<nat>, owner: map<nat, nat>, usage: map<nat, Usage>)
    requires owner.Keys == usage.Keys && Enumerates(a, usage.Keys) && Enumerates(b, usage.Keys)
    ensures Aggregates(Loads(a, owner, usage)) == Aggregates(Loads(b, owner, usage))
  {
    EnumerationsArePermutations(a, b, usage.Keys);
    LoadsOfPermutation(a, b, owner, usage);
    AggregatesIgnoreOrder(Loads(a, owner, usage), Loads(b, owner, usage));
  }

  /** What thread `t` used of a resource if it belongs to process `p`. */
  function UsedBy(owner: map<nat, nat>, usage: map<nat, Usage>, p: nat, r: Resource): nat -> nat {
    t => if t in owner && t in usage && owner[t] == p then Amount(usage[t], r) else 0
  }

  /** `u` is what the threads of `p` have used together. */
  ghost predicate ProcessUsed(
      tids: seq<nat>, owner: map<nat, nat>, usage: map<nat, Usage>, p: nat, u: Usage) {
    forall r :: Amount(u, r) == Folds.Sum(tids, UsedBy(owner, usage, p, r))
  }

  lemma {:induction false} LoadsAddUp(
      tids: seq<nat>, owner: map<nat, nat>, usage: map<nat, Usage>, p: nat, r: Resource)
    requires owner.Keys == usage.Keys && forall t :: t in tids ==> t in owner
    ensures Folds.Sum(Loads(tids, owner, usage), AmountIn(p, r)) == Folds.Sum(tids, UsedBy(owner, usage, p, r))
  {
    if tids != [] {
      var n := |tids| - 1;
      LoadsAddUp(tids[..n], owner, usage, p, r);
      assert Loads(tids, owner, usage)[..n] == Loads(tids[..n], owner, usage);
      assert tids[n] in tids;
    }
  }

  lemma {:induction false} SameAmounts(u: Usage, v: Usage)
    requires forall r :: Amount(u, r) == Amount(v, r)
    ensures u == v
  {
    assert Amount(u, CpuNs) == Amount(v, CpuNs) && Amount(u, Switches) == Amount(v, Switches);
    assert Amount(u, IoOps) == Amount(v, IoOps) && Amount(u, IoBytes) == Amount(v, IoBytes);
    assert Amount(u, Faults) == Amount(v, Faults) && Amount(u, LockWaits) == Amount(v, LockWaits);
  }

  /** The score of a process is that of what its threads have used together. */
  lemma {:induction false} ProcessScoreIsOfItsThreads(
      scorer: Scorer, tids: seq<nat>, owner: map<nat, nat>, usage: map<nat, Usage>, p: nat, u: Usage)
    requires owner.Keys == usage.Keys && Enumerates(tids, owner.Keys)
    requires p in owner.Values && ProcessUsed(tids, owner, usage, p, u)
    ensures var score := ProcessScores(scorer, Aggregates(Loads(tids, owner, usage)));
            p in score && score[p] == scorer.score(scorer.windowS, u)
  {
    var loads := Loads(tids, owner, usage);
    ObservedProcesses(tids, owner, usage);
    forall r
      ensures Amount(Aggregates(loads)[p].usage, r) == Amount(u, r)
    {
      AggregatesAreSums(loads, p, r);
      LoadsAddUp(tids, owner, usage, p, r);
    }
    SameAmounts(Aggregates(loads)[p].usage, u);
  }

  // ---- step 5: ranks ----

  function RankOf(rank: map<nat, nat>, p: nat): nat {
    if p in rank then rank[p] else UNRANKED
  }

  /** Ranks 1, 2, ... by descending score, none shared; equal scores in any order. */
  ghost predicate IsRanking(rank: map<nat, nat>, score: map<nat, real>) {
    && rank.Keys == score.Keys
    && (forall p :: p in rank ==> 1 <= rank[p] <= |score|)
    && (forall p, q :: p in rank && q in rank && rank[p] < rank[q] ==> score[p] >= score[q])
    && (forall p, q :: p in rank && q in rank && rank[p] == rank[q] ==> p == q)
  }

  method ListKeys(score: map<nat, real>) returns (keys: seq<nat>)
    ensures Enumerates(keys, score.Keys) && |keys| == |score|
  {
    keys := [];
    var rest := score.Keys;
    while rest != {}
      invariant rest <= score.Keys && Enumerates(keys, score.Keys - rest)
      invariant |keys| + |rest| == |score.Keys|
    {
      var p :| p in rest;
      assert score.Keys - rest + {p} == score.Keys - (rest - {p});
      keys := keys + [p];
      rest := rest - {p};
    }
    assert score.Keys - rest == score.Keys;
  }

  method RankProcesses(score: map<nat, real>) returns (order: seq<nat>, rank: map<nat, nat>)
    ensures IsRanking(rank, score)
    ensures order == [] <==> score == map[]
    ensures order != [] ==> order[0] in rank && rank[order[0]] == 1
  {
    var keys := ListKeys(score);
    order := Sorting.SortBy(keys, Negated(score));
    Sorting.SameMembers(keys, order);
    Sorting.DistinctPermutation(keys, order);
    rank := Positions(order);
    assert order == [] <==> score.Keys == {};
    assert score.Keys == {} <==> score == map[];
  }

  method Positions(order: seq<nat>) returns (rank: map<nat, nat>)
    requires Sorting.Distinct(order)
    ensures forall p :: p in rank <==> p in order
    ensures forall j :: 0 <= j < |order| ==> order[j] in rank && rank[order[j]] == j + 1
  {
    rank := map[];
    for i := 0 to |order|
      invariant forall p :: p in rank <==> p in order[..i]
      invariant forall j :: 0 <= j < i ==> order[j] in rank && rank[order[j]] == j + 1
    {
      rank := rank[order[i] := i + 1];
    }
    assert order[..|order|] == order;
  }

  // ---- steps 6 to 8: processes ----

  function StateOf(pstate: map<nat, ProcState>, p: nat): ProcState {
    if p in pstate then pstate[p] else Fresh()
  }

  ghost predicate Joinable(pstate: map<nat, ProcState>) {
    forall p :: p in pstate ==> pstate[p].joinedNs < U64
  }

  function SelectedSet(pstate: map<nat, ProcState>): (procs: set<nat>)
    ensures forall p :: p in procs <==> p in pstate && (pstate[p].member || pstate[p].pinned)
  {
    set p | p in pstate && Selected(pstate, p)
  }

  /** The state of a process after its streaks are counted; pinned processes are skipped. */
  function Recount(b: Band, rank: map<nat, nat>, p: nat, st: ProcState): ProcState {
    if st.pinned then st else Counted(b, st, RankOf(rank, p))
  }

  method EnsureEntries(pstate: map<nat, ProcState>, observed: set<nat>) returns (out: map<nat, ProcState>)
    ensures out.Keys == pstate.Keys + observed
    ensures forall p :: p in out ==> out[p] == StateOf(pstate, p)
  {
    out := pstate;
    var rest := observed;
    while rest != {}
      invariant rest <= observed && out.Keys == pstate.Keys + (observed - rest)
      invariant forall p :: p in out ==> out[p] == StateOf(pstate, p)
    {
      var p :| p in rest;
      if p !in out { out := out[p := Fresh()]; }
      rest := rest - {p};
    }
  }

  predicate Leaving(b: Band, st: ProcState, now: nat)
    requires now < U64 && st.joinedNs < U64
  {
    !st.pinned && WantsOut(b, st, now)
  }

  predicate Joining(b: Band, st: ProcState) {
    !st.pinned && WantsIn(b, st)
  }

  /** Counts streaks and collects who is due to leave and who to join. */
  method CountStreaks(pstate: map<nat, ProcState>, rank: map<nat, nat>, b: Band, now: nat)
    returns (counted: map<nat, ProcState>, leaves: seq<nat>, joins: seq<nat>)
    requires Joinable(pstate) && now < U64
    ensures counted.Keys == pstate.Keys && Joinable(counted)
    ensures forall p :: p in counted ==> counted[p] == Recount(b, rank, p, pstate[p])
    ensures forall p :: p in leaves <==> p in counted && Leaving(b, counted[p], now)
    ensures forall p :: p in joins <==> p in counted && Joining(b, counted[p])
    ensures Sorting.Distinct(joins)
  {
    counted, leaves, joins := map[], [], [];
    var rest := pstate.Keys;
    while rest != {}
      invariant rest <= pstate.Keys && counted.Keys == pstate.Keys - rest && Joinable(counted)
      invariant forall p :: p in counted ==> counted[p] == Recount(b, rank, p, pstate[p])
      invariant forall p :: p in leaves <==> p in counted && Leaving(b, counted[p], now)
      invariant forall p :: p in joins <==> p in counted && Joining(b, counted[p])
      invariant Sorting.Distinct(joins)
    {
      var p :| p in rest;
      rest := rest - {p};
      var st := Recount(b, rank, p, pstate[p]);
      counted := counted[p := st];
      if Leaving(b, st, now) { leaves := leaves + [p]; }
      if Joining(b, st) { joins := joins + [p]; }
    }
  }

  method LeaveAll(counted: map<nat, ProcState>, leaves: seq<nat>) returns (out: map<nat, ProcState>)
    requires forall p :: p in leaves ==> p in counted
    ensures out.Keys == counted.Keys
    ensures forall p :: p in out ==> out[p] == if p in leaves then Left(counted[p]) else counted[p]
  {
    out := counted;
    for i := 0 to |leaves|
      invariant out.Keys == counted.Keys
      invariant forall p :: p in out ==> out[p] == if p in leaves[..i] then Left(counted[p]) else counted[p]
    {
      out := out[leaves[i] := Left(out[leaves[i]])];
    }
    assert leaves[..|leaves|] == leaves;
  }

  /** Joins candidates in the order given while the process budget lasts. */
  method JoinInOrder(pstate: map<nat, ProcState>, joins: seq<nat>, procBudget: nat, now: nat)
    returns (out: map<nat, ProcState>, k: nat)
    requires Sorting.Distinct(joins)
    requires forall i :: 0 <= i < |joins| ==> joins[i] in pstate && !Selected(pstate, joins[i])
    ensures k <= |joins| && out.Keys == pstate.Keys
    ensures forall p :: p in out ==> out[p] == if p in joins[..k] then Joined(pstate[p], now) else pstate[p]
    ensures |SelectedSet(out)| == |SelectedSet(pstate)| + k
    ensures k > 0 ==> |SelectedSet(out)| <= procBudget
    ensures k < |joins| ==> |SelectedSet(out)| >= procBudget
  {
    out, k := pstate, 0;
    var members := |SelectedSet(pstate)|;
    while k < |joins| && members < procBudget
      invariant k <= |joins| && out.Keys == pstate.Keys
      invariant forall p :: p in out ==> out[p] == if p in joins[..k] then Joined(pstate[p], now) else pstate[p]
      invariant members == |SelectedSet(out)| == |SelectedSet(pstate)| + k
      invariant k > 0 ==> members <= procBudget
    {
      var p := joins[k];
      assert p !in joins[..k];
      SelectOneMore(out, p, Joined(out[p], now));
      out := out[p := Joined(out[p], now)];
      members := members + 1;
      k := k + 1;
    }
  }

  lemma {:induction false} SelectOneMore(pstate: map<nat, ProcState>, p: nat, st: ProcState)
    requires p in pstate && !Selected(pstate, p) && st.member
    ensures |SelectedSet(pstate[p := st])| == |SelectedSet(pstate)| + 1
  {
    assert SelectedSet(pstate[p := st]) == SelectedSet(pstate) + {p};
  }

  /** A process that was due to join. */
  ghost predicate Candidate(b: Band, rank: map<nat, nat>, before: map<nat, ProcState>, p: nat) {
    !StateOf(before, p).pinned && WantsIn(b, Counted(b, StateOf(before, p), RankOf(rank, p)))
  }

  /** What an evaluation does to the processes: each moves as hysteresis has it; of the candidates the
      best-ranked join, as long as the process budget lasts. */
  ghost predicate ProcessesMoved(b: Band, rank: map<nat, nat>, now: nat, procBudget: nat,
                                 before: map<nat, ProcState>, after: map<nat, ProcState>)
    requires now < U64
  {
    && after.Keys == before.Keys + rank.Keys
    && (forall p :: Ordinary(b, StateOf(before, p), StateOf(after, p), RankOf(rank, p), now))
    && (forall p, q :: Candidate(b, rank, before, p) && Candidate(b, rank, before, q)
                       && StateOf(after, p).member && !StateOf(after, q).member ==>
                         RankOf(rank, p) < RankOf(rank, q))
    && (forall q :: Candidate(b, rank, before, q) && !StateOf(after, q).member ==>
                      |SelectedSet(after)| >= procBudget)
    && (|SelectedSet(after)| > procBudget ==> |SelectedSet(after)| <= |SelectedSet(before)|)
  }

  function ByRank(rank: map<nat, nat>): nat -> real {
    (p: nat) => RankOf(rank, p) as real
  }

  ghost predicate RanksDiffer(rank: map<nat, nat>) {
    forall p, q :: p in rank && q in rank && rank[p] == rank[q] ==> p == q
  }

  method MoveProcesses(pstate: map<nat, ProcState>, rank: map<nat, nat>, b: Band, procBudget: nat, now: nat)
    returns (out: map<nat, ProcState>)
    requires Joinable(pstate) && ValidBand(b) && now < U64 && RanksDiffer(rank)
    ensures Joinable(out) && ProcessesMoved(b, rank, now, procBudget, pstate, out)
  {
    var entries := EnsureEntries(pstate, rank.Keys);
    var counted, leaves, joins := CountStreaks(entries, rank, b, now);
    var left := LeaveAll(counted, leaves);
    var order := Sorting.SortBy(joins, ByRank(rank));
    Sorting.SameMembers(joins, order);
    Sorting.DistinctPermutation(joins, order);
    var k;
    out, k := JoinInOrder(left, order, procBudget, now);
    LeavingIsOrdinary(b, rank, now, pstate, counted, leaves, joins, left);
    JoiningIsOrdinary(b, rank, now, procBudget, pstate, counted, left, order, k, out);
  }

  /** The streaks counted, those who leave gone. */
  ghost predicate AfterLeaves(b: Band, rank: map<nat, nat>, now: nat,
                              before: map<nat, ProcState>, counted: map<nat, ProcState>, left: map<nat, ProcState>)
    requires now < U64 && Joinable(counted)
  {
    && counted.Keys == before.Keys + rank.Keys == left.Keys
    && (forall p :: p in counted ==> counted[p] == Recount(b, rank, p, StateOf(before, p)))
    && (forall p :: p in counted ==>
          left[p] == if Leaving(b, counted[p], now) then Left(counted[p]) else counted[p])
  }

  lemma {:induction false} LeavingIsOrdinary(
      b: Band, rank: map<nat, nat>, now: nat, before: map<nat, ProcState>,
                          counted: map<nat, ProcState>, leaves: seq<nat>, joins: seq<nat>,
                          left: map<nat, ProcState>)
    requires now < U64 && Joinable(counted) && counted.Keys == before.Keys + rank.Keys == left.Keys
    requires forall p :: p in counted ==> counted[p] == Recount(b, rank, p, StateOf(before, p))
    requires forall p :: p in leaves <==> p in counted && Leaving(b, counted[p], now)
    requires forall p :: p in left ==> left[p] == if p in leaves then Left(counted[p]) else counted[p]
    ensures AfterLeaves(b, rank, now, before, counted, left)
    ensures SelectedSet(left) <= SelectedSet(before)
    ensures |SelectedSet(left)| <= |SelectedSet(before)|
  {
    SubsetSize(SelectedSet(left), SelectedSet(before));
  }

  lemma {:induction false} JoiningIsOrdinary(b: Band, rank: map<nat, nat>, now: nat, procBudget: nat,
                          before: map<nat, ProcState>, counted: map<nat, ProcState>,
                          left: map<nat, ProcState>, order: seq<nat>, k: nat, out: map<nat, ProcState>)
    requires ValidBand(b) && now < U64 && Joinable(counted) && RanksDiffer(rank)
    requires AfterLeaves(b, rank, now, before, counted, left)
    requires |SelectedSet(left)| <= |SelectedSet(before)|
    requires Sorting.Distinct(order) && Sorting.Sorted(order, ByRank(rank)) && k <= |order|
    requires forall p :: p in order <==> p in counted && Joining(b, counted[p])
    requires out.Keys == left.Keys
    requires forall p :: p in out ==> out[p] == if p in order[..k] then Joined(left[p], now) else left[p]
    requires |SelectedSet(out)| == |SelectedSet(left)| + k
    requires k > 0 ==> |SelectedSet(out)| <= procBudget
    requires k < |order| ==> |SelectedSet(out)| >= procBudget
    ensures Joinable(out) && ProcessesMoved(b, rank, now, procBudget, before, out)
  {
    forall p
      ensures Candidate(b, rank, before, p) <==> p in order
      ensures Ordinary(b, StateOf(before, p), StateOf(out, p), RankOf(rank, p), now)
      ensures p in order ==> (StateOf(out, p).member <==> p in order[..k])
      ensures p in out ==> out[p].joinedNs < U64
    {
      if p in counted {
        OneProcess(b, rank, now, before, counted, left, p, p in order[..k], StateOf(out, p));
      }
    }
    forall p, q | p in order && q in order && p in order[..k] && q !in order[..k]
      ensures RankOf(rank, p) < RankOf(rank, q)
    {
      BestRanksFirst(b, rank, before, counted, order, k, p, q);
    }
  }

  /** An observed or known process: counted, then made to leave, or to join if admitted. */
  lemma {:induction false} OneProcess(b: Band, rank: map<nat, nat>, now: nat, before: map<nat, ProcState>,
                   counted: map<nat, ProcState>, left: map<nat, ProcState>, p: nat,
                   admitted: bool, st: ProcState)
    requires ValidBand(b) && now < U64 && Joinable(counted) && p in counted
    requires AfterLeaves(b, rank, now, before, counted, left)
    requires admitted ==> Joining(b, counted[p])
    requires st == if admitted then Joined(left[p], now) else left[p]
    ensures Candidate(b, rank, before, p) <==> Joining(b, counted[p])
    ensures Ordinary(b, StateOf(before, p), st, RankOf(rank, p), now)
    ensures Joining(b, counted[p]) ==> (st.member <==> admitted)
    ensures st.joinedNs < U64
  {
  }

  lemma {:induction false} BestRanksFirst(b: Band, rank: map<nat, nat>, before: map<nat, ProcState>,
                       counted: map<nat, ProcState>, order: seq<nat>, k: nat, p: nat, q: nat)
    requires ValidBand(b) && RanksDiffer(rank) && k <= |order|
    requires forall p :: p in counted ==> counted[p] == Recount(b, rank, p, StateOf(before, p))
    requires Sorting.Distinct(order) && Sorting.Sorted(order, ByRank(rank))
    requires forall p :: p in order <==> p in counted && Joining(b, counted[p])
    requires p in order[..k] && q in order && q !in order[..k]
    ensures RankOf(rank, p) < RankOf(rank, q)
  {
    var i :| 0 <= i < k && order[i] == p;
    var j :| 0 <= j < |order| && order[j] == q;
    assert ByRank(rank)(order[i]) <= ByRank(rank)(order[j]);
    assert p in rank && q in rank;
    assert p != q;
  }

  // ---- step 9: threads, and the fallback ----

  lemma {:induction false} ObservedProcesses(tids: seq<nat>, owner: map<nat, nat>, usage: map<nat, Usage>)
    requires owner.Keys == usage.Keys && Enumerates(tids, owner.Keys)
    ensures Aggregates(Loads(tids, owner, usage)).Keys == owner.Values
  {
    var loads := Loads(tids, owner, usage);
    forall p
      ensures p in Aggregates(loads) <==> p in owner.Values
    {
      Grouping.KeysOfGroups(TgidOf, AddLoad, loads, p);
      if p in owner.Values {
        var t :| t in owner && owner[t] == p;
        var i :| 0 <= i < |tids| && tids[i] == t;
        assert TgidOf(loads[i]) == p;
      }
    }
  }

  /** The fallback fires when nothing would be watched although something could be. */
  ghost predicate NothingWatched(pstate: map<nat, ProcState>, owner: map<nat, nat>, pinned: set<nat>) {
    pinned == {} && owner != map[] && forall p :: p in owner.Values ==> !Selected(pstate, p)
  }

  /** The selected processes and the desired threads after the fallback had its chance. */
  method SelectThreads(pstate: map<nat, ProcState>, owner: map<nat, nat>, score: map<nat, real>,
                       pinned: set<nat>, per: nat, budget: nat, order: seq<nat>, now: nat)
    returns (desired: set<nat>, out: map<nat, ProcState>, fallback: Option<nat>)
    requires owner.Keys == score.Keys && per >= 1 && budget >= 1
    requires order != [] <==> owner != map[]
    requires order != [] ==> order[0] in owner.Values && order[0] in pstate
    ensures GoodChoice(SelectedSet(out), owner, score, pinned, per, budget, desired)
    ensures owner != map[] ==> desired != {}
    ensures fallback.Some? <==> NothingWatched(pstate, owner, pinned)
    ensures fallback.None? ==> out == pstate
    ensures fallback.Some? ==> order != [] && fallback.value == order[0] && !Selected(pstate, order[0])
                               && out == pstate[order[0] := FellBack(pstate[order[0]], now)]
  {
    var byProc := GroupThreads(owner, score);
    ghost var prefix;
    desired, prefix := ChooseThreads(pstate, owner, byProc, pinned, per, budget);
    out, fallback := pstate, None;
    if desired == {} && order != [] {
      var top := order[0];
      out, fallback := pstate[top := FellBack(pstate[top], now)], Some(top);
      assert NothingWatched(pstate, owner, pinned);
      desired, prefix := WatchTop(owner, byProc, top, per, budget);
      assert Selected(out, top);
      assert pinned == {};
    }
    TakenIsAGoodChoice(owner, score, byProc, prefix, pinned, per, budget, desired, SelectedSet(out));
  }

  method WatchTop(ghost owner: map<nat, nat>, byProc: map<nat, seq<nat>>, top: nat, per: nat, budget: nat)
    returns (desired: set<nat>, ghost prefix: map<nat, nat>)
    requires ByProcess(owner, byProc) && top in byProc && per >= 1 && budget >= 1
    ensures Taken(owner, byProc, prefix, {}, per, budget, desired)
    ensures prefix.Keys == {top} && desired != {}
  {
    var k;
    desired, k := TakeThreads(byProc[top], {}, per, budget);
    assert forall t :: !TakenFrom(owner, byProc, map[], t);
    prefix := map[][top := k];
  }

  // ---- step 10: the kernel map ----

  /** The `targets` map as it should be: pinned and dynamic targets, no other key. */
  function KernelMap(members: set<nat>, pinned: set<nat>): map<nat, Kind> {
    map t | t in members :: if t in pinned then Pinned else Dynamic
  }

  lemma {:induction false} KernelMapIsExact(members: set<nat>, pinned: set<nat>, t: nat)
    ensures t in KernelMap(members, pinned) <==> t in members
    ensures t in members ==> (KernelMap(members, pinned)[t] == Pinned <==> t in pinned)
  {
  }

  /** Removes what is no longer desired, then adds what is new; the kernel map follows. */
  method ApplyDiff(targets: map<nat, Kind>, members: set<nat>, pinned: set<nat>, desired: set<nat>)
    returns (out: map<nat, Kind>, changed: bool)
    requires targets == KernelMap(members, pinned) && pinned <= members && pinned <= desired
    ensures out == KernelMap(desired, pinned)
    ensures changed <==> members != desired
  {
    out, changed := targets, false;
    var rest := members;
    while rest != {}
      invariant rest <= members
      invariant out == KernelMap(members * (rest + desired), pinned)
      invariant changed <==> exists t :: t in members && t !in rest && t !in desired
    {
      var t :| t in rest;
      rest := rest - {t};
      if t !in desired {
        out := out - {t};
        changed := true;
      }
    }
    rest := desired;
    while rest != {}
      invariant rest <= desired
      invariant out == KernelMap(members * desired + (desired - rest), pinned)
      invariant changed <==> (exists t :: t in members && t !in desired)
                             || (exists t :: t in desired && t !in rest && t !in members)
    {
      var t :| t in rest;
      rest := rest - {t};
      if t !in members {
        out := out[t := Dynamic];
        changed := true;
      }
    }
    assert members * desired + (desired - rest) == desired;
    assert members == desired <==> (forall t :: t in members ==> t in desired)
                                   && forall t :: t in desired ==> t in members;
  }
}
