/** A run of the target selector (src/collect/target_selector.cpp) in which the fallback makes a process
    flap: two processes of one thread each take turns in being busy. */
module FallbackRun {
  import opened Arith
  import opened Collections
  import opened Hysteresis
  import opened Scoring
  import opened ThreadChoice
  import opened SelectionSteps
  import opened TargetSelection

  const SECOND: nat := 1000000000

  function TheBand(): Band { Band(1, 1, 2, 0) }

  function CpuAlone(): Weights { Weights(1.0, 0.0, 0.0, 0.0, 0.0) }

  /** CPU time alone is scored, over a window of a second, at a hundred clock ticks in a second; one thread
      for each process. */
  function TheConfig(): Config {
    Config([], StandardMeter(CpuAlone(), 100), SECOND, 1, TheBand())
  }

  /** Half a CPU for the busy one, nothing for the other. */
  function UsageIn(busy: bool): Usage {
    Usage(if busy then 500000000 else 0, 0, 0, 0, 0, 0)
  }

  /** Two threads in all, each a process of its own. */
  function InputsOf(busy: nat): Inputs {
    Inputs(Scorer(TheConfig().meter.score, 1.0), 1, map[1 := 1, 2 := 2],
           map[1 := UsageIn(busy == 1), 2 := UsageIn(busy == 2)], {}, 2)
  }

  /** Two processes, of which one is busy. */
  ghost predicate Pair(i: Inputs, busy: nat) {
    && (busy == 1 || busy == 2) && i.per == 1 && i.pinned == {} && i.budget == 2
    && i.owner.Keys == {1, 2} == i.usage.Keys && i.owner[1] == 1 && i.owner[2] == 2
    && ScoreOf(i.scorer, i.usage[busy]) > ScoreOf(i.scorer, i.usage[3 - busy])
  }

  ghost predicate RankedPair(rank: map<nat, nat>, busy: nat) {
    rank.Keys == {1, 2} && rank[1] == (if busy == 1 then 1 else 2) && rank[2] == (if busy == 2 then 1 else 2)
  }

  lemma {:induction false} ScoreOfCpuAlone(w: Weights, u: Usage)
    requires w == CpuAlone() && u.cpuNs <= 1000000000
    ensures ComputeScore(w, 1.0, u) == u.cpuNs as real / 1000000000.0
  {
    ScoreIsWeighedShares(w, 100, 1.0, u);
  }

  lemma {:induction false} BusyScoresHigher(sc: Scorer)
    requires sc == InputsOf(1).scorer
    ensures ScoreOf(sc, UsageIn(true)) == 0.5 && ScoreOf(sc, UsageIn(false)) == 0.0
  {
    ScoreOfCpuAlone(CpuAlone(), UsageIn(true));
    ScoreOfCpuAlone(CpuAlone(), UsageIn(false));
  }

  lemma {:induction false} PairKeys<V>(m: map<nat, V>, a: V, b: V)
    requires m == map[1 := a, 2 := b]
    ensures m.Keys == {1, 2} && m[1] == a && m[2] == b
  {
  }

  lemma {:induction false} InputsAreAPair(busy: nat)
    requires busy == 1 || busy == 2
    ensures Pair(InputsOf(busy), busy)
  {
    var i := InputsOf(busy);
    BusyScoresHigher(i.scorer);
    PairKeys(i.owner, 1, 2);
    PairKeys(i.usage, UsageIn(busy == 1), UsageIn(busy == 2));
  }

  // ---- ranks ----

  lemma {:induction false} AggregatesOfPair(one: Load, two: Load)
    requires one.tgid == 1 && two.tgid == 2
    ensures Aggregates([one, two]) == map[1 := one, 2 := two]
  {
    assert [one][..0] == [] && [one, two][..1] == [one];
    assert Aggregates([]) == map[];
    assert Aggregates([one]) == map[1 := one];
  }

  lemma {:induction false} RankingOfPair(rank: map<nat, nat>, score: map<nat, real>, busy: nat)
    requires (busy == 1 || busy == 2) && RankedPair(rank, busy) && score.Keys == {1, 2}
    requires score[busy] >= score[3 - busy]
    ensures IsRanking(rank, score)
  {
    assert |score.Keys| == 2 && |score| == |score.Keys|;
  }

  lemma {:induction false} ProcessScoresOfPair(i: Inputs, busy: nat)
    requires Pair(i, busy)
    ensures var score := ProcessScores(i.scorer, Aggregates(Loads([1, 2], i.owner, i.usage)));
            score.Keys == {1, 2} && score[busy] >= score[3 - busy]
  {
    var one, two := Load(1, i.usage[1]), Load(2, i.usage[2]);
    assert Loads([1, 2], i.owner, i.usage) == [one, two];
    AggregatesOfPair(one, two);
    PairKeys(map[1 := one, 2 := two], one, two);
  }

  lemma {:induction false} RanksAreHonest(i: Inputs, busy: nat, rank: map<nat, nat>)
    requires Pair(i, busy) && RankedPair(rank, busy)
    ensures WellRanked(i.scorer, i.owner, i.usage, rank)
  {
    ProcessScoresOfPair(i, busy);
    RankingOfPair(rank, ProcessScores(i.scorer, Aggregates(Loads([1, 2], i.owner, i.usage))), busy);
    assert Enumerates([1, 2], i.owner.Keys);
    OwnersOfPair(i, busy);
    AnyEnumeration(i.scorer, [1, 2], i.owner, i.usage, rank);
  }

  lemma {:induction false} OwnersOfPair(i: Inputs, busy: nat)
    requires Pair(i, busy)
    ensures i.owner.Values == {1, 2} && i.owner != map[]
  {
    assert i.owner[1] in i.owner.Values && i.owner[2] in i.owner.Values;
  }

  // ---- one evaluation ----

  /** Process `p` moves as hysteresis has it, and is admitted when it is due. */
  ghost predicate Moves(rank: map<nat, nat>, now: nat, before: map<nat, ProcState>, p: nat, st: ProcState)
    requires now < U64
  {
    var r := RankOf(rank, p);
    && !StateOf(before, p).pinned && Ordinary(TheBand(), StateOf(before, p), st, r, now)
    && (WantsIn(TheBand(), Counted(TheBand(), StateOf(before, p), r)) ==> st.member)
  }

  /** There is room for both. */
  lemma {:induction false} BothMove(
      rank: map<nat, nat>, now: nat, before: map<nat, ProcState>, moved: map<nat, ProcState>)
    requires rank.Keys == {1, 2} == moved.Keys && now < U64 && before.Keys <= {1, 2}
    requires Moves(rank, now, before, 1, moved[1]) && Moves(rank, now, before, 2, moved[2])
    ensures ProcessesMoved(TheBand(), rank, now, 2, before, moved)
  {
    SubsetSize(SelectedSet(moved), {1, 2});
    forall p
      ensures Ordinary(TheBand(), StateOf(before, p), StateOf(moved, p), RankOf(rank, p), now)
      ensures Candidate(TheBand(), rank, before, p) ==> StateOf(moved, p).member
    {
    }
  }

  /** An evaluation of the pair: `moved` are the processes before the fallback. */
  ghost predicate PairEvaluation(e: Evaluation, busy: nat, moved: map<nat, ProcState>) {
    && e.band == TheBand() && e.now < U64 && Pair(e.inputs, busy) && RankedPair(e.rank, busy)
    && e.before.Keys <= {1, 2} == moved.Keys && !moved[1].pinned && !moved[2].pinned
    && Moves(e.rank, e.now, e.before, 1, moved[1]) && Moves(e.rank, e.now, e.before, 2, moved[2])
    && FallsBackWhenAlone(e, busy, moved) && e.members == SelectedSet(e.after)
  }

  ghost predicate FallsBackWhenAlone(e: Evaluation, busy: nat, moved: map<nat, ProcState>)
    requires moved.Keys == {1, 2} && (busy == 1 || busy == 2)
  {
    if moved[1].member || moved[2].member then e.fallback == None && e.after == moved
    else e.fallback == Some(busy) && e.after == moved[busy := FellBack(moved[busy], e.now)]
  }

  lemma {:induction false} NothingSelected(owner: map<nat, nat>, moved: map<nat, ProcState>)
    requires owner.Values == {1, 2} && owner != map[]
    requires moved.Keys == {1, 2} && !moved[1].pinned && !moved[2].pinned
    ensures NothingWatched(moved, owner, {}) <==> !moved[1].member && !moved[2].member
  {
    assert 1 in owner.Values && 2 in owner.Values;
    assert Selected(moved, 1) <==> moved[1].member;
    assert Selected(moved, 2) <==> moved[2].member;
  }

  lemma {:induction false} PairFallsBack(e: Evaluation, busy: nat, moved: map<nat, ProcState>)
    requires moved.Keys == {1, 2} && !moved[1].pinned && !moved[2].pinned
    requires (busy == 1 || busy == 2) && RankedPair(e.rank, busy) && FallsBackWhenAlone(e, busy, moved)
    requires e.inputs.owner.Values == {1, 2} && e.inputs.owner != map[] && e.inputs.pinned == {}
    ensures e.fallback.Some? <==> NothingWatched(moved, e.inputs.owner, e.inputs.pinned)
    ensures e.fallback.Some? ==>
              e.fallback == Some(busy) && busy in moved && !Selected(moved, busy) && RankOf(e.rank, busy) == 1
  {
    NothingSelected(e.inputs.owner, moved);
  }

  lemma {:induction false} PairMoves(e: Evaluation, busy: nat, moved: map<nat, ProcState>)
    requires PairEvaluation(e, busy, moved)
    ensures ProcessesMoved(e.band, e.rank, e.now, ProcBudget(e.inputs.budget, e.inputs.per), e.before, moved)
  {
    BothMove(e.rank, e.now, e.before, moved);
    assert ProcBudget(2, 1) == 2;
  }

  lemma {:induction false} PairSettles(e: Evaluation, busy: nat, moved: map<nat, ProcState>)
    requires PairEvaluation(e, busy, moved)
    ensures Settled(e, moved)
  {
    PairMoves(e, busy, moved);
    OwnersOfPair(e.inputs, busy);
    SettledAfterMoving(e, busy, moved);
  }

  lemma {:induction false} SettledAfterMoving(e: Evaluation, busy: nat, moved: map<nat, ProcState>)
    requires e.now < U64 && moved.Keys == {1, 2} && !moved[1].pinned && !moved[2].pinned
    requires (busy == 1 || busy == 2) && RankedPair(e.rank, busy) && FallsBackWhenAlone(e, busy, moved)
    requires e.inputs.owner.Values == {1, 2} && e.inputs.owner != map[] && e.inputs.pinned == {}
    requires ProcessesMoved(e.band, e.rank, e.now, ProcBudget(e.inputs.budget, e.inputs.per), e.before, moved)
    ensures Settled(e, moved)
  {
    PairFallsBack(e, busy, moved);
  }

  lemma {:induction false} AllSelectedIsAGoodChoice(owner: map<nat, nat>, score: map<nat, real>, selected: set<nat>)
    requires score.Keys == owner.Keys == {1, 2} && owner[1] == 1 && owner[2] == 2 && selected <= {1, 2}
    ensures GoodChoice(selected, owner, score, {}, 1, 2, selected)
  {
    SubsetSize(selected, {1, 2});
    assert selected - {} == selected;
    forall p: nat
      ensures |OfProcess(selected, owner, p)| <= 1
    {
      SubsetSize(OfProcess(selected, owner, p), {p});
    }
  }

  lemma {:induction false} SelectedAreKnown(pstate: map<nat, ProcState>)
    ensures SelectedSet(pstate) <= pstate.Keys
  {
  }

  lemma {:induction false} PairIsWellJudged(e: Evaluation, busy: nat, moved: map<nat, ProcState>)
    requires PairEvaluation(e, busy, moved)
    ensures WellJudged(e)
  {
    var i := e.inputs;
    PairSettles(e, busy, moved);
    RanksAreHonest(i, busy, e.rank);
    PairChoosesWell(e, busy, moved);
    SomeoneIsSelected(e, busy, moved);
  }

  lemma {:induction false} PairChoosesWell(e: Evaluation, busy: nat, moved: map<nat, ProcState>)
    requires PairEvaluation(e, busy, moved)
    ensures var i := e.inputs;
            GoodChoice(SelectedSet(e.after), i.owner, Scores(i.scorer, i.usage), i.pinned, i.per, i.budget, e.members)
  {
    assert e.after.Keys == {1, 2};
    SelectedAreKnown(e.after);
    AllSelectedIsAGoodChoice(e.inputs.owner, Scores(e.inputs.scorer, e.inputs.usage), e.members);
  }

  lemma {:induction false} SomeoneIsSelected(e: Evaluation, busy: nat, moved: map<nat, ProcState>)
    requires PairEvaluation(e, busy, moved)
    ensures e.members != {}
  {
    assert Selected(e.after, 1) || Selected(e.after, 2);
    assert Selected(e.after, 1) ==> 1 in SelectedSet(e.after);
    assert Selected(e.after, 2) ==> 2 in SelectedSet(e.after);
  }

  // ---- the run ----

  ghost predicate RunSoFar(trace: seq<Evaluation>, last: map<nat, ProcState>) {
    Linked(trace, last) && AllWellJudged(trace) && SameBand(trace, TheBand())
  }

  lemma {:induction false} JudgedOneMore(trace: seq<Evaluation>, e: Evaluation)
    requires AllWellJudged(trace) && WellJudged(e) && SameBand(trace, TheBand()) && e.band == TheBand()
    ensures AllWellJudged(trace + [e]) && SameBand(trace + [e], TheBand())
  {
  }

  lemma {:induction false} PairIsSound(e: Evaluation, busy: nat, moved: map<nat, ProcState>)
    requires PairEvaluation(e, busy, moved)
    ensures Sound(e)
  {
    PairSettles(e, busy, moved);
    EvaluationIsSound(e, moved);
  }

  lemma {:induction false} Longer(trace: seq<Evaluation>, e: Evaluation)
    requires RunSoFar(trace, e.before) && Sound(e) && WellJudged(e) && e.band == TheBand()
    ensures RunSoFar(trace + [e], e.after)
  {
    LinkedOneMore(trace, e);
    JudgedOneMore(trace, e);
  }

  lemma {:induction false} OneMore(trace: seq<Evaluation>, e: Evaluation, busy: nat, moved: map<nat, ProcState>)
    requires RunSoFar(trace, e.before) && PairEvaluation(e, busy, moved)
    ensures RunSoFar(trace + [e], e.after)
  {
    PairIsSound(e, busy, moved);
    PairIsWellJudged(e, busy, moved);
    Longer(trace, e);
  }

  /** An evaluation that watches whoever is selected. */
  function EvaluationOf(i: Inputs, rank: map<nat, nat>, now: nat, fallback: Option<nat>,
                        before: map<nat, ProcState>, after: map<nat, ProcState>): Evaluation {
    Evaluation(TheBand(), now, i, rank, fallback, before, after, SelectedSet(after))
  }

  lemma {:induction false} ByRank(trace: seq<Evaluation>, i: Inputs, rank: map<nat, nat>, busy: nat, now: nat,
                                  before: map<nat, ProcState>, after: map<nat, ProcState>)
    returns (longer: seq<Evaluation>)
    requires RunSoFar(trace, before) && Pair(i, busy) && RankedPair(rank, busy) && now < U64
    requires before.Keys <= {1, 2} == after.Keys && !after[1].pinned && !after[2].pinned
    requires after[1].member || after[2].member
    requires Moves(rank, now, before, 1, after[1]) && Moves(rank, now, before, 2, after[2])
    ensures longer == trace + [EvaluationOf(i, rank, now, None, before, after)] && RunSoFar(longer, after)
  {
    var e := EvaluationOf(i, rank, now, None, before, after);
    assert PairEvaluation(e, busy, after);
    OneMore(trace, e, busy, after);
    longer := trace + [e];
  }

  lemma {:induction false} ByFallback(trace: seq<Evaluation>, i: Inputs, rank: map<nat, nat>, busy: nat, now: nat,
                                      before: map<nat, ProcState>, moved: map<nat, ProcState>)
    returns (longer: seq<Evaluation>, after: map<nat, ProcState>)
    requires RunSoFar(trace, before) && Pair(i, busy) && RankedPair(rank, busy) && now < U64
    requires before.Keys <= {1, 2} == moved.Keys && !moved[1].pinned && !moved[2].pinned
    requires !moved[1].member && !moved[2].member
    requires Moves(rank, now, before, 1, moved[1]) && Moves(rank, now, before, 2, moved[2])
    ensures after == moved[busy := FellBack(moved[busy], now)]
    ensures longer == trace + [EvaluationOf(i, rank, now, Some(busy), before, after)] && RunSoFar(longer, after)
  {
    after := moved[busy := FellBack(moved[busy], now)];
    var e := EvaluationOf(i, rank, now, Some(busy), before, after);
    assert PairEvaluation(e, busy, moved);
    OneMore(trace, e, busy, moved);
    longer := trace + [e];
  }

  lemma {:induction false} EmptyRun()
    ensures RunSoFar([], map[])
  {
  }

  /** Nobody has a good streak of two yet, so the fallback picks process 1. */
  lemma {:induction false} First(before: map<nat, ProcState>, i1: Inputs, r1: map<nat, nat>)
    returns (trace: seq<Evaluation>, m0: map<nat, ProcState>)
    requires before == map[] && RunSoFar([], before) && Pair(i1, 1) && RankedPair(r1, 1)
    ensures trace == [EvaluationOf(i1, r1, SECOND, Some(1), before, m0)] && RunSoFar(trace, m0)
    ensures m0.Keys == {1, 2} && m0[1] == ProcState(true, false, 1, 0, SECOND) && m0[2] == Fresh()
  {
    var streak := ProcState(false, false, 1, 0, 0);
    var moved := map[1 := streak, 2 := Fresh()];
    PairKeys(moved, streak, Fresh());
    trace, m0 := ByFallback([], i1, r1, 1, SECOND, before, moved);
  }

  /** Process 2 is busy twice: process 1 leaves, its good streak intact. */
  lemma {:induction false} OutAgain(before: seq<Evaluation>, i2: Inputs, r2: map<nat, nat>, m0: map<nat, ProcState>)
    returns (trace: seq<Evaluation>, m1: map<nat, ProcState>, m2: map<nat, ProcState>)
    requires RunSoFar(before, m0) && m0.Keys == {1, 2} && Pair(i2, 2) && RankedPair(r2, 2)
    requires m0[1] == ProcState(true, false, 1, 0, SECOND) && m0[2] == Fresh()
    ensures trace == before + [EvaluationOf(i2, r2, 2 * SECOND, None, m0, m1)]
                            + [EvaluationOf(i2, r2, 3 * SECOND, None, m1, m2)]
    ensures RunSoFar(trace, m2) && m1.Keys == m2.Keys == {1, 2}
    ensures m1[1].member && m2[1] == ProcState(false, false, 1, 0, SECOND)
    ensures m2[2] == ProcState(true, false, 0, 0, 3 * SECOND)
  {
    var bad, streak := ProcState(true, false, 1, 1, SECOND), ProcState(false, false, 1, 0, 0);
    m1 := map[1 := bad, 2 := streak];
    PairKeys(m1, bad, streak);
    trace := ByRank(before, i2, r2, 2, 2 * SECOND, m0, m1);
    var out, joined := ProcState(false, false, 1, 0, SECOND), ProcState(true, false, 0, 0, 3 * SECOND);
    m2 := map[1 := out, 2 := joined];
    PairKeys(m2, out, joined);
    trace := ByRank(trace, i2, r2, 2, 3 * SECOND, m1, m2);
  }

  /** Process 1 is busy once, and back. */
  lemma {:induction false} BackAgain(before: seq<Evaluation>, i1: Inputs, r1: map<nat, nat>, m2: map<nat, ProcState>)
    returns (trace: seq<Evaluation>, m3: map<nat, ProcState>)
    requires RunSoFar(before, m2) && m2.Keys == {1, 2} && Pair(i1, 1) && RankedPair(r1, 1)
    requires m2[1] == ProcState(false, false, 1, 0, SECOND) && m2[2] == ProcState(true, false, 0, 0, 3 * SECOND)
    ensures trace == before + [EvaluationOf(i1, r1, 4 * SECOND, None, m2, m3)] && RunSoFar(trace, m3)
    ensures m3.Keys == {1, 2} && m3[1].member
  {
    var joined, bad := ProcState(true, false, 0, 0, 4 * SECOND), ProcState(true, false, 0, 1, 3 * SECOND);
    m3 := map[1 := joined, 2 := bad];
    PairKeys(m3, joined, bad);
    trace := ByRank(before, i1, r1, 1, 4 * SECOND, m2, m3);
  }

  lemma {:induction false} FourInARow(
      trace: seq<Evaluation>, e0: Evaluation, e1: Evaluation, e2: Evaluation, e3: Evaluation)
    requires trace == [e0] + [e1] + [e2] + [e3]
    ensures |trace| == 4 && trace[0] == e0 && trace[1] == e1 && trace[2] == e2 && trace[3] == e3
  {
  }

  lemma {:induction false} FlapsWith(i1: Inputs, i2: Inputs, r1: map<nat, nat>, r2: map<nat, nat>)
    returns (trace: seq<Evaluation>, last: map<nat, ProcState>)
    requires Pair(i1, 1) && Pair(i2, 2) && RankedPair(r1, 1) && RankedPair(r2, 2)
    ensures RunSoFar(trace, last) && |trace| == 4 && trace[0].fallback == Some(1)
    ensures trace[1].fallback == trace[2].fallback == trace[3].fallback == None
    ensures trace[0].inputs == i1 && trace[1].inputs == i2 && trace[2].inputs == i2 && trace[3].inputs == i1
    ensures trace[0].now == SECOND && trace[1].now == 2 * SECOND
    ensures trace[2].now == 3 * SECOND && trace[3].now == 4 * SECOND
    ensures Flipped(trace[2], 1) && StateOf(trace[2].before, 1).member
    ensures Flipped(trace[3], 1) && StateOf(trace[3].after, 1).member
  {
    EmptyRun();
    var m0, m1, m2;
    trace, m0 := First(map[], i1, r1);
    trace, m1, m2 := OutAgain(trace, i2, r2, m0);
    trace, last := BackAgain(trace, i1, r1, m2);
    FourInARow(trace, EvaluationOf(i1, r1, SECOND, Some(1), map[], m0), EvaluationOf(i2, r2, 2 * SECOND, None, m0, m1),
               EvaluationOf(i2, r2, 3 * SECOND, None, m1, m2), EvaluationOf(i1, r1, 4 * SECOND, None, m2, last));
  }

  // ---- the tables it comes from ----

  function Ticked(ticks: nat): Counters { Counters(ticks, 0, 0, 0, 0, 0, 0, 0) }

  /** The process table when the two threads have run for so many clock ticks. */
  function TableOf(a: nat, b: nat): seq<Row> {
    [Row(1, 1, 0, Ticked(a)), Row(2, 2, 0, Ticked(b))]
  }

  function SnapshotOf(second: nat, a: nat, b: nat): Snapshot {
    Snapshot(second * SECOND, map[1 := Ticked(a), 2 := Ticked(b)])
  }

  lemma {:induction false} TableIsRead(a: nat, b: nat)
    ensures OwnersOf(TableOf(a, b), map[1 := 1, 2 := 2])
    ensures CountersOf(TableOf(a, b), map[1 := Ticked(a), 2 := Ticked(b)])
  {
    var table := TableOf(a, b);
    assert LastRow(table, 1, 0) && LastRow(table, 2, 1);
  }

  lemma {:induction false} FiftyTicks()
    ensures TheConfig().meter.toNs(50) == 500000000 && TheConfig().meter.toNs(0) == 0
  {
    assert TicksToNs(50, 100) == 500000000;
  }

  lemma {:induction false} MoreTicks(ticks: nat, more: nat)
    ensures Delta(Ticked(ticks + more), Ticked(ticks)) == Ticked(more)
  {
  }

  lemma {:induction false} UsageOfTicks(ticks: nat, toNs: nat -> nat)
    ensures UsageOf(Ticked(ticks), toNs) == Usage(toNs(ticks), 0, 0, 0, 0, 0)
  {
  }

  /** What a thread has used in a second. */
  lemma {:induction false} UsageInASecond(ticks: nat, more: nat, ns: nat, toNs: nat -> nat)
    requires toNs(more) == ns
    ensures UsageOf(Delta(Ticked(ticks + more), Ticked(ticks)), toNs) == Usage(ns, 0, 0, 0, 0, 0)
  {
    MoreTicks(ticks, more);
    UsageOfTicks(more, toNs);
  }

  lemma {:induction false} PairsUsage(base: map<nat, Counters>, cur: map<nat, Counters>, toNs: nat -> nat)
    requires base.Keys == cur.Keys == {1, 2}
    ensures Usages(cur, base, toNs)
         == map[1 := UsageOf(Delta(cur[1], base[1]), toNs), 2 := UsageOf(Delta(cur[2], base[2]), toNs)]
  {
  }

  lemma {:induction false} OneSecond(second: nat)
    requires second < 10
    ensures second * SECOND < U64 && (second + 1) * SECOND < U64
    ensures WindowSeconds(second * SECOND, (second + 1) * SECOND) == 1.0
  {
  }

  lemma {:induction false} UsagesOfASecond(
      base: map<nat, Counters>, cur: map<nat, Counters>, a: nat, b: nat, m: nat, n: nat, toNs: nat -> nat)
    requires base.Keys == cur.Keys == {1, 2} && base[1] == Ticked(a) && base[2] == Ticked(b)
    requires cur[1] == Ticked(a + m) && cur[2] == Ticked(b + n)
    ensures Usages(cur, base, toNs)
         == map[1 := Usage(toNs(m), 0, 0, 0, 0, 0), 2 := Usage(toNs(n), 0, 0, 0, 0, 0)]
  {
    PairsUsage(base, cur, toNs);
    UsageInASecond(a, m, toNs(m), toNs);
    UsageInASecond(b, n, toNs(n), toNs);
  }

  /** What a second of one process being busy comes to. */
  lemma {:induction false} OneSecondsUsage(second: nat, a: nat, b: nat, busy: nat)
    requires second < 10 && (busy == 1 || busy == 2)
    ensures WindowInputs(TheConfig(),
                         [SnapshotOf(second, a, b),
                          SnapshotOf(second + 1, a + if busy == 1 then 50 else 0, b + if busy == 2 then 50 else 0)],
                         map[1 := 1, 2 := 2], {}, 2) == InputsOf(busy)
  {
    var a', b' := a + if busy == 1 then 50 else 0, b + if busy == 2 then 50 else 0;
    var base, cur := SnapshotOf(second, a, b).counters, SnapshotOf(second + 1, a', b').counters;
    PairKeys(base, Ticked(a), Ticked(b));
    PairKeys(cur, Ticked(a'), Ticked(b'));
    FiftyTicks();
    UsagesOfASecond(base, cur, a, b, a' - a, b' - b, TheConfig().meter.toNs);
    OneSecond(second);
  }

  /** The evaluation at a second sees the last two snapshots, a second apart. */
  ghost predicate SeenAt(e: Evaluation, table: seq<Row>, older: seq<Snapshot>, kept: seq<Snapshot>) {
    && Clocked(older) && Clocked(kept) && |kept| == 2 && e.now < U64
    && Observed(table, older, TheConfig().windowNs, e.now, kept)
    && MeasuredOver(TheConfig(), table, kept, {}, 2, e.inputs)
  }

  /** Who is busy in a second of the run, and how long each has worked before it. */
  function BusyIn(second: nat): nat { if second == 1 || second == 2 then 2 else 1 }

  function Worked(p: nat, second: nat): nat {
    if second == 0 then 0 else Worked(p, second - 1) + if BusyIn(second - 1) == p then 50 else 0
  }

  function SnapshotAt(second: nat): Snapshot { SnapshotOf(second, Worked(1, second), Worked(2, second)) }

  function TableAt(second: nat): seq<Row> { TableOf(Worked(1, second), Worked(2, second)) }

  function WindowAt(second: nat): seq<Snapshot> {
    if second == 0 then [SnapshotAt(0)] else [SnapshotAt(second - 1), SnapshotAt(second)]
  }

  lemma {:induction false} NextWindow(second: nat)
    ensures WindowAt(second + 1)
         == [SnapshotOf(second, Worked(1, second), Worked(2, second)),
             SnapshotOf(second + 1, Worked(1, second) + if BusyIn(second) == 1 then 50 else 0,
                        Worked(2, second) + if BusyIn(second) == 2 then 50 else 0)]
  {
  }

  lemma {:induction false} SecondIsMeasured(
      inputs: Inputs, second: nat, a: nat, b: nat, busy: nat, table: seq<Row>, kept: seq<Snapshot>)
    requires second < 10 && (busy == 1 || busy == 2) && inputs == InputsOf(busy)
    requires var a', b' := a + if busy == 1 then 50 else 0, b + if busy == 2 then 50 else 0;
             table == TableOf(a', b') && kept == [SnapshotOf(second, a, b), SnapshotOf(second + 1, a', b')]
    ensures Clocked(kept) && MeasuredOver(TheConfig(), table, kept, {}, 2, inputs)
  {
    OneSecondsUsage(second, a, b, busy);
    TableIsRead(a + if busy == 1 then 50 else 0, b + if busy == 2 then 50 else 0);
    InputsAreMeasured(TheConfig(), table, kept, map[1 := 1, 2 := 2], {}, 2);
  }

  lemma {:induction false} SecondIsObserved(second: nat)
    requires second < 10
    ensures Clocked(WindowAt(second)) && |WindowAt(second + 1)| == 2 && (second + 1) * SECOND < U64
    ensures Observed(TableAt(second + 1), WindowAt(second), TheConfig().windowNs, (second + 1) * SECOND,
                     WindowAt(second + 1))
  {
    TableIsRead(Worked(1, second + 1), Worked(2, second + 1));
    LastTwoAreKept(WindowAt(second), SnapshotAt(second + 1));
  }

  /** What an evaluation of the run goes by is what its window of snapshots says: the process table of that
      second, and the one of the second before. */
  lemma {:induction false} SecondIsSeen(e: Evaluation, second: nat)
    requires second < 10 && e.now == (second + 1) * SECOND && e.inputs == InputsOf(BusyIn(second))
    ensures SeenAt(e, TableAt(second + 1), WindowAt(second), WindowAt(second + 1))
  {
    SecondIsObserved(second);
    NextWindow(second);
    SecondIsMeasured(e.inputs, second, Worked(1, second), Worked(2, second), BusyIn(second),
                     TableAt(second + 1), WindowAt(second + 1));
  }

  lemma {:induction false} LastTwoAreKept(older: seq<Snapshot>, current: Snapshot)
    requires 1 <= |older| <= 2 && current.ts < U64 && older[|older| - 1].ts + SECOND == current.ts
    requires |older| == 2 ==> older[0].ts + 2 * SECOND == current.ts
    ensures Clocked(older) && Clocked(older + [current])
    ensures WindowKept(older + [current], [older[|older| - 1], current], SECOND, current.ts)
  {
  }

  /** With a hold of two evaluations, process 1, admitted by the fallback, leaves at the third evaluation
      and joins by rank at the fourth, a second later. SecondIsSeen says where the inputs come from. */
  lemma {:induction false} FallbackMayFlap() returns (trace: seq<Evaluation>, last: map<nat, ProcState>)
    ensures ValidBand(TheBand()) && TheBand().holdPeriods == 2
    ensures Linked(trace, last) && AllWellJudged(trace) && SameBand(trace, TheBand()) && |trace| == 4
    ensures trace[0].inputs == trace[3].inputs == InputsOf(1) && trace[1].inputs == trace[2].inputs == InputsOf(2)
    ensures trace[0].now == SECOND && trace[1].now == 2 * SECOND
    ensures trace[2].now == 3 * SECOND && trace[3].now == 4 * SECOND
    ensures trace[0].fallback == Some(1) && trace[1].fallback == trace[2].fallback == trace[3].fallback == None
    ensures Flipped(trace[2], 1) && StateOf(trace[2].before, 1).member
    ensures Flipped(trace[3], 1) && StateOf(trace[3].after, 1).member
  {
    var i1, i2 := InputsOf(1), InputsOf(2);
    var r1, r2 := map[1 := 1, 2 := 2], map[1 := 2, 2 := 1];
    InputsAreAPair(1);
    InputsAreAPair(2);
    PairKeys(r1, 1, 2);
    PairKeys(r2, 2, 1);
    trace, last := FlapsWith(i1, i2, r1, r2);
  }
}
