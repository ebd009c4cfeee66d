/** The target selector as an object (src/collect/target_selector.cpp): the threads whose activity the
    kernel records, over any run of pinnings and evaluations. */
module TargetSelection {
  import opened Arith
  import opened Collections
  import opened Hysteresis
  import opened Scoring
  import opened ThreadChoice
  import opened SelectionSteps

  /** What an evaluation goes by: how it scores, who runs where and used what, and the limits. */
  datatype Inputs = Inputs(
    scorer: Scorer, per: nat, owner: map<nat, nat>, usage: map<nat, Usage>, pinned: set<nat>, budget: nat)

  /** A completed evaluation: its inputs, the ranks, the process it had to fall back on, the processes
      before and after, and the threads it arrived at. */
  datatype Evaluation = Evaluation(
    band: Band, now: nat, inputs: Inputs, rank: map<nat, nat>, fallback: Option<nat>,
    before: map<nat, ProcState>, after: map<nat, ProcState>, members: set<nat>)

  /** What process `p` saw of an evaluation. */
  function View(e: Evaluation, p: nat): Eval {
    Eval(RankOf(e.rank, p), e.now, e.fallback == Some(p))
  }

  ghost predicate Sound(e: Evaluation) {
    e.now < U64 && forall p :: EvalStep(e.band, StateOf(e.before, p), StateOf(e.after, p), View(e, p))
  }

  /** What may happen to processes between evaluations: some get pinned, for good. */
  ghost predicate Follows(m: map<nat, ProcState>, m': map<nat, ProcState>) {
    forall p ::
      && (StateOf(m, p).pinned ==> StateOf(m', p).pinned)
      && (!StateOf(m', p).pinned ==> StateOf(m', p) == StateOf(m, p))
  }

  function StateBefore(trace: seq<Evaluation>, i: nat, last: map<nat, ProcState>): map<nat, ProcState>
    requires i <= |trace|
  {
    if i < |trace| then trace[i].before else last
  }

  function StateAfter(trace: seq<Evaluation>, i: nat): map<nat, ProcState>
    requires i <= |trace|
  {
    if i == 0 then map[] else trace[i - 1].after
  }

  /** A run of evaluations that ends in the process table `last`. */
  ghost predicate Linked(trace: seq<Evaluation>, last: map<nat, ProcState>) {
    && (forall i :: 0 <= i < |trace| ==> Sound(trace[i]))
    && (forall i :: 0 <= i <= |trace| ==> Follows(StateAfter(trace, i), StateBefore(trace, i, last)))
  }

  function WithPin(pstate: map<nat, ProcState>, tgid: nat, now: nat): map<nat, ProcState> {
    pstate[tgid := StateOf(pstate, tgid).(member := true, pinned := true, joinedNs := now)]
  }

  /** A member from `now` on, and pinned. */
  ghost predicate PinnedProcess(pstate: map<nat, ProcState>, p: nat, now: nat) {
    p in pstate && pstate[p].pinned && pstate[p].member && pstate[p].joinedNs == now
  }

  /** Of each listed thread that was not pinned before, the process: its thread group, or itself if /proc
      says nothing about it. */
  ghost predicate AllPinned(
      tids: seq<nat>, before: set<nat>, threadGroup: nat -> nat, pstate: map<nat, ProcState>, now: nat) {
    forall i :: 0 <= i < |tids| && tids[i] != 0 && tids[i] !in before ==>
                  PinnedProcess(pstate, if threadGroup(tids[i]) != 0 then threadGroup(tids[i]) else tids[i], now)
  }

  /** Pinning a process again changes nothing, and pinning another leaves it alone. */
  ghost predicate PinsStay(m: map<nat, ProcState>, m': map<nat, ProcState>, now: nat) {
    forall p :: PinnedProcess(m, p, now) ==> PinnedProcess(m', p, now)
  }

  lemma {:induction false} AlreadyPinned(tids: seq<nat>, t: nat, before: set<nat>, threadGroup: nat -> nat,
                                         m: map<nat, ProcState>, now: nat)
    requires AllPinned(tids, before, threadGroup, m, now) && (t == 0 || t in before || t in tids)
    ensures t != 0 && t !in before ==> PinnedProcess(m, if threadGroup(t) != 0 then threadGroup(t) else t, now)
  {
    if t in tids {
      var i :| 0 <= i < |tids| && tids[i] == t;
    }
  }

  lemma {:induction false} OneMorePinned(tids: seq<nat>, t: nat, before: set<nat>, threadGroup: nat -> nat,
                                         m: map<nat, ProcState>, m': map<nat, ProcState>, now: nat)
    requires AllPinned(tids, before, threadGroup, m, now) && PinsStay(m, m', now)
    requires t != 0 && t !in before ==> PinnedProcess(m', if threadGroup(t) != 0 then threadGroup(t) else t, now)
    ensures AllPinned(tids + [t], before, threadGroup, m', now)
  {
  }

  lemma {:induction false} WithPinFollows(pstate: map<nat, ProcState>, tgid: nat, now: nat)
    requires Joinable(pstate) && now < U64
    ensures Follows(pstate, WithPin(pstate, tgid, now)) && Joinable(WithPin(pstate, tgid, now))
  {
  }

  lemma {:induction false} OnePinMore(members: set<nat>, pinned: set<nat>, tid: nat)
    requires pinned <= members
    ensures KernelMap(members, pinned)[tid := Pinned] == KernelMap(members + {tid}, pinned + {tid})
  {
  }

  /** Processes moved as hysteresis and the budget have it, and then, if nothing at all would be
      watched, the top-ranked process was let in. */
  ghost predicate Settled(e: Evaluation, moved: map<nat, ProcState>)
    requires e.now < U64
  {
    && ProcessesMoved(e.band, e.rank, e.now, ProcBudget(e.inputs.budget, e.inputs.per), e.before, moved)
    && (e.fallback.Some? <==> NothingWatched(moved, e.inputs.owner, e.inputs.pinned))
    && (e.fallback.None? ==> e.after == moved)
    && (e.fallback.Some? ==>
          var top := e.fallback.value;
          top in moved && !Selected(moved, top) && RankOf(e.rank, top) == 1
          && e.after == moved[top := FellBack(moved[top], e.now)])
  }

  /** The largest number of processes whose full shares fit the thread budget, one at least. */
  function ProcBudget(budget: nat, per: nat): (n: nat)
    ensures n >= 1 && (n > 1 ==> n * Max(per, 1) <= budget) && budget < (n + 1) * Max(per, 1)
  {
    var n := budget / if per != 0 then per else 1;
    if n < 1 then 1 else n
  }

  lemma {:induction false} EvaluationIsSound(e: Evaluation, moved: map<nat, ProcState>)
    requires e.now < U64 && Settled(e, moved)
    ensures Sound(e)
  {
    forall p
      ensures EvalStep(e.band, StateOf(e.before, p), StateOf(e.after, p), View(e, p))
    {
      assert Ordinary(e.band, StateOf(e.before, p), StateOf(moved, p), RankOf(e.rank, p), e.now);
    }
  }

  lemma {:induction false} LinkedOneMore(trace: seq<Evaluation>, e: Evaluation)
    requires Linked(trace, e.before) && Sound(e)
    ensures Linked(trace + [e], e.after)
  {
    var more := trace + [e];
    forall i | 0 <= i <= |more|
      ensures Follows(StateAfter(more, i), StateBefore(more, i, e.after))
    {
      if i <= |trace| {
        assert StateAfter(more, i) == StateAfter(trace, i);
        assert StateBefore(more, i, e.after) == StateBefore(trace, i, e.before);
      }
    }
  }

  lemma {:induction false} LinkedAfterPinning(
      trace: seq<Evaluation>, last: map<nat, ProcState>, last': map<nat, ProcState>)
    requires Linked(trace, last) && Follows(last, last')
    ensures Linked(trace, last')
  {
    forall i | 0 <= i <= |trace|
      ensures Follows(StateAfter(trace, i), StateBefore(trace, i, last'))
    {
      assert Follows(StateAfter(trace, i), StateBefore(trace, i, last));
    }
  }

  /** The ranks of an evaluation go by the process scores, whatever the order in which threads were
      visited. */
  ghost predicate WellRanked(scorer: Scorer, owner: map<nat, nat>, usage: map<nat, Usage>, rank: map<nat, nat>)
    requires owner.Keys == usage.Keys
  {
    rank.Keys == owner.Values
    && forall tids :: Enumerates(tids, owner.Keys) ==>
         IsRanking(rank, ProcessScores(scorer, Aggregates(Loads(tids, owner, usage))))
  }

  /** What an evaluation owes its caller: honest ranks, processes moved accordingly, a good choice of
      threads, and something to watch whenever there is anything. */
  ghost predicate WellJudged(e: Evaluation) {
    var i := e.inputs;
    && e.now < U64 && i.owner.Keys == i.usage.Keys
    && WellRanked(i.scorer, i.owner, i.usage, e.rank)
    && (exists moved :: Settled(e, moved))
    && GoodChoice(SelectedSet(e.after), i.owner, Scores(i.scorer, i.usage), i.pinned, i.per, i.budget, e.members)
    && (i.owner != map[] ==> e.members != {})
  }

  /** The process whose threads together score higher has the better rank. */
  lemma {:induction false} HigherScoreRanksFirst(
      scorer: Scorer, owner: map<nat, nat>, usage: map<nat, Usage>, rank: map<nat, nat>, tids: seq<nat>,
      p: nat, q: nat, u: Usage, v: Usage)
    requires owner.Keys == usage.Keys && WellRanked(scorer, owner, usage, rank) && Enumerates(tids, owner.Keys)
    requires p in owner.Values && ProcessUsed(tids, owner, usage, p, u)
    requires q in owner.Values && ProcessUsed(tids, owner, usage, q, v)
    requires scorer.score(scorer.windowS, u) > scorer.score(scorer.windowS, v)
    ensures 1 <= rank[p] < rank[q] <= |owner.Values|
  {
    ProcessScoreIsOfItsThreads(scorer, tids, owner, usage, p, u);
    ProcessScoreIsOfItsThreads(scorer, tids, owner, usage, q, v);
    assert |rank| == |rank.Keys|;
  }

  ghost predicate AllWellJudged(trace: seq<Evaluation>) {
    forall i :: 0 <= i < |trace| ==> WellJudged(trace[i])
  }

  /** Steps 4 and 5: scores of threads, ranks of processes. */
  method ScoreAndRank(scorer: Scorer, owner: map<nat, nat>, usage: map<nat, Usage>)
    returns (scores: map<nat, real>, order: seq<nat>, rank: map<nat, nat>)
    requires owner.Keys == usage.Keys
    ensures scores == Scores(scorer, usage) && WellRanked(scorer, owner, usage, rank)
    ensures order == [] <==> owner == map[]
    ensures order != [] ==> order[0] in rank && rank[order[0]] == 1
    ensures RanksDiffer(rank)
  {
    var aggregates;
    ghost var tids;
    scores, aggregates, tids := Measure(scorer, owner, usage);
    ObservedProcesses(tids, owner, usage);
    order, rank := RankObserved(ProcessScores(scorer, aggregates), owner);
    AnyEnumeration(scorer, tids, owner, usage, rank);
  }

  method RankObserved(pscore: map<nat, real>, owner: map<nat, nat>) returns (order: seq<nat>, rank: map<nat, nat>)
    requires pscore.Keys == owner.Values
    ensures IsRanking(rank, pscore) && rank.Keys == owner.Values && RanksDiffer(rank)
    ensures order == [] <==> owner == map[]
    ensures order != [] ==> order[0] in rank && rank[order[0]] == 1
  {
    order, rank := RankProcesses(pscore);
    assert pscore == map[] <==> pscore.Keys == {};
  }

  lemma {:induction false} AnyEnumeration(scorer: Scorer, tids: seq<nat>, owner: map<nat, nat>,
                       usage: map<nat, Usage>, rank: map<nat, nat>)
    requires owner.Keys == usage.Keys && Enumerates(tids, owner.Keys)
    requires IsRanking(rank, ProcessScores(scorer, Aggregates(Loads(tids, owner, usage))))
    ensures forall other :: Enumerates(other, owner.Keys) ==>
              IsRanking(rank, ProcessScores(scorer, Aggregates(Loads(other, owner, usage))))
  {
    forall other | Enumerates(other, owner.Keys)
      ensures IsRanking(rank, ProcessScores(scorer, Aggregates(Loads(other, owner, usage))))
    {
      VisitOrderDoesNotMatter(tids, other, owner, usage);
    }
  }

  /** Steps 4 to 9, on values: ranks, the processes after the evaluation, and the desired threads. */
  method Judge(inputs: Inputs, band: Band, pstate: map<nat, ProcState>, now: nat) returns (e: Evaluation)
    requires inputs.owner.Keys == inputs.usage.Keys && inputs.per >= 1 && inputs.budget >= 1
    requires ValidBand(band) && Joinable(pstate) && now < U64
    ensures e == Evaluation(band, now, inputs, e.rank, e.fallback, pstate, e.after, e.members)
    ensures Joinable(e.after) && inputs.pinned <= e.members
    ensures WellJudged(e) && Sound(e)
  {
    var i := inputs;
    var scores, order, rank := ScoreAndRank(i.scorer, i.owner, i.usage);
    var moved := MoveProcesses(pstate, rank, band, ProcBudget(i.budget, i.per), now);
    var desired, selected, fallback :=
      SelectThreads(moved, i.owner, scores, i.pinned, i.per, i.budget, order, now);
    e := Evaluation(band, now, inputs, rank, fallback, pstate, selected, desired);
    JudgedWell(e, moved);
  }

  lemma {:induction false} JudgedWell(e: Evaluation, moved: map<nat, ProcState>)
    requires e.now < U64 && e.inputs.owner.Keys == e.inputs.usage.Keys && Settled(e, moved)
    requires WellRanked(e.inputs.scorer, e.inputs.owner, e.inputs.usage, e.rank)
    requires GoodChoice(SelectedSet(e.after), e.inputs.owner, Scores(e.inputs.scorer, e.inputs.usage),
                        e.inputs.pinned, e.inputs.per, e.inputs.budget, e.members)
    requires e.inputs.owner != map[] ==> e.members != {}
    ensures WellJudged(e) && Sound(e)
  {
    EvaluationIsSound(e, moved);
  }

  /** Steps 1 to 3: the table indexed, and a snapshot of it put at the end of the window. */
  method Observe(table: seq<Row>, history: seq<Snapshot>, windowNs: nat, now: nat)
    returns (owner: map<nat, nat>, kept: seq<Snapshot>)
    requires Clocked(history) && now < U64
    ensures Clocked(kept) && |kept| >= 1 && Observed(table, history, windowNs, now, kept)
    ensures OwnersOf(table, owner) && owner.Keys == kept[|kept| - 1].counters.Keys
    ensures |kept| >= 2 <==> history != []
  {
    var counters;
    owner, counters := IndexTable(table);
    kept := Append(history, Snapshot(now, counters), windowNs, now);
  }

  method Append(history: seq<Snapshot>, current: Snapshot, windowNs: nat, now: nat) returns (kept: seq<Snapshot>)
    requires Clocked(history) && current.ts == now < U64
    ensures Clocked(kept) && |kept| >= 1 && kept[|kept| - 1] == current && (|kept| >= 2 <==> history != [])
    ensures WindowKept(history + [current], kept, windowNs, now)
  {
    var longer := history + [current];
    assert longer[|longer| - 1] == current;
    kept := Slide(longer, windowNs, now);
  }

  /** `kept` is the window over `history` and a new snapshot of the table. */
  ghost predicate Observed(table: seq<Row>, history: seq<Snapshot>, windowNs: nat, now: nat, kept: seq<Snapshot>)
    requires Clocked(history) && now < U64 && |kept| >= 1
  {
    var current := kept[|kept| - 1];
    current.ts == now && CountersOf(table, current.counters) && WindowKept(history + [current], kept, windowNs, now)
  }

  /** The processes of threads; a thread the table lacks stands for its own. */
  function ProcessesOf(threads: set<nat>, owner: map<nat, nat>): set<nat> {
    set t | t in threads :: if t in owner then owner[t] else t
  }

  lemma {:induction false} ProcessesAreExact(threads: set<nat>, owner: map<nat, nat>, p: nat)
    ensures p in ProcessesOf(threads, owner) <==>
            exists t :: t in threads && if t in owner then owner[t] == p else t == p
  {
  }

  /** The inputs of an evaluation: usage from the oldest snapshot of the window to the newest, scored
      for the length of the window. */
  function WindowInputs(
      cfg: Config, history: seq<Snapshot>, owner: map<nat, nat>, pinned: set<nat>, budget: nat): Inputs
    requires Clocked(history) && history != []
  {
    var base, cur := history[0], history[|history| - 1];
    Inputs(Scorer(cfg.meter.score, WindowSeconds(base.ts, cur.ts)), cfg.perProcThreads, owner,
           Usages(cur.counters, base.counters, cfg.meter.toNs), pinned, budget)
  }

  /** The inputs are those of the table and the window. */
  ghost predicate MeasuredOver(
      cfg: Config, table: seq<Row>, history: seq<Snapshot>, pinned: set<nat>, budget: nat, inputs: Inputs)
    requires Clocked(history) && history != []
  {
    var base, cur := history[0], history[|history| - 1];
    && OwnersOf(table, inputs.owner) && inputs.pinned == pinned && inputs.budget == budget
    && inputs.per == cfg.perProcThreads && inputs.scorer.score == cfg.meter.score
    && LastsSeconds(base.ts, cur.ts, inputs.scorer.windowS)
    && UsedOver(table, base.counters, cfg.meter.toNs, inputs.usage)
  }

  /** A window from `base` to `cur` lasts `s` seconds: one if the clock did not move; the clock wraps at
      64 bits. */
  ghost predicate LastsSeconds(base: nat, cur: nat, s: real) {
    s * 1000000000.0 == (if cur == base then 1000000000 else cur - base + if cur < base then U64 else 0) as real
  }

  lemma {:induction false} InputsAreMeasured(
      cfg: Config, table: seq<Row>, history: seq<Snapshot>, owner: map<nat, nat>, pinned: set<nat>, budget: nat)
    requires Clocked(history) && history != [] && OwnersOf(table, owner)
    requires CountersOf(table, history[|history| - 1].counters)
    ensures MeasuredOver(cfg, table, history, pinned, budget, WindowInputs(cfg, history, owner, pinned, budget))
  {
    var base, cur := history[0], history[|history| - 1];
    UsagesAreOver(table, cur.counters, base.counters, cfg.meter.toNs);
  }

  class TargetSelector {
    var budget: nat
    var pstate: map<nat, ProcState>
    var pinned: set<nat>
    var members: set<nat>
    var procs: set<nat>
    var history: seq<Snapshot>
    var targets: map<nat, Kind>
    ghost var trace: seq<Evaluation>

    ghost predicate Valid()
      reads this
    {
      && budget >= 1 && Joinable(pstate) && Clocked(history)
      && pinned <= members && targets == KernelMap(members, pinned)
      && Linked(trace, pstate) && AllWellJudged(trace)
    }

    constructor ()
      ensures Valid() && members == {} && trace == []
    {
      budget := 16;
      pstate, targets := map[], map[];
      pinned, members, procs := {}, {}, {};
      history, trace := [], [];
    }

    /** `threadGroup` is what /proc says about a tid, 0 if nothing. */
    method ApplyPinned(cfg: Config, threadGroup: nat -> nat, now: nat)
      requires Valid() && now < U64
      modifies this
      ensures Valid() && Follows(old(pstate), pstate)
      ensures pinned == old(pinned) + (set t | t in cfg.pinned && t != 0)
      ensures AllPinned(cfg.pinned, old(pinned), threadGroup, pstate, now)
      ensures members == old(members) + pinned
      ensures budget == old(budget) && history == old(history) && trace == old(trace)
    {
      for i := 0 to |cfg.pinned|
        invariant Valid() && Follows(old(pstate), pstate)
        invariant pinned == old(pinned) + (set t | t in cfg.pinned[..i] && t != 0)
        invariant AllPinned(cfg.pinned[..i], old(pinned), threadGroup, pstate, now)
        invariant members == old(members) + pinned
        invariant budget == old(budget) && history == old(history) && trace == old(trace)
      {
        PrefixGrows(cfg.pinned, i);
        ghost var was := pstate;
        if cfg.pinned[i] != 0 && cfg.pinned[i] !in pinned {
          Pin(cfg.pinned[i], threadGroup(cfg.pinned[i]), now);
        } else {
          AlreadyPinned(cfg.pinned[..i], cfg.pinned[i], old(pinned), threadGroup, pstate, now);
        }
        OneMorePinned(cfg.pinned[..i], cfg.pinned[i], old(pinned), threadGroup, was, pstate, now);
      }
      assert cfg.pinned[..|cfg.pinned|] == cfg.pinned;
    }

    method Pin(tid: nat, group: nat, now: nat)
      requires Valid() && now < U64
      modifies this`pinned, this`targets, this`members, this`procs, this`pstate
      ensures Valid() && Follows(old(pstate), pstate)
      ensures pinned == old(pinned) + {tid} && members == old(members) + {tid}
      ensures procs == old(procs) + {if group != 0 then group else tid}
      ensures PinnedProcess(pstate, if group != 0 then group else tid, now) && PinsStay(old(pstate), pstate, now)
      ensures forall p :: p != (if group != 0 then group else tid) ==> StateOf(pstate, p) == StateOf(old(pstate), p)
    {
      var tgid := if group != 0 then group else tid;
      OnePinMore(members, pinned, tid);
      pinned := pinned + {tid};
      targets := targets[tid := Pinned];
      members := members + {tid};
      procs := procs + {tgid};
      WithPinFollows(pstate, tgid, now);
      LinkedAfterPinning(trace, pstate, WithPin(pstate, tgid, now));
      pstate := WithPin(pstate, tgid, now);
    }

    /** One evaluation. The first only records a baseline; every other one completes and is added to
        the run, with the window's scores and usage as its inputs. */
    method Evaluate(cfg: Config, table: seq<Row>, now: nat) returns (changed: bool, ghost e: Option<Evaluation>)
      requires Valid() && ValidConfig(cfg) && now < U64
      modifies this
      ensures Valid() && pinned == old(pinned) && budget == old(budget)
      ensures history != [] && Observed(table, old(history), cfg.windowNs, now, history)
      ensures e.Some? <==> old(history) != []
      ensures changed <==> members != old(members)
      ensures e.None? ==> trace == old(trace) && pstate == old(pstate) && members == old(members)
      ensures e.Some? ==> trace == old(trace) + [e.value] && e.value.band == cfg.band && e.value.now == now
      ensures e.Some? ==> e.value.before == old(pstate) && e.value.after == pstate && e.value.members == members
      ensures e.Some? ==> MeasuredOver(cfg, table, history, pinned, budget, e.value.inputs)
      ensures e.Some? ==> procs == ProcessesOf(members, e.value.inputs.owner)
    {
      var owner := Look(table, cfg.windowNs, now);
      changed, e := false, None;
      if |history| >= 2 {
        ghost var judged;
        InputsAreMeasured(cfg, table, history, owner, pinned, budget);
        changed, judged := Decide(WindowInputs(cfg, history, owner, pinned, budget), cfg.band, now);
        e := Some(judged);
      }
    }

    /** Steps 1 to 3. */
    method Look(table: seq<Row>, windowNs: nat, now: nat) returns (owner: map<nat, nat>)
      requires Valid() && now < U64
      modifies this`history
      ensures Valid() && history != [] && Observed(table, old(history), windowNs, now, history)
      ensures OwnersOf(table, owner) && owner.Keys == history[|history| - 1].counters.Keys
      ensures |history| >= 2 <==> old(history) != []
    {
      owner, history := Observe(table, history, windowNs, now);
    }

    /** Steps 4 to 10. */
    method Decide(inputs: Inputs, band: Band, now: nat) returns (changed: bool, ghost e: Evaluation)
      requires Valid() && inputs.owner.Keys == inputs.usage.Keys && inputs.per >= 1
      requires inputs.pinned == pinned && inputs.budget == budget && ValidBand(band) && now < U64
      modifies this`trace, this`pstate, this`targets, this`members, this`procs
      ensures Valid() && e == Evaluation(band, now, inputs, e.rank, e.fallback, old(pstate), pstate, members)
      ensures trace == old(trace) + [e] && procs == ProcessesOf(members, inputs.owner)
      ensures changed <==> members != old(members)
    {
      var judged := Judge(inputs, band, pstate, now);
      changed := Adopt(judged);
      e := judged;
    }

    /** Takes over the outcome of an evaluation. */
    method Adopt(e: Evaluation) returns (changed: bool)
      requires Valid() && e.before == pstate && Joinable(e.after) && pinned <= e.members
      requires Sound(e) && WellJudged(e)
      modifies this`trace, this`pstate, this`targets, this`members, this`procs
      ensures Valid() && pstate == e.after && members == e.members && trace == old(trace) + [e]
      ensures procs == ProcessesOf(members, e.inputs.owner)
      ensures changed <==> members != old(members)
    {
      LinkedOneMore(trace, e);
      trace := trace + [e];
      pstate := e.after;
      targets, changed := ApplyDiff(targets, members, pinned, e.members);
      members := e.members;
      procs := ProcessesOf(members, e.inputs.owner);
    }
  }

  // ---- runs ----

  /** The states of a process over a run, one before the first evaluation and one after each. */
  function ProcessPath(trace: seq<Evaluation>, p: nat): seq<ProcState> {
    [Fresh()] + seq(|trace|, i requires 0 <= i < |trace| => StateOf(trace[i].after, p))
  }

  function Views(trace: seq<Evaluation>, p: nat): seq<Eval> {
    seq(|trace|, i requires 0 <= i < |trace| => View(trace[i], p))
  }

  ghost predicate SameBand(trace: seq<Evaluation>, b: Band) {
    forall i :: 0 <= i < |trace| ==> trace[i].band == b
  }

  lemma {:induction false} PinnedStaysPinned(trace: seq<Evaluation>, last: map<nat, ProcState>, p: nat, i: nat)
    requires Linked(trace, last) && !StateOf(last, p).pinned && i <= |trace|
    ensures !StateOf(StateBefore(trace, i, last), p).pinned
    ensures StateOf(StateBefore(trace, i, last), p) == StateOf(StateAfter(trace, i), p)
    decreases |trace| - i
  {
    assert Follows(StateAfter(trace, i), StateBefore(trace, i, last));
    if i < |trace| {
      PinnedStaysPinned(trace, last, p, i + 1);
      assert Sound(trace[i]);
      assert EvalStep(trace[i].band, StateOf(trace[i].before, p), StateOf(trace[i].after, p), View(trace[i], p));
    }
  }

  /** A process that is not pinned goes through a run as hysteresis has it, whatever else is pinned
      and whoever else competes. */
  lemma {:induction false} RunIsAPath(trace: seq<Evaluation>, last: map<nat, ProcState>, b: Band, p: nat)
    requires Linked(trace, last) && SameBand(trace, b) && !StateOf(last, p).pinned
    ensures Path(b, ProcessPath(trace, p), Views(trace, p))
  {
    var path, evals := ProcessPath(trace, p), Views(trace, p);
    forall i | 0 <= i < |trace|
      ensures evals[i].now < U64 && EvalStep(b, path[i], path[i + 1], evals[i])
    {
      PinnedStaysPinned(trace, last, p, i);
      assert Sound(trace[i]);
      assert path[i] == StateOf(StateAfter(trace, i), p);
    }
  }

  /** An evaluation that moved `p` in or out. */
  ghost predicate Flipped(e: Evaluation, p: nat) {
    StateOf(e.before, p).member != StateOf(e.after, p).member
  }

  lemma {:induction false} FlippedIsAFlip(trace: seq<Evaluation>, last: map<nat, ProcState>, p: nat, i: nat)
    requires Linked(trace, last) && !StateOf(last, p).pinned && i < |trace|
    ensures Flipped(trace[i], p) <==> FlipAt(ProcessPath(trace, p), i)
  {
    PinnedStaysPinned(trace, last, p, i);
    assert ProcessPath(trace, p)[i] == StateOf(StateAfter(trace, i), p);
  }

  /** Membership of an unpinned process never flaps: over any run of evaluations under one
      configuration in which the fallback did not pick it, two flips are a hold apart. */
  lemma {:induction false} MembershipNeverFlaps(
      trace: seq<Evaluation>, last: map<nat, ProcState>, b: Band, p: nat, i: nat, j: nat)
    requires ValidBand(b) && Linked(trace, last) && SameBand(trace, b) && !StateOf(last, p).pinned
    requires forall k :: 0 <= k < |trace| ==> trace[k].fallback != Some(p)
    requires i < j < |trace| && Flipped(trace[i], p) && Flipped(trace[j], p)
    ensures j - i >= b.holdPeriods
  {
    RunIsAPath(trace, last, b, p);
    FlippedIsAFlip(trace, last, p, i);
    FlippedIsAFlip(trace, last, p, j);
    FlipsAreAHoldApart(b, ProcessPath(trace, p), Views(trace, p), i, j);
  }

  /** A process leaves only after `holdPeriods` consecutive ranks beyond the band and the minimum
      residency since it joined, even if it was the fallback that admitted it. */
  lemma {:induction false} LeavingIsEarned(
      trace: seq<Evaluation>, last: map<nat, ProcState>, b: Band, p: nat, j: nat)
      returns (i: int)
    requires ValidBand(b) && Linked(trace, last) && SameBand(trace, b) && !StateOf(last, p).pinned
    requires forall k, l :: 0 <= k < l < |trace| ==> trace[k].now <= trace[l].now
    requires j < |trace| && Flipped(trace[j], p) && StateOf(trace[j].before, p).member
    ensures 0 <= i < j && Flipped(trace[i], p) && StateOf(trace[i].after, p).member
    ensures trace[j].now - trace[i].now >= b.minResidencyNs
    ensures j - i >= b.holdPeriods
    ensures forall e :: 0 <= e && j - b.holdPeriods < e <= j ==> Views(trace, p)[e].rank > b.leaveRank
  {
    RunIsAPath(trace, last, b, p);
    var path, evals := ProcessPath(trace, p), Views(trace, p);
    LeavesAreLeaves(trace, last, p, j);
    assert Monotone(evals);
    i := LeaveIsEarned(b, path, evals, j);
    FlippedIsAFlip(trace, last, p, i);
  }

  lemma {:induction false} LeavesAreLeaves(trace: seq<Evaluation>, last: map<nat, ProcState>, p: nat, j: nat)
    requires Linked(trace, last) && !StateOf(last, p).pinned && j < |trace|
    requires Flipped(trace[j], p) && StateOf(trace[j].before, p).member
    ensures LeaveAt(ProcessPath(trace, p), j)
  {
    PinnedStaysPinned(trace, last, p, j);
    assert ProcessPath(trace, p)[j] == StateOf(StateAfter(trace, j), p);
  }

  /** And what is earned does happen: having joined at `i` and stayed since, it leaves at `j` if and only if
      a whole hold of ranks was beyond the band and the minimum residency has passed. */
  lemma {:induction false} LeavesIffItIsEarned(
      trace: seq<Evaluation>, last: map<nat, ProcState>, b: Band, p: nat, i: nat, j: nat)
    requires ValidBand(b) && Linked(trace, last) && SameBand(trace, b) && !StateOf(last, p).pinned
    requires forall k, l :: 0 <= k < l < |trace| ==> trace[k].now <= trace[l].now
    requires i < j < |trace| && Flipped(trace[i], p) && forall e :: i <= e < j ==> StateOf(trace[e].after, p).member
    ensures Flipped(trace[j], p) <==>
            && j - i >= b.holdPeriods && trace[j].now - trace[i].now >= b.minResidencyNs
            && forall e :: j - b.holdPeriods < e <= j ==> RankOf(trace[e].rank, p) > b.leaveRank
  {
    var path, evals := ProcessPath(trace, p), Views(trace, p);
    RunIsAPath(trace, last, b, p);
    FlippedIsAFlip(trace, last, p, i);
    FlippedIsAFlip(trace, last, p, j);
    MembersBetween(trace, p, i, j);
    assert Monotone(evals);
    LeavesIffEarned(b, path, evals, i, j);
    assert forall e :: 0 <= e < |evals| ==> evals[e].rank == RankOf(trace[e].rank, p);
  }

  lemma {:induction false} MembersBetween(trace: seq<Evaluation>, p: nat, i: nat, j: nat)
    requires i < j < |trace| && forall e :: i <= e < j ==> StateOf(trace[e].after, p).member
    ensures forall e :: i < e <= j ==> ProcessPath(trace, p)[e].member
  {
    forall e | i < e <= j
      ensures ProcessPath(trace, p)[e] == StateOf(trace[e - 1].after, p)
    {
    }
  }

  /** The selected processes leave no room for another full share of threads. */
  ghost predicate Full(e: Evaluation) {
    (|SelectedSet(e.after)| + 1) * Max(e.inputs.per, 1) > e.inputs.budget
  }

  lemma {:induction false} CandidateJoinsUnlessFull(e: Evaluation, p: nat)
    requires WellJudged(e) && Candidate(e.band, e.rank, e.before, p)
    ensures StateOf(e.after, p).member || Full(e)
  {
    var moved :| Settled(e, moved);
    SubsetSize(SelectedSet(moved), SelectedSet(e.after));
    if !StateOf(e.after, p).member {
      assert !StateOf(moved, p).member;
      MulMono(ProcBudget(e.inputs.budget, e.inputs.per) + 1, |SelectedSet(e.after)| + 1, Max(e.inputs.per, 1));
    }
  }

  lemma {:induction false} PathBefore(trace: seq<Evaluation>, last: map<nat, ProcState>, p: nat, e: nat)
    requires Linked(trace, last) && !StateOf(last, p).pinned && e < |trace|
    ensures ProcessPath(trace, p)[e] == StateOf(trace[e].before, p) && !StateOf(trace[e].before, p).pinned
    ensures Views(trace, p)[e].rank == RankOf(trace[e].rank, p)
  {
    PinnedStaysPinned(trace, last, p, e);
  }

  /** A process out of membership that has ranked within the band for a whole hold joins, unless the
      process budget is used up. */
  lemma {:induction false} JoinsUnlessFull(
      trace: seq<Evaluation>, last: map<nat, ProcState>, b: Band, p: nat, j: nat)
    requires ValidBand(b) && Linked(trace, last) && SameBand(trace, b) && !StateOf(last, p).pinned
    requires AllWellJudged(trace) && j < |trace| && b.holdPeriods <= j + 1
    requires forall e :: j - b.holdPeriods < e <= j ==>
                           !StateOf(trace[e].before, p).member && RankOf(trace[e].rank, p) <= b.enterRank
    ensures StateOf(trace[j].after, p).member || Full(trace[j])
  {
    var path, evals := ProcessPath(trace, p), Views(trace, p);
    RunIsAPath(trace, last, b, p);
    forall e | j - b.holdPeriods < e <= j
      ensures !path[e].member && evals[e].rank <= b.enterRank
    {
      PathBefore(trace, last, p, e);
    }
    GoodRanksAreCounted(b, path, evals, j, b.holdPeriods - 1);
    PathBefore(trace, last, p, j);
    CandidateJoinsUnlessFull(trace[j], p);
  }

  /** A process that the fallback never picked joins only after `holdPeriods` consecutive ranks within
      the band. */
  lemma {:induction false} JoiningIsEarned(
      trace: seq<Evaluation>, last: map<nat, ProcState>, b: Band, p: nat, j: nat)
    requires ValidBand(b) && Linked(trace, last) && SameBand(trace, b) && !StateOf(last, p).pinned
    requires forall k :: 0 <= k < |trace| ==> trace[k].fallback != Some(p)
    requires j < |trace| && Flipped(trace[j], p) && StateOf(trace[j].after, p).member
    ensures j + 1 >= b.holdPeriods
    ensures forall e :: 0 <= e && j - b.holdPeriods < e <= j ==> Views(trace, p)[e].rank <= b.enterRank
  {
    RunIsAPath(trace, last, b, p);
    FlippedIsAFlip(trace, last, p, j);
    assert ProcessPath(trace, p)[j + 1] == StateOf(trace[j].after, p);
    JoinTakesAHold(b, ProcessPath(trace, p), Views(trace, p), j);
  }

  /** In any run, with or without the fallback, a process that left joins by rank no sooner than after the
      rest of its hold. */
  lemma {:induction false} RejoiningIsEarned(
      trace: seq<Evaluation>, last: map<nat, ProcState>, b: Band, p: nat, i: nat, j: nat)
    requires ValidBand(b) && Linked(trace, last) && SameBand(trace, b) && !StateOf(last, p).pinned
    requires i < j < |trace| && Flipped(trace[i], p) && StateOf(trace[i].before, p).member
    requires Flipped(trace[j], p) && trace[j].fallback != Some(p)
    requires forall e :: i <= e < j ==> !StateOf(trace[e].after, p).member
    ensures j - i >= RestOfHold(b, StateOf(trace[i].after, p))
  {
    LeavesAreLeaves(trace, last, p, i);
    FlippedIsAFlip(trace, last, p, j);
    OutBetween(trace, p, i, j);
    RunIsAPath(trace, last, b, p);
    RejoiningAfterAFallback(b, ProcessPath(trace, p), Views(trace, p), i, j);
  }

  lemma {:induction false} OutBetween(trace: seq<Evaluation>, p: nat, i: nat, j: nat)
    requires i < j < |trace| && forall e :: i <= e < j ==> !StateOf(trace[e].after, p).member
    ensures ProcessPath(trace, p)[i + 1] == StateOf(trace[i].after, p)
    ensures forall e :: i < e <= j ==> !ProcessPath(trace, p)[e].member
  {
    forall e | i < e <= j
      ensures ProcessPath(trace, p)[e] == StateOf(trace[e - 1].after, p)
    {
    }
  }

  /** From its creation on, n evaluations move a process in or out at most n / holdPeriods times. */
  lemma {:induction false} MembershipMovesRarely(
      trace: seq<Evaluation>, last: map<nat, ProcState>, b: Band, p: nat)
    requires ValidBand(b) && Linked(trace, last) && SameBand(trace, b) && !StateOf(last, p).pinned
    requires forall k :: 0 <= k < |trace| ==> trace[k].fallback != Some(p)
    ensures Flips(ProcessPath(trace, p)) <= |trace| / b.holdPeriods
  {
    RunIsAPath(trace, last, b, p);
    if trace != [] {
      FewFlips(b, ProcessPath(trace, p), Views(trace, p));
    }
  }
}
