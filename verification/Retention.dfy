/** Why the thread budget protects the pre-anomaly window: Probe of
    src/collect/target_selector.cpp divides the ring by the ticks of the backlog, and one tick of the
    timer producer commits one record per target. Doubles are reals here. */
module Retention {
  import opened Arith
  import opened RecorderProtocol
  import opened RingDrain
  import PerCpuMerge
  import Sorting

  /** The hardware facts Probe reads; 0 stands for "no limit". */
  datatype Hardware = Hardware(online: nat, quota: nat, cpuset: nat, ringSlots: nat)

  /** A period that sanitising has kept away from zero. */
  type Millis = n: nat | n >= 1 witness 1

  datatype BudgetConfig = BudgetConfig(
    autoScale: bool, minTargets: nat, maxTargets: nat, concurrencyFactor: real,
    fineMs: nat, deepFineMs: Millis, backlogSeconds: nat)

  function AtLeastOne(n: nat): (r: nat)
    ensures r >= 1 && r >= n && (n >= 1 ==> r == n) && (n == 0 ==> r == 1)
  {
    if n != 0 then n else 1
  }

  function Ceil(x: real): (c: int)
    ensures (c - 1) as real < x <= c as real
  {
    -((-x).Floor)
  }

  function FineMs(cfg: BudgetConfig): (ms: nat)
    ensures ms >= 1 && (cfg.fineMs > 0 ==> ms == cfg.fineMs) && (cfg.fineMs == 0 ==> ms == 100)
  {
    if cfg.fineMs != 0 then cfg.fineMs else 100
  }

  function BacklogMs(cfg: BudgetConfig): (ms: nat)
    ensures ms >= 1 && (cfg.backlogSeconds > 0 ==> ms == cfg.backlogSeconds * 1000)
    ensures cfg.backlogSeconds == 0 ==> ms == 90000
  {
    1000 * if cfg.backlogSeconds != 0 then cfg.backlogSeconds else 90
  }

  /** The ticks Probe counts for the configured backlog, never 0. */
  function Ticks(cfg: BudgetConfig): (n: nat)
    ensures n >= 1
  {
    var ticks := BacklogMs(cfg) / FineMs(cfg);
    if ticks != 0 then ticks else 1
  }

  /** Effective concurrency: the smallest of the online CPUs and the cgroup limits that are set. */
  function EffectiveCpus(hw: Hardware): (eff: nat)
    ensures eff <= AtLeastOne(hw.online)
    ensures (hw.quota != 0 ==> eff <= hw.quota) && (hw.cpuset != 0 ==> eff <= hw.cpuset)
    ensures eff == AtLeastOne(hw.online) || (hw.quota != 0 && eff == hw.quota) || (hw.cpuset != 0 && eff == hw.cpuset)
  {
    var e0 := if hw.online != 0 then hw.online else 1;
    var e1 := if hw.quota != 0 && hw.quota < e0 then hw.quota else e0;
    if hw.cpuset != 0 && hw.cpuset < e1 then hw.cpuset else e1
  }

  function ByConcurrency(cfg: BudgetConfig, hw: Hardware): (n: int)
    ensures (n - 1) as real < EffectiveCpus(hw) as real * cfg.concurrencyFactor <= n as real
  {
    Ceil(EffectiveCpus(hw) as real * cfg.concurrencyFactor)
  }

  lemma {:induction false} QuotientBound(n: nat, d: nat, k: nat)
    requires d >= 1
    ensures k * d <= n <==> k <= n / d
  {
    var q := n / d;
    assert n == q * d + n % d;
    if k <= q { MulMono(k, q, d); } else { MulMono(q, k, d); }
  }

  /** The largest number of threads up to `most` that the CPUs and the ring both admit, or `least` when
      that is larger. */
  predicate Largest(byConcurrency: int, ringSlots: nat, ticks: nat, least: nat, most: nat, budget: nat) {
    && least <= budget <= most
    && (budget > least ==> budget <= byConcurrency && budget * ticks <= ringSlots)
    && (budget < most ==> budget >= byConcurrency || (budget + 1) * ticks > ringSlots)
  }

  /** That many ticks fit the backlog, or one if not even that does; one more would not. */
  lemma {:induction false} TicksFitTheBacklog(cfg: BudgetConfig)
    ensures Ticks(cfg) > 1 ==> Ticks(cfg) * FineMs(cfg) <= BacklogMs(cfg)
    ensures BacklogMs(cfg) < (Ticks(cfg) + 1) * FineMs(cfg)
  {
    QuotientBound(BacklogMs(cfg), FineMs(cfg), Ticks(cfg));
    QuotientBound(BacklogMs(cfg), FineMs(cfg), Ticks(cfg) + 1);
  }

  predicate Probed(cfg: BudgetConfig, hw: Hardware, budget: nat) {
    if cfg.autoScale then
      Largest(ByConcurrency(cfg, hw), hw.ringSlots, Ticks(cfg),
              AtLeastOne(cfg.minTargets), AtLeastOne(cfg.maxTargets), budget)
    else budget == AtLeastOne(cfg.maxTargets)
  }

  method Probe(cfg: BudgetConfig, hw: Hardware) returns (budget: nat)
    requires cfg.minTargets <= cfg.maxTargets
    ensures Probed(cfg, hw, budget)
  {
    budget := cfg.maxTargets;
    if cfg.autoScale {
      budget := Scale(ByConcurrency(cfg, hw), hw.ringSlots, Ticks(cfg), cfg.minTargets, cfg.maxTargets);
    }
    budget := AtLeastOne(budget);
  }

  method Scale(byConcurrency: int, ringSlots: nat, ticks: nat, minTargets: nat, maxTargets: nat)
    returns (budget: nat)
    requires ticks >= 1 && minTargets <= maxTargets
    ensures Largest(byConcurrency, ringSlots, ticks, AtLeastOne(minTargets), AtLeastOne(maxTargets), AtLeastOne(budget))
  {
    var byRing := ringSlots / ticks;
    var b := if byConcurrency < byRing then byConcurrency else byRing;
    b := if b < maxTargets then b else maxTargets;
    if b < minTargets { b := minTargets; }
    if b > maxTargets { b := maxTargets; }
    budget := b;
    QuotientBound(ringSlots, ticks, budget);
    QuotientBound(ringSlots, ticks, budget + 1);
    AtLeastOneIsLargest(byConcurrency, ringSlots, ticks, minTargets, maxTargets, budget);
  }

  lemma {:induction false} AtLeastOneIsLargest(
      byConcurrency: int, ringSlots: nat, ticks: nat, least: nat, most: nat, budget: nat)
    requires Largest(byConcurrency, ringSlots, ticks, least, most, budget)
    ensures Largest(byConcurrency, ringSlots, ticks, AtLeastOne(least), AtLeastOne(most), AtLeastOne(budget))
  {
    assert budget == 0 ==> 2 * ticks >= 1 * ticks;
  }

  /** Any number of ticks `n`: the budget times `n` fits the ring if and only if the configured minimum
      does, and one of what else bounds the budget. */
  lemma {:induction false} LargestFitsIff(
      byConcurrency: int, ringSlots: nat, ticks: nat, least: nat, most: nat, budget: nat, n: nat)
    requires ticks >= 1 && least <= most && Largest(byConcurrency, ringSlots, ticks, least, most, budget)
    ensures budget * n <= ringSlots <==>
            && least * n <= ringSlots
            && (byConcurrency * n <= ringSlots || most * n <= ringSlots || ringSlots / ticks * n <= ringSlots)
  {
    var byRing := ringSlots / ticks;
    QuotientBound(ringSlots, ticks, budget);
    QuotientBound(ringSlots, ticks, budget + 1);
    MulMono(least, budget, n);
    if budget > least {
      MulMono(budget, byConcurrency, n);
      MulMono(budget, most, n);
      MulMono(budget, byRing, n);
    }
    if budget < most {
      if byConcurrency <= budget { MulMono(byConcurrency, budget, n); } else { MulMono(byRing, budget, n); }
    }
  }

  // ---- what the budget buys ----

  /** One tick of the timer producer: its time stamp, how many targets it found, and whether the timer
      was armed again with the period of DEEP. */
  datatype Tick = Tick(ts: nat, targets: nat, deep: bool)

  /** Tickets handed out by a number of ticks. */
  function Committed(ticks: seq<Tick>): nat {
    if ticks == [] then 0 else Committed(ticks[..|ticks| - 1]) + ticks[|ticks| - 1].targets
  }

  function PeriodMs(cfg: BudgetConfig, deep: bool): nat {
    if deep then cfg.deepFineMs else FineMs(cfg)
  }

  /** The timer is armed again after every tick, with the period of the phase. */
  ghost predicate Paced(cfg: BudgetConfig, ticks: seq<Tick>) {
    forall i :: 0 <= i < |ticks| - 1 ==> ticks[i].ts + PeriodMs(cfg, ticks[i].deep) * 1000000 <= ticks[i + 1].ts
  }

  /** The DEEP ticks from tick `k` on. */
  function DeepSince(ticks: seq<Tick>, k: nat): nat
    requires k <= |ticks|
    decreases |ticks| - k
  {
    if k == |ticks| then 0 else (if ticks[k].deep then 1 else 0) + DeepSince(ticks, k + 1)
  }

  ghost predicate WithinBudget(ticks: seq<Tick>, budget: nat) {
    forall i :: 0 <= i < |ticks| ==> ticks[i].targets <= budget
  }

  /** Ticket `t` was committed by tick `k`. */
  ghost predicate OfTick(ticks: seq<Tick>, k: nat, t: nat) {
    k < |ticks| && Committed(ticks[..k]) <= t < Committed(ticks[..k + 1])
  }

  lemma {:induction false} CommittedSince(ticks: seq<Tick>, k: nat, budget: nat)
    requires WithinBudget(ticks, budget) && k <= |ticks|
    ensures Committed(ticks[..k]) <= Committed(ticks) <= Committed(ticks[..k]) + budget * (|ticks| - k)
  {
    var n := |ticks|;
    if k == n {
      assert ticks[..n] == ticks;
    } else {
      assert ticks[..n - 1][..k] == ticks[..k];
      CommittedSince(ticks[..n - 1], k, budget);
      assert budget * (n - k) == budget * (n - 1 - k) + budget;
    }
  }

  lemma {:induction false} FewTicketsSince(ticks: seq<Tick>, budget: nat, window: nat, k: nat)
    requires WithinBudget(ticks, budget) && k <= |ticks| && |ticks| - k <= window
    ensures Committed(ticks) <= Committed(ticks[..k]) + budget * window
  {
    var n := |ticks| - k;
    CommittedSince(ticks, k, budget);
    MulMono(n, window, budget);
    assert budget * n <= budget * window;
  }

  /** A record of one of the last `window` ticks is within `budget * window` tickets of the head. */
  lemma {:induction false} RecentRecordsStay(
      ticks: seq<Tick>, budget: nat, window: nat, k: nat, t: nat)
    requires WithinBudget(ticks, budget) && OfTick(ticks, k, t) && |ticks| - k <= window
    ensures t < Committed(ticks) <= t + budget * window
  {
    FewTicketsSince(ticks, budget, window, k);
    CommittedSince(ticks, k + 1, budget);
  }

  // ---- ticks and time ----

  /** The shorter of the two periods. */
  function ShortMs(cfg: BudgetConfig): nat {
    Min(cfg.deepFineMs, FineMs(cfg))
  }

  /** The least time that `gaps` periods can take when at most `deep` of them are those of DEEP. */
  function LeastMs(cfg: BudgetConfig, deep: nat, gaps: nat): nat {
    if gaps <= deep then gaps * ShortMs(cfg) else deep * ShortMs(cfg) + (gaps - deep) * FineMs(cfg)
  }

  lemma {:induction false} OneGapMore(cfg: BudgetConfig, deep: nat, gaps: nat)
    ensures LeastMs(cfg, deep, gaps + 1) == LeastMs(cfg, deep, gaps) + if gaps < deep then ShortMs(cfg) else FineMs(cfg)
    ensures LeastMs(cfg, deep + 1, gaps + 1) == ShortMs(cfg) + LeastMs(cfg, deep, gaps)
  {
  }

  lemma {:induction false} MoreDeepIsFaster(cfg: BudgetConfig, deep: nat, more: nat, gaps: nat)
    requires deep <= more
    ensures LeastMs(cfg, more, gaps) <= LeastMs(cfg, deep, gaps)
  {
    if gaps > deep {
      var d := Min(more, gaps) - deep;
      MulMono(ShortMs(cfg), FineMs(cfg), d);
      assert (deep + d) * ShortMs(cfg) == deep * ShortMs(cfg) + d * ShortMs(cfg);
      assert (gaps - deep) * FineMs(cfg) == (gaps - deep - d) * FineMs(cfg) + d * FineMs(cfg);
    }
  }

  lemma {:induction false} PacedApart(cfg: BudgetConfig, ticks: seq<Tick>, k: nat)
    requires Paced(cfg, ticks) && k < |ticks|
    ensures ticks[k].ts + LeastMs(cfg, DeepSince(ticks, k), |ticks| - 1 - k) * 1000000 <= ticks[|ticks| - 1].ts
    decreases |ticks| - k
  {
    if k < |ticks| - 1 {
      PacedApart(cfg, ticks, k + 1);
      var d, g := DeepSince(ticks, k + 1), |ticks| - 2 - k;
      OneGapMore(cfg, d, g);
    }
  }

  function CeilDiv(a: nat, b: nat): nat
    requires b >= 1
  {
    if a % b == 0 then a / b else a / b + 1
  }

  lemma {:induction false} CeilDivBound(a: nat, b: nat, m: nat)
    requires b >= 1
    ensures m * b < a <==> m < CeilDiv(a, b)
  {
    assert a == a / b * b + a % b;
    QuotientBound(a, b, m);
    if a % b == 0 {
      if m < a / b { MulMono(m, a / b, b); } else { MulMono(a / b, m, b); }
    } else if m > a / b {
      MulMono(a / b + 1, m, b);
    } else {
      MulMono(m, a / b, b);
    }
  }

  /** The ticks that can be younger than the backlog when at most `deep` of them are DEEP ticks. */
  function WindowTicks(cfg: BudgetConfig, deep: nat): nat {
    if deep * ShortMs(cfg) >= BacklogMs(cfg) then CeilDiv(BacklogMs(cfg), ShortMs(cfg))
    else deep + CeilDiv(BacklogMs(cfg) - deep * ShortMs(cfg), FineMs(cfg))
  }

  lemma {:induction false} WindowIsExact(cfg: BudgetConfig, deep: nat, gaps: nat)
    ensures LeastMs(cfg, deep, gaps) < BacklogMs(cfg) <==> gaps < WindowTicks(cfg, deep)
  {
    var short, fine, backlog := ShortMs(cfg), FineMs(cfg), BacklogMs(cfg);
    if deep * short >= backlog {
      DeepFillsTheBacklog(short, fine, backlog, deep, gaps);
    } else if gaps <= deep {
      MulMono(gaps, deep, short);
      CeilDivBound(backlog - deep * short, fine, 0);
    } else {
      CeilDivBound(backlog - deep * short, fine, gaps - deep);
    }
  }

  lemma {:induction false} DeepFillsTheBacklog(short: nat, fine: nat, backlog: nat, deep: nat, gaps: nat)
    requires 1 <= short && deep * short >= backlog
    ensures (if gaps <= deep then gaps * short else deep * short + (gaps - deep) * fine) < backlog
            <==> gaps < CeilDiv(backlog, short)
  {
    CeilDivBound(backlog, short, gaps);
    CeilDivBound(backlog, short, deep);
    assert gaps > deep ==> (gaps - deep) * fine >= 0;
  }

  /** In BASE, Probe counts one tick less than the backlog can hold unless the period divides the backlog
      or exceeds it. */
  lemma {:induction false} ProbeCountsOneTickLess(cfg: BudgetConfig)
    ensures var fine, backlog := FineMs(cfg), BacklogMs(cfg);
            WindowTicks(cfg, 0) == if backlog % fine == 0 || backlog < fine then Ticks(cfg) else Ticks(cfg) + 1
  {
    QuotientBound(BacklogMs(cfg), FineMs(cfg), 1);
  }

  /** Ticket `t` is of a tick stamped within the configured backlog before `now`, in a run of ticks that
      keep the periods and the budget, at most `deep` of them DEEP ticks since then. */
  ghost predicate InBacklog(
      cfg: BudgetConfig, budget: nat, deep: nat, ticks: seq<Tick>, k: nat, t: nat, now: nat) {
    && Paced(cfg, ticks) && WithinBudget(ticks, budget) && OfTick(ticks, k, t) && DeepSince(ticks, k) <= deep
    && ticks[|ticks| - 1].ts <= now < ticks[k].ts + BacklogMs(cfg) * 1000000
  }

  /** The ring keeps every record of the backlog. */
  ghost predicate KeepsBacklog(cfg: BudgetConfig, budget: nat, cap: nat, deep: nat) {
    forall ticks, k: nat, t: nat, now: nat ::
      InBacklog(cfg, budget, deep, ticks, k, t, now) ==> Committed(ticks) <= t + cap
  }

  /** A tick of the backlog is among the last ones, as many as its length allows. */
  lemma {:induction false} RecentTick(
      cfg: BudgetConfig, budget: nat, deep: nat, ticks: seq<Tick>, k: nat, t: nat, now: nat)
    requires InBacklog(cfg, budget, deep, ticks, k, t, now)
    ensures |ticks| - k <= WindowTicks(cfg, deep)
  {
    PacedApart(cfg, ticks, k);
    MoreDeepIsFaster(cfg, DeepSince(ticks, k), deep, |ticks| - 1 - k);
    WindowIsExact(cfg, deep, |ticks| - 1 - k);
  }

  lemma {:induction false} BacklogRecordsStay(
      cfg: BudgetConfig, budget: nat, deep: nat, ticks: seq<Tick>, k: nat, t: nat, now: nat)
    requires InBacklog(cfg, budget, deep, ticks, k, t, now)
    ensures t < Committed(ticks) <= t + budget * WindowTicks(cfg, deep)
  {
    RecentTick(cfg, budget, deep, ticks, k, t, now);
    RecentRecordsStay(ticks, budget, WindowTicks(cfg, deep), k, t);
  }

  /** `n` ticks that follow one another as closely as they can, each with the whole budget. */
  function Rush(cfg: BudgetConfig, deep: nat, n: nat, budget: nat): seq<Tick> {
    seq(n, i requires 0 <= i < n =>
      Tick(LeastMs(cfg, deep, i) * 1000000, budget, i < deep && cfg.deepFineMs < FineMs(cfg)))
  }

  lemma {:induction false} RushIsPaced(cfg: BudgetConfig, deep: nat, n: nat, budget: nat)
    ensures Paced(cfg, Rush(cfg, deep, n, budget)) && WithinBudget(Rush(cfg, deep, n, budget), budget)
  {
    var ticks := Rush(cfg, deep, n, budget);
    forall i | 0 <= i < n - 1
      ensures ticks[i].ts + PeriodMs(cfg, ticks[i].deep) * 1000000 <= ticks[i + 1].ts
    {
      OneGapMore(cfg, deep, i);
    }
  }

  lemma {:induction false} RushIsFull(ticks: seq<Tick>, budget: nat)
    requires forall i :: 0 <= i < |ticks| ==> ticks[i].targets == budget
    ensures Committed(ticks) == budget * |ticks|
    ensures ticks != [] && budget >= 1 ==> OfTick(ticks, 0, 0)
  {
    var n := |ticks|;
    if n > 0 {
      RushIsFull(ticks[..n - 1], budget);
      assert budget * n == budget * (n - 1) + budget;
      assert ticks[..1][..0] == [] && ticks[..0] == [];
    }
  }

  lemma {:induction false} RushHasFewDeep(cfg: BudgetConfig, deep: nat, n: nat, budget: nat, k: nat)
    requires k <= n
    ensures DeepSince(Rush(cfg, deep, n, budget), k) <= if k < deep then deep - k else 0
    decreases n - k
  {
    if k < n {
      RushHasFewDeep(cfg, deep, n, budget, k + 1);
    }
  }

  lemma {:induction false} RushFillsTheBacklog(cfg: BudgetConfig, budget: nat, deep: nat)
    requires budget >= 1
    ensures var ticks := Rush(cfg, deep, WindowTicks(cfg, deep), budget);
            && ticks != [] && InBacklog(cfg, budget, deep, ticks, 0, 0, ticks[|ticks| - 1].ts)
            && Committed(ticks) == budget * WindowTicks(cfg, deep)
  {
    var n := WindowTicks(cfg, deep);
    var ticks := Rush(cfg, deep, n, budget);
    WindowIsExact(cfg, deep, 0);
    WindowIsExact(cfg, deep, n - 1);
    RushIsPaced(cfg, deep, n, budget);
    RushIsFull(ticks, budget);
    RushHasFewDeep(cfg, deep, n, budget, 0);
    assert LeastMs(cfg, deep, 0) == 0;
  }

  /** The ring keeps the whole backlog of every run of ticks with so many DEEP ones if and only if the
      budget times the ticks that the backlog can then hold fits it. */
  lemma {:induction false} BacklogIsKeptIff(cfg: BudgetConfig, budget: nat, cap: nat, deep: nat)
    ensures KeepsBacklog(cfg, budget, cap, deep) <==> budget * WindowTicks(cfg, deep) <= cap
  {
    if budget * WindowTicks(cfg, deep) <= cap {
      forall ticks, k: nat, t: nat, now: nat | InBacklog(cfg, budget, deep, ticks, k, t, now)
        ensures Committed(ticks) <= t + cap
      {
        BacklogRecordsStay(cfg, budget, deep, ticks, k, t, now);
      }
    } else {
      RushFillsTheBacklog(cfg, budget, deep);
    }
  }

  /** Whatever the phases: the ring keeps the backlog of every run if and only if the budget times the
      backlog in the shorter of the two periods, rounded up, fits it. */
  lemma {:induction false} BacklogIsAlwaysKeptIff(cfg: BudgetConfig, budget: nat, cap: nat)
    ensures (forall deep :: KeepsBacklog(cfg, budget, cap, deep)) <==>
            budget * CeilDiv(BacklogMs(cfg), ShortMs(cfg)) <= cap
  {
    var short, backlog := ShortMs(cfg), BacklogMs(cfg);
    var most := CeilDiv(backlog, short);
    CeilDivBound(backlog, short, most);
    assert WindowTicks(cfg, most) == most;
    BacklogIsKeptIff(cfg, budget, cap, most);
    if budget * most <= cap {
      forall deep: nat
        ensures KeepsBacklog(cfg, budget, cap, deep)
      {
        BacklogIsKeptIff(cfg, budget, cap, deep);
        WindowIsShortest(cfg, deep);
        MulMono(WindowTicks(cfg, deep), most, budget);
        assert budget * WindowTicks(cfg, deep) <= budget * most;
      }
    }
  }

  lemma {:induction false} WindowIsShortest(cfg: BudgetConfig, deep: nat)
    ensures WindowTicks(cfg, deep) <= CeilDiv(BacklogMs(cfg), ShortMs(cfg))
  {
    var n := WindowTicks(cfg, deep);
    WindowIsExact(cfg, deep, 0);
    WindowIsExact(cfg, deep, n - 1);
    MoreDeepIsFaster(cfg, deep, deep + n, n - 1);
    CeilDivBound(BacklogMs(cfg), ShortMs(cfg), n - 1);
  }

  // ---- what the probed budget keeps ----

  /** The probed budget keeps the backlog if and only if the inputs allow it: the ring has room for that
      many ticks of the configured minimum, and of the concurrency, the maximum or the ring's own share. */
  lemma {:induction false} ProbedBudgetKeepsTheBacklogIff(
      cfg: BudgetConfig, hw: Hardware, budget: nat, deep: nat)
    requires cfg.autoScale && cfg.minTargets <= cfg.maxTargets && Probed(cfg, hw, budget)
    ensures KeepsBacklog(cfg, budget, hw.ringSlots, deep) <==>
            var n, slots := WindowTicks(cfg, deep), hw.ringSlots;
            && AtLeastOne(cfg.minTargets) * n <= slots
            && (|| ByConcurrency(cfg, hw) * n <= slots
                || AtLeastOne(cfg.maxTargets) * n <= slots
                || slots / Ticks(cfg) * n <= slots)
  {
    BacklogIsKeptIff(cfg, budget, hw.ringSlots, deep);
    LargestFitsIff(ByConcurrency(cfg, hw), hw.ringSlots, Ticks(cfg), AtLeastOne(cfg.minTargets),
                   AtLeastOne(cfg.maxTargets), budget, WindowTicks(cfg, deep));
  }

  /** In BASE, when the period divides the backlog or exceeds it, that is so if and only if the configured
      minimum fits. */
  lemma {:induction false} InBaseTheMinimumDecides(cfg: BudgetConfig, hw: Hardware, budget: nat)
    requires cfg.autoScale && cfg.minTargets <= cfg.maxTargets && Probed(cfg, hw, budget)
    requires BacklogMs(cfg) % FineMs(cfg) == 0 || BacklogMs(cfg) < FineMs(cfg)
    ensures KeepsBacklog(cfg, budget, hw.ringSlots, 0) <==> AtLeastOne(cfg.minTargets) * Ticks(cfg) <= hw.ringSlots
  {
    ProbeCountsOneTickLess(cfg);
    QuotientBound(hw.ringSlots, Ticks(cfg), hw.ringSlots / Ticks(cfg));
    ProbedBudgetKeepsTheBacklogIff(cfg, hw, budget, 0);
  }

  /** One second of backlog in periods of 300 ms: Probe counts three ticks and gives ten threads a ring
      of thirty slots, but the ticks at 0, 300, 600 and 900 ms are all younger than a second, and the
      records of the first are gone. One thread alone would have been kept. */
  lemma {:induction false} ProbeFallsShort(cfg: BudgetConfig, hw: Hardware)
    returns (ticks: seq<Tick>)
    requires cfg == BudgetConfig(true, 1, 10, 1.0, 300, 300, 1) && hw == Hardware(16, 0, 0, 30)
    ensures forall budget :: Probed(cfg, hw, budget) <==> budget == 10
    ensures |ticks| == 4 && ticks[3].ts == 900000000 && InBacklog(cfg, 10, 0, ticks, 0, 0, ticks[3].ts)
    ensures Committed(ticks) == 40 && !KeepsBacklog(cfg, 10, 30, 0) && KeepsBacklog(cfg, 1, 30, 0)
  {
    assert Ticks(cfg) == 3 && WindowTicks(cfg, 0) == 4;
    ticks := Rush(cfg, 0, 4, 10);
    RushFillsTheBacklog(cfg, 10, 0);
    BacklogIsKeptIff(cfg, 10, 30, 0);
    BacklogIsKeptIff(cfg, 1, 30, 0);
  }

  /** The defaults, on eight CPUs: sixteen threads. In BASE they keep 90 seconds with room to spare, but
      4500 ticks of DEEP hand out 72000 tickets in less, and the ring has 32768 slots. It keeps the
      backlog exactly while at most 1435 of its ticks, less than half a minute, are those of DEEP. */
  lemma {:induction false} DeepTicksDisplaceTheBacklog(cfg: BudgetConfig, hw: Hardware)
    returns (ticks: seq<Tick>)
    requires cfg == BudgetConfig(true, 4, 64, 2.0, 100, 20, 90) && hw == Hardware(8, 0, 0, 32768)
    ensures forall budget :: Probed(cfg, hw, budget) <==> budget == 16
    ensures forall deep :: KeepsBacklog(cfg, 16, 32768, deep) <==> deep <= 1435
    ensures |ticks| == 4500 && InBacklog(cfg, 16, 4500, ticks, 0, 0, ticks[4499].ts)
    ensures Committed(ticks) == 72000
  {
    assert Ticks(cfg) == 900 && WindowTicks(cfg, 4500) == 4500;
    ticks := Rush(cfg, 4500, 4500, 16);
    RushFillsTheBacklog(cfg, 16, 4500);
    forall deep: nat
      ensures KeepsBacklog(cfg, 16, 32768, deep) <==> deep <= 1435
    {
      BacklogIsKeptIff(cfg, 16, 32768, deep);
    }
  }

  // ---- end to end ----

  /** What the ticks have left in the ring: their tickets, every record stamped with its tick's time. */
  ghost predicate ProducedBy(r: Ring, ticks: seq<Tick>) {
    && r.head == Committed(ticks)
    && forall k: nat, t: nat :: OfTick(ticks, k, t) ==> t in r.log && |r.log[t]| > 0 && r.log[t][0] == ticks[k].ts
  }

  /** The window before the anomaly as ExtractPre scans it: the head was read when the ticks had left
      their records, and at most `slack` tickets were handed out while it was scanning. */
  ghost predicate PreScan(tr: seq<Ring>, acts: seq<Action>, cap: nat, w: nat,
                          ticks: seq<Tick>, headAt: nat, slack: nat, pre: Drain) {
    && Run(tr, acts, cap, w) && Disciplined(tr) && headAt < |tr|
    && ProducedBy(tr[headAt], ticks) && pre.head == Committed(ticks)
    && |pre.visits| == pre.head - PreStart(pre.head, cap)
    && Witnessed(tr, acts, cap, w, PreStart(pre.head, cap), pre.visits, pre.loads)
    && forall j :: 0 <= j < |pre.loads| ==>
                     headAt <= pre.loads[j].0.tagAt && tr[pre.loads[j].1.end].head <= pre.head + slack
  }

  /** The targets kept within a budget that fits the ring, DEEP ticks and the scan included. Each record
      stamped within the configured backlog and not before the cutoff, if it is published when its slot
      is first loaded, is among the rows of the window, word for word. */
  lemma {:induction false} PreWindowIsComplete(
      cfg: BudgetConfig, budget: nat, deep: nat, ticks: seq<Tick>, k: nat, t: nat, now: nat,
      tr: seq<Ring>, acts: seq<Action>, cap: nat, w: nat, headAt: nat, slack: nat, pre: Drain,
      anomalyStart: nat, preNs: nat, js: seq<nat>, copies: seq<Slot>, layout: Layout, rows: seq<PerCpuMerge.Rec>)
    requires budget * WindowTicks(cfg, deep) + slack <= cap && InBacklog(cfg, budget, deep, ticks, k, t, now)
    requires PreScan(tr, acts, cap, w, ticks, headAt, slack, pre)
    requires Young(PreStart(pre.head, cap), pre.visits, anomalyStart, preNs, js, copies)
    requires RowsOf(Timer, Decoded(layout, copies), rows)
    requires ticks[k].ts + preNs >= anomalyStart
    ensures var j := t - PreStart(pre.head, cap);
            && 0 <= j < |pre.loads| && pre.loads[j].0.tagAt < |tr| && t in tr[headAt].log
            && (Published(tr[pre.loads[j].0.tagAt], t) ==> layout(Slot(2 * t, tr[headAt].log[t])) in rows)
  {
    BacklogRecordsStay(cfg, budget, deep, ticks, k, t, now);
    StampedRecordIsARow(tr, acts, cap, w, ticks, headAt, slack, pre, k, t, anomalyStart, preNs, js, copies,
                        layout, rows);
  }

  lemma {:induction false} StampedRecordIsARow(
      tr: seq<Ring>, acts: seq<Action>, cap: nat, w: nat, ticks: seq<Tick>, headAt: nat, slack: nat,
      pre: Drain, k: nat, t: nat, anomalyStart: nat, preNs: nat, js: seq<nat>, copies: seq<Slot>,
      layout: Layout, rows: seq<PerCpuMerge.Rec>)
    requires PreScan(tr, acts, cap, w, ticks, headAt, slack, pre) && OfTick(ticks, k, t)
    requires ticks[k].ts + preNs >= anomalyStart && t < pre.head && pre.head + slack <= t + cap
    requires Young(PreStart(pre.head, cap), pre.visits, anomalyStart, preNs, js, copies)
    requires RowsOf(Timer, Decoded(layout, copies), rows)
    ensures var j := t - PreStart(pre.head, cap);
            && 0 <= j < |pre.loads| && pre.loads[j].0.tagAt < |tr| && t in tr[headAt].log
            && (Published(tr[pre.loads[j].0.tagAt], t) ==> layout(Slot(2 * t, tr[headAt].log[t])) in rows)
  {
    StampedRecordIsYoung(tr, acts, cap, w, ticks, headAt, slack, pre, k, t, anomalyStart, preNs);
    var begin := PreStart(pre.head, cap);
    if YoungVisit(begin, pre.visits, t - begin, anomalyStart, preNs) {
      YoungIsARow(begin, pre.visits, anomalyStart, preNs, js, copies, t - begin, layout, rows);
    }
  }

  lemma {:induction false} StampedRecordIsYoung(
      tr: seq<Ring>, acts: seq<Action>, cap: nat, w: nat, ticks: seq<Tick>, headAt: nat, slack: nat,
      pre: Drain, k: nat, t: nat, anomalyStart: nat, preNs: nat)
    requires PreScan(tr, acts, cap, w, ticks, headAt, slack, pre) && OfTick(ticks, k, t)
    requires ticks[k].ts + preNs >= anomalyStart && t < pre.head && pre.head + slack <= t + cap
    ensures var begin := PreStart(pre.head, cap);
            var j := t - begin;
            && 0 <= j < |pre.loads| && pre.loads[j].0.tagAt < |tr| && t in tr[headAt].log
            && (Published(tr[pre.loads[j].0.tagAt], t) ==>
                  && YoungVisit(begin, pre.visits, j, anomalyStart, preNs)
                  && pre.visits[j].b.value == Slot(2 * t, tr[headAt].log[t]))
  {
    var begin := PreStart(pre.head, cap);
    var j := t - begin;
    assert Answered(tr, acts, cap, w, begin + j, pre.visits[j], pre.loads[j]);
    assert tr[headAt].log[t][0] == ticks[k].ts;
    LoggedVisit(tr, acts, cap, w, headAt, t, pre.visits[j], pre.loads[j]);
  }

  lemma {:induction false} LoggedVisit(
      tr: seq<Ring>, acts: seq<Action>, cap: nat, w: nat, headAt: nat, t: nat, v: Visit, ld: (Load, Load))
    requires Answered(tr, acts, cap, w, t, v, ld) && headAt <= ld.0.tagAt
    requires t in tr[headAt].log && tr[ld.1.end].head <= t + cap
    ensures Published(tr[ld.0.tagAt], t) ==> Taken(t, v) && v.b.value == Slot(2 * t, tr[headAt].log[t])
  {
    Forward(tr, acts, cap, w, headAt, ld.0.tagAt, t);
    if Published(tr[ld.0.tagAt], t) {
      VisitIsExact(tr, acts, cap, w, t, v, ld);
    }
  }

  lemma {:induction false} YoungIsARow(
      from: nat, visits: seq<Visit>, anomalyStart: nat, preNs: nat, js: seq<nat>, copies: seq<Slot>, j: nat,
      layout: Layout, rows: seq<PerCpuMerge.Rec>)
    requires Young(from, visits, anomalyStart, preNs, js, copies) && RowsOf(Timer, Decoded(layout, copies), rows)
    requires YoungVisit(from, visits, j, anomalyStart, preNs)
    ensures layout(visits[j].b.value) in rows
  {
    var i :| 0 <= i < |js| && js[i] == j;
    assert Decoded(layout, copies)[i] == layout(visits[j].b.value);
    Sorting.SameMembers(rows, Decoded(layout, copies));
  }

  /** And nothing older: each row of the window is one of its accepted copies stamped no earlier. */
  lemma {:induction false} PreWindowIsYoung(
      from: nat, visits: seq<Visit>, anomalyStart: nat, preNs: nat, js: seq<nat>, copies: seq<Slot>,
      layout: Layout, rows: seq<PerCpuMerge.Rec>, r: PerCpuMerge.Rec)
    requires Young(from, visits, anomalyStart, preNs, js, copies) && RowsOf(Timer, Decoded(layout, copies), rows)
    requires r in rows
    ensures exists j: nat :: YoungVisit(from, visits, j, anomalyStart, preNs) && layout(visits[j].b.value) == r
  {
    Sorting.SameMembers(rows, Decoded(layout, copies));
    var i :| 0 <= i < |copies| && layout(copies[i]) == r;
    assert YoungVisit(from, visits, js[i], anomalyStart, preNs);
  }
}
