/** Scores of threads and processes (src/collect/target_selector.cpp, ComputeScore and steps 4 and 5
    of Evaluate). Doubles are reals here. */
module Scoring {
  import opened Collections
  import opened Folds
  import opened Grouping

  /** Cumulative counters of a thread, as ReadTid collects them. */
  datatype Counters = Counters(
    cpuTicks: nat, swVol: nat, swInvol: nat, ioOps: nat, ioBytes: nat,
    pfMinor: nat, pfMajor: nat, lockWaits: nat)

  /** What a thread, or a whole process, used over the window. */
  datatype Usage = Usage(cpuNs: nat, switches: nat, ioOps: nat, ioBytes: nat, faults: nat, lockWaits: nat)

  /** The share of one thread in its process; a process is the sum of its threads. */
  datatype Load = Load(tgid: nat, usage: Usage)

  datatype Weights = Weights(cpu: real, switches: real, io: real, fault: real, lock: real)

  ghost predicate ValidWeights(w: Weights) {
    w.cpu >= 0.0 && w.switches >= 0.0 && w.io >= 0.0 && w.fault >= 0.0 && w.lock >= 0.0
  }

  /** Growth of a counter; one that went backwards has not grown. */
  function Growth(now: nat, before: nat): nat {
    if now >= before then now - before else 0
  }

  function Delta(c: Counters, b: Counters): Counters {
    Counters(Growth(c.cpuTicks, b.cpuTicks), Growth(c.swVol, b.swVol), Growth(c.swInvol, b.swInvol),
             Growth(c.ioOps, b.ioOps), Growth(c.ioBytes, b.ioBytes), Growth(c.pfMinor, b.pfMinor),
             Growth(c.pfMajor, b.pfMajor), Growth(c.lockWaits, b.lockWaits))
  }

  /** Growth over the window; a thread that the oldest snapshot lacks counts from zero. */
  function Grown(cur: map<nat, Counters>, base: map<nat, Counters>, tid: nat): Counters
    requires tid in cur
  {
    if tid in base then Delta(cur[tid], base[tid]) else cur[tid]
  }

  /** A counter that stood at `before` and stands at `now` has grown by `g`; backwards is no growth. */
  predicate Grew(now: nat, before: nat, g: nat) {
    if before <= now then g + before == now else g == 0
  }

  /** `g` is the growth of each counter of a thread, from zero if it was not there before. */
  predicate GrewFrom(now: Counters, before: Option<Counters>, g: Counters) {
    if before.None? then g == now
    else
      var b := before.value;
      && Grew(now.cpuTicks, b.cpuTicks, g.cpuTicks) && Grew(now.swVol, b.swVol, g.swVol)
      && Grew(now.swInvol, b.swInvol, g.swInvol) && Grew(now.ioOps, b.ioOps, g.ioOps)
      && Grew(now.ioBytes, b.ioBytes, g.ioBytes) && Grew(now.pfMinor, b.pfMinor, g.pfMinor)
      && Grew(now.pfMajor, b.pfMajor, g.pfMajor) && Grew(now.lockWaits, b.lockWaits, g.lockWaits)
  }

  lemma {:induction false} GrownIsGrowth(cur: map<nat, Counters>, base: map<nat, Counters>, tid: nat, g: Counters)
    requires tid in cur
    ensures GrewFrom(cur[tid], if tid in base then Some(base[tid]) else None, g) <==> g == Grown(cur, base, tid)
  {
  }

  /** Clock ticks to nanoseconds, truncated. */
  function TicksToNs(ticks: nat, hz: int): nat {
    if hz > 0 then
      var ns := (ticks as real * 1000000000.0 / hz as real).Floor;
      if ns >= 0 then ns else 0
    else 0
  }

  /** The nanoseconds are whole ones, rounded down; a system without clock ticks has none. */
  lemma {:induction false} TicksAreNanoseconds(ticks: nat, hz: int)
    ensures hz > 0 ==> TicksToNs(ticks, hz) * hz <= ticks * 1000000000 < (TicksToNs(ticks, hz) + 1) * hz
    ensures hz <= 0 ==> TicksToNs(ticks, hz) == 0
  {
    if hz > 0 {
      var x := ticks as real * 1000000000.0 / hz as real;
      FloorOfQuotient(ticks * 1000000000, hz, x);
      assert x >= 0.0;
    }
  }

  lemma {:induction false} FloorOfQuotient(a: int, b: int, x: real)
    requires b > 0 && x * b as real == a as real
    ensures x.Floor * b <= a < (x.Floor + 1) * b
  {
    var f := x.Floor;
    ProductMono(f as real, x, b as real);
    ProductMono(x, (f + 1) as real, b as real);
    WholeProduct(f, b);
    WholeProduct(f + 1, b);
  }

  lemma {:induction false} ProductMono(a: real, b: real, c: real)
    requires a <= b && c > 0.0
    ensures a * c <= b * c && (a < b ==> a * c < b * c)
  {
    assert b * c - a * c == (b - a) * c;
    assert a < b ==> (b - a) * c > 0.0;
  }

  lemma {:induction false} WholeProduct(a: int, b: int)
    ensures (a * b) as real == a as real * b as real
  {
  }

  /** Growth in the units of scores; `toNs` converts clock ticks. */
  function UsageOf(d: Counters, toNs: nat -> nat): Usage {
    Usage(toNs(d.cpuTicks), d.swVol + d.swInvol, d.ioOps, d.ioBytes, d.pfMinor + d.pfMajor,
          d.lockWaits)
  }

  function Plus(u: Usage, v: Usage): Usage {
    Usage(u.cpuNs + v.cpuNs, u.switches + v.switches, u.ioOps + v.ioOps, u.ioBytes + v.ioBytes,
          u.faults + v.faults, u.lockWaits + v.lockWaits)
  }

  function Nothing(): Usage { Usage(0, 0, 0, 0, 0, 0) }

  /** No more of anything. */
  predicate AtMost(u: Usage, v: Usage) {
    u.cpuNs <= v.cpuNs && u.switches <= v.switches && u.ioOps <= v.ioOps && u.ioBytes <= v.ioBytes
    && u.faults <= v.faults && u.lockWaits <= v.lockWaits
  }

  function Saturated(v: real): real {
    if v < 0.0 then 0.0 else if v > 1.0 then 1.0 else v
  }

  /** A rate against its reference scale. */
  function Level(amount: nat, windowS: real, reference: real): real
    requires windowS > 0.0 && reference > 0.0
  {
    Saturated(amount as real / windowS / reference)
  }

  /** Utilisation of one CPU. */
  function Utilisation(cpuNs: nat, windowS: real): real
    requires windowS > 0.0
  {
    Saturated(cpuNs as real / (windowS * 1000000000.0))
  }

  datatype Levels = Levels(cpu: real, switches: real, io: real, bandwidth: real, fault: real, lock: real)

  function LevelsOf(windowS: real, u: Usage): Levels
    requires windowS > 0.0
  {
    Levels(Utilisation(u.cpuNs, windowS), Level(u.switches, windowS, 10000.0),
           Level(u.ioOps, windowS, 10000.0), Level(u.ioBytes, windowS, 1073741824.0),
           Level(u.faults, windowS, 10000.0), Level(u.lockWaits, windowS, 1000.0))
  }

  function Weighed(w: Weights, l: Levels): real {
    w.cpu * l.cpu + w.switches * l.switches + w.io * ((l.io + l.bandwidth) / 2.0)
    + w.fault * l.fault + w.lock * l.lock
  }

  function ComputeScore(w: Weights, windowS: real, u: Usage): real
    requires windowS > 0.0
  {
    Weighed(w, LevelsOf(windowS, u))
  }

  /** How usage is measured and scored: the conversion of clock ticks, and the score of what was used
      in a window of so many seconds. */
  datatype Meter = Meter(toNs: nat -> nat, score: (real, Usage) -> real)

  /** The source's own meter; `hz` is the system's clock ticks in a second. */
  function StandardMeter(w: Weights, hz: int): Meter {
    Meter((ticks: nat) => TicksToNs(ticks, hz),
          (windowS: real, u: Usage) => if windowS > 0.0 then ComputeScore(w, windowS, u) else 0.0)
  }

  /** A meter applied to a window of known length. */
  datatype Scorer = Scorer(score: (real, Usage) -> real, windowS: real)

  function ScoreOf(sc: Scorer, u: Usage): real {
    sc.score(sc.windowS, u)
  }

  lemma {:induction false} QuotientMono(a: real, b: real, d: real)
    requires a <= b && d > 0.0
    ensures a / d <= b / d
  {
  }

  lemma {:induction false} LevelMono(a: nat, b: nat, windowS: real, reference: real)
    requires windowS > 0.0 && reference > 0.0 && a <= b
    ensures 0.0 <= Level(a, windowS, reference) <= Level(b, windowS, reference) <= 1.0
  {
    QuotientMono(a as real, b as real, windowS);
    QuotientMono(a as real / windowS, b as real / windowS, reference);
  }

  /** The share of `full` that `amount` is, 1 from `full` on. */
  function Share(amount: nat, full: real): real
    requires full > 0.0
  {
    if amount as real >= full then 1.0 else amount as real / full
  }

  lemma {:induction false} LevelIsShare(amount: nat, windowS: real, reference: real)
    requires windowS > 0.0 && reference > 0.0
    ensures reference * windowS > 0.0
    ensures Level(amount, windowS, reference) == Share(amount, reference * windowS)
  {
    var rate, full := amount as real / windowS, reference * windowS;
    assert rate * windowS == amount as real;
    if amount as real >= full {
      QuotientMono(full, amount as real, windowS);
      assert full / windowS == reference;
      QuotientMono(reference, rate, reference);
    } else {
      TwoQuotients(amount as real, windowS, reference);
      QuotientMono(amount as real, full, full);
    }
  }

  lemma {:induction false} TwoQuotients(a: real, b: real, c: real)
    requires b > 0.0 && c > 0.0
    ensures c * b > 0.0 && a / b / c == a / (c * b)
  {
    var q := a / b / c;
    assert q * c == a / b && a / b * b == a;
    assert q * (c * b) == a;
    SameFactor(q, a / (c * b), c * b);
  }

  lemma {:induction false} SameFactor(a: real, b: real, d: real)
    requires d > 0.0 && a * d == b * d
    ensures a == b
  {
    assert (a - b) * d == 0.0;
  }

  /** What was used against what saturates it: one CPU; ten thousand switches, operations or faults a
      second; a gibibyte a second; a thousand waits a second. */
  function Shares(windowS: real, u: Usage): Levels
    requires windowS > 0.0
  {
    Levels(Share(u.cpuNs, 1000000000.0 * windowS), Share(u.switches, 10000.0 * windowS),
           Share(u.ioOps, 10000.0 * windowS), Share(u.ioBytes, 1073741824.0 * windowS),
           Share(u.faults, 10000.0 * windowS), Share(u.lockWaits, 1000.0 * windowS))
  }

  lemma {:induction false} ScoreIsWeighed(w: Weights, windowS: real, u: Usage)
    requires windowS > 0.0
    ensures ComputeScore(w, windowS, u) == Weighed(w, Shares(windowS, u))
  {
    IoLevelsAreShares(windowS, u);
    OtherLevelsAreShares(windowS, u);
    assert LevelsOf(windowS, u) == Shares(windowS, u);
  }

  ghost predicate Weighs(w: Weights, l: Levels, score: real) {
    score == w.cpu * l.cpu + w.switches * l.switches + w.io * ((l.io + l.bandwidth) / 2.0)
             + w.fault * l.fault + w.lock * l.lock
  }

  lemma {:induction false} WeighedWeighs(w: Weights, l: Levels)
    ensures Weighs(w, l, Weighed(w, l))
  {
  }

  /** A score weighs those shares; operations and bandwidth count half each. */
  lemma {:induction false} ScoreIsWeighedShares(w: Weights, hz: int, windowS: real, u: Usage)
    requires windowS > 0.0
    ensures Weighs(w, Shares(windowS, u), StandardMeter(w, hz).score(windowS, u))
  {
    ScoreIsWeighed(w, windowS, u);
    WeighedWeighs(w, Shares(windowS, u));
  }

  lemma {:induction false} IoLevelsAreShares(windowS: real, u: Usage)
    requires windowS > 0.0
    ensures LevelsOf(windowS, u).io == Shares(windowS, u).io
    ensures LevelsOf(windowS, u).bandwidth == Shares(windowS, u).bandwidth
  {
    LevelIsShare(u.ioOps, windowS, 10000.0);
    LevelIsShare(u.ioBytes, windowS, 1073741824.0);
  }

  lemma {:induction false} OtherLevelsAreShares(windowS: real, u: Usage)
    requires windowS > 0.0
    ensures LevelsOf(windowS, u).cpu == Shares(windowS, u).cpu
    ensures LevelsOf(windowS, u).switches == Shares(windowS, u).switches
    ensures LevelsOf(windowS, u).fault == Shares(windowS, u).fault
    ensures LevelsOf(windowS, u).lock == Shares(windowS, u).lock
  {
    UtilisationIsShare(u.cpuNs, windowS);
    LevelIsShare(u.switches, windowS, 10000.0);
    LevelIsShare(u.faults, windowS, 10000.0);
    LevelIsShare(u.lockWaits, windowS, 1000.0);
  }

  lemma {:induction false} UtilisationIsShare(cpuNs: nat, windowS: real)
    requires windowS > 0.0
    ensures Utilisation(cpuNs, windowS) == Share(cpuNs, 1000000000.0 * windowS)
  {
    var full := windowS * 1000000000.0;
    if cpuNs as real >= full {
      QuotientMono(full, cpuNs as real, full);
    } else {
      QuotientMono(cpuNs as real, full, full);
    }
  }

  predicate NoHigher(l: Levels, m: Levels) {
    l.cpu <= m.cpu && l.switches <= m.switches && l.io <= m.io && l.bandwidth <= m.bandwidth
    && l.fault <= m.fault && l.lock <= m.lock
  }

  lemma {:induction false} LevelsMono(windowS: real, u: Usage, v: Usage)
    requires windowS > 0.0 && AtMost(u, v)
    ensures NoHigher(LevelsOf(windowS, u), LevelsOf(windowS, v))
  {
    QuotientMono(u.cpuNs as real, v.cpuNs as real, windowS * 1000000000.0);
    LevelMono(u.switches, v.switches, windowS, 10000.0);
    LevelMono(u.ioOps, v.ioOps, windowS, 10000.0);
    LevelMono(u.ioBytes, v.ioBytes, windowS, 1073741824.0);
    LevelMono(u.faults, v.faults, windowS, 10000.0);
    LevelMono(u.lockWaits, v.lockWaits, windowS, 1000.0);
  }

  lemma {:induction false} WeighedMono(w: Weights, l: Levels, m: Levels)
    requires ValidWeights(w) && NoHigher(l, m)
    ensures Weighed(w, l) <= Weighed(w, m)
  {
  }

  /** Using more never lowers a score. */
  lemma {:induction false} ScoreIsMonotone(w: Weights, windowS: real, u: Usage, v: Usage)
    requires ValidWeights(w) && windowS > 0.0 && AtMost(u, v)
    ensures ComputeScore(w, windowS, u) <= ComputeScore(w, windowS, v)
  {
    LevelsMono(windowS, u, v);
    WeighedMono(w, LevelsOf(windowS, u), LevelsOf(windowS, v));
  }

  // ---- processes ----

  function TgidOf(l: Load): nat { l.tgid }

  function UsagePart(l: Load): Usage { l.usage }

  function AddLoad(a: Load, b: Load): Load { Load(a.tgid, Plus(a.usage, b.usage)) }

  /** The aggregates of all processes, accumulated thread by thread. */
  function Aggregates(loads: seq<Load>): map<nat, Load> {
    Groups(TgidOf, AddLoad, loads)
  }

  datatype Resource = CpuNs | Switches | IoOps | IoBytes | Faults | LockWaits

  function Amount(u: Usage, r: Resource): nat {
    match r
    case CpuNs => u.cpuNs
    case Switches => u.switches
    case IoOps => u.ioOps
    case IoBytes => u.ioBytes
    case Faults => u.faults
    case LockWaits => u.lockWaits
  }

  /** What a thread of process `p` used of a resource; 0 for other threads. */
  function AmountIn(p: nat, r: Resource): Load -> nat {
    (l: Load) => if l.tgid == p then Amount(l.usage, r) else 0
  }

  /** A process has used, of each resource, what its threads have used together. */
  lemma {:induction false} AggregatesAreSums(loads: seq<Load>, p: nat, r: Resource)
    ensures p in Aggregates(loads) ==> Amount(Aggregates(loads)[p].usage, r) == Sum(loads, AmountIn(p, r))
    ensures p !in Aggregates(loads) ==> Sum(loads, AmountIn(p, r)) == 0
  {
    if loads != [] {
      AggregatesAreSums(loads[..|loads| - 1], p, r);
    }
  }

  /** The order in which threads are visited changes no aggregate. */
  lemma {:induction false} AggregatesIgnoreOrder(a: seq<Load>, b: seq<Load>)
    requires multiset(a) == multiset(b)
    ensures Aggregates(a) == Aggregates(b)
  {
    GroupsKeepTheirKeys(TgidOf, AddLoad, a);
    GroupsKeepTheirKeys(TgidOf, AddLoad, b);
    forall p
      ensures p in Aggregates(a) <==> p in Aggregates(b)
      ensures p in Aggregates(a) ==> Aggregates(a)[p] == Aggregates(b)[p]
    {
      GroupsIgnoreOrder(TgidOf, AddLoad, UsagePart, Plus, Nothing(), a, b, p);
    }
  }

  lemma {:induction false} MembersAreCounted(loads: seq<Load>, i: nat)
    requires i < |loads|
    ensures loads[i].tgid in Aggregates(loads)
    ensures AtMost(loads[i].usage, Aggregates(loads)[loads[i].tgid].usage)
  {
    var n := |loads| - 1;
    if i < n {
      MembersAreCounted(loads[..n], i);
    }
  }

  /** A process never scores below any one of its threads. */
  lemma {:induction false} ProcessOutscoresItsThreads(
      w: Weights, hz: int, windowS: real, loads: seq<Load>, i: nat)
    requires ValidWeights(w) && windowS > 0.0 && i < |loads|
    ensures loads[i].tgid in Aggregates(loads)
    ensures var score := StandardMeter(w, hz).score;
            score(windowS, loads[i].usage) <= score(windowS, Aggregates(loads)[loads[i].tgid].usage)
  {
    MembersAreCounted(loads, i);
    ScoreIsMonotone(w, windowS, loads[i].usage, Aggregates(loads)[loads[i].tgid].usage);
  }
}
