/** The two recorder modes and their meeting point: the in-kernel sum over CPUs and the per-CPU
    slices of bpf/etrace_common.h, and MergePerCpu of src/collect/deep_collector.cpp. Counters wrap at
    their declared widths. */
module PerCpuMerge {
  import opened Arith
  import opened Collections
  import opened Folds
  import opened Grouping
  import Sorting

  const HIST_BINS: nat := 13

  type u32 = x: nat | x < U32
  type u64 = x: nat | x < U64
  type Hist = h: seq<u32> | |h| == HIST_BINS witness seq(HIST_BINS, _ => 0)

  datatype Switches = Switches(vol: u32, invol: u32)
  datatype BlockIo = BlockIo(ops: u64, bytes: u64, hist: Hist)
  datatype Faults = Faults(minor: u32, major: u32)
  datatype LatStat = LatStat(count: u64, latNs: u64, hist: Hist)
  datatype RunqStat = RunqStat(waitNs: u64, count: u32, hist: Hist)

  /** The counters of a recorder snapshot. */
  datatype Counters = Counters(
    onCpuNs: u64, switches: Switches, io: BlockIo, faults: Faults,
    locks: LatStat, syscalls: LatStat, futex: LatStat, runq: RunqStat)

  /** A snapshot record without its sequence word, which merging ignores; of the flags only bit 0
      is ever set, on ticks taken in DEEP. */
  datatype Rec = Rec(ts: u64, tgid: u32, tid: u32, comm: seq<nat>, counters: Counters, deep: bool)

  /** The values one CPU holds for a tid in the eight per-CPU maps; a map may lack the key. */
  datatype CpuSlice = CpuSlice(
    onCpuNs: Option<u64>, switches: Option<Switches>, io: Option<BlockIo>, faults: Option<Faults>,
    locks: Option<LatStat>, syscalls: Option<LatStat>, futex: Option<LatStat>, runq: Option<LatStat>)

  // ---- wrapping addition ----

  function Add32(a: u32, b: u32): u32 { if a + b < U32 then a + b else a + b - U32 }

  function Add64(a: u64, b: u64): u64 { if a + b < U64 then a + b else a + b - U64 }

  function AddHist(a: Hist, b: Hist): Hist {
    seq(HIST_BINS, i requires 0 <= i < HIST_BINS => Add32(a[i], b[i]))
  }

  function AddSwitches(a: Switches, b: Switches): Switches {
    Switches(Add32(a.vol, b.vol), Add32(a.invol, b.invol))
  }

  function AddBlockIo(a: BlockIo, b: BlockIo): BlockIo {
    BlockIo(Add64(a.ops, b.ops), Add64(a.bytes, b.bytes), AddHist(a.hist, b.hist))
  }

  function AddFaults(a: Faults, b: Faults): Faults {
    Faults(Add32(a.minor, b.minor), Add32(a.major, b.major))
  }

  function AddLat(a: LatStat, b: LatStat): LatStat {
    LatStat(Add64(a.count, b.count), Add64(a.latNs, b.latNs), AddHist(a.hist, b.hist))
  }

  function AddRunq(a: RunqStat, b: RunqStat): RunqStat {
    RunqStat(Add64(a.waitNs, b.waitNs), Add32(a.count, b.count), AddHist(a.hist, b.hist))
  }

  function Add(a: Counters, b: Counters): Counters {
    Counters(Add64(a.onCpuNs, b.onCpuNs), AddSwitches(a.switches, b.switches), AddBlockIo(a.io, b.io),
             AddFaults(a.faults, b.faults), AddLat(a.locks, b.locks), AddLat(a.syscalls, b.syscalls),
             AddLat(a.futex, b.futex), AddRunq(a.runq, b.runq))
  }

  function NoHist(): Hist { seq(HIST_BINS, i requires 0 <= i < HIST_BINS => 0) }

  function NoLat(): LatStat { LatStat(0, 0, NoHist()) }

  function Zero(): Counters {
    Counters(0, Switches(0, 0), BlockIo(0, 0, NoHist()), Faults(0, 0),
             NoLat(), NoLat(), NoLat(), RunqStat(0, 0, NoHist()))
  }

  lemma {:induction false} HistLaws(a: Hist, b: Hist, c: Hist)
    ensures AddHist(a, b) == AddHist(b, a)
    ensures AddHist(AddHist(a, b), c) == AddHist(a, AddHist(b, c))
    ensures AddHist(NoHist(), a) == a && AddHist(a, NoHist()) == a
  {
  }

  lemma {:induction false} LatLaws(a: LatStat, b: LatStat, c: LatStat)
    ensures AddLat(a, b) == AddLat(b, a)
    ensures AddLat(AddLat(a, b), c) == AddLat(a, AddLat(b, c))
    ensures AddLat(NoLat(), a) == a && AddLat(a, NoLat()) == a
  {
    HistLaws(a.hist, b.hist, c.hist);
  }

  /** Adding counters is commutative and associative, whatever wraps, and zero changes nothing. */
  lemma {:induction false} AddLaws(a: Counters, b: Counters, c: Counters)
    ensures Add(a, b) == Add(b, a)
    ensures Add(Add(a, b), c) == Add(a, Add(b, c))
    ensures Add(Zero(), a) == a && Add(a, Zero()) == a
  {
    LatLaws(a.locks, b.locks, c.locks);
    LatLaws(a.syscalls, b.syscalls, c.syscalls);
    LatLaws(a.futex, b.futex, c.futex);
    HistLaws(a.io.hist, b.io.hist, c.io.hist);
    HistLaws(a.runq.hist, b.runq.hist, c.runq.hist);
  }

  // ---- counter by counter ----

  /** The statistics made of a count, a latency and a histogram. */
  datatype Stat = Locks | Syscalls | Futex

  type Bin = i: nat | i < HIST_BINS

  /** The counters and histogram bins of a snapshot, one by one. */
  datatype Field =
    | OnCpuNs | Voluntary | Involuntary | IoOps | IoBytes | IoBin(i: Bin) | MinorFaults | MajorFaults
    | Count(of: Stat) | LatNs(of: Stat) | LatBin(of: Stat, i: Bin) | RunqNs | RunqCount | RunqBin(i: Bin)

  function StatOf(c: Counters, st: Stat): LatStat {
    match st
    case Locks => c.locks
    case Syscalls => c.syscalls
    case Futex => c.futex
  }

  function Get(c: Counters, f: Field): nat {
    match f
    case OnCpuNs => c.onCpuNs
    case Voluntary => c.switches.vol
    case Involuntary => c.switches.invol
    case IoOps => c.io.ops
    case IoBytes => c.io.bytes
    case IoBin(i) => c.io.hist[i]
    case MinorFaults => c.faults.minor
    case MajorFaults => c.faults.major
    case Count(st) => StatOf(c, st).count
    case LatNs(st) => StatOf(c, st).latNs
    case LatBin(st, i) => StatOf(c, st).hist[i]
    case RunqNs => c.runq.waitNs
    case RunqCount => c.runq.count
    case RunqBin(i) => c.runq.hist[i]
  }

  /** One more than the largest value the field can hold. */
  function Width(f: Field): (w: nat)
    ensures w > 0
  {
    match f
    case OnCpuNs | IoOps | IoBytes | Count(_) | LatNs(_) | RunqNs => U64
    case _ => U32
  }

  /** `c` is the integer sum of `a` and `b`, cut to the width of the field. */
  predicate IsSum(a: nat, b: nat, c: nat, f: Field) {
    c < Width(f) && (c == a + b || c + Width(f) == a + b)
  }

  lemma {:induction false} SumIsCut(a: nat, b: nat, c: nat, f: Field)
    requires IsSum(a, b, c, f)
    ensures c == (a + b) % Width(f)
  {
    ModIs(a + b, if c == a + b then 0 else 1, c, Width(f));
  }

  lemma {:induction false} AddIsSum(a: Counters, b: Counters, f: Field)
    ensures IsSum(Get(a, f), Get(b, f), Get(Add(a, b), f), f)
  {
  }

  /** Adding counters adds every counter and bin, modulo its width. */
  lemma {:induction false} AddIsPlus(a: Counters, b: Counters, f: Field)
    ensures Get(Add(a, b), f) == (Get(a, f) + Get(b, f)) % Width(f)
    ensures Get(a, f) < Width(f) && Get(Zero(), f) == 0
  {
    AddIsSum(a, b, f);
    SumIsCut(Get(a, f), Get(b, f), Get(Add(a, b), f), f);
  }

  /** What one CPU's maps hold of a field; an absent key counts as 0. */
  function GetSlice(c: CpuSlice, f: Field): nat {
    match f
    case OnCpuNs => if c.onCpuNs.Some? then c.onCpuNs.value else 0
    case Voluntary => if c.switches.Some? then c.switches.value.vol else 0
    case Involuntary => if c.switches.Some? then c.switches.value.invol else 0
    case IoOps => if c.io.Some? then c.io.value.ops else 0
    case IoBytes => if c.io.Some? then c.io.value.bytes else 0
    case IoBin(i) => if c.io.Some? then c.io.value.hist[i] else 0
    case MinorFaults => if c.faults.Some? then c.faults.value.minor else 0
    case MajorFaults => if c.faults.Some? then c.faults.value.major else 0
    case Count(st) => if SliceStat(c, st).Some? then SliceStat(c, st).value.count else 0
    case LatNs(st) => if SliceStat(c, st).Some? then SliceStat(c, st).value.latNs else 0
    case LatBin(st, i) => if SliceStat(c, st).Some? then SliceStat(c, st).value.hist[i] else 0
    case RunqNs => if c.runq.Some? then c.runq.value.latNs else 0
    case RunqCount => if c.runq.Some? then c.runq.value.count else 0
    case RunqBin(i) => if c.runq.Some? then c.runq.value.hist[i] else 0
  }

  function SliceStat(c: CpuSlice, st: Stat): Option<LatStat> {
    match st
    case Locks => c.locks
    case Syscalls => c.syscalls
    case Futex => c.futex
  }

  function ReadSlice(f: Field): CpuSlice -> nat {
    (c: CpuSlice) => GetSlice(c, f)
  }

  lemma {:induction false} CollectIsItsSlice(c: CpuSlice, f: Field)
    ensures Get(Collect(c), f) == ReadSlice(f)(c) % Width(f)
  {
  }

  /** The CPUs add up field by field. */
  lemma {:induction false} SlicesAddUp(slices: seq<CpuSlice>, f: Field)
    ensures Get(Fold(slices, Collect, Add, Zero()), f) == Sum(slices, ReadSlice(f)) % Width(f)
  {
    if slices == [] {
      AddIsPlus(Zero(), Zero(), f);
    } else {
      var before, c := slices[..|slices| - 1], slices[|slices| - 1];
      var sum := Fold(before, Collect, Add, Zero());
      SlicesAddUp(before, f);
      AddIsPlus(sum, Collect(c), f);
      CollectIsItsSlice(c, f);
      ModPlus(Sum(before, ReadSlice(f)), ReadSlice(f)(c), Width(f));
    }
  }

  // ---- the producers ----

  /** `snap_sum_cpu`: one CPU's values added to the scratch record; absent maps add nothing. */
  function AddSlice(scr: Counters, c: CpuSlice): Counters {
    Counters(if c.onCpuNs.Some? then Add64(scr.onCpuNs, c.onCpuNs.value) else scr.onCpuNs,
             if c.switches.Some? then AddSwitches(scr.switches, c.switches.value) else scr.switches,
             if c.io.Some? then AddBlockIo(scr.io, c.io.value) else scr.io,
             if c.faults.Some? then AddFaults(scr.faults, c.faults.value) else scr.faults,
             if c.locks.Some? then AddLat(scr.locks, c.locks.value) else scr.locks,
             if c.syscalls.Some? then AddLat(scr.syscalls, c.syscalls.value) else scr.syscalls,
             if c.futex.Some? then AddLat(scr.futex, c.futex.value) else scr.futex,
             if c.runq.Some? then AddRunq(scr.runq, Narrow(c.runq.value)) else scr.runq)
  }

  /** The run-queue count is cut to 32 bits on its way into the snapshot. */
  function Narrow(r: LatStat): RunqStat {
    RunqStat(r.latNs, r.count % U32, r.hist)
  }

  /** `collect_tid_current_cpu`: one CPU's values stored; the helpers create absent keys as zero. */
  function Collect(c: CpuSlice): Counters {
    Counters(if c.onCpuNs.Some? then c.onCpuNs.value else 0,
             if c.switches.Some? then c.switches.value else Zero().switches,
             if c.io.Some? then c.io.value else Zero().io,
             if c.faults.Some? then c.faults.value else Zero().faults,
             if c.locks.Some? then c.locks.value else NoLat(),
             if c.syscalls.Some? then c.syscalls.value else NoLat(),
             if c.futex.Some? then c.futex.value else NoLat(),
             if c.runq.Some? then Narrow(c.runq.value) else Zero().runq)
  }

  /** Adding a CPU in the kernel is adding the record that CPU would have committed. */
  lemma {:induction false} SliceIsItsRecord(scr: Counters, c: CpuSlice)
    ensures AddSlice(scr, c) == Add(scr, Collect(c))
  {
    AddLaws(scr, scr, scr);
  }

  /** `snap_collect_one`: the sum over the first 1024 CPUs. */
  method SumAcrossCpus(slices: seq<CpuSlice>) returns (scr: Counters)
    ensures scr == Fold(if |slices| <= 1024 then slices else slices[..1024], Collect, Add, Zero())
    ensures forall f :: Get(scr, f) == Sum(slices[..Min(|slices|, 1024)], ReadSlice(f)) % Width(f)
  {
    scr := Zero();
    var ncpus := |slices|;
    if ncpus > 1024 { ncpus := 1024; }
    for cpu := 0 to ncpus
      invariant scr == Fold(slices[..cpu], Collect, Add, Zero())
    {
      assert slices[..cpu + 1][..cpu] == slices[..cpu];
      SliceIsItsRecord(scr, slices[cpu]);
      scr := AddSlice(scr, slices[cpu]);
    }
    assert |slices| <= 1024 ==> slices[..ncpus] == slices;
    forall f
      ensures Get(scr, f) == Sum(slices[..ncpus], ReadSlice(f)) % Width(f)
    {
      SlicesAddUp(slices[..ncpus], f);
    }
  }

  // ---- the merge ----

  type Key = (u32, nat)

  function TickNs(intervalMs: nat): (ns: nat)
    ensures ns > 0 && (intervalMs == 0 ==> ns == 100000000)
    ensures 0 < intervalMs * 1000000 < U64 ==> ns == intervalMs * 1000000
  {
    var ns := (intervalMs * 1000000) % U64;
    if ns == 0 then 100000000 else ns
  }

  /** Samples of one tid in one tick-long bucket belong together. */
  function BucketOf(ns: nat): Rec -> Key
    requires ns > 0
  {
    (r: Rec) => (r.tid, r.ts / ns)
  }

  function AddSnap(dst: Rec, src: Rec): Rec {
    Rec(if src.ts > dst.ts then src.ts else dst.ts, dst.tgid, dst.tid, dst.comm,
        Add(dst.counters, src.counters), dst.deep || src.deep)
  }

  function Time(r: Rec): real {
    r.ts as real
  }

  /** MergePerCpu: group by tid and time bucket, then order by time stamp. */
  method MergePerCpu(input: seq<Rec>, intervalMs: nat) returns (out: seq<Rec>)
    ensures Lists(BucketOf(TickNs(intervalMs)), out, Groups(BucketOf(TickNs(intervalMs)), AddSnap, input))
    ensures Merged(input, TickNs(intervalMs), out) && Sorting.Sorted(out, Time)
  {
    var ns := (intervalMs * 1000000) % U64;
    if ns == 0 { ns := 100000000; }
    var groups := GroupLoop(input, ns);
    GroupsKeepTheirKeys(BucketOf(ns), AddSnap, input);
    var values := Values(BucketOf(ns), groups);
    out := Sorting.SortBy(values, Time);
    ListsInAnyOrder(BucketOf(ns), values, out, groups);
    ListedIsMerged(input, ns, out);
  }

  method GroupLoop(input: seq<Rec>, ns: nat) returns (groups: map<Key, Rec>)
    requires ns > 0
    ensures groups == Groups(BucketOf(ns), AddSnap, input)
  {
    groups := map[];
    for i := 0 to |input|
      invariant groups == Groups(BucketOf(ns), AddSnap, input[..i])
    {
      var r := input[i];
      assert input[..i + 1][..i] == input[..i];
      var k := (r.tid, r.ts / ns);
      assert k == BucketOf(ns)(r);
      if k !in groups {
        groups := groups[k := r];
      } else {
        groups := groups[k := AddSnap(groups[k], r)];
      }
    }
    assert input[..|input|] == input;
  }

  // ---- what a merged row holds ----

  predicate SameTick(a: Rec, b: Rec, ns: nat)
    requires ns > 0
  {
    a.tid == b.tid && a.ts / ns == b.ts / ns
  }

  /** A field of the records of one thread and tick; 0 for the others. */
  function ReadTick(tid: nat, tick: nat, ns: nat, f: Field): Rec -> nat
    requires ns > 0
  {
    (r: Rec) => if r.tid == tid && r.ts / ns == tick then Get(r.counters, f) else 0
  }

  /** `row` stands for the records of its thread in its tick: each field is their integer sum, cut to
      its width; the task is that of the first, the stamp the latest, DEEP if any was. */
  ghost predicate RowOf(row: Rec, input: seq<Rec>, ns: nat)
    requires ns > 0
  {
    SumsOf(row, input, ns) && TaskOf(row, input, ns) && LatestOf(row, input, ns) && DeepOf(row, input, ns)
  }

  ghost predicate SumsOf(row: Rec, input: seq<Rec>, ns: nat)
    requires ns > 0
  {
    forall f :: Get(row.counters, f) == Sum(input, ReadTick(row.tid, row.ts / ns, ns, f)) % Width(f)
  }

  ghost predicate TaskOf(row: Rec, input: seq<Rec>, ns: nat)
    requires ns > 0
  {
    exists i :: 0 <= i < |input| && SameTick(input[i], row, ns) && SameTask(input[i], row) &&
                forall h :: 0 <= h < i ==> !SameTick(input[h], row, ns)
  }

  ghost predicate LatestOf(row: Rec, input: seq<Rec>, ns: nat)
    requires ns > 0
  {
    && (forall i :: 0 <= i < |input| && SameTick(input[i], row, ns) ==> input[i].ts <= row.ts)
    && exists i :: 0 <= i < |input| && SameTick(input[i], row, ns) && input[i].ts == row.ts
  }

  ghost predicate DeepOf(row: Rec, input: seq<Rec>, ns: nat)
    requires ns > 0
  {
    row.deep <==> exists i :: 0 <= i < |input| && SameTick(input[i], row, ns) && input[i].deep
  }

  /** Every record has a row, different rows are of different threads or ticks, and each stands for the
      records it covers. */
  ghost predicate Merged(input: seq<Rec>, ns: nat, out: seq<Rec>)
    requires ns > 0
  {
    && (forall i :: 0 <= i < |input| ==> exists j :: 0 <= j < |out| && SameTick(input[i], out[j], ns))
    && (forall i, j :: 0 <= i < j < |out| ==> !SameTick(out[i], out[j], ns))
    && forall j :: 0 <= j < |out| ==> RowOf(out[j], input, ns)
  }

  lemma {:induction false} StampIsOneOf(row: Rec, input: seq<Rec>, ns: nat) returns (i: nat)
    requires ns > 0 && LatestOf(row, input, ns)
    ensures i < |input| && input[i].ts == row.ts
  {
    i :| 0 <= i < |input| && SameTick(input[i], row, ns) && input[i].ts == row.ts;
  }

  lemma {:induction false} OtherRow(row: Rec, input: seq<Rec>, r: Rec, ns: nat)
    requires ns > 0 && RowOf(row, input, ns) && !SameTick(r, row, ns)
    ensures RowOf(row, input + [r], ns)
  {
    var all := input + [r];
    assert all[..|input|] == input;
    assert forall i :: 0 <= i < |input| ==> all[i] == input[i];
  }

  lemma {:induction false} NewSum(input: seq<Rec>, r: Rec, ns: nat, f: Field)
    requires ns > 0 && forall i :: 0 <= i < |input| ==> !SameTick(input[i], r, ns)
    ensures Get(r.counters, f) == Sum(input + [r], ReadTick(r.tid, r.ts / ns, ns, f)) % Width(f)
  {
    var reading := ReadTick(r.tid, r.ts / ns, ns, f);
    assert (input + [r])[..|input|] == input;
    SumOfNothing(input, reading);
    IsCut(r.counters, f);
  }

  lemma {:induction false} IsCut(c: Counters, f: Field)
    ensures Get(c, f) == Get(c, f) % Width(f)
  {
    AddIsPlus(c, c, f);
    ModIs(Get(c, f), 0, Get(c, f), Width(f));
  }

  lemma {:induction false} NewRow(input: seq<Rec>, r: Rec, ns: nat)
    requires ns > 0 && forall i :: 0 <= i < |input| ==> !SameTick(input[i], r, ns)
    ensures RowOf(r, input + [r], ns)
  {
    var all := input + [r];
    assert all[|input|] == r && forall i :: 0 <= i < |input| ==> all[i] == input[i];
    forall f
      ensures Get(r.counters, f) == Sum(all, ReadTick(r.tid, r.ts / ns, ns, f)) % Width(f)
    {
      NewSum(input, r, ns, f);
    }
  }

  lemma {:induction false} JoinedSum(row: Rec, input: seq<Rec>, r: Rec, ns: nat, f: Field)
    requires ns > 0 && SumsOf(row, input, ns) && SameTick(r, row, ns)
    ensures Get(Add(row.counters, r.counters), f) ==
            Sum(input + [r], ReadTick(row.tid, row.ts / ns, ns, f)) % Width(f)
  {
    var reading := ReadTick(row.tid, row.ts / ns, ns, f);
    assert (input + [r])[..|input|] == input;
    AddIsPlus(row.counters, r.counters, f);
    assert Get(row.counters, f) == Sum(input, reading) % Width(f);
    ModPlus(Sum(input, reading), Get(r.counters, f), Width(f));
    IsCut(r.counters, f);
  }

  lemma {:induction false} JoinedRow(row: Rec, input: seq<Rec>, r: Rec, ns: nat)
    requires ns > 0 && RowOf(row, input, ns) && SameTick(r, row, ns)
    ensures RowOf(AddSnap(row, r), input + [r], ns)
  {
    var all, joined := input + [r], AddSnap(row, r);
    assert forall i :: 0 <= i < |input| ==> all[i] == input[i];
    assert all[|input|] == r;
    assert forall x: Rec :: SameTick(x, joined, ns) <==> SameTick(x, row, ns);
    forall f
      ensures Get(joined.counters, f) == Sum(all, ReadTick(row.tid, row.ts / ns, ns, f)) % Width(f)
    {
      JoinedSum(row, input, r, ns, f);
    }
    JoinedStamp(row, input, r, ns);
  }

  lemma {:induction false} JoinedStamp(row: Rec, input: seq<Rec>, r: Rec, ns: nat)
    requires ns > 0 && TaskOf(row, input, ns) && LatestOf(row, input, ns) && SameTick(r, row, ns)
    ensures TaskOf(AddSnap(row, r), input + [r], ns) && LatestOf(AddSnap(row, r), input + [r], ns)
  {
    var all, joined := input + [r], AddSnap(row, r);
    assert forall i :: 0 <= i < |input| ==> all[i] == input[i];
    assert all[|input|] == r;
    assert forall x: Rec :: SameTick(x, joined, ns) <==> SameTick(x, row, ns);
  }

  lemma {:induction false} GroupIsARow(input: seq<Rec>, ns: nat, k: Key)
    requires ns > 0 && k in Groups(BucketOf(ns), AddSnap, input)
    ensures RowOf(Groups(BucketOf(ns), AddSnap, input)[k], input, ns)
  {
    var n := |input| - 1;
    var before, r := input[..n], input[n];
    var g0 := Groups(BucketOf(ns), AddSnap, before);
    assert before + [r] == input;
    GroupsKeepTheirKeys(BucketOf(ns), AddSnap, before);
    if k in g0 {
      GroupIsARow(before, ns, k);
      if BucketOf(ns)(r) == k { JoinedRow(g0[k], before, r, ns); } else { OtherRow(g0[k], before, r, ns); }
    } else {
      KeysOfGroups(BucketOf(ns), AddSnap, before, k);
      NewRow(before, r, ns);
    }
  }

  lemma {:induction false} ListedIsMerged(input: seq<Rec>, ns: nat, out: seq<Rec>)
    requires ns > 0 && Lists(BucketOf(ns), out, Groups(BucketOf(ns), AddSnap, input))
    ensures Merged(input, ns, out)
  {
    EachTickOnce(input, ns, out);
    forall j | 0 <= j < |out|
      ensures RowOf(out[j], input, ns)
    {
      GroupIsARow(input, ns, BucketOf(ns)(out[j]));
    }
  }

  lemma {:induction false} EachTickOnce(input: seq<Rec>, ns: nat, out: seq<Rec>)
    requires ns > 0 && Lists(BucketOf(ns), out, Groups(BucketOf(ns), AddSnap, input))
    ensures forall i :: 0 <= i < |input| ==> exists j :: 0 <= j < |out| && SameTick(input[i], out[j], ns)
    ensures forall i, j :: 0 <= i < j < |out| ==> !SameTick(out[i], out[j], ns)
  {
    forall a, b
      ensures BucketOf(ns)(a) == BucketOf(ns)(b) <==> SameTick(a, b, ns)
    {
      KeyIsTick(a, b, ns);
    }
    GroupsKeepTheirKeys(BucketOf(ns), AddSnap, input);
    RowsDiffer(BucketOf(ns), out, Groups(BucketOf(ns), AddSnap, input));
    forall i | 0 <= i < |input|
      ensures exists j :: 0 <= j < |out| && SameTick(input[i], out[j], ns)
    {
      var j := RowFor(BucketOf(ns), input, i, out);
    }
  }

  lemma {:induction false} KeyIsTick(a: Rec, b: Rec, ns: nat)
    requires ns > 0
    ensures BucketOf(ns)(a) == BucketOf(ns)(b) <==> SameTick(a, b, ns)
  {
  }

  lemma {:induction false} RowsDiffer(key: Rec -> Key, out: seq<Rec>, g: map<Key, Rec>)
    requires Lists(key, out, g)
    ensures forall i, j :: 0 <= i < j < |out| ==> key(out[i]) != key(out[j])
  {
  }

  lemma {:induction false} RowFor(key: Rec -> Key, input: seq<Rec>, i: nat, out: seq<Rec>) returns (j: nat)
    requires Lists(key, out, Groups(key, AddSnap, input)) && i < |input|
    requires forall k :: k in Groups(key, AddSnap, input) ==> key(Groups(key, AddSnap, input)[k]) == k
    ensures j < |out| && key(input[i]) == key(out[j])
  {
    var g, k := Groups(key, AddSnap, input), key(input[i]);
    KeysOfGroups(key, AddSnap, input, k);
    j :| 0 <= j < |out| && out[j] == g[k];
  }

  // ---- what merging preserves ----

  /** The part of a record that merging accumulates. */
  datatype Part = Part(ts: u64, counters: Counters, deep: bool)

  function PartOf(r: Rec): Part {
    Part(r.ts, r.counters, r.deep)
  }

  function Combine(p: Part, q: Part): Part {
    Part(if q.ts > p.ts then q.ts else p.ts, Add(p.counters, q.counters), p.deep || q.deep)
  }

  function NoPart(): Part {
    Part(0, Zero(), false)
  }

  /** Everything a sequence of records accounts for: all counters, the DEEP flag, the latest stamp. */
  function Total(s: seq<Rec>): Part {
    Fold(s, PartOf, Combine, NoPart())
  }

  function Reading(f: Field): Rec -> nat {
    (r: Rec) => Get(r.counters, f)
  }

  lemma {:induction false} TotalIsSum(s: seq<Rec>, f: Field)
    ensures Get(Total(s).counters, f) == Sum(s, Reading(f)) % Width(f)
  {
    if s == [] {
      AddIsPlus(Zero(), Zero(), f);
    } else {
      var before, r := s[..|s| - 1], s[|s| - 1];
      TotalIsSum(before, f);
      AddIsPlus(Total(before).counters, r.counters, f);
      ModPlus(Sum(before, Reading(f)), Get(r.counters, f), Width(f));
      IsCut(r.counters, f);
    }
  }

  lemma {:induction false} CombineLaws(p: Part, q: Part, r: Part)
    ensures Combine(p, q) == Combine(q, p)
    ensures Combine(Combine(p, q), r) == Combine(p, Combine(q, r))
    ensures Combine(NoPart(), p) == p && Combine(p, NoPart()) == p
  {
    AddLaws(p.counters, q.counters, r.counters);
  }

  /** Merging accumulates all counters, the DEEP flag and the latest time stamp. */
  lemma {:induction false} SnapsAccumulate(ns: nat)
    requires ns > 0
    ensures Accumulates(BucketOf(ns), AddSnap, PartOf, Combine, NoPart())
  {
    forall p, q
      ensures Combine(p, q) == Combine(q, p) && Combine(NoPart(), p) == p && Combine(p, NoPart()) == p
    {
      CombineLaws(p, q, q);
    }
    forall p, q, r
      ensures Combine(Combine(p, q), r) == Combine(p, Combine(q, r))
    {
      CombineLaws(p, q, r);
    }
  }

  lemma {:induction false} TotalOfPermutation(a: seq<Rec>, b: seq<Rec>)
    requires multiset(a) == multiset(b)
    ensures Total(a) == Total(b)
  {
    SnapsAccumulate(1);
    FoldOfPermutation(a, b, PartOf, Combine, NoPart());
  }

  /** Conservation: the merged records account for exactly what went in, every counter and bin as an
      integer modulo its width, the DEEP flag and the latest time stamp; and there is one record for
      each tid and bucket. */
  lemma {:induction false} MergingConserves(ns: nat, input: seq<Rec>, out: seq<Rec>)
    requires ns > 0 && Lists(BucketOf(ns), out, Groups(BucketOf(ns), AddSnap, input))
    ensures Total(out) == Total(input)
    ensures forall f :: Sum(out, Reading(f)) % Width(f) == Sum(input, Reading(f)) % Width(f)
    ensures forall i, j :: 0 <= i < j < |out| ==> BucketOf(ns)(out[i]) != BucketOf(ns)(out[j])
  {
    SnapsAccumulate(ns);
    GroupingConserves(BucketOf(ns), AddSnap, PartOf, Combine, NoPart(), input, out);
    forall f
      ensures Sum(out, Reading(f)) % Width(f) == Sum(input, Reading(f)) % Width(f)
    {
      TotalIsSum(out, f);
      TotalIsSum(input, f);
    }
  }

  /** The order of the input does not matter: the same keys, and for each key the same counters,
      DEEP flag and latest time stamp. */
  lemma {:induction false} MergingIgnoresOrder(ns: nat, a: seq<Rec>, b: seq<Rec>, k: Key)
    requires ns > 0 && multiset(a) == multiset(b)
    ensures var ga, gb := Groups(BucketOf(ns), AddSnap, a), Groups(BucketOf(ns), AddSnap, b);
            (k in ga <==> k in gb) && (k in ga ==> PartOf(ga[k]) == PartOf(gb[k]))
  {
    SnapsAccumulate(ns);
    GroupsIgnoreOrder(BucketOf(ns), AddSnap, PartOf, Combine, NoPart(), a, b, k);
  }

  // ---- the two recorder modes ----

  /** `recs` are the records of one tick for one tid in per-CPU mode: one per CPU, each with that
      CPU's slice, all of one task and under one key. */
  ghost predicate OneTick(key: Rec -> Key, recs: seq<Rec>, slices: seq<CpuSlice>, k: Key) {
    && |recs| == |slices| >= 1
    && forall i :: 0 <= i < |recs| ==>
                     key(recs[i]) == k && recs[i].counters == Collect(slices[i]) && SameTask(recs[i], recs[0])
  }

  predicate SameTask(a: Rec, b: Rec) {
    a.tgid == b.tgid && a.tid == b.tid && a.comm == b.comm
  }

  ghost predicate LatestStamp(recs: seq<Rec>, ts: nat) {
    (forall i :: 0 <= i < |recs| ==> recs[i].ts <= ts) && exists i :: 0 <= i < |recs| && recs[i].ts == ts
  }

  ghost predicate AnyDeep(recs: seq<Rec>) {
    exists i :: 0 <= i < |recs| && recs[i].deep
  }

  /** What the kernel sums in timer mode. */
  function KernelSum(slices: seq<CpuSlice>): Counters {
    Fold(slices, Collect, Add, Zero())
  }

  /** The record that stands for a whole tick. */
  ghost predicate Stands(r: Rec, recs: seq<Rec>, slices: seq<CpuSlice>) {
    r.counters == KernelSum(slices) && LatestStamp(recs, r.ts) && (r.deep <==> AnyDeep(recs))
  }

  lemma {:induction false} OneSlice(slices: seq<CpuSlice>)
    requires |slices| == 1
    ensures KernelSum(slices) == Collect(slices[0])
  {
    AddLaws(Collect(slices[0]), Zero(), Zero());
    assert Fold(slices[..0], Collect, Add, Zero()) == Zero();
  }

  lemma {:induction false} OneTickSums(key: Rec -> Key, recs: seq<Rec>, slices: seq<CpuSlice>, k: Key)
    requires OneTick(key, recs, slices, k)
    ensures Groups(key, AddSnap, recs).Keys == {k} && Stands(Groups(key, AddSnap, recs)[k], recs, slices)
  {
    var n := |recs| - 1;
    if n == 0 {
      assert recs[..0] == [];
      OneSlice(slices);
    } else {
      OneTickSums(key, recs[..n], slices[..n], k);
      OneMoreStands(Groups(key, AddSnap, recs[..n])[k], recs, slices);
    }
  }

  lemma {:induction false} OneMoreStands(r: Rec, recs: seq<Rec>, slices: seq<CpuSlice>)
    requires |recs| == |slices| >= 2 && recs[|recs| - 1].counters == Collect(slices[|recs| - 1])
    requires Stands(r, recs[..|recs| - 1], slices[..|recs| - 1])
    ensures Stands(AddSnap(r, recs[|recs| - 1]), recs, slices)
  {
    var n := |recs| - 1;
    assert forall i :: 0 <= i < n ==> recs[..n][i] == recs[i];
    var i :| 0 <= i < n && recs[..n][i].ts == r.ts;
    assert recs[i].ts == r.ts;
    if AnyDeep(recs[..n]) {
      var j :| 0 <= j < n && recs[..n][j].deep;
      assert recs[j].deep;
    }
  }

  lemma {:induction false} GroupsKeepTheTask(key: Rec -> Key, recs: seq<Rec>, task: Rec)
    requires forall i :: 0 <= i < |recs| ==> SameTask(recs[i], task)
    ensures forall k :: k in Groups(key, AddSnap, recs) ==> SameTask(Groups(key, AddSnap, recs)[k], task)
  {
    if recs != [] {
      GroupsKeepTheTask(key, recs[..|recs| - 1], task);
    }
  }

  /** The modes agree: merging the per-CPU records of one tick, in whatever order they come out of
      the ring, yields the single record the kernel would have summed: its counters, the task, the
      latest of the time stamps, and the DEEP flag if any CPU saw it. */
  method MergedTick(recs: seq<Rec>, shuffled: seq<Rec>, slices: seq<CpuSlice>, intervalMs: nat)
    returns (out: seq<Rec>, kernel: Counters)
    requires recs != [] && |slices| <= 1024 && multiset(shuffled) == multiset(recs)
    requires OneTick(BucketOf(TickNs(intervalMs)), recs, slices, BucketOf(TickNs(intervalMs))(recs[0]))
    ensures |out| == 1 && Stands(out[0], recs, slices) && SameTask(out[0], recs[0])
    ensures kernel == out[0].counters
    ensures forall f :: Get(kernel, f) == Sum(slices, ReadSlice(f)) % Width(f)
  {
    out := MergePerCpu(shuffled, intervalMs);
    kernel := SumAcrossCpus(slices);
    assert slices[..|slices|] == slices;
    OneGroup(TickNs(intervalMs), recs, shuffled, slices, BucketOf(TickNs(intervalMs))(recs[0]), out);
  }

  lemma {:induction false} OneGroup(
      ns: nat, recs: seq<Rec>, shuffled: seq<Rec>, slices: seq<CpuSlice>, k: Key, out: seq<Rec>)
    requires ns > 0 && OneTick(BucketOf(ns), recs, slices, k) && multiset(shuffled) == multiset(recs)
    requires Lists(BucketOf(ns), out, Groups(BucketOf(ns), AddSnap, shuffled))
    ensures |out| == 1 && Stands(out[0], recs, slices) && SameTask(out[0], recs[0])
  {
    OneTickSums(BucketOf(ns), recs, slices, k);
    var g := Groups(BucketOf(ns), AddSnap, shuffled);
    forall c
      ensures c in g <==> c == k
      ensures c in g ==> PartOf(g[c]) == PartOf(Groups(BucketOf(ns), AddSnap, recs)[c])
    {
      MergingIgnoresOrder(ns, recs, shuffled, c);
    }
    SingleListing(BucketOf(ns), out, g, k);
    Sorting.SameMembers(shuffled, recs);
    forall i | 0 <= i < |shuffled|
      ensures SameTask(shuffled[i], recs[0])
    {
      assert shuffled[i] in recs;
    }
    GroupsKeepTheTask(BucketOf(ns), shuffled, recs[0]);
  }
}
