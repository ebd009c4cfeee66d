/** Log-binned latency histograms: the bin loops of bpf/etrace_common.h and the percentile read back
    by src/collect/deep_collector.cpp. `q` and the returned microseconds are reals. */
module Histogram {
  import opened Arith

  /** Bin `i` starts at `base * factor^i`; bin 0 also takes everything below, the last bin
      everything above. */
  datatype Scale = Scale(base: nat, factor: nat, bins: nat)

  const BASE4 := Scale(256, 4, 13)
  const LOG2 := Scale(1, 2, 64)

  predicate InUse(sc: Scale) {
    sc == BASE4 || sc == LOG2
  }

  function Edge(sc: Scale, i: nat): nat {
    if i == 0 then sc.base else Edge(sc, i - 1) * sc.factor
  }

  /** `v` belongs in bin `b`. */
  predicate InBin(sc: Scale, v: nat, b: nat) {
    b < sc.bins && (b > 0 ==> Edge(sc, b) <= v) && (b < sc.bins - 1 ==> v < Edge(sc, b + 1))
  }

  lemma {:induction false} EdgesGrow(sc: Scale, i: nat, j: nat)
    requires InUse(sc) && i <= j
    ensures 1 <= Edge(sc, i) <= Edge(sc, j)
    ensures i < j ==> Edge(sc, i) < Edge(sc, j)
    decreases j
  {
    if i < j {
      EdgesGrow(sc, i, j - 1);
    } else if i > 0 {
      EdgesGrow(sc, i - 1, j - 1);
    }
  }

  /** A larger value is never in a smaller bin; in particular bins do not overlap. */
  lemma {:induction false} BinsAreOrdered(sc: Scale, x: nat, y: nat, i: nat, j: nat)
    requires InUse(sc) && InBin(sc, x, i) && InBin(sc, y, j) && x <= y
    ensures i <= j
  {
    if j < i {
      EdgesGrow(sc, j + 1, i);
    }
  }

  lemma {:induction false} EdgesMultiply(i: nat, j: nat)
    ensures Edge(LOG2, i + j) == Edge(LOG2, i) * Edge(LOG2, j)
  {
    if j > 0 {
      EdgesMultiply(i, j - 1);
    }
  }

  lemma {:induction false} Base4FromLog2(i: nat)
    ensures Edge(BASE4, i) == 256 * Edge(LOG2, 2 * i)
  {
    if i > 0 {
      Base4FromLog2(i - 1);
      assert Edge(LOG2, 2 * i) == Edge(LOG2, 2 * i - 1) * 2;
      assert Edge(LOG2, 2 * i - 1) == Edge(LOG2, 2 * i - 2) * 2;
    }
  }

  lemma {:induction false} LargeEdges()
    ensures Edge(LOG2, 64) == U64 && Edge(LOG2, 63) == 0x8000_0000_0000_0000
    ensures Edge(BASE4, 30) == 16 * U64 && Edge(BASE4, 12) == U32
  {
    assert Edge(LOG2, 4) == 16 by { assert Edge(LOG2, 2) == 4; assert Edge(LOG2, 3) == 8; }
    EdgesMultiply(4, 4);
    EdgesMultiply(8, 8);
    EdgesMultiply(16, 16);
    EdgesMultiply(32, 32);
    EdgesMultiply(16, 8);
    EdgesMultiply(60, 4);
    Base4FromLog2(30);
    Base4FromLog2(12);
  }

  // ---- the bin loops ----

  /** A right shift of the quotient goes with one more factor in the divisor. */
  lemma {:induction false} ShiftKeepsQuotient(v: nat, f: nat, e: nat, x: nat)
    requires (f == 2 || f == 4) && v * e <= x < (v + 1) * e
    ensures (v / f) * (e * f) <= x < (v / f + 1) * (e * f)
  {
    var w := v / f;
    MulMono(f * w, v, e);
    MulMono(v + 1, f * (w + 1), e);
    if f == 2 {
      assert w * (e * 2) == (2 * w) * e && (w + 1) * (e * 2) == (2 * (w + 1)) * e;
    } else {
      assert w * (e * 4) == (4 * w) * e && (w + 1) * (e * 4) == (4 * (w + 1)) * e;
    }
  }

  /** Thirty shifts are enough for any 64-bit value. */
  method Base4Bin(ns: nat) returns (bin: nat)
    requires ns < U64
    ensures InBin(BASE4, ns, bin)
  {
    if ns < 256 { return 0; }
    var v := ns / 256;
    var b := 0;
    for i := 0 to 30
      invariant b == i && v * Edge(BASE4, b) <= ns < (v + 1) * Edge(BASE4, b)
      invariant v >= 1
    {
      if v < 4 { break; }
      ShiftKeepsQuotient(v, 4, Edge(BASE4, b), ns);
      v := v / 4;
      b := b + 1;
    }
    LargeEdges();
    Landed(BASE4, ns, v, b);
    return Min(b, 12);
  }

  /** Sixty-three shifts are enough for any 64-bit value. */
  method Log2lBin(value: nat) returns (bin: nat)
    requires value < U64
    ensures InBin(LOG2, value, bin)
  {
    var v := value;
    if v < 2 { return 0; }
    var b := 0;
    for i := 0 to 63
      invariant b == i && v * Edge(LOG2, b) <= value < (v + 1) * Edge(LOG2, b)
      invariant v >= 1
    {
      if v < 2 { break; }
      ShiftKeepsQuotient(v, 2, Edge(LOG2, b), value);
      v := v / 2;
      b := b + 1;
    }
    LargeEdges();
    Landed(LOG2, value, v, b);
    return Min(b, 63);
  }

  lemma {:induction false} Landed(sc: Scale, x: nat, v: nat, b: nat)
    requires InUse(sc) && 1 <= v && v * Edge(sc, b) <= x < (v + 1) * Edge(sc, b)
    ensures Edge(sc, b) <= x
    ensures v < sc.factor ==> x < Edge(sc, b + 1)
    ensures b >= sc.bins - 1 ==> Edge(sc, sc.bins - 1) <= x
  {
    var e := Edge(sc, b);
    assert v * e == e + (v - 1) * e && (v - 1) * e >= 0;
    if v < sc.factor {
      assert e * sc.factor == (v + 1) * e + (sc.factor - 1 - v) * e && (sc.factor - 1 - v) * e >= 0;
    }
    if b >= sc.bins - 1 { EdgesGrow(sc, sc.bins - 1, b); }
  }

  // ---- histograms of samples ----

  method BinOf(sc: Scale, v: nat) returns (b: nat)
    requires InUse(sc) && v < U64
    ensures InBin(sc, v, b)
  {
    if sc == BASE4 { b := Base4Bin(v); } else { b := Log2lBin(v); }
  }

  ghost predicate Samples(xs: seq<nat>) {
    forall i :: 0 <= i < |xs| ==> xs[i] < U64
  }

  /** How many samples belong in bin `b`. */
  ghost function Count(sc: Scale, xs: seq<nat>, b: nat): nat {
    if xs == [] then 0
    else Count(sc, xs[..|xs| - 1], b) + if InBin(sc, xs[|xs| - 1], b) then 1 else 0
  }

  /** The histogram a run of `add_hist` calls builds; its counters are 32 bits wide. */
  method Record(sc: Scale, xs: seq<nat>) returns (hist: seq<nat>)
    requires InUse(sc) && Samples(xs) && |xs| < U32
    ensures |hist| == sc.bins
    ensures forall b :: 0 <= b < sc.bins ==> hist[b] == Count(sc, xs, b)
  {
    hist := seq(sc.bins, _ => 0);
    for n := 0 to |xs|
      invariant |hist| == sc.bins
      invariant forall b :: 0 <= b < sc.bins ==> hist[b] == Count(sc, xs[..n], b) <= n
    {
      var b := BinOf(sc, xs[n]);
      hist := hist[b := (hist[b] + 1) % U32];
      assert xs[..n + 1][..n] == xs[..n];
      forall c | 0 <= c < sc.bins
        ensures InBin(sc, xs[n], c) <==> c == b
      {
        if InBin(sc, xs[n], c) {
          BinsAreOrdered(sc, xs[n], xs[n], b, c);
          BinsAreOrdered(sc, xs[n], xs[n], c, b);
        }
      }
    }
    assert xs[..|xs|] == xs;
  }

  function SumTo(hist: seq<nat>, i: nat): nat
    requires i <= |hist|
  {
    if i == 0 then 0 else SumTo(hist, i - 1) + hist[i - 1]
  }

  // ---- the percentile ----

  /** The rank a percentile asks for: that part of the total, rounded down, but one at least. */
  function Rank(total: nat, q: real): (rank: nat)
    requires 0.0 <= q
    ensures rank >= 1 && total as real * q < (rank + 1) as real
    ensures rank > 1 ==> rank as real <= total as real * q
  {
    var target := (total as real * q).Floor;
    if target <= 0 then 1 else target
  }

  /** Bin `i` is where the running sum first reaches `rank`. */
  predicate Reaches(hist: seq<nat>, rank: nat, i: nat) {
    i < |hist| && SumTo(hist, i) < rank <= SumTo(hist, i + 1)
  }

  lemma {:induction false} RankInRange(total: nat, q: real)
    requires 0.0 <= q <= 1.0 && total >= 1
    ensures 1 <= Rank(total, q) <= total
  {
    assert total as real * q <= total as real by {
      assert total as real * (1.0 - q) >= 0.0;
    }
  }

  /** PercentileUs; `bin` is history. For a non-empty histogram the loop never falls through. */
  method PercentileUs(hist: seq<nat>, sc: Scale, q: real) returns (us: real, ghost bin: nat)
    requires InUse(sc) && |hist| == sc.bins && 0.0 <= q <= 1.0
    ensures SumTo(hist, sc.bins) == 0 ==> us == 0.0
    ensures SumTo(hist, sc.bins) > 0 ==>
              && Reaches(hist, Rank(SumTo(hist, sc.bins), q), bin)
              && us == Edge(sc, bin) as real / 1000.0
  {
    bin := 0;
    var total := 0;
    for i := 0 to sc.bins
      invariant total == SumTo(hist, i)
    {
      total := total + hist[i];
    }
    if total == 0 { return 0.0, 0; }
    var target := (total as real * q).Floor;
    if target == 0 { target := 1; }
    RankInRange(total, q);
    var acc := 0;
    assert target == Rank(total, q) >= 1;
    for i := 0 to sc.bins
      invariant acc == SumTo(hist, i) < target
    {
      acc := acc + hist[i];
      if acc >= target {
        var lo := LowerEdge(sc, i);
        return lo as real / 1000.0, i;
      }
    }
    us := 0.0;
  }

  /** The inner loop. The edge never leaves 64 bits. */
  method LowerEdge(sc: Scale, i: nat) returns (lo: nat)
    requires InUse(sc) && i < sc.bins
    ensures lo == Edge(sc, i) < U64
  {
    lo := sc.base;
    LargeEdges();
    EdgesGrow(sc, i, sc.bins - 1);
    for k := 0 to i
      invariant lo == Edge(sc, k) < U64
    {
      EdgesGrow(sc, k + 1, i);
      lo := (lo * sc.factor) % U64;
    }
  }

  // ---- what the percentile means for the samples ----

  ghost function CountBelow(xs: seq<nat>, v: nat): nat {
    if xs == [] then 0 else CountBelow(xs[..|xs| - 1], v) + if xs[|xs| - 1] < v then 1 else 0
  }

  /** `x` is the `rank`-th smallest sample: fewer than `rank` samples are below it, and at least
      `rank` are not above it. */
  ghost predicate IsRanked(xs: seq<nat>, rank: nat, x: nat) {
    x in xs && CountBelow(xs, x) < rank <= CountBelow(xs, x + 1)
  }

  lemma {:induction false} CountAll(xs: seq<nat>, v: nat)
    requires forall i :: 0 <= i < |xs| ==> xs[i] < v
    ensures CountBelow(xs, v) == |xs|
  {
    if xs != [] {
      CountAll(xs[..|xs| - 1], v);
    }
  }

  lemma {:induction false} CountStep(xs: seq<nat>, v: nat)
    ensures CountBelow(xs, v) <= CountBelow(xs, v + 1)
    ensures CountBelow(xs, v) < CountBelow(xs, v + 1) ==> v in xs
  {
    if xs != [] {
      CountStep(xs[..|xs| - 1], v);
    }
  }

  /** Every rank has its sample. */
  lemma {:induction false} RankedExists(xs: seq<nat>, rank: nat, high: nat) returns (x: nat)
    requires 1 <= rank <= CountBelow(xs, high)
    ensures IsRanked(xs, rank, x)
  {
    CountNone(xs);
    if CountBelow(xs, high - 1) < rank {
      CountStep(xs, high - 1);
      x := high - 1;
    } else {
      x := RankedExists(xs, rank, high - 1);
    }
  }

  lemma {:induction false} CountNone(xs: seq<nat>)
    ensures CountBelow(xs, 0) == 0
  {
    if xs != [] {
      CountNone(xs[..|xs| - 1]);
    }
  }

  lemma {:induction false} CountMono(xs: seq<nat>, u: nat, v: nat)
    requires u <= v
    ensures CountBelow(xs, u) <= CountBelow(xs, v)
    decreases v
  {
    if u < v {
      CountMono(xs, u, v - 1);
      CountStep(xs, v - 1);
    }
  }

  lemma {:induction false} HasBin(sc: Scale, x: nat, top: nat) returns (b: nat)
    requires InUse(sc) && top < sc.bins && (top < sc.bins - 1 ==> x < Edge(sc, top + 1))
    ensures InBin(sc, x, b)
  {
    if top == 0 || Edge(sc, top) <= x {
      b := top;
    } else {
      b := HasBin(sc, x, top - 1);
    }
  }

  ghost function CountTo(sc: Scale, xs: seq<nat>, i: nat): nat {
    if i == 0 then 0 else CountTo(sc, xs, i - 1) + Count(sc, xs, i - 1)
  }

  lemma {:induction false} OneMoreSample(sc: Scale, xs: seq<nat>, i: nat, b: nat)
    requires InUse(sc) && xs != [] && InBin(sc, xs[|xs| - 1], b)
    ensures CountTo(sc, xs, i) == CountTo(sc, xs[..|xs| - 1], i) + if b < i then 1 else 0
  {
    if i > 0 {
      OneMoreSample(sc, xs, i - 1, b);
      var x := xs[|xs| - 1];
      if InBin(sc, x, i - 1) {
        BinsAreOrdered(sc, x, x, b, i - 1);
        BinsAreOrdered(sc, x, x, i - 1, b);
      }
    }
  }

  /** The bins before bin `i` hold exactly the samples below its lower edge. */
  lemma {:induction false} BinsBeforeCount(sc: Scale, xs: seq<nat>, i: nat)
    requires InUse(sc) && 1 <= i <= sc.bins
    ensures CountTo(sc, xs, i) == if i < sc.bins then CountBelow(xs, Edge(sc, i)) else |xs|
  {
    if xs == [] {
      EmptyCounts(sc, i);
    } else {
      var x := xs[|xs| - 1];
      var b := HasBin(sc, x, sc.bins - 1);
      BinsBeforeCount(sc, xs[..|xs| - 1], i);
      OneMoreSample(sc, xs, i, b);
      if b < i { EdgesGrow(sc, b + 1, i); } else { EdgesGrow(sc, i, b); }
    }
  }

  lemma {:induction false} EmptyCounts(sc: Scale, i: nat)
    ensures CountTo(sc, [], i) == 0
  {
    if i > 0 {
      EmptyCounts(sc, i - 1);
    }
  }

  lemma {:induction false} SumIsCountTo(sc: Scale, xs: seq<nat>, hist: seq<nat>, i: nat)
    requires |hist| == sc.bins && i <= sc.bins
    requires forall b :: 0 <= b < sc.bins ==> hist[b] == Count(sc, xs, b)
    ensures SumTo(hist, i) == CountTo(sc, xs, i)
  {
    if i > 0 {
      SumIsCountTo(sc, xs, hist, i - 1);
    }
  }

  lemma {:induction false} RankedSampleAbove(
      sc: Scale, xs: seq<nat>, hist: seq<nat>, rank: nat, bin: nat, x: nat)
    requires InUse(sc) && |hist| == sc.bins && IsRanked(xs, rank, x) && Reaches(hist, rank, bin) && bin > 0
    requires forall b :: 0 <= b < sc.bins ==> hist[b] == Count(sc, xs, b)
    ensures Edge(sc, bin) <= x
  {
    SumIsCountTo(sc, xs, hist, bin);
    BinsBeforeCount(sc, xs, bin);
    if x < Edge(sc, bin) { CountMono(xs, x + 1, Edge(sc, bin)); }
  }

  lemma {:induction false} RankedSampleBelow(
      sc: Scale, xs: seq<nat>, hist: seq<nat>, rank: nat, bin: nat, x: nat)
    requires InUse(sc) && |hist| == sc.bins && IsRanked(xs, rank, x) && Reaches(hist, rank, bin) && bin < sc.bins - 1
    requires forall b :: 0 <= b < sc.bins ==> hist[b] == Count(sc, xs, b)
    ensures x < Edge(sc, bin + 1)
  {
    SumIsCountTo(sc, xs, hist, bin + 1);
    BinsBeforeCount(sc, xs, bin + 1);
    if Edge(sc, bin + 1) <= x { CountMono(xs, Edge(sc, bin + 1), x); }
  }

  /** The percentile of a recorded histogram is the lower edge of the bin that holds the sample of
      the asked rank: a lower bound of that sample, short of it by less than the bin factor in every
      interior bin. */
  lemma {:induction false} PercentileBoundsTheRankedSample(
      sc: Scale, xs: seq<nat>, hist: seq<nat>, q: real, bin: nat, x: nat)
    requires InUse(sc) && |hist| == sc.bins && xs != [] && 0.0 <= q <= 1.0
    requires forall b :: 0 <= b < sc.bins ==> hist[b] == Count(sc, xs, b)
    requires Reaches(hist, Rank(SumTo(hist, sc.bins), q), bin)
    requires IsRanked(xs, Rank(|xs|, q), x)
    ensures SumTo(hist, sc.bins) == |xs|
    ensures InBin(sc, x, bin)
    ensures bin > 0 ==> Edge(sc, bin) <= x
    ensures bin < sc.bins - 1 ==> x < Edge(sc, bin) * sc.factor
  {
    SumIsCountTo(sc, xs, hist, sc.bins);
    BinsBeforeCount(sc, xs, sc.bins);
    if bin > 0 { RankedSampleAbove(sc, xs, hist, Rank(|xs|, q), bin, x); }
    if bin < sc.bins - 1 { RankedSampleBelow(sc, xs, hist, Rank(|xs|, q), bin, x); }
  }

  /** End to end: record the samples, read the percentile. */
  method RecordedPercentile(sc: Scale, xs: seq<nat>, q: real) returns (us: real)
    requires InUse(sc) && Samples(xs) && 1 <= |xs| < U32 && 0.0 <= q <= 1.0
    ensures exists x: nat :: IsRanked(xs, Rank(|xs|, q), x)
                        && (sc.base <= x ==> us * 1000.0 <= x as real)
                        && (x < Edge(sc, sc.bins - 1) ==> x as real < us * 1000.0 * sc.factor as real)
  {
    var hist := Record(sc, xs);
    ghost var bin;
    us, bin := PercentileUs(hist, sc, q);
    RankInRange(|xs|, q);
    ghost var high := U64;
    CountAll(xs, high);
    ghost var x := RankedExists(xs, Rank(|xs|, q), high);
    SumIsCountTo(sc, xs, hist, sc.bins);
    BinsBeforeCount(sc, xs, sc.bins);
    PercentileBoundsTheRankedSample(sc, xs, hist, q, bin, x);
  }
}
