/** The host side of the flight recorder: src/collect/deep_collector.cpp scans the ring for the
    window before an anomaly (ExtractPre) and drains it while DEEP is active (DrainPost).

    What a lookup returns is a parameter of the scans; `Witnessed` says when such answers are those
    of a run of the producers. */
module RingDrain {
  import opened Arith
  import opened Collections
  import opened RecorderProtocol
  import Folds
  import Grouping
  import PerCpuMerge
  import Sorting

  /** What the two lookups of one ticket's slot returned. */
  datatype Visit = Visit(a: Option<Slot>, b: Option<Slot>)

  predicate Taken(t: nat, v: Visit) {
    v.a.Some? && v.b.Some? && Accepts(t, v.a.value, v.b.value)
  }

  /** The time stamp is the first payload word of a record. */
  function TsOf(s: Slot): nat {
    if |s.pay| > 0 then s.pay[0] else 0
  }

  /** Tickets `from`, `from + 1`, ... below `to`. */
  function Span(from: nat, to: nat): seq<nat> {
    seq(if from <= to then to - from else 0, i requires i >= 0 => from + i)
  }

  lemma {:induction false} SpanSplit(a: nat, b: nat, c: nat)
    requires a <= b <= c
    ensures Span(a, c) == Span(a, b) + Span(b, c)
  {
  }

  /** Unsigned 64-bit subtraction. */
  function Minus64(a: nat, b: nat): nat
    requires b <= U64
  {
    if a >= b then a - b else a + U64 - b
  }

  ghost predicate Increasing(s: seq<nat>) {
    forall i, j :: 0 <= i < j < |s| ==> s[i] < s[j]
  }

  ghost predicate Within(s: seq<nat>, lo: int, hi: int) {
    forall i :: 0 <= i < |s| ==> lo < s[i] <= hi
  }

  lemma {:induction false} Appended(a: seq<nat>, b: seq<nat>, lo: int, mid: int, hi: int)
    requires Increasing(a) && Within(a, lo, mid) && Increasing(b) && Within(b, mid, hi) && lo <= mid <= hi
    ensures Increasing(a + b) && Within(a + b, lo, hi)
  {
  }

  /** The tickets a scan starting at `from` accepts. */
  function Tickets(from: nat, visits: seq<Visit>): seq<nat> {
    if visits == [] then []
    else
      var n := |visits| - 1;
      Tickets(from, visits[..n]) + if Taken(from + n, visits[n]) then [from + n] else []
  }

  /** The copies such a scan keeps, no older than `cutoff`. */
  function Kept(from: nat, visits: seq<Visit>, cutoff: nat): seq<Slot> {
    if visits == [] then []
    else
      var n := |visits| - 1;
      Kept(from, visits[..n], cutoff) +
      if Taken(from + n, visits[n]) && TsOf(visits[n].b.value) >= cutoff then [visits[n].b.value] else []
  }

  /** A scan accepts exactly the visited tickets whose lookups pass. */
  lemma {:induction false} TicketsAreTaken(from: nat, visits: seq<Visit>, t: nat)
    ensures t in Tickets(from, visits) <==> from <= t < from + |visits| && Taken(t, visits[t - from])
  {
    if visits != [] {
      TicketsAreTaken(from, visits[..|visits| - 1], t);
    }
  }

  /** It accepts them in ticket order, none twice. */
  lemma {:induction false} TicketsIncrease(from: nat, visits: seq<Visit>)
    ensures Increasing(Tickets(from, visits))
    ensures Within(Tickets(from, visits), from - 1, from + |visits| - 1)
  {
    if visits != [] {
      var n := |visits| - 1;
      TicketsIncrease(from, visits[..n]);
      var last := if Taken(from + n, visits[n]) then [from + n] else [];
      Appended(Tickets(from, visits[..n]), last, from - 1, from + n - 1, from + n);
    }
  }

  /** Visit `j` keeps the copy `s`. */
  predicate KeptBy(from: nat, visits: seq<Visit>, cutoff: nat, s: Slot, j: nat) {
    j < |visits| && Taken(from + j, visits[j]) && visits[j].b.value == s && TsOf(s) >= cutoff
  }

  /** The kept copies are the second copies of the accepted tickets that are young enough. */
  lemma {:induction false} KeptAreTaken(from: nat, visits: seq<Visit>, cutoff: nat, s: Slot)
    ensures s in Kept(from, visits, cutoff) <==> exists j: nat :: KeptBy(from, visits, cutoff, s, j)
  {
    if visits != [] {
      var n := |visits| - 1;
      KeptAreTaken(from, visits[..n], cutoff, s);
      if j: nat :| KeptBy(from, visits[..n], cutoff, s, j) {
        assert KeptBy(from, visits, cutoff, s, j);
      }
      if j: nat :| KeptBy(from, visits, cutoff, s, j) {
        assert j < n ==> KeptBy(from, visits[..n], cutoff, s, j);
      }
      assert s in Kept(from, visits, cutoff) <==>
             s in Kept(from, visits[..n], cutoff) || KeptBy(from, visits, cutoff, s, n);
    }
  }

  /** `copies` are the second copies of the visits `js`, in order: exactly the accepted ones whose time
      stamp is at most `preNs` before the anomaly. */
  ghost predicate Young(
      from: nat, visits: seq<Visit>, anomalyStart: nat, preNs: nat, js: seq<nat>, copies: seq<Slot>) {
    && Increasing(js) && SecondCopies(visits, js, copies)
    && forall j: nat :: j in js <==> YoungVisit(from, visits, j, anomalyStart, preNs)
  }

  ghost predicate SecondCopies(visits: seq<Visit>, js: seq<nat>, copies: seq<Slot>) {
    |copies| == |js| && forall i :: 0 <= i < |js| ==> js[i] < |visits| && visits[js[i]].b == Some(copies[i])
  }

  predicate YoungVisit(from: nat, visits: seq<Visit>, j: nat, anomalyStart: nat, preNs: nat) {
    j < |visits| && Taken(from + j, visits[j]) && TsOf(visits[j].b.value) + preNs >= anomalyStart
  }

  lemma {:induction false} KeptAreYoung(from: nat, visits: seq<Visit>, anomalyStart: nat, preNs: nat)
    returns (js: seq<nat>)
    ensures Young(from, visits, anomalyStart, preNs, js, Kept(from, visits, Cutoff(anomalyStart, preNs)))
  {
    js := [];
    if visits != [] {
      var n := |visits| - 1;
      js := KeptAreYoung(from, visits[..n], anomalyStart, preNs);
      js := OneMoreIsYoung(from, visits[..n], visits[n], anomalyStart, preNs, js,
                           Kept(from, visits[..n], Cutoff(anomalyStart, preNs)));
      assert visits[..n] + [visits[n]] == visits;
    }
  }

  lemma {:induction false} VisitsBefore(from: nat, visits: seq<Visit>, v: Visit, anomalyStart: nat, preNs: nat, j: nat)
    requires j != |visits|
    ensures YoungVisit(from, visits + [v], j, anomalyStart, preNs) <==> YoungVisit(from, visits, j, anomalyStart, preNs)
  {
  }

  lemma {:induction false} OneMoreCopy(visits: seq<Visit>, v: Visit, js: seq<nat>, copies: seq<Slot>)
    requires SecondCopies(visits, js, copies)
    ensures SecondCopies(visits + [v], js, copies)
    ensures Increasing(js) ==> Increasing(js + [|visits|])
    ensures v.b.Some? ==> SecondCopies(visits + [v], js + [|visits|], copies + [v.b.value])
  {
  }

  lemma {:induction false} OneMoreIsYoung(from: nat, visits: seq<Visit>, v: Visit, anomalyStart: nat, preNs: nat,
                                          before: seq<nat>, copies: seq<Slot>)
    returns (js: seq<nat>)
    requires Young(from, visits, anomalyStart, preNs, before, copies)
    ensures var more := if Taken(from + |visits|, v) && TsOf(v.b.value) >= Cutoff(anomalyStart, preNs)
                        then [v.b.value] else [];
            Young(from, visits + [v], anomalyStart, preNs, js, copies + more)
  {
    var n := |visits|;
    js := if YoungVisit(from, visits + [v], n, anomalyStart, preNs) then before + [n] else before;
    forall j: nat
      ensures j in js <==> YoungVisit(from, visits + [v], j, anomalyStart, preNs)
    {
      assert j in before <==> YoungVisit(from, visits, j, anomalyStart, preNs);
      if j != n { VisitsBefore(from, visits, v, anomalyStart, preNs, j); }
    }
    OneMoreCopy(visits, v, before, copies);
    assert copies + [] == copies;
  }

  /** The account of an episode: since entry the drains have visited each ticket after the head
      read then, up to the last head read, once and in order; none was emitted twice. */
  ghost predicate Account(start: nat, prev: nat, visited: seq<nat>, taken: seq<nat>) {
    && start <= prev
    && visited == Span(start + 1, prev + 1)
    && Increasing(taken)
    && Within(taken, start, prev)
  }

  lemma {:induction false} DrainExtends(
      start: nat, prev: nat, head: nat, visited: seq<nat>, taken: seq<nat>, more: seq<nat>)
    requires Account(start, prev, visited, taken) && prev <= head
    requires Increasing(more) && Within(more, prev, head)
    ensures Account(start, head, visited + Span(prev + 1, head + 1), taken + more)
  {
    Appended(taken, more, start, prev, head);
    SpanSplit(start + 1, prev + 1, head + 1);
  }

  /** The loop both scans share: two lookups per ticket, the second only when the first looks
      committed; the copy that is kept is the second. */
  method Scan(begin: nat, end: nat, visits: seq<Visit>, cutoff: nat) returns (recs: seq<Slot>)
    requires begin <= end && |visits| == end - begin
    ensures recs == Kept(begin, visits, cutoff)
  {
    recs := [];
    for i := begin to end
      invariant recs == Kept(begin, visits[..i - begin], cutoff)
    {
      var v := visits[i - begin];
      assert visits[..i + 1 - begin][..i - begin] == visits[..i - begin];
      if v.a.None? || v.a.value.tag % 2 == 1 { continue; }
      if v.b.None? { continue; }
      if v.a.value.tag != v.b.value.tag || v.a.value.tag != 2 * i { continue; }
      if TsOf(v.b.value) >= cutoff {
        recs := recs + [v.b.value];
      }
    }
    assert visits[..end - begin] == visits;
  }

  /** The recorder's mode: the timer sums over the CPUs in the kernel; otherwise each CPU commits its
      own records, and the host merges those of one tick. */
  datatype Mode = Timer | PerCpu(intervalMs: nat)

  /** How the payload words of a slot are laid out as a record. */
  type Layout = Slot -> PerCpuMerge.Rec

  function Decoded(layout: Layout, copies: seq<Slot>): seq<PerCpuMerge.Rec> {
    seq(|copies|, i requires 0 <= i < |copies| => layout(copies[i]))
  }

  /** The rows written for the records kept: in time order, the records themselves or, per CPU, one
      record for each tid and tick. */
  ghost predicate RowsOf(mode: Mode, kept: seq<PerCpuMerge.Rec>, rows: seq<PerCpuMerge.Rec>) {
    && Sorting.Sorted(rows, PerCpuMerge.Time)
    && match mode
       case Timer => multiset(rows) == multiset(kept)
       case PerCpu(ms) =>
         var key := PerCpuMerge.BucketOf(PerCpuMerge.TickNs(ms));
         Grouping.Lists(key, rows, Grouping.Groups(key, PerCpuMerge.AddSnap, kept))
  }

  /** In either mode the rows account for exactly the kept records: every counter, the DEEP flag and
      the latest time stamp. */
  lemma {:induction false} RowsConserve(mode: Mode, kept: seq<PerCpuMerge.Rec>, rows: seq<PerCpuMerge.Rec>)
    requires RowsOf(mode, kept, rows)
    ensures PerCpuMerge.Total(rows) == PerCpuMerge.Total(kept)
    ensures forall f: PerCpuMerge.Field ::
              Folds.Sum(rows, PerCpuMerge.Reading(f)) % PerCpuMerge.Width(f) ==
              Folds.Sum(kept, PerCpuMerge.Reading(f)) % PerCpuMerge.Width(f)
  {
    match mode {
      case Timer => PerCpuMerge.TotalOfPermutation(rows, kept);
      case PerCpu(ms) => PerCpuMerge.MergingConserves(PerCpuMerge.TickNs(ms), kept, rows);
    }
    forall f: PerCpuMerge.Field
      ensures Folds.Sum(rows, PerCpuMerge.Reading(f)) % PerCpuMerge.Width(f) ==
              Folds.Sum(kept, PerCpuMerge.Reading(f)) % PerCpuMerge.Width(f)
    {
      PerCpuMerge.TotalIsSum(rows, f);
      PerCpuMerge.TotalIsSum(kept, f);
    }
  }

  /** Per CPU, a row stands for the kept records of its thread in its tick. */
  lemma {:induction false} RowsAreMerged(ms: nat, kept: seq<PerCpuMerge.Rec>, rows: seq<PerCpuMerge.Rec>)
    requires RowsOf(PerCpu(ms), kept, rows)
    ensures PerCpuMerge.Merged(kept, PerCpuMerge.TickNs(ms), rows)
  {
    PerCpuMerge.ListedIsMerged(kept, PerCpuMerge.TickNs(ms), rows);
  }

  /** When records carry their slot's time stamp, no row of the window is stamped earlier, in either mode. */
  lemma {:induction false} RowsAreYoung(
      from: nat, visits: seq<Visit>, anomalyStart: nat, preNs: nat, js: seq<nat>, copies: seq<Slot>,
      mode: Mode, layout: Layout, rows: seq<PerCpuMerge.Rec>, r: PerCpuMerge.Rec)
    requires Young(from, visits, anomalyStart, preNs, js, copies) && RowsOf(mode, Decoded(layout, copies), rows)
    requires forall s :: s in copies ==> layout(s).ts == TsOf(s)
    requires r in rows
    ensures r.ts + preNs >= anomalyStart
  {
    var kept := Decoded(layout, copies);
    var i := RowHasItsStamp(mode, kept, rows, r);
    assert copies[i] in copies && YoungVisit(from, visits, js[i], anomalyStart, preNs);
  }

  lemma {:induction false} RowHasItsStamp(
      mode: Mode, kept: seq<PerCpuMerge.Rec>, rows: seq<PerCpuMerge.Rec>, r: PerCpuMerge.Rec)
    returns (i: nat)
    requires RowsOf(mode, kept, rows) && r in rows
    ensures i < |kept| && kept[i].ts == r.ts
  {
    if mode.Timer? {
      Sorting.SameMembers(rows, kept);
      i :| 0 <= i < |kept| && kept[i] == r;
    } else {
      var ns := PerCpuMerge.TickNs(mode.intervalMs);
      var j :| 0 <= j < |rows| && rows[j] == r;
      RowsAreMerged(mode.intervalMs, kept, rows);
      assert PerCpuMerge.RowOf(rows[j], kept, ns);
      i := PerCpuMerge.StampIsOneOf(r, kept, ns);
    }
  }

  method ScanRows(begin: nat, end: nat, visits: seq<Visit>, cutoff: nat, mode: Mode, layout: Layout)
    returns (rows: seq<PerCpuMerge.Rec>)
    requires begin <= end && |visits| == end - begin
    ensures RowsOf(mode, Decoded(layout, Kept(begin, visits, cutoff)), rows)
  {
    var copies := Scan(begin, end, visits, cutoff);
    var recs := Decoded(layout, copies);
    if mode.PerCpu? {
      rows := PerCpuMerge.MergePerCpu(recs, mode.intervalMs);
    } else {
      rows := Sorting.SortBy(recs, PerCpuMerge.Time);
    }
  }

  class DeepCollector {
    var prevHead: nat
    ghost var start: nat
    ghost var visited: seq<nat>
    ghost var taken: seq<nat>

    ghost predicate Valid()
      reads this
    {
      Account(start, prevHead, visited, taken)
    }

    constructor ()
      ensures Valid() && prevHead == 0
    {
      prevHead, start, visited, taken := 0, 0, [], [];
    }

    /** The part of Enter that reads the ring head before the pre-window is extracted. */
    method Enter(head: Option<nat>)
      modifies this
      ensures Valid() && visited == [] && taken == [] && start == prevHead
      ensures prevHead == if head.Some? then head.value else old(prevHead)
    {
      if head.Some? {
        prevHead := head.value;
      }
      start, visited, taken := prevHead, [], [];
    }

    method ExtractPre(anomalyStart: nat, preNs: nat, head: Option<nat>, cap: nat, visits: seq<Visit>,
                      mode: Mode, layout: Layout)
      returns (rows: seq<PerCpuMerge.Rec>, ghost js: seq<nat>)
      requires head.Some? ==> |visits| == head.value - PreStart(head.value, cap)
      ensures head.None? ==> rows == []
      ensures head.Some? ==>
                var begin := PreStart(head.value, cap);
                var copies := Kept(begin, visits, Cutoff(anomalyStart, preNs));
                && Young(begin, visits, anomalyStart, preNs, js, copies)
                && RowsOf(mode, Decoded(layout, copies), rows)
    {
      var cutoff := if anomalyStart > preNs then anomalyStart - preNs else 0;
      if head.None? {
        return [], [];
      }
      var begin := if head.value > cap then head.value - cap else 0;
      rows := ScanRows(begin, head.value, visits, cutoff, mode, layout);
      js := KeptAreYoung(begin, visits, anomalyStart, preNs);
    }

    method DrainPost(head: Option<nat>, cap: nat, visits: seq<Visit>, mode: Mode, layout: Layout)
      returns (rows: seq<PerCpuMerge.Rec>, gap: bool, ghost js: seq<nat>)
      requires Valid()
      requires head.Some? ==> prevHead <= head.value && |visits| == head.value - prevHead
      modifies this
      ensures Valid() && start == old(start)
      ensures head.None? ==> rows == [] && !gap && prevHead == old(prevHead) && taken == old(taken)
      ensures head.Some? ==>
                && prevHead == head.value
                && taken == old(taken) + Tickets(old(prevHead) + 1, visits)
                && Young(old(prevHead) + 1, visits, 0, 0, js, Kept(old(prevHead) + 1, visits, 0))
                && RowsOf(mode, Decoded(layout, Kept(old(prevHead) + 1, visits, 0)), rows)
      ensures head.Some? ==>
                && gap == Overrun(old(prevHead), head.value, cap)
                && (gap <==> head.value + 64 >= old(prevHead) + cap + if cap >= 64 then 0 else U64)
    {
      if head.None? {
        return [], false, [];
      }
      gap := head.value - prevHead >= Minus64(cap, 64);
      js := KeptAreYoung(prevHead + 1, visits, 0, 0);
      rows := DrainTo(head.value, visits, mode, layout);
    }

    /** The scan of DrainPost and its effect on `prevHead`. */
    method DrainTo(head: nat, visits: seq<Visit>, mode: Mode, layout: Layout)
      returns (rows: seq<PerCpuMerge.Rec>)
      requires Valid() && prevHead <= head && |visits| == head - prevHead
      modifies this
      ensures Valid() && start == old(start) && prevHead == head
      ensures taken == old(taken) + Tickets(old(prevHead) + 1, visits)
      ensures RowsOf(mode, Decoded(layout, Kept(old(prevHead) + 1, visits, 0)), rows)
    {
      var begin := prevHead + 1;
      rows := ScanRows(begin, head + 1, visits, 0, mode, layout);
      TicketsIncrease(begin, visits);
      ghost var more := Tickets(begin, visits);
      DrainExtends(start, prevHead, head, visited, taken, more);
      visited, taken, prevHead := visited + Span(prevHead + 1, head + 1), taken + more, head;
    }
  }

  /** The first ticket ExtractPre visits, and the oldest time stamp it keeps. */
  function PreStart(head: nat, cap: nat): (begin: nat)
    ensures begin <= head <= begin + cap
    ensures begin > 0 ==> head == begin + cap
  {
    if head > cap then head - cap else 0
  }

  function Cutoff(anomalyStart: nat, preNs: nat): nat {
    if anomalyStart > preNs then anomalyStart - preNs else 0
  }

  /** When DrainPost reports a gap; the difference wraps at 64 bits as in the source. */
  predicate Overrun(prev: nat, head: nat, cap: nat)
    requires prev <= head
  {
    head - prev >= Minus64(cap, 64)
  }

  // ---- scans against a run of the producers ----

  /** The answers `visits` are those of lookups made during a run: `loads[j]` are the two loads of
      ticket `from + j`'s slot. */
  ghost predicate Witnessed(tr: seq<Ring>, acts: seq<Action>, cap: nat, w: nat,
                            from: nat, visits: seq<Visit>, loads: seq<(Load, Load)>) {
    && |loads| == |visits|
    && forall j :: 0 <= j < |visits| ==> Answered(tr, acts, cap, w, from + j, visits[j], loads[j])
  }

  ghost predicate Answered(tr: seq<Ring>, acts: seq<Action>, cap: nat, w: nat,
                           t: nat, v: Visit, ld: (Load, Load)) {
    && TwoLoads(tr, acts, cap, w, ld.0, ld.1)
    && v == Visit(Some(Loaded(tr, cap, w, t, ld.0)), Some(Loaded(tr, cap, w, t, ld.1)))
  }

  /** One scan: the head it read, what its lookups returned, and when they were made. */
  datatype Drain = Drain(head: nat, visits: seq<Visit>, loads: seq<(Load, Load)>)

  /** A drain of the tickets from `prev + first` without a gap row, in a ring where at most 64 tickets
      are handed out between its reading of the head and its last load. */
  ghost predicate QuietDrain(tr: seq<Ring>, acts: seq<Action>, cap: nat, w: nat,
                             first: nat, prev: nat, d: Drain) {
    && Witnessed(tr, acts, cap, w, prev + first, d.visits, d.loads)
    && 64 <= cap < U64 && prev <= d.head && |d.visits| == d.head - prev && !Overrun(prev, d.head, cap)
    && forall j :: 0 <= j < |d.loads| ==> tr[d.loads[j].1.end].head <= d.head + 64
  }

  /** A ticket is accepted exactly when it had been published as its slot was first loaded, and then
      the copy that is kept is what its producer wrote. */
  ghost predicate Exact(tr: seq<Ring>, t: nat, v: Visit, ld: (Load, Load)) {
    && ld.0.tagAt < |tr|
    && (Taken(t, v) <==> Published(tr[ld.0.tagAt], t))
    && (Taken(t, v) ==> t in tr[ld.0.tagAt].log && v.b.value == Slot(2 * t, tr[ld.0.tagAt].log[t]))
  }

  /** One visit to a slot that is not reused before the visit is over. */
  lemma {:induction false} VisitIsExact(
      tr: seq<Ring>, acts: seq<Action>, cap: nat, w: nat, t: nat, v: Visit, ld: (Load, Load))
    requires Answered(tr, acts, cap, w, t, v, ld) && tr[ld.1.end].head <= t + cap
    requires t >= 1 || Published(tr[ld.0.tagAt], 0)
    ensures Exact(tr, t, v, ld)
  {
    AcceptedIffPublishedAndNotLapped(tr, acts, cap, w, t, ld.0, ld.1);
    Forward(tr, acts, cap, w, ld.1.tagAt, ld.1.end, t);
    assert AllShaped(tr, cap, w);
    if Taken(t, v) {
      Forward(tr, acts, cap, w, ld.0.tagAt, ld.1.tagAt, t);
      forall k | 0 <= k < w
        ensures !Stored(tr[ld.1.wordAt[k]], t + cap, k)
      {
        NotOverwritten(tr, acts, cap, w, t, ld.1, k);
      }
      SecondCopyIsGenuine(tr, acts, cap, w, t, ld.0, ld.1);
      RunInv(tr, acts, cap, w, ld.0.tagAt);
      assert Life(tr[ld.0.tagAt], w, t);
    }
  }

  /** In a quiet drain no visited ticket has left its slot, so a visited ticket is accepted, and with
      that emitted (TicketsAreTaken), exactly when it had been published by the time it was visited,
      and the copy that is emitted is what its producer wrote. Of ticket 0 this holds once it has
      been published. */
  lemma {:induction false} QuietDrainIsExact(tr: seq<Ring>, acts: seq<Action>, cap: nat, w: nat,
                          first: nat, prev: nat, d: Drain, j: nat)
    requires QuietDrain(tr, acts, cap, w, first, prev, d) && j < |d.visits|
    requires prev + first + j >= 1 || Published(tr[d.loads[j].0.tagAt], 0)
    ensures var t, v, ld := prev + first + j, d.visits[j], d.loads[j];
            && Answered(tr, acts, cap, w, t, v, ld) && tr[ld.1.end].head <= t + cap && Exact(tr, t, v, ld)
  {
    var t, v, ld := prev + first + j, d.visits[j], d.loads[j];
    assert Answered(tr, acts, cap, w, t, v, ld);
    NotComeRound(prev, d.head, cap, tr[ld.1.end].head, first + j);
    VisitIsExact(tr, acts, cap, w, t, v, ld);
  }

  /** Without a gap, 64 more tickets do not reach the slot of a visited one. */
  lemma {:induction false} NotComeRound(prev: nat, head: nat, cap: nat, later: nat, j: nat)
    requires 64 <= cap < U64 && prev <= head && !Overrun(prev, head, cap)
    requires later <= head + 64
    ensures later <= prev + j + cap
  {
  }

  /** The drain visits the ticket that equals the head it observed before that ticket exists: it is
      emitted only if it is both handed out and published while the scan is running. */
  lemma {:induction false} BoundaryTicketNeedsLuck(tr: seq<Ring>, acts: seq<Action>, cap: nat, w: nat,
                                prev: nat, d: Drain, headAt: nat)
    requires Run(tr, acts, cap, w) && headAt < |tr| && prev < tr[headAt].head == d.head
    requires QuietDrain(tr, acts, cap, w, 1, prev, d)
    requires forall j :: 0 <= j < |d.loads| ==> headAt <= d.loads[j].0.tagAt
    ensures var n := d.loads[d.head - prev - 1].0.tagAt;
            Taken(d.head, d.visits[d.head - prev - 1]) <==> d.head < tr[n].head && d.head !in tr[n].writers
  {
    var j := d.head - prev - 1;
    QuietDrainIsExact(tr, acts, cap, w, 1, prev, d, j);
    assert Exact(tr, d.head, d.visits[j], d.loads[j]);
  }

  // ---- a whole episode ----

  /** The drains of an episode, each from where the last one stopped: of the tickets in `(prev, head]`
      for `first == 1`, as DrainPost has it, or in `[prev, head)` for `first == 0`, as ExtractPre. */
  ghost predicate Drains(prev: nat, ds: seq<Drain>)
    decreases |ds|
  {
    ds != [] ==>
      && prev <= ds[0].head && |ds[0].loads| == |ds[0].visits| == ds[0].head - prev
      && Drains(ds[0].head, ds[1..])
  }

  /** The tickets an episode delivers. */
  ghost function EpisodeTickets(first: nat, prev: nat, ds: seq<Drain>): seq<nat>
    decreases |ds|
  {
    if ds == [] then [] else Tickets(prev + first, ds[0].visits) + EpisodeTickets(first, ds[0].head, ds[1..])
  }

  /** The copies it delivers for them. */
  ghost function EpisodeCopies(first: nat, prev: nat, ds: seq<Drain>): seq<Slot>
    decreases |ds|
  {
    if ds == [] then [] else Kept(prev + first, ds[0].visits, 0) + EpisodeCopies(first, ds[0].head, ds[1..])
  }

  ghost function LastHead(prev: nat, ds: seq<Drain>): nat
    decreases |ds|
  {
    if ds == [] then prev else LastHead(ds[0].head, ds[1..])
  }

  ghost predicate QuietEpisode(tr: seq<Ring>, acts: seq<Action>, cap: nat, w: nat,
                               first: nat, prev: nat, ds: seq<Drain>)
    ensures QuietEpisode(tr, acts, cap, w, first, prev, ds) ==> Drains(prev, ds)
    decreases |ds|
  {
    ds != [] ==>
      && QuietDrain(tr, acts, cap, w, first, prev, ds[0])
      && QuietEpisode(tr, acts, cap, w, first, ds[0].head, ds[1..])
  }

  ghost predicate Visited(first: nat, prev: nat, ds: seq<Drain>, t: nat) {
    prev + first <= t < LastHead(prev, ds) + first
  }

  /** The two loads of a visited ticket's slot. */
  ghost function VisitOf(first: nat, prev: nat, ds: seq<Drain>, t: nat): (Load, Load)
    requires Drains(prev, ds) && Visited(first, prev, ds, t)
    decreases |ds|
  {
    if t < ds[0].head + first then ds[0].loads[t - prev - first] else VisitOf(first, ds[0].head, ds[1..], t)
  }

  ghost predicate SeenBy(tr: seq<Ring>, t: nat, ld: (Load, Load)) {
    ld.0.tagAt < |tr| && Published(tr[ld.0.tagAt], t)
  }

  ghost predicate PublishedAtVisit(tr: seq<Ring>, first: nat, prev: nat, ds: seq<Drain>, t: nat)
    requires Drains(prev, ds)
  {
    Visited(first, prev, ds, t) && SeenBy(tr, t, VisitOf(first, prev, ds, t))
  }

  /** Ticket 0 is not visited before it is published. DrainPost's ranges never contain it. */
  ghost predicate ZeroIsPublished(tr: seq<Ring>, first: nat, prev: nat, ds: seq<Drain>)
    requires Drains(prev, ds)
  {
    Visited(first, prev, ds, 0) ==> PublishedAtVisit(tr, first, prev, ds, 0)
  }

  lemma {:induction false} HeadsRise(prev: nat, ds: seq<Drain>)
    requires Drains(prev, ds)
    ensures prev <= LastHead(prev, ds)
    decreases |ds|
  {
    if ds != [] { HeadsRise(ds[0].head, ds[1..]); }
  }

  /** The same for one drain. */
  ghost predicate SeenPublished(tr: seq<Ring>, from: nat, d: Drain, t: nat) {
    from <= t < from + |d.loads| && SeenBy(tr, t, d.loads[t - from])
  }

  /** The first drain's part of an episode and the rest. */
  lemma {:induction false} VisitsOfTheFirst(tr: seq<Ring>, first: nat, prev: nat, ds: seq<Drain>, t: nat)
    requires ds != [] && Drains(prev, ds)
    ensures PublishedAtVisit(tr, first, prev, ds, t) <==>
            SeenPublished(tr, prev + first, ds[0], t) || PublishedAtVisit(tr, first, ds[0].head, ds[1..], t)
    ensures ZeroIsPublished(tr, first, prev, ds) ==>
              && ZeroIsPublished(tr, first, ds[0].head, ds[1..])
              && (prev + first == 0 < ds[0].head ==> SeenPublished(tr, 0, ds[0], 0))
  {
    HeadsRise(ds[0].head, ds[1..]);
  }

  ghost predicate ExactDrain(tr: seq<Ring>, from: nat, d: Drain) {
    |d.loads| == |d.visits| && forall j :: 0 <= j < |d.visits| ==> Exact(tr, from + j, d.visits[j], d.loads[j])
  }

  lemma {:induction false} QuietDrainsAreExact(
      tr: seq<Ring>, acts: seq<Action>, cap: nat, w: nat, first: nat, prev: nat, d: Drain)
    requires QuietDrain(tr, acts, cap, w, first, prev, d)
    requires prev + first == 0 < d.head ==> SeenPublished(tr, 0, d, 0)
    ensures ExactDrain(tr, prev + first, d)
  {
    forall j | 0 <= j < |d.visits|
      ensures Exact(tr, prev + first + j, d.visits[j], d.loads[j])
    {
      QuietDrainIsExact(tr, acts, cap, w, first, prev, d, j);
    }
  }

  lemma {:induction false} DrainDeliversThePublished(tr: seq<Ring>, from: nat, d: Drain, t: nat)
    requires ExactDrain(tr, from, d)
    ensures t in Tickets(from, d.visits) <==> SeenPublished(tr, from, d, t)
  {
    TicketsAreTaken(from, d.visits, t);
    if from <= t < from + |d.visits| {
      assert Exact(tr, from + (t - from), d.visits[t - from], d.loads[t - from]);
    }
  }

  ghost predicate ExactEpisode(tr: seq<Ring>, first: nat, prev: nat, ds: seq<Drain>)
    decreases |ds|
  {
    ds != [] ==> ExactDrain(tr, prev + first, ds[0]) && ExactEpisode(tr, first, ds[0].head, ds[1..])
  }

  lemma {:induction false} QuietEpisodesAreExact(
      tr: seq<Ring>, acts: seq<Action>, cap: nat, w: nat, first: nat, prev: nat, ds: seq<Drain>)
    requires QuietEpisode(tr, acts, cap, w, first, prev, ds) && ZeroIsPublished(tr, first, prev, ds)
    ensures ExactEpisode(tr, first, prev, ds)
    decreases |ds|
  {
    if ds != [] {
      VisitsOfTheFirst(tr, first, prev, ds, 0);
      QuietDrainsAreExact(tr, acts, cap, w, first, prev, ds[0]);
      QuietEpisodesAreExact(tr, acts, cap, w, first, ds[0].head, ds[1..]);
    }
  }

  lemma {:induction false} ExactEpisodeDelivers(tr: seq<Ring>, first: nat, prev: nat, ds: seq<Drain>, t: nat)
    requires Drains(prev, ds) && ExactEpisode(tr, first, prev, ds)
    ensures t in EpisodeTickets(first, prev, ds) <==> PublishedAtVisit(tr, first, prev, ds, t)
    decreases |ds|
  {
    if ds != [] {
      VisitsOfTheFirst(tr, first, prev, ds, t);
      DrainDeliversThePublished(tr, prev + first, ds[0], t);
      ExactEpisodeDelivers(tr, first, ds[0].head, ds[1..], t);
    }
  }

  /** Over a whole episode, a ticket is delivered if and only if it is in the episode's range and had
      been published by the time of its visit, which is when its slot was first loaded; the tickets
      come in order and none twice. */
  lemma {:induction false} EpisodeDeliversThePublished(
      tr: seq<Ring>, acts: seq<Action>, cap: nat, w: nat, first: nat, prev: nat, ds: seq<Drain>, t: nat)
    requires QuietEpisode(tr, acts, cap, w, first, prev, ds) && ZeroIsPublished(tr, first, prev, ds)
    ensures Increasing(EpisodeTickets(first, prev, ds))
    ensures t in EpisodeTickets(first, prev, ds) <==> PublishedAtVisit(tr, first, prev, ds, t)
  {
    EpisodeIncreases(first, prev, ds);
    QuietEpisodesAreExact(tr, acts, cap, w, first, prev, ds);
    ExactEpisodeDelivers(tr, first, prev, ds, t);
  }

  lemma {:induction false} EpisodeIncreases(first: nat, prev: nat, ds: seq<Drain>)
    requires Drains(prev, ds)
    ensures Increasing(EpisodeTickets(first, prev, ds))
    ensures Within(EpisodeTickets(first, prev, ds), prev + first - 1, LastHead(prev, ds) + first - 1)
    decreases |ds|
  {
    if ds != [] {
      var h := ds[0].head;
      HeadsRise(h, ds[1..]);
      TicketsIncrease(prev + first, ds[0].visits);
      EpisodeIncreases(first, h, ds[1..]);
      Appended(Tickets(prev + first, ds[0].visits), EpisodeTickets(first, h, ds[1..]),
               prev + first - 1, h + first - 1, LastHead(prev, ds) + first - 1);
    }
  }

  /** `copies` are, in the order of `tickets`, what the producers wrote under them. */
  ghost predicate Records(r: Ring, tickets: seq<nat>, copies: seq<Slot>) {
    && |copies| == |tickets|
    && forall i :: 0 <= i < |tickets| ==>
                     tickets[i] in r.log && copies[i] == Slot(2 * tickets[i], r.log[tickets[i]])
  }

  lemma {:induction false} KeptAreRecords(r: Ring, from: nat, visits: seq<Visit>)
    requires forall j :: 0 <= j < |visits| && Taken(from + j, visits[j]) ==>
                           from + j in r.log && visits[j].b.value == Slot(2 * (from + j), r.log[from + j])
    ensures Records(r, Tickets(from, visits), Kept(from, visits, 0))
  {
    if visits != [] {
      KeptAreRecords(r, from, visits[..|visits| - 1]);
    }
  }

  lemma {:induction false} RecordsAppend(r: Ring, ts: seq<nat>, cs: seq<Slot>, us: seq<nat>, ds: seq<Slot>)
    requires Records(r, ts, cs) && Records(r, us, ds)
    ensures Records(r, ts + us, cs + ds)
  {
  }

  lemma {:induction false} ExactEpisodeDeliversRecords(
      tr: seq<Ring>, acts: seq<Action>, cap: nat, w: nat, first: nat, prev: nat, ds: seq<Drain>)
    requires Run(tr, acts, cap, w) && Disciplined(tr) && Drains(prev, ds) && ExactEpisode(tr, first, prev, ds)
    ensures Records(tr[|acts|], EpisodeTickets(first, prev, ds), EpisodeCopies(first, prev, ds))
    decreases |ds|
  {
    if ds != [] {
      ExactEpisodeDeliversRecords(tr, acts, cap, w, first, ds[0].head, ds[1..]);
      DrainDeliversTheirRecords(tr, acts, cap, w, prev + first, ds[0]);
      RecordsAppend(tr[|acts|], Tickets(prev + first, ds[0].visits), Kept(prev + first, ds[0].visits, 0),
                    EpisodeTickets(first, ds[0].head, ds[1..]), EpisodeCopies(first, ds[0].head, ds[1..]));
    }
  }

  /** And the copies an episode delivers are, in the order of its tickets, what the producers wrote. */
  lemma {:induction false} EpisodeDeliversTheirRecords(
      tr: seq<Ring>, acts: seq<Action>, cap: nat, w: nat, first: nat, prev: nat, ds: seq<Drain>)
    requires Run(tr, acts, cap, w) && Disciplined(tr)
    requires QuietEpisode(tr, acts, cap, w, first, prev, ds) && ZeroIsPublished(tr, first, prev, ds)
    ensures Records(tr[|acts|], EpisodeTickets(first, prev, ds), EpisodeCopies(first, prev, ds))
  {
    QuietEpisodesAreExact(tr, acts, cap, w, first, prev, ds);
    ExactEpisodeDeliversRecords(tr, acts, cap, w, first, prev, ds);
  }

  lemma {:induction false} DrainDeliversTheirRecords(
      tr: seq<Ring>, acts: seq<Action>, cap: nat, w: nat, from: nat, d: Drain)
    requires Run(tr, acts, cap, w) && Disciplined(tr) && ExactDrain(tr, from, d)
    ensures Records(tr[|acts|], Tickets(from, d.visits), Kept(from, d.visits, 0))
  {
    forall j | 0 <= j < |d.visits| && Taken(from + j, d.visits[j])
      ensures from + j in tr[|acts|].log
      ensures d.visits[j].b.value == Slot(2 * (from + j), tr[|acts|].log[from + j])
    {
      assert Exact(tr, from + j, d.visits[j], d.loads[j]);
      Forward(tr, acts, cap, w, d.loads[j].0.tagAt, |acts|, from + j);
    }
    KeptAreRecords(tr[|acts|], from, d.visits);
  }

  lemma {:induction false} SpanHas(from: nat, to: nat, t: nat)
    ensures t in Span(from, to) <==> from <= t < to
  {
    if from <= t < to {
      assert Span(from, to)[t - from] == t;
    }
  }

  /** An ordered listing of a range is the range. */
  lemma {:induction false} OrderedRange(s: seq<nat>, from: nat, to: nat)
    requires Increasing(s) && from <= to && forall t: nat :: t in s <==> from <= t < to
    ensures s == Span(from, to)
  {
    if s == [] {
      assert from < to ==> from in s;
    } else {
      var n := |s| - 1;
      assert s[n] in s && to - 1 in s;
      assert s == s[..n] + [s[n]];
      forall t: nat
        ensures t in s[..n] <==> from <= t < to - 1
      {
        assert t in s <==> t in s[..n] || t == s[n];
      }
      OrderedRange(s[..n], from, to - 1);
      SpanSplit(from, to - 1, to);
    }
  }

  /** With the half-open ranges `[prev, head)`, an episode delivers each ticket from the first head to
      the last exactly once if and only if each has been published by the time of its visit. */
  lemma {:induction false} HalfOpenDeliversExactlyOnce(
      tr: seq<Ring>, acts: seq<Action>, cap: nat, w: nat, prev: nat, ds: seq<Drain>)
    requires QuietEpisode(tr, acts, cap, w, 0, prev, ds) && ZeroIsPublished(tr, 0, prev, ds)
    ensures prev <= LastHead(prev, ds)
    ensures EpisodeTickets(0, prev, ds) == Span(prev, LastHead(prev, ds)) <==>
            forall t: nat :: prev <= t < LastHead(prev, ds) ==> PublishedAtVisit(tr, 0, prev, ds, t)
  {
    HeadsRise(prev, ds);
    EpisodeIncreases(0, prev, ds);
    forall t: nat
      ensures t in EpisodeTickets(0, prev, ds) <==> PublishedAtVisit(tr, 0, prev, ds, t)
      ensures t in Span(prev, LastHead(prev, ds)) <==> prev <= t < LastHead(prev, ds)
    {
      EpisodeDeliversThePublished(tr, acts, cap, w, 0, prev, ds, t);
      SpanHas(prev, LastHead(prev, ds), t);
    }
    if forall t: nat :: prev <= t < LastHead(prev, ds) ==> PublishedAtVisit(tr, 0, prev, ds, t) {
      OrderedRange(EpisodeTickets(0, prev, ds), prev, LastHead(prev, ds));
    }
  }

  // ---- a whole episode, gaps and all ----

  /** The drains of an episode, whatever happens in the ring meanwhile. */
  ghost predicate WitnessedEpisode(tr: seq<Ring>, acts: seq<Action>, cap: nat, w: nat,
                                   first: nat, prev: nat, ds: seq<Drain>)
    ensures WitnessedEpisode(tr, acts, cap, w, first, prev, ds) ==> Drains(prev, ds)
    decreases |ds|
  {
    ds != [] ==>
      && prev <= ds[0].head && |ds[0].visits| == ds[0].head - prev
      && Witnessed(tr, acts, cap, w, prev + first, ds[0].visits, ds[0].loads)
      && WitnessedEpisode(tr, acts, cap, w, first, ds[0].head, ds[1..])
  }

  /** Published when its tag was first loaded and not lapped when it was loaded again; of ticket 0, the
      slot showed its tag both times. */
  ghost predicate Survives(tr: seq<Ring>, t: nat, ld: (Load, Load)) {
    && ld.0.tagAt < |tr| && ld.1.tagAt < |tr|
    && if t >= 1 then Published(tr[ld.0.tagAt], t) && !Lapped(tr[ld.1.tagAt], t)
       else Shows(tr[ld.0.tagAt], 0) && Shows(tr[ld.1.tagAt], 0)
  }

  ghost predicate SurvivesItsVisit(tr: seq<Ring>, first: nat, prev: nat, ds: seq<Drain>, t: nat)
    requires Drains(prev, ds)
  {
    Visited(first, prev, ds, t) && Survives(tr, t, VisitOf(first, prev, ds, t))
  }

  lemma {:induction false} TakenIffItSurvives(
      tr: seq<Ring>, acts: seq<Action>, cap: nat, w: nat, t: nat, v: Visit, ld: (Load, Load))
    requires Answered(tr, acts, cap, w, t, v, ld)
    ensures Taken(t, v) <==> Survives(tr, t, ld)
  {
    AcceptedIffPublishedAndNotLapped(tr, acts, cap, w, t, ld.0, ld.1);
  }

  ghost predicate JudgedDrain(tr: seq<Ring>, from: nat, d: Drain) {
    && |d.loads| == |d.visits|
    && forall j :: 0 <= j < |d.visits| ==> (Taken(from + j, d.visits[j]) <==> Survives(tr, from + j, d.loads[j]))
  }

  ghost predicate JudgedEpisode(tr: seq<Ring>, first: nat, prev: nat, ds: seq<Drain>)
    decreases |ds|
  {
    ds != [] ==> JudgedDrain(tr, prev + first, ds[0]) && JudgedEpisode(tr, first, ds[0].head, ds[1..])
  }

  lemma {:induction false} WitnessedDrainIsJudged(
      tr: seq<Ring>, acts: seq<Action>, cap: nat, w: nat, from: nat, d: Drain)
    requires Witnessed(tr, acts, cap, w, from, d.visits, d.loads)
    ensures JudgedDrain(tr, from, d)
  {
    forall j | 0 <= j < |d.visits|
      ensures Taken(from + j, d.visits[j]) <==> Survives(tr, from + j, d.loads[j])
    {
      TakenIffItSurvives(tr, acts, cap, w, from + j, d.visits[j], d.loads[j]);
    }
  }

  lemma {:induction false} WitnessedEpisodeIsJudged(
      tr: seq<Ring>, acts: seq<Action>, cap: nat, w: nat, first: nat, prev: nat, ds: seq<Drain>)
    requires WitnessedEpisode(tr, acts, cap, w, first, prev, ds)
    ensures JudgedEpisode(tr, first, prev, ds)
    decreases |ds|
  {
    if ds != [] {
      WitnessedDrainIsJudged(tr, acts, cap, w, prev + first, ds[0]);
      WitnessedEpisodeIsJudged(tr, acts, cap, w, first, ds[0].head, ds[1..]);
    }
  }

  lemma {:induction false} DrainDeliversTheSurvivors(tr: seq<Ring>, from: nat, d: Drain, t: nat)
    requires JudgedDrain(tr, from, d)
    ensures t in Tickets(from, d.visits) <==>
            from <= t < from + |d.loads| && Survives(tr, t, d.loads[t - from])
  {
    TicketsAreTaken(from, d.visits, t);
    if from <= t < from + |d.visits| {
      assert Taken(from + (t - from), d.visits[t - from]) <==> Survives(tr, from + (t - from), d.loads[t - from]);
    }
  }

  lemma {:induction false} JudgedEpisodeDelivers(tr: seq<Ring>, first: nat, prev: nat, ds: seq<Drain>, t: nat)
    requires Drains(prev, ds) && JudgedEpisode(tr, first, prev, ds)
    ensures t in EpisodeTickets(first, prev, ds) <==> SurvivesItsVisit(tr, first, prev, ds, t)
    decreases |ds|
  {
    if ds != [] {
      DrainDeliversTheSurvivors(tr, prev + first, ds[0], t);
      SurvivorsOfTheFirst(tr, first, prev, ds, t);
      JudgedEpisodeDelivers(tr, first, ds[0].head, ds[1..], t);
    }
  }

  lemma {:induction false} SurvivorsOfTheFirst(tr: seq<Ring>, first: nat, prev: nat, ds: seq<Drain>, t: nat)
    requires ds != [] && Drains(prev, ds)
    ensures SurvivesItsVisit(tr, first, prev, ds, t) <==>
            || (prev + first <= t < prev + first + |ds[0].loads| && Survives(tr, t, ds[0].loads[t - prev - first]))
            || SurvivesItsVisit(tr, first, ds[0].head, ds[1..], t)
  {
    HeadsRise(ds[0].head, ds[1..]);
  }

  /** However often the ring laps the drains, a ticket is delivered if and only if it is in the episode's
      range, its producer had published it when its slot was first loaded, and no successor had marked
      the slot when it was loaded again; in order and none twice. */
  lemma {:induction false} EpisodeDeliversTheSurvivors(
      tr: seq<Ring>, acts: seq<Action>, cap: nat, w: nat, first: nat, prev: nat, ds: seq<Drain>, t: nat)
    requires WitnessedEpisode(tr, acts, cap, w, first, prev, ds)
    ensures Increasing(EpisodeTickets(first, prev, ds))
    ensures t in EpisodeTickets(first, prev, ds) <==> SurvivesItsVisit(tr, first, prev, ds, t)
  {
    EpisodeIncreases(first, prev, ds);
    WitnessedEpisodeIsJudged(tr, acts, cap, w, first, prev, ds);
    JudgedEpisodeDelivers(tr, first, prev, ds, t);
  }

  // ---- the heads observed ----

  /** The heads the drains of an episode observed. */
  ghost function Boundary(ds: seq<Drain>): set<nat> {
    if ds == [] then {} else {ds[0].head} + Boundary(ds[1..])
  }

  /** No ticket is handed out between a drain's reading of the head and its first loads. */
  ghost predicate StillScans(tr: seq<Ring>, ds: seq<Drain>) {
    forall i, j :: 0 <= i < |ds| && 0 <= j < |ds[i].loads| ==>
                     ds[i].loads[j].0.tagAt < |tr| && tr[ds[i].loads[j].0.tagAt].head <= ds[i].head
  }

  lemma {:induction false} BoundaryAbove(prev: nat, ds: seq<Drain>)
    requires Drains(prev, ds)
    ensures forall t :: t in Boundary(ds) ==> prev <= t <= LastHead(prev, ds)
    ensures prev <= LastHead(prev, ds)
    ensures ds != [] ==> LastHead(prev, ds) in Boundary(ds)
    decreases |ds|
  {
    if ds != [] {
      BoundaryAbove(ds[0].head, ds[1..]);
    }
  }

  /** A head that a drain observed is visited before it is handed out. */
  lemma {:induction false} HeadsAreVisitedTooSoon(tr: seq<Ring>, prev: nat, ds: seq<Drain>, t: nat)
    requires Drains(prev, ds) && StillScans(tr, ds) && t in Boundary(ds)
    ensures !PublishedAtVisit(tr, 1, prev, ds, t)
    decreases |ds|
  {
    BoundaryAbove(ds[0].head, ds[1..]);
    if t > ds[0].head {
      assert forall i :: 0 <= i < |ds[1..]| ==> ds[1..][i] == ds[i + 1];
      HeadsAreVisitedTooSoon(tr, ds[0].head, ds[1..], t);
    }
  }

  /** The ranges `(prev, head]` of DrainPost: when no ticket is handed out while a drain is scanning,
      every head it observed is lost, whenever it is published; if the other tickets are published
      by their visits, exactly those heads are. */
  lemma {:induction false} DrainPostLosesTheObservedHeads(
      tr: seq<Ring>, acts: seq<Action>, cap: nat, w: nat, prev: nat, ds: seq<Drain>, t: nat)
    requires QuietEpisode(tr, acts, cap, w, 1, prev, ds) && StillScans(tr, ds)
    ensures t in Boundary(ds) ==> t !in EpisodeTickets(1, prev, ds)
    ensures prev < t < LastHead(prev, ds) && t !in Boundary(ds) ==>
              (t in EpisodeTickets(1, prev, ds) <==> PublishedAtVisit(tr, 1, prev, ds, t))
    ensures t in EpisodeTickets(1, prev, ds) ==> prev < t < LastHead(prev, ds)
  {
    EpisodeDeliversThePublished(tr, acts, cap, w, 1, prev, ds, t);
    BoundaryAbove(prev, ds);
    if t in Boundary(ds) {
      HeadsAreVisitedTooSoon(tr, prev, ds, t);
    }
  }

  /** Such a loss: ticket 1 is handed out after the first of two drains and published before the
      second, which finds it still in the ring's only slot and does not visit it. */
  lemma {:induction false} TicketIsLost()
    returns (tr: seq<Ring>, acts: seq<Action>, ds: seq<Drain>)
    ensures Run(tr, acts, 1, 1) && Drains(0, ds) && |ds| == 2
    ensures Witnessed(tr, acts, 1, 1, 1, ds[0].visits, ds[0].loads)
    ensures Witnessed(tr, acts, 1, 1, 2, ds[1].visits, ds[1].loads)
    ensures |tr| == 9 && ds[0].head == tr[4].head && ds[1].head == tr[8].head == 2
    ensures |ds[0].loads| == |ds[1].loads| == 1 && ds[0].loads[0].0.tagAt == 4 && ds[1].loads[0].0.tagAt == 8
    ensures Published(tr[8], 1) && !Lapped(tr[8], 1) && tr[8].slots == [Slot(2, [6])]
    ensures EpisodeTickets(1, 0, ds) == []
  {
    tr, acts := CommitAlone([Fresh(1, 1)], [], 5);
    var before := tr[4];
    tr, acts := CommitAlone(tr, acts, 6);
    assert tr[4] == before;
    var early, late := Load(4, [4], 4), Load(8, [8], 8);
    var v1 := Visit(Some(Loaded(tr, 1, 1, 1, early)), Some(Loaded(tr, 1, 1, 1, early)));
    var v2 := Visit(Some(Loaded(tr, 1, 1, 2, late)), Some(Loaded(tr, 1, 1, 2, late)));
    var d1, d2 := Drain(1, [v1], [(early, early)]), Drain(2, [v2], [(late, late)]);
    ds := [d1, d2];
    assert ds[1..] == [d2] && ds[1..][1..] == [];
    assert Tickets(1, []) == [] && Tickets(2, []) == [];
    assert Tickets(1, [v1]) == [] && Tickets(2, [v2]) == [];
    assert EpisodeTickets(1, 1, [d2]) == [];
    assert Answered(tr, acts, 1, 1, 1, v1, d1.loads[0]) && Answered(tr, acts, 1, 1, 2, v2, d2.loads[0]);
  }

  // ---- the window before the anomaly and the first drain after it ----

  /** The ticket had been published when visit `j` first loaded its slot. */
  ghost predicate PublishedWhenLoaded(tr: seq<Ring>, loads: seq<(Load, Load)>, j: int, t: nat) {
    0 <= j < |loads| && loads[j].0.tagAt < |tr| && Published(tr[loads[j].0.tagAt], t)
  }

  /** Enter reads the head, and ExtractPre reads it again. Both the window before the anomaly and the
      first drain deliver a ticket exactly when it was handed out between the two readings, except
      the very first of these, and was published when the former visited it. */
  lemma {:induction false} DeliveredTwice(tr: seq<Ring>, acts: seq<Action>, cap: nat, w: nat,
                       entry: nat, begin: nat, pre: Drain, post: Drain, t: nat)
    requires entry <= pre.head <= post.head && QuietDrain(tr, acts, cap, w, 1, entry, post)
    requires begin == PreStart(pre.head, cap) && |pre.visits| == pre.head - begin
    requires Witnessed(tr, acts, cap, w, begin, pre.visits, pre.loads)
    requires forall i, j :: 0 <= i < |pre.loads| && 0 <= j < |post.loads| ==>
                              pre.loads[i].1.end <= post.loads[j].0.tagAt
    ensures begin <= entry
    ensures t in Tickets(begin, pre.visits) && t in Tickets(entry + 1, post.visits) <==>
            entry < t < pre.head && PublishedWhenLoaded(tr, pre.loads, t - begin, t)
  {
    PreWindowReachesBack(pre.head, cap, entry, post.head);
    var seen := false;
    if entry < t < pre.head {
      BothVisitsAgree(tr, acts, cap, w, entry, begin, pre, post, t);
      seen := Published(tr[pre.loads[t - begin].0.tagAt], t);
    }
    BothTake(begin, pre.visits, entry, post.visits, t, seen);
  }

  lemma {:induction false} PreWindowReachesBack(head: nat, cap: nat, entry: nat, last: nat)
    requires 64 <= cap < U64 && entry <= head <= last && !Overrun(entry, last, cap)
    ensures PreStart(head, cap) <= entry
  {
  }

  lemma {:induction false} BothTake(
      begin: nat, pre: seq<Visit>, entry: nat, post: seq<Visit>, t: nat, seen: bool)
    requires begin <= entry && begin + |pre| <= entry + 1 + |post|
    requires entry < t < begin + |pre| ==>
               (Taken(t, pre[t - begin]) <==> seen) && (seen ==> Taken(t, post[t - entry - 1]))
    ensures t in Tickets(begin, pre) && t in Tickets(entry + 1, post) <==> entry < t < begin + |pre| && seen
  {
    TicketsAreTaken(begin, pre, t);
    TicketsAreTaken(entry + 1, post, t);
  }

  lemma {:induction false} BothVisitsAgree(tr: seq<Ring>, acts: seq<Action>, cap: nat, w: nat,
                       entry: nat, begin: nat, pre: Drain, post: Drain, t: nat)
    requires QuietDrain(tr, acts, cap, w, 1, entry, post) && begin <= entry < t < pre.head <= post.head
    requires |pre.visits| == pre.head - begin && Witnessed(tr, acts, cap, w, begin, pre.visits, pre.loads)
    requires pre.loads[t - begin].1.end <= post.loads[t - entry - 1].0.tagAt
    ensures var i := t - begin;
            var n := pre.loads[i].0.tagAt;
            && n < |tr|
            && (Taken(t, pre.visits[i]) <==> Published(tr[n], t))
            && (Published(tr[n], t) ==> Taken(t, post.visits[t - entry - 1]))
  {
    var i, j := t - begin, t - entry - 1;
    var a, b := pre.loads[i], post.loads[j];
    assert Answered(tr, acts, cap, w, begin + i, pre.visits[i], a);
    assert Answered(tr, acts, cap, w, entry + 1 + j, post.visits[j], b);
    NotComeRound(entry, post.head, cap, tr[b.1.end].head, 1 + j);
    VisitedTwice(tr, acts, cap, w, t, pre.visits[i], a, post.visits[j], b);
  }

  lemma {:induction false} VisitedTwice(
      tr: seq<Ring>, acts: seq<Action>, cap: nat, w: nat, t: nat,
      v: Visit, a: (Load, Load), u: Visit, b: (Load, Load))
    requires Answered(tr, acts, cap, w, t, v, a) && Answered(tr, acts, cap, w, t, u, b) && t >= 1
    requires a.1.end <= b.0.tagAt && tr[b.1.end].head <= t + cap
    ensures Exact(tr, t, v, a) && Exact(tr, t, u, b)
    ensures Published(tr[a.0.tagAt], t) ==> Published(tr[b.0.tagAt], t)
  {
    Forward(tr, acts, cap, w, a.1.end, b.1.end, t);
    Forward(tr, acts, cap, w, a.0.tagAt, b.0.tagAt, t);
    VisitIsExact(tr, acts, cap, w, t, v, a);
    VisitIsExact(tr, acts, cap, w, t, u, b);
  }

  /** And the ticket equal to the head read at entry is visited by neither of them exactly when no
      ticket was handed out between the two readings. */
  lemma {:induction false} EntryTicketIsVisitedByNeither(cap: nat, entry: nat, head: nat, last: nat, t: nat)
    requires 64 <= cap < U64 && entry <= head <= last && !Overrun(entry, last, cap)
    requires PreStart(head, cap) <= t <= last
    ensures t !in Span(PreStart(head, cap), head) && t !in Span(entry + 1, last + 1) <==> t == entry == head
  {
    SpanHas(PreStart(head, cap), head, t);
    SpanHas(entry + 1, last + 1, t);
  }

  /** Such a run: two tickets are handed out between the two readings, and the second of them is delivered
      by both. */
  lemma {:induction false} TicketIsDeliveredTwice()
    returns (tr: seq<Ring>, acts: seq<Action>, pre: Drain, post: Drain)
    ensures Run(tr, acts, 1, 1) && |tr| == 9 && tr[0].head == 0 && pre.head == post.head == tr[8].head == 2
    ensures PreStart(pre.head, 1) == 1
    ensures Witnessed(tr, acts, 1, 1, 1, pre.visits, pre.loads) && Witnessed(tr, acts, 1, 1, 1, post.visits, post.loads)
    ensures 1 in Tickets(1, pre.visits) && 1 in Tickets(1, post.visits)
  {
    tr, acts := CommitAlone([Fresh(1, 1)], [], 5);
    tr, acts := CommitAlone(tr, acts, 6);
    var ld := Load(8, [8], 8);
    var v1 := Visit(Some(Loaded(tr, 1, 1, 1, ld)), Some(Loaded(tr, 1, 1, 1, ld)));
    var v2 := Visit(Some(Loaded(tr, 1, 1, 2, ld)), Some(Loaded(tr, 1, 1, 2, ld)));
    pre, post := Drain(2, [v1], [(ld, ld)]), Drain(2, [v1, v2], [(ld, ld), (ld, ld)]);
    assert Answered(tr, acts, 1, 1, 1, v1, (ld, ld)) && Answered(tr, acts, 1, 1, 2, v2, (ld, ld));
    TicketsAreTaken(1, pre.visits, 1);
    TicketsAreTaken(1, post.visits, 1);
  }
}
