/** Elements of the kernel's accounting maps and what a log of increments amounts to
    (bpf/etrace_common.h). Counters do not wrap here. */
module Tally {
  import opened Arith
  import opened Folds
  import opened Grouping
  import opened Histogram

  /** The values of blk_io_t, lat_stat and sys_lat_val in one: how often, how many bytes, how long in
      all, how many failed, and a histogram of the latencies. */
  datatype Stat = Stat(count: nat, bytes: nat, lat: nat, errors: nat, hist: seq<nat>)

  /** An element of a map. */
  datatype Entry<K(!new)> = Entry(key: K, stat: Stat)

  function At(h: seq<nat>, i: nat): nat {
    if i < |h| then h[i] else 0
  }

  function AddHist(a: seq<nat>, b: seq<nat>): seq<nat> {
    seq(Max(|a|, |b|), i requires 0 <= i => At(a, i) + At(b, i))
  }

  function Plus(a: Stat, b: Stat): Stat {
    Stat(a.count + b.count, a.bytes + b.bytes, a.lat + b.lat, a.errors + b.errors, AddHist(a.hist, b.hist))
  }

  function Nothing(): Stat { Stat(0, 0, 0, 0, []) }

  function KeyOf<K(!new)>(e: Entry<K>): K { e.key }

  function StatOf<K(!new)>(e: Entry<K>): Stat { e.stat }

  function AddEntry<K(!new)>(a: Entry<K>, b: Entry<K>): Entry<K> { Entry(a.key, Plus(a.stat, b.stat)) }

  lemma {:induction false} EntriesAccumulate<K(!new)>()
    ensures Stable<Entry<K>, K>(KeyOf, AddEntry)
    ensures Accumulates<Entry<K>, K, Stat>(KeyOf, AddEntry, StatOf, Plus, Nothing())
  {
    PlusCommutes();
    PlusAssociates();
    forall p
      ensures Plus(Nothing(), p) == p && Plus(p, Nothing()) == p
    {
    }
  }

  lemma {:induction false} PlusCommutes()
    ensures Commutes(Plus)
  {
    forall a, b
      ensures Plus(a, b) == Plus(b, a)
    {
    }
  }

  lemma {:induction false} PlusAssociates()
    ensures Associates(Plus)
  {
    forall a, b, c
      ensures Plus(Plus(a, b), c) == Plus(a, Plus(b, c))
    {
      HistsAssociate(a.hist, b.hist, c.hist);
    }
  }

  lemma {:induction false} HistsAssociate(a: seq<nat>, b: seq<nat>, c: seq<nat>)
    ensures AddHist(AddHist(a, b), c) == AddHist(a, AddHist(b, c))
  {
  }

  /** The map that a log of increments leaves behind. */
  function Booked<K(!new)>(log: seq<Entry<K>>): map<K, Entry<K>> {
    Groups(KeyOf, AddEntry, log)
  }

  /** All elements of a map together. */
  function Total<K(!new)>(elements: seq<Entry<K>>): Stat {
    Fold(elements, StatOf, Plus, Nothing())
  }

  ghost predicate Elements<K(!new)>(out: seq<Entry<K>>, m: map<K, Entry<K>>) {
    Lists(KeyOf, out, m)
  }

  lemma {:induction false} BookedConserves<K(!new)>(log: seq<Entry<K>>, out: seq<Entry<K>>)
    requires Elements(out, Booked(log))
    ensures Total(out) == Total(log)
  {
    EntriesAccumulate<K>();
    GroupingConserves(KeyOf<K>, AddEntry<K>, StatOf<K>, Plus, Nothing(), log, out);
  }

  /** The same increments booked under different keys. */
  ghost predicate SameStats<K(!new), L(!new)>(a: seq<Entry<K>>, b: seq<Entry<L>>) {
    |a| == |b| && forall i :: 0 <= i < |a| ==> a[i].stat == b[i].stat
  }

  lemma {:induction false} SameStatsSameTotal<K(!new), L(!new)>(a: seq<Entry<K>>, b: seq<Entry<L>>)
    requires SameStats(a, b)
    ensures Total(a) == Total(b)
  {
    if a != [] {
      SameStatsSameTotal(a[..|a| - 1], b[..|b| - 1]);
    }
  }

  /** Two maps that book the same increments agree in total, on every counter and every bin, however
      differently they divide them up. */
  lemma {:induction false} TwoBooksAgree<K(!new), L(!new)>(
      a: seq<Entry<K>>, b: seq<Entry<L>>, outA: seq<Entry<K>>, outB: seq<Entry<L>>)
    requires SameStats(a, b) && Elements(outA, Booked(a)) && Elements(outB, Booked(b))
    ensures Total(outA) == Total(outB)
    ensures forall q :: Sum(outA, StatReading<K>(q)) == Sum(outB, StatReading<L>(q))
  {
    BookedConserves(a, outA);
    BookedConserves(b, outB);
    SameStatsSameTotal(a, b);
    forall q
      ensures Sum(outA, StatReading<K>(q)) == Sum(outB, StatReading<L>(q))
    {
      TotalAddsUp(outA, q);
      TotalAddsUp(outB, q);
    }
  }

  // ---- every histogram counts its samples ----

  ghost predicate Balanced(s: Stat, bins: nat) {
    |s.hist| == bins && SumTo(s.hist, bins) == s.count
  }

  lemma {:induction false} SumsAdd(a: seq<nat>, b: seq<nat>, i: nat)
    requires |a| == |b| && i <= |a|
    ensures SumTo(AddHist(a, b), i) == SumTo(a, i) + SumTo(b, i)
  {
    if i > 0 {
      SumsAdd(a, b, i - 1);
    }
  }

  lemma {:induction false} BalanceAdds(a: Stat, b: Stat, bins: nat)
    requires Balanced(a, bins) && Balanced(b, bins)
    ensures Balanced(Plus(a, b), bins)
  {
    SumsAdd(a.hist, b.hist, bins);
  }

  ghost predicate AllBalanced<K(!new)>(log: seq<Entry<K>>, bins: nat) {
    forall i :: 0 <= i < |log| ==> Balanced(log[i].stat, bins)
  }

  /** In every element of a map, the histogram adds up to the count. */
  lemma {:induction false} ElementsAreBalanced<K(!new)>(log: seq<Entry<K>>, bins: nat, k: K)
    requires AllBalanced(log, bins) && k in Booked(log)
    ensures Balanced(Booked(log)[k].stat, bins)
  {
    var n := |log| - 1;
    if k in Booked(log[..n]) {
      ElementsAreBalanced(log[..n], bins, k);
      if log[n].key == k {
        BalanceAdds(Booked(log[..n])[k].stat, log[n].stat, bins);
      }
    }
  }

  // ---- what an element adds up ----

  /** One event to be booked. */
  datatype Event<K(!new)> = Event(key: K, bytes: nat, lat: nat, errors: nat)

  /** The increments of some events. */
  ghost function LogOf<K(!new)>(sc: Scale, events: seq<Event<K>>): seq<Entry<K>>
    requires sc.bins >= 1
  {
    seq(|events|, i requires 0 <= i < |events| =>
      Entry(events[i].key, One(sc, events[i].bytes, events[i].lat, events[i].errors)))
  }

  datatype Quantity = Events | Bytes | Latency | Errors | Bin(b: nat)

  ghost function Reading(s: Stat, q: Quantity): nat {
    match q
    case Events => s.count
    case Bytes => s.bytes
    case Latency => s.lat
    case Errors => s.errors
    case Bin(b) => if b < |s.hist| then s.hist[b] else 0
  }

  /** What one event contributes; a bin counts the events whose latency it covers. */
  ghost function Contribution<K(!new)>(sc: Scale, e: Event<K>, q: Quantity): nat {
    match q
    case Events => 1
    case Bytes => e.bytes
    case Latency => e.lat
    case Errors => e.errors
    case Bin(b) => if InBin(sc, e.lat, b) then 1 else 0
  }

  ghost function ContributionOf<K(!new)>(sc: Scale, k: K, q: Quantity): Event<K> -> nat {
    (e: Event<K>) => if e.key == k then Contribution(sc, e, q) else 0
  }

  lemma {:induction false} PlusAddsUp(a: Stat, b: Stat, q: Quantity)
    ensures Reading(Plus(a, b), q) == Reading(a, q) + Reading(b, q)
  {
  }

  lemma {:induction false} OneIsItsEvent<K(!new)>(sc: Scale, e: Event<K>, q: Quantity)
    requires InUse(sc)
    ensures Reading(One(sc, e.bytes, e.lat, e.errors), q) == Contribution(sc, e, q)
  {
    BinFromIsBin(sc, e.lat, sc.bins - 1);
    if q.Bin? && InBin(sc, e.lat, q.b) {
      BinIsUnique(sc, e.lat, q.b);
    }
  }

  /** The element of a key holds, of every quantity and in every bin, the sum over the events of that key;
      a key has an element if and only if it has an event. */
  lemma {:induction false} ElementAddsUp<K(!new)>(sc: Scale, events: seq<Event<K>>, k: K, q: Quantity)
    requires InUse(sc)
    ensures k in Booked(LogOf(sc, events)) <==> exists i :: 0 <= i < |events| && events[i].key == k
    ensures Sum(events, ContributionOf(sc, k, q)) ==
            if k in Booked(LogOf(sc, events)) then Reading(Booked(LogOf(sc, events))[k].stat, q) else 0
  {
    if events != [] {
      var n := |events| - 1;
      ElementAddsUp(sc, events[..n], k, q);
      assert LogOf(sc, events)[..n] == LogOf(sc, events[..n]);
      OneIsItsEvent(sc, events[n], q);
      ElementGrows(Booked(LogOf(sc, events[..n])), LogOf(sc, events)[n], k, q);
      assert forall i :: 0 <= i < n ==> events[..n][i] == events[i];
    }
  }

  lemma {:induction false} ElementGrows<K(!new)>(m: map<K, Entry<K>>, e: Entry<K>, k: K, q: Quantity)
    ensures e.key == k && k in m ==> Reading(AddEntry(m[k], e).stat, q) == Reading(m[k].stat, q) + Reading(e.stat, q)
  {
    if k in m {
      PlusAddsUp(m[k].stat, e.stat, q);
    }
  }

  ghost function StatReading<K(!new)>(q: Quantity): Entry<K> -> nat {
    (e: Entry<K>) => Reading(e.stat, q)
  }

  lemma {:induction false} TotalAddsUp<K(!new)>(elements: seq<Entry<K>>, q: Quantity)
    ensures Reading(Total(elements), q) == Sum(elements, StatReading<K>(q))
  {
    if elements != [] {
      var n := |elements| - 1;
      TotalAddsUp(elements[..n], q);
      PlusAddsUp(Total(elements[..n]), elements[n].stat, q);
    }
  }

  // ---- one increment ----

  /** The bin of a value. */
  function BinFrom(sc: Scale, v: nat, top: nat): nat {
    if top == 0 || Edge(sc, top) <= v then top else BinFrom(sc, v, top - 1)
  }

  function BinIndex(sc: Scale, v: nat): nat
    requires sc.bins >= 1
  {
    BinFrom(sc, v, sc.bins - 1)
  }

  lemma {:induction false} BinFromIsBin(sc: Scale, v: nat, top: nat)
    requires top < sc.bins && (top < sc.bins - 1 ==> v < Edge(sc, top + 1))
    ensures InBin(sc, v, BinFrom(sc, v, top))
  {
    if top > 0 && v < Edge(sc, top) {
      BinFromIsBin(sc, v, top - 1);
    }
  }

  lemma {:induction false} BinIsUnique(sc: Scale, v: nat, b: nat)
    requires InUse(sc) && InBin(sc, v, b)
    ensures b == BinIndex(sc, v)
  {
    BinFromIsBin(sc, v, sc.bins - 1);
    BinsAreOrdered(sc, v, v, b, BinIndex(sc, v));
    BinsAreOrdered(sc, v, v, BinIndex(sc, v), b);
  }

  /** A histogram with a single sample. */
  function OneSample(bins: nat, b: nat): seq<nat> {
    seq(bins, i => if i == b then 1 else 0)
  }

  /** What one event adds to an element. */
  function One(sc: Scale, bytes: nat, lat: nat, errors: nat): Stat
    requires sc.bins >= 1
  {
    Stat(1, bytes, lat, errors, OneSample(sc.bins, BinIndex(sc, lat)))
  }

  lemma {:induction false} OneSampleSums(bins: nat, b: nat, i: nat)
    requires i <= bins
    ensures SumTo(OneSample(bins, b), i) == if b < i then 1 else 0
  {
    if i > 0 {
      OneSampleSums(bins, b, i - 1);
    }
  }

  lemma {:induction false} OneIsBalanced(sc: Scale, bytes: nat, lat: nat, errors: nat)
    requires InUse(sc)
    ensures Balanced(One(sc, bytes, lat, errors), sc.bins)
  {
    BinFromIsBin(sc, lat, sc.bins - 1);
    OneSampleSums(sc.bins, BinIndex(sc, lat), sc.bins);
  }

  function Zeros(bins: nat): Stat { Stat(0, 0, 0, 0, seq(bins, i => 0)) }

  /** Increases the fields of an element, one by one. */
  method Increase(before: Stat, sc: Scale, bytes: nat, lat: nat, errors: nat) returns (stat: Stat)
    requires InUse(sc) && lat < U64 && |before.hist| == sc.bins
    ensures stat == Plus(before, One(sc, bytes, lat, errors))
    ensures before == Zeros(sc.bins) ==> stat == One(sc, bytes, lat, errors)
  {
    stat := before.(count := before.count + 1);
    stat := stat.(bytes := stat.bytes + bytes);
    stat := stat.(lat := stat.lat + lat);
    stat := stat.(errors := stat.errors + errors);
    var b := BinOf(sc, lat);
    BinIsUnique(sc, lat, b);
    stat := stat.(hist := stat.hist[b := stat.hist[b] + 1]);
  }

  /** Every element is kept under its own key. */
  lemma {:induction false} OwnKey<K(!new)>(log: seq<Entry<K>>, k: K)
    requires k in Booked(log)
    ensures Booked(log)[k].key == k
  {
    EntriesAccumulate<K>();
    GroupsKeepTheirKeys(KeyOf<K>, AddEntry<K>, log);
  }

  /** Books one event: the element is created zeroed if it is missing, then increased. */
  method Book<K(!new)>(
      m: map<K, Entry<K>>, k: K, sc: Scale, bytes: nat, lat: nat, errors: nat, ghost log: seq<Entry<K>>)
    returns (out: map<K, Entry<K>>)
    requires InUse(sc) && lat < U64 && m == Booked(log) && AllBalanced(log, sc.bins)
    ensures out == Booked(log + [Entry(k, One(sc, bytes, lat, errors))])
    ensures AllBalanced(log + [Entry(k, One(sc, bytes, lat, errors))], sc.bins)
  {
    var element := if k in m then m[k] else Entry(k, Zeros(sc.bins));
    if k in m {
      ElementsAreBalanced(log, sc.bins, k);
      OwnKey(log, k);
    }
    var stat := Increase(element.stat, sc, bytes, lat, errors);
    out := m[k := Entry(k, stat)];
    OneIsBalanced(sc, bytes, lat, errors);
  }
}
