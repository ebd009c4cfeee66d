/** The kernel hooks of bpf/etrace_common.h that account for CPU time, block I/O and system calls, and
    what their maps conserve over any run of events. Maps are per CPU: a key starts with the CPU.
    Counters do not wrap, maps are never full, and elements start out zeroed. */
module Accounting {
  import opened Arith
  import opened Folds
  import opened Grouping
  import opened Histogram
  import opened Tally
  import Sorting

  // ---- block I/O ----

  datatype Request = Request(insertTs: nat, issueTs: nat, dev: nat, pid: nat)

  /** A process, device or thread on a CPU. */
  datatype CpuKey = CpuKey(cpu: nat, id: nat)

  class BlockIo {
    var requests: map<nat, Request>
    var byPid: map<CpuKey, Entry<CpuKey>>
    var byDev: map<CpuKey, Entry<CpuKey>>
    ghost var pidLog: seq<Entry<CpuKey>>
    ghost var devLog: seq<Entry<CpuKey>>

    ghost predicate Valid()
      reads this
    {
      && byPid == Booked(pidLog) && byDev == Booked(devLog) && SameStats(pidLog, devLog)
      && AllBalanced(pidLog, BASE4.bins) && AllBalanced(devLog, BASE4.bins)
    }

    constructor ()
      ensures Valid() && pidLog == devLog == [] && requests == map[]
    {
      requests, byPid, byDev, pidLog, devLog := map[], map[], map[], [], [];
    }

    /** The issue time of a new request is whatever was on the stack. */
    method OnInsert(rq: nat, now: nat, dev: nat, pid: nat, garbage: nat)
      modifies this`requests
      ensures requests == old(requests)[rq := Request(now, garbage, dev, pid)]
    {
      requests := requests[rq := Request(now, garbage, dev, pid)];
    }

    method OnIssue(rq: nat, now: nat)
      modifies this`requests
      ensures requests == if rq in old(requests) then old(requests)[rq := old(requests)[rq].(issueTs := now)]
                          else old(requests)
    {
      if rq in requests {
        requests := requests[rq := requests[rq].(issueTs := now)];
      }
    }

    /** Books a completion twice, on its process and on its device, and forgets the request. */
    method OnComplete(cpu: nat, rq: nat, now: nat, bytes: nat)
      requires Valid() && now < U64
      modifies this
      ensures Valid() && requests == old(requests) - {rq}
      ensures rq !in old(requests) ==> pidLog == old(pidLog) && devLog == old(devLog)
      ensures rq in old(requests) ==>
                var e := old(requests)[rq];
                var lat := if e.issueTs != 0 && now > e.issueTs then now - e.issueTs else 0;
                && pidLog == old(pidLog) + [Entry(CpuKey(cpu, e.pid), One(BASE4, bytes, lat, 0))]
                && devLog == old(devLog) + [Entry(CpuKey(cpu, e.dev), One(BASE4, bytes, lat, 0))]
    {
      if rq !in requests {
        return;
      }
      var e := requests[rq];
      var lat := if e.issueTs != 0 && now > e.issueTs then now - e.issueTs else 0;
      byPid := Book(byPid, CpuKey(cpu, e.pid), BASE4, bytes, lat, 0, pidLog);
      byDev := Book(byDev, CpuKey(cpu, e.dev), BASE4, bytes, lat, 0, devLog);
      pidLog := pidLog + [Entry(CpuKey(cpu, e.pid), One(BASE4, bytes, lat, 0))];
      devLog := devLog + [Entry(CpuKey(cpu, e.dev), One(BASE4, bytes, lat, 0))];
      requests := requests - {rq};
    }
  }

  /** Per process and per device, block I/O adds up to the same operations, bytes, latency and bins;
      and every histogram adds up to its operations. */
  lemma {:induction false} BlockIoIsConserved(pidLog: seq<Entry<CpuKey>>, devLog: seq<Entry<CpuKey>>,
                           pids: seq<Entry<CpuKey>>, devs: seq<Entry<CpuKey>>)
    requires SameStats(pidLog, devLog) && AllBalanced(pidLog, BASE4.bins) && AllBalanced(devLog, BASE4.bins)
    requires Elements(pids, Booked(pidLog)) && Elements(devs, Booked(devLog))
    ensures Total(pids) == Total(devs)
    ensures forall q :: Sum(pids, StatReading<CpuKey>(q)) == Sum(devs, StatReading<CpuKey>(q))
    ensures forall i :: 0 <= i < |pids| ==> SumTo(pids[i].stat.hist, |pids[i].stat.hist|) == pids[i].stat.count
    ensures forall i :: 0 <= i < |devs| ==> SumTo(devs[i].stat.hist, |devs[i].stat.hist|) == devs[i].stat.count
  {
    TwoBooksAgree(pidLog, devLog, pids, devs);
    forall i | 0 <= i < |pids|
      ensures Balanced(pids[i].stat, BASE4.bins)
    {
      ElementsAreBalanced(pidLog, BASE4.bins, pids[i].key);
    }
    forall i | 0 <= i < |devs|
      ensures Balanced(devs[i].stat, BASE4.bins)
    {
      ElementsAreBalanced(devLog, BASE4.bins, devs[i].key);
    }
  }

  // ---- system calls ----

  /** A system call of a thread on a CPU. */
  datatype CallKey = CallKey(cpu: nat, tid: nat, call: nat)

  function ThreadOf(k: CallKey): CpuKey { CpuKey(k.cpu, k.tid) }

  /** The same calls, booked by thread and call and by thread alone. */
  ghost predicate SameCalls(byId: seq<Entry<CallKey>>, byTid: seq<Entry<CpuKey>>) {
    |byId| == |byTid| && forall i :: 0 <= i < |byId| ==>
      byTid[i].key == ThreadOf(byId[i].key)
      && byTid[i].stat.count == byId[i].stat.count && byTid[i].stat.lat == byId[i].stat.lat
  }

  class Syscalls {
    var latency: map<CallKey, Entry<CallKey>>
    var perThread: map<CpuKey, Entry<CpuKey>>
    var futex: map<CpuKey, Entry<CpuKey>>
    ghost var idLog: seq<Entry<CallKey>>
    ghost var tidLog: seq<Entry<CpuKey>>
    ghost var futexLog: seq<Entry<CpuKey>>

    ghost predicate Valid()
      reads this
    {
      && latency == Booked(idLog) && perThread == Booked(tidLog) && futex == Booked(futexLog)
      && SameCalls(idLog, tidLog)
      && AllBalanced(idLog, LOG2.bins) && AllBalanced(tidLog, BASE4.bins) && AllBalanced(futexLog, BASE4.bins)
    }

    constructor ()
      ensures Valid() && idLog == [] && tidLog == [] && futexLog == []
    {
      latency, perThread, futex := map[], map[], map[];
      idLog, tidLog, futexLog := [], [], [];
    }

    /** Waiting on a futex is booked apart; every other call by thread and call, and by thread. */
    method Account(cpu: nat, tid: nat, id: nat, futexWait: bool, lat: nat, failed: bool)
      requires Valid() && lat < U64
      modifies this
      ensures Valid()
      ensures futexLog == old(futexLog) + if futexWait then [Entry(CpuKey(cpu, tid), One(BASE4, 0, lat, 0))] else []
      ensures idLog == old(idLog) + if futexWait then []
                                    else [Entry(CallKey(cpu, tid, id), One(LOG2, 0, lat, if failed then 1 else 0))]
      ensures tidLog == old(tidLog) + if futexWait then [] else [Entry(CpuKey(cpu, tid), One(BASE4, 0, lat, 0))]
    {
      if futexWait {
        AccountFutex(cpu, tid, lat);
      } else {
        AccountCall(cpu, tid, id, lat, if failed then 1 else 0);
      }
    }

    method AccountFutex(cpu: nat, tid: nat, lat: nat)
      requires Valid() && lat < U64
      modifies this`futex, this`futexLog
      ensures Valid() && futexLog == old(futexLog) + [Entry(CpuKey(cpu, tid), One(BASE4, 0, lat, 0))]
    {
      futex := Book(futex, CpuKey(cpu, tid), BASE4, 0, lat, 0, futexLog);
      futexLog := futexLog + [Entry(CpuKey(cpu, tid), One(BASE4, 0, lat, 0))];
    }

    method AccountCall(cpu: nat, tid: nat, id: nat, lat: nat, errors: nat)
      requires Valid() && lat < U64
      modifies this`latency, this`perThread, this`idLog, this`tidLog
      ensures Valid()
      ensures idLog == old(idLog) + [Entry(CallKey(cpu, tid, id), One(LOG2, 0, lat, errors))]
      ensures tidLog == old(tidLog) + [Entry(CpuKey(cpu, tid), One(BASE4, 0, lat, 0))]
    {
      latency := Book(latency, CallKey(cpu, tid, id), LOG2, 0, lat, errors, idLog);
      perThread := Book(perThread, CpuKey(cpu, tid), BASE4, 0, lat, 0, tidLog);
      idLog := idLog + [Entry(CallKey(cpu, tid, id), One(LOG2, 0, lat, errors))];
      tidLog := tidLog + [Entry(CpuKey(cpu, tid), One(BASE4, 0, lat, 0))];
    }
  }

  /** Calls and time spent in them. */
  datatype Spent = Spent(calls: nat, lat: nat)

  function Also(a: Spent, b: Spent): Spent { Spent(a.calls + b.calls, a.lat + b.lat) }

  function SpentOf<K(!new)>(e: Entry<K>): Spent { Spent(e.stat.count, e.stat.lat) }

  /** The thread an element of the by-call map is about. */
  function CallerOf(e: Entry<CallKey>): CpuKey { ThreadOf(e.key) }

  lemma {:induction false} AlsoLaws()
    ensures Commutes(Also) && Associates(Also)
    ensures forall p :: Also(Spent(0, 0), p) == p && Also(p, Spent(0, 0)) == p
  {
  }

  lemma {:induction false} SpentAccumulates<K(!new)>()
    ensures Accumulates<Entry<K>, K, Spent>(KeyOf, AddEntry, SpentOf, Also, Spent(0, 0))
  {
    AlsoLaws();
    forall a: Entry<K>, b: Entry<K>
      ensures SpentOf(AddEntry(a, b)) == Also(SpentOf(a), SpentOf(b))
    {
    }
  }

  /** What the elements of the by-call map hold of one thread on one CPU. */
  function SpentInCalls(out: seq<Entry<CallKey>>, k: CpuKey): Spent {
    Fold(out, Share<Entry<CallKey>, CpuKey, Spent>(CallerOf, SpentOf, Spent(0, 0), k), Also, Spent(0, 0))
  }

  function SpentInThread(log: seq<Entry<CpuKey>>, k: CpuKey): Spent {
    Fold(log, Share<Entry<CpuKey>, CpuKey, Spent>(KeyOf, SpentOf, Spent(0, 0), k), Also, Spent(0, 0))
  }

  lemma {:induction false} SameCallsSameShare(byId: seq<Entry<CallKey>>, byTid: seq<Entry<CpuKey>>, k: CpuKey)
    requires SameCalls(byId, byTid)
    ensures SpentInCalls(byId, k) == SpentInThread(byTid, k)
  {
    var f := Share<Entry<CallKey>, CpuKey, Spent>(CallerOf, SpentOf, Spent(0, 0), k);
    var g := Share<Entry<CpuKey>, CpuKey, Spent>(KeyOf, SpentOf, Spent(0, 0), k);
    forall i | 0 <= i < |byId|
      ensures f(byId[i]) == g(byTid[i])
    {
      assert CallerOf(byId[i]) == KeyOf(byTid[i]);
      assert SpentOf(byId[i]) == SpentOf(byTid[i]);
      assert f(byId[i]) == if CallerOf(byId[i]) == k then SpentOf(byId[i]) else Spent(0, 0);
      assert g(byTid[i]) == if KeyOf(byTid[i]) == k then SpentOf(byTid[i]) else Spent(0, 0);
    }
    FoldSame(byId, byTid, f, g, Also, Spent(0, 0));
  }

  /** For every thread, the calls booked by call add up to the calls booked by thread, in number and in
      time. */
  lemma {:induction false} CallsAddUp(
      byId: seq<Entry<CallKey>>, byTid: seq<Entry<CpuKey>>, out: seq<Entry<CallKey>>, k: CpuKey)
    requires SameCalls(byId, byTid) && Elements(out, Booked(byId))
    ensures SpentInCalls(out, k) == if k in Booked(byTid) then SpentOf(Booked(byTid)[k]) else Spent(0, 0)
  {
    EntriesAccumulate<CallKey>();
    EntriesAccumulate<CpuKey>();
    SpentAccumulates<CallKey>();
    SpentAccumulates<CpuKey>();
    CoarseShare(KeyOf<CallKey>, CallerOf, AddEntry<CallKey>, SpentOf<CallKey>, Also, Spent(0, 0), byId, out, k);
    SameCallsSameShare(byId, byTid, k);
    GroupIsItsShare(KeyOf<CpuKey>, AddEntry<CpuKey>, SpentOf<CpuKey>, Also, Spent(0, 0), byTid, k);
  }

  // ---- CPU time ----

  /** A switch: when, and to which thread. */
  datatype Switch = Switch(now: nat, next: nat)

  /** How long a thread ran on a CPU, by its switches. */
  function RunTime(sw: seq<Switch>, tid: nat): nat
    requires InOrder(sw)
  {
    if |sw| < 2 then 0
    else
      var n := |sw| - 1;
      RunTime(sw[..n], tid) + if sw[n - 1].next == tid then sw[n].now - sw[n - 1].now else 0
  }

  predicate InOrder(sw: seq<Switch>) {
    && (forall i :: 0 <= i < |sw| ==> sw[i].now > 0)
    && (forall i, j :: 0 <= i < j < |sw| ==> sw[i].now <= sw[j].now)
  }

  function LastNow(sw: seq<Switch>): nat { if sw == [] then 0 else sw[|sw| - 1].now }

  function LastNext(sw: seq<Switch>): nat { if sw == [] then 0 else sw[|sw| - 1].next }

  function Value(m: map<nat, nat>, k: nat): nat { if k in m then m[k] else 0 }

  function TimeOf(m: map<CpuKey, nat>, k: CpuKey): nat { if k in m then m[k] else 0 }

  function SwitchesOn(sw: map<nat, seq<Switch>>, cpu: nat): seq<Switch> { if cpu in sw then sw[cpu] else [] }

  /** What one CPU's registers and times are, given its switches. */
  ghost predicate Clocked(sw: seq<Switch>, cur: nat, last: nat, onCpu: map<CpuKey, nat>, cpu: nat, targets: set<nat>) {
    && InOrder(sw) && cur == LastNext(sw) && last == LastNow(sw)
    && forall tid :: tid != 0 && tid in targets ==> TimeOf(onCpu, CpuKey(cpu, tid)) == RunTime(sw, tid)
  }

  ghost predicate AllClocked(switches: map<nat, seq<Switch>>, cur: map<nat, nat>, last: map<nat, nat>,
                             onCpu: map<CpuKey, nat>, targets: set<nat>) {
    && (forall cpu :: Clocked(SwitchesOn(switches, cpu), Value(cur, cpu), Value(last, cpu), onCpu, cpu, targets))
    && (forall k :: k in onCpu ==> k.id in targets && k.id != 0)
  }

  class Scheduler {
    const targets: set<nat>
    var cur: map<nat, nat>
    var last: map<nat, nat>
    var onCpu: map<CpuKey, nat>
    ghost var switches: map<nat, seq<Switch>>

    /** On every CPU, each target's time is exactly the time between the switches it ran. */
    ghost predicate Valid()
      reads this
    {
      AllClocked(switches, cur, last, onCpu, targets)
    }

    constructor (targets: set<nat>)
      ensures Valid() && this.targets == targets && switches == map[]
    {
      this.targets := targets;
      cur, last, onCpu, switches := map[], map[], map[], map[];
    }

    method OnSwitch(cpu: nat, now: nat, next: nat)
      requires Valid() && now > 0 && now >= LastNow(SwitchesOn(switches, cpu))
      modifies this
      ensures Valid()
      ensures switches == old(switches)[cpu := SwitchesOn(old(switches), cpu) + [Switch(now, next)]]
    {
      var prev, start := Value(cur, cpu), Value(last, cpu);
      assert Clocked(SwitchesOn(switches, cpu), prev, start, onCpu, cpu, targets);
      SwitchKeepsClocks(switches, cur, last, onCpu, targets, cpu, now, next);
      if prev != 0 && start != 0 && now > start && prev in targets {
        onCpu := onCpu[CpuKey(cpu, prev) := TimeOf(onCpu, CpuKey(cpu, prev)) + (now - start)];
      }
      cur := cur[cpu := next];
      last := last[cpu := now];
      switches := switches[cpu := SwitchesOn(switches, cpu) + [Switch(now, next)]];
    }
  }

  /** A switch on one CPU leaves the others alone. */
  lemma {:induction false} SwitchKeepsClocks(
      switches: map<nat, seq<Switch>>, cur: map<nat, nat>, last: map<nat, nat>,
                          onCpu: map<CpuKey, nat>, targets: set<nat>, cpu: nat, now: nat, next: nat)
    requires AllClocked(switches, cur, last, onCpu, targets)
    requires now > 0 && now >= LastNow(SwitchesOn(switches, cpu))
    ensures AllClocked(switches[cpu := SwitchesOn(switches, cpu) + [Switch(now, next)]],
                       cur[cpu := next], last[cpu := now],
                       Attributed(onCpu, cpu, Value(cur, cpu), Value(last, cpu), now, targets), targets)
  {
    var prev, start := Value(cur, cpu), Value(last, cpu);
    var onCpu' := Attributed(onCpu, cpu, prev, start, now, targets);
    var switches' := switches[cpu := SwitchesOn(switches, cpu) + [Switch(now, next)]];
    forall c
      ensures Clocked(SwitchesOn(switches', c), Value(cur[cpu := next], c), Value(last[cpu := now], c),
                      onCpu', c, targets)
    {
      assert Clocked(SwitchesOn(switches, c), Value(cur, c), Value(last, c), onCpu, c, targets);
      if c == cpu {
        SwitchIsClocked(SwitchesOn(switches, cpu), prev, start, onCpu, cpu, targets, now, next);
      }
    }
  }

  function Attributed(
      onCpu: map<CpuKey, nat>, cpu: nat, prev: nat, start: nat, now: nat, targets: set<nat>): map<CpuKey, nat> {
    if prev != 0 && start != 0 && now > start && prev in targets then
      onCpu[CpuKey(cpu, prev) := TimeOf(onCpu, CpuKey(cpu, prev)) + (now - start)]
    else onCpu
  }

  lemma {:induction false} SwitchIsClocked(
      sw: seq<Switch>, prev: nat, start: nat, onCpu: map<CpuKey, nat>, cpu: nat,
                        targets: set<nat>, now: nat, next: nat)
    requires Clocked(sw, prev, start, onCpu, cpu, targets) && now > 0 && now >= LastNow(sw)
    ensures Clocked(sw + [Switch(now, next)], next, now,
                    Attributed(onCpu, cpu, prev, start, now, targets), cpu, targets)
  {
    var more := sw + [Switch(now, next)];
    assert more[..|sw|] == sw;
    forall tid | tid != 0 && tid in targets
      ensures TimeOf(Attributed(onCpu, cpu, prev, start, now, targets), CpuKey(cpu, tid)) == RunTime(more, tid)
    {
    }
  }

  function TimeOfAll(sw: seq<Switch>, tids: seq<nat>): nat
    requires InOrder(sw)
  {
    if tids == [] then 0 else TimeOfAll(sw, tids[..|tids| - 1]) + RunTime(sw, tids[|tids| - 1])
  }

  lemma {:induction false} LaterRunTime(sw: seq<Switch>, s: Switch, tids: seq<nat>)
    requires sw != [] && InOrder(sw + [s]) && Sorting.Distinct(tids)
    ensures InOrder(sw)
    ensures TimeOfAll(sw + [s], tids) ==
            TimeOfAll(sw, tids) + if LastNext(sw) in tids then s.now - LastNow(sw) else 0
  {
    ShorterInOrder(sw, s);
    if tids != [] {
      var n := |tids| - 1;
      LaterRunTime(sw, s, tids[..n]);
      assert (sw + [s])[..|sw|] == sw;
      assert tids == tids[..n] + [tids[n]] && tids[n] !in tids[..n];
    }
  }

  lemma {:induction false} ShorterInOrder(sw: seq<Switch>, s: Switch)
    requires InOrder(sw + [s])
    ensures InOrder(sw) && (sw != [] ==> LastNow(sw) <= s.now)
  {
    forall i, j | 0 <= i < j < |sw|
      ensures sw[i].now <= sw[j].now
    {
      assert (sw + [s])[i].now <= (sw + [s])[j].now;
    }
    forall i | 0 <= i < |sw|
      ensures sw[i].now > 0 && sw[i].now <= s.now
    {
      assert (sw + [s])[i].now <= (sw + [s])[|sw|].now;
    }
  }

  /** No time is counted twice and none is lost: over all threads that ran, the times of one CPU add up
      to the time from its first switch to its last. */
  lemma {:induction false} TimeTelescopes(sw: seq<Switch>, tids: seq<nat>)
    requires InOrder(sw) && sw != [] && Sorting.Distinct(tids)
    requires forall i :: 0 <= i < |sw| - 1 ==> sw[i].next in tids
    ensures TimeOfAll(sw, tids) == LastNow(sw) - sw[0].now
  {
    var n := |sw| - 1;
    if n == 0 {
      NothingRan(sw, tids);
    } else {
      assert sw == sw[..n] + [sw[n]];
      ShorterInOrder(sw[..n], sw[n]);
      TimeTelescopes(sw[..n], tids);
      LaterRunTime(sw[..n], sw[n], tids);
    }
  }

  lemma {:induction false} NothingRan(sw: seq<Switch>, tids: seq<nat>)
    requires InOrder(sw) && |sw| == 1
    ensures TimeOfAll(sw, tids) == 0
  {
    if tids != [] {
      NothingRan(sw, tids[..|tids| - 1]);
    }
  }
}
