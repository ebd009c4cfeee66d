/** The flight recorder of bpf/etrace_common.h as a lock-free protocol.

    Producers take a ticket with an atomic fetch-and-add, mark the ticket's slot with an odd tag,
    store the payload word by word and publish the even tag; nothing stops a later ticket from
    overwriting the slot. A reader loads a slot twice, word by word. A run is a sequence of ring
    states, one atomic producer step apart, and every load a reader makes happens in one of these
    states: choosing the states of the loads chooses the interleaving.

    Tags are unbounded here (the source shifts a 64-bit ticket), and the capacity is any positive
    number (the source needs a power of two only to write `% cap` as a mask). */
module RecorderProtocol {
  /** One recorder slot: the sequence word and the payload words behind it. */
  datatype Slot = Slot(tag: nat, pay: seq<nat>)

  datatype Stage = Reserved | Copying(done: set<nat>)

  /** A producer between its fetch-and-add and its publishing store. */
  datatype Writer = Writer(pay: seq<nat>, stage: Stage)

  /** `log` is history: what each ticket handed out so far writes. */
  datatype Ring = Ring(head: nat, slots: seq<Slot>, writers: map<nat, Writer>, log: map<nat, seq<nat>>)

  /** The atomic producer steps. Payload words may be stored in any order. */
  datatype Action =
    | Reserve(pay: seq<nat>)
    | Mark(ticket: nat)
    | Store(ticket: nat, word: nat)
    | Publish(ticket: nat)

  /** The slot of ticket `t`: the remainder `t % cap`, see SlotIsRemainder. */
  function SlotOf(t: nat, cap: nat): (ix: nat)
    requires cap > 0
    ensures ix < cap
  {
    if t < cap then t else SlotOf(t - cap, cap)
  }

  /** `cap` slots of `w` payload words, all zero: what a fresh BPF array holds. */
  function Fresh(cap: nat, w: nat): Ring {
    Ring(0, seq(cap, _ => Slot(0, seq(w, _ => 0))), map[], map[])
  }

  predicate Shaped(r: Ring, cap: nat, w: nat) {
    cap > 0 && |r.slots| == cap && forall ix :: 0 <= ix < cap ==> |r.slots[ix].pay| == w
  }

  predicate Enabled(r: Ring, w: nat, act: Action) {
    match act
    case Reserve(pay) => |pay| == w
    case Mark(t) => t in r.writers && r.writers[t].stage.Reserved?
    case Store(t, k) =>
      && t in r.writers && r.writers[t].stage.Copying?
      && k < w && k < |r.writers[t].pay| && k !in r.writers[t].stage.done
    case Publish(t) =>
      && t in r.writers && r.writers[t].stage.Copying?
      && forall k :: 0 <= k < w ==> k in r.writers[t].stage.done
  }

  function Apply(r: Ring, w: nat, act: Action): (r': Ring)
    requires |r.slots| > 0 && Shaped(r, |r.slots|, w) && Enabled(r, w, act)
    ensures Shaped(r', |r.slots|, w)
  {
    match act
    case Reserve(pay) =>
      r.(head := r.head + 1,
         writers := r.writers[r.head := Writer(pay, Reserved)],
         log := r.log[r.head := pay])
    case Mark(t) =>
      var ix := SlotOf(t, |r.slots|);
      r.(slots := r.slots[ix := r.slots[ix].(tag := 2 * t + 1)],
         writers := r.writers[t := r.writers[t].(stage := Copying({}))])
    case Store(t, k) =>
      var ix := SlotOf(t, |r.slots|);
      r.(slots := r.slots[ix := r.slots[ix].(pay := r.slots[ix].pay[k := r.writers[t].pay[k]])],
         writers := r.writers[t := r.writers[t].(stage := Copying(r.writers[t].stage.done + {k}))])
    case Publish(t) =>
      var ix := SlotOf(t, |r.slots|);
      r.(slots := r.slots[ix := r.slots[ix].(tag := 2 * t)],
         writers := r.writers - {t})
  }

  ghost predicate AllShaped(tr: seq<Ring>, cap: nat, w: nat) {
    forall n {:trigger tr[n]} :: 0 <= n < |tr| ==> Shaped(tr[n], cap, w)
  }

  /** A run of the producers: any interleaving of their atomic steps. */
  ghost predicate Run(tr: seq<Ring>, acts: seq<Action>, cap: nat, w: nat) {
    && cap > 0
    && |tr| == |acts| + 1
    && tr[0] == Fresh(cap, w)
    && AllShaped(tr, cap, w)
    && forall n :: 0 <= n < |acts| ==> Enabled(tr[n], w, acts[n]) && tr[n + 1] == Apply(tr[n], w, acts[n])
  }

  /** At most one unpublished ticket per slot: the timer and the per-CPU samplers of one tick
      finish long before the ring comes round. */
  ghost predicate OneWriterPerSlot(r: Ring) {
    |r.slots| > 0 &&
    forall t, u :: t in r.writers && u in r.writers && t != u ==> SlotOf(t, |r.slots|) != SlotOf(u, |r.slots|)
  }

  ghost predicate Disciplined(tr: seq<Ring>) {
    forall n :: 0 <= n < |tr| ==> OneWriterPerSlot(tr[n])
  }

  predicate Published(r: Ring, t: nat) {
    t < r.head && t !in r.writers
  }

  /** Ticket `t`'s successor in the same slot has marked it: `t`'s record is gone. */
  predicate Lapped(r: Ring, t: nat) {
    var u := t + |r.slots|;
    u < r.head && !(u in r.writers && r.writers[u].stage.Reserved?)
  }

  /** Ticket `t` has not begun to write: its slot is as its predecessor left it, or as it always was. */
  predicate Unmarked(r: Ring, t: nat) {
    t >= r.head || (t in r.writers && r.writers[t].stage.Reserved?)
  }

  /** When a slot shows ticket `t`'s even tag. For ticket 0 that is also the tag of a slot never
      written. */
  predicate Shows(r: Ring, t: nat) {
    (Published(r, t) && !Lapped(r, t)) || (t == 0 && Unmarked(r, 0))
  }

  /** Ticket `t` has stored word `k`. */
  predicate Stored(r: Ring, t: nat, k: nat) {
    t < r.head && (t !in r.writers || (r.writers[t].stage.Copying? && k in r.writers[t].stage.done))
  }

  // ---- arithmetic of slots ----

  lemma {:induction false} SlotIsRemainder(t: nat, cap: nat)
    requires cap > 0
    ensures SlotOf(t, cap) == t % cap
  {
    if t < cap {
      RemainderUnique(t, cap, 0, t);
    } else {
      SlotIsRemainder(t - cap, cap);
      var q := (t - cap) / cap;
      assert (q + 1) * cap == q * cap + cap;
      RemainderUnique(t, cap, q + 1, (t - cap) % cap);
    }
  }

  lemma {:induction false} RemainderUnique(t: nat, cap: nat, q: nat, r: nat)
    requires 0 <= r < cap && t == q * cap + r
    ensures t % cap == r
  {
    var d := t / cap - q;
    assert d * cap == (t / cap) * cap - q * cap;
    assert d >= 1 ==> (d - 1) * cap >= 0;
    assert d <= -1 ==> (-d - 1) * cap >= 0;
  }

  lemma {:induction false} SlotsOfWindowDiffer(t: nat, u: nat, cap: nat)
    requires cap > 0 && t < u < t + cap
    ensures SlotOf(t, cap) != SlotOf(u, cap)
  {
    if t >= cap {
      SlotsOfWindowDiffer(t - cap, u - cap, cap);
    }
  }

  // ---- the protocol invariant ----

  /** Where ticket `t` stands and what its slot then holds: not yet marked, being copied,
      published and still there, or lapped. The tag of a slot never comes back to `2 * t`. */
  ghost predicate Life(r: Ring, w: nat, t: nat)
    requires |r.slots| > 0
  {
    var s := r.slots[SlotOf(t, |r.slots|)];
    && (t < r.head ==> t in r.log && |r.log[t]| == w)
    && (t in r.writers ==> t < r.head && r.writers[t].pay == r.log[t])
    && if t >= r.head || (t in r.writers && r.writers[t].stage.Reserved?) then
         s.tag < 2 * t || (t == 0 && s.tag == 0)
       else if t in r.writers then
         && s.tag == 2 * t + 1 && |s.pay| == w
         && forall k :: k in r.writers[t].stage.done ==> k < w && s.pay[k] == r.log[t][k]
       else if Lapped(r, t) then
         s.tag > 2 * t
       else
         s == Slot(2 * t, r.log[t])
  }

  ghost predicate Inv(r: Ring, cap: nat, w: nat) {
    && Shaped(r, cap, w)
    && (forall t :: t in r.log ==> t < r.head)
    && (forall t :: t in r.writers ==> t < r.head <= t + cap)
    && forall t: nat :: Life(r, w, t)
  }

  /** In a disciplined ring, two tickets of one slot are never both within reach of a writer. */
  lemma {:induction false} OnlySuccessorInterferes(r: Ring, cap: nat, w: nat, t: nat, u: nat)
    requires Inv(r, cap, w) && OneWriterPerSlot(r)
    requires t < r.head && u in r.writers && u != t && SlotOf(t, cap) == SlotOf(u, cap)
    ensures u >= t + cap && t !in r.writers
    ensures u == t + cap || Lapped(r, t)
  {
    if u < t {
      if t < u + cap { SlotsOfWindowDiffer(u, t, cap); }
    } else {
      if u < t + cap { SlotsOfWindowDiffer(t, u, cap); }
      assert SlotOf(t + cap, cap) == SlotOf(t, cap);
    }
  }

  lemma {:induction false} LifeOfActor(r: Ring, cap: nat, w: nat, act: Action)
    requires Inv(r, cap, w) && Enabled(r, w, act) && !act.Reserve?
    ensures Life(Apply(r, w, act), w, act.ticket)
  {
    var t := act.ticket;
    assert Life(r, w, t) && t < r.head <= t + cap;
    var r' := Apply(r, w, act);
    assert !Lapped(r', t);
    if act.Publish? {
      assert r.slots[SlotOf(t, cap)].pay == r.log[t];
    }
  }

  lemma {:induction false} LifeElsewhere(r: Ring, cap: nat, w: nat, act: Action, t: nat)
    requires Inv(r, cap, w) && Enabled(r, w, act) && !act.Reserve?
    requires SlotOf(t, cap) != SlotOf(act.ticket, cap)
    ensures Life(Apply(r, w, act), w, t)
  {
    assert Life(r, w, t);
    var r' := Apply(r, w, act);
    assert r'.slots[SlotOf(t, cap)] == r.slots[SlotOf(t, cap)];
    assert SlotOf(t + cap, cap) == SlotOf(t, cap);
    assert Lapped(r', t) == Lapped(r, t);
  }

  lemma {:induction false} LifeUnderOthers(r: Ring, cap: nat, w: nat, act: Action, t: nat)
    requires Inv(r, cap, w) && Enabled(r, w, act) && !act.Reserve? && OneWriterPerSlot(r)
    requires t != act.ticket && SlotOf(t, cap) == SlotOf(act.ticket, cap)
    ensures Life(Apply(r, w, act), w, t)
  {
    var u := act.ticket;
    assert Life(r, w, t) && Life(r, w, u);
    if t < r.head {
      OnlySuccessorInterferes(r, cap, w, t, u);
      assert Lapped(Apply(r, w, act), t);
    }
  }

  lemma {:induction false} ReserveWindow(r: Ring, cap: nat, w: nat, pay: seq<nat>, t: nat)
    requires Inv(r, cap, w) && |pay| == w
    requires OneWriterPerSlot(Apply(r, w, Reserve(pay))) && t in r.writers
    ensures r.head < t + cap
  {
    var r' := Apply(r, w, Reserve(pay));
    assert r.head in r'.writers && t in r'.writers;
    assert SlotOf(t + cap, cap) == SlotOf(t, cap);
  }

  lemma {:induction false} ReserveLife(r: Ring, cap: nat, w: nat, pay: seq<nat>, t: nat)
    requires Inv(r, cap, w) && |pay| == w
    ensures Life(Apply(r, w, Reserve(pay)), w, t)
  {
    assert Life(r, w, t);
  }

  lemma {:induction false} ReserveKeeps(r: Ring, cap: nat, w: nat, pay: seq<nat>)
    requires Inv(r, cap, w) && |pay| == w
    requires OneWriterPerSlot(Apply(r, w, Reserve(pay)))
    ensures Inv(Apply(r, w, Reserve(pay)), cap, w)
  {
    forall t | t in r.writers
      ensures r.head < t + cap
    {
      ReserveWindow(r, cap, w, pay, t);
    }
    forall t: nat
      ensures Life(Apply(r, w, Reserve(pay)), w, t)
    {
      ReserveLife(r, cap, w, pay, t);
    }
  }

  lemma {:induction false} InvStep(r: Ring, cap: nat, w: nat, act: Action)
    requires Inv(r, cap, w) && Enabled(r, w, act)
    requires OneWriterPerSlot(r) && OneWriterPerSlot(Apply(r, w, act))
    ensures Inv(Apply(r, w, act), cap, w)
  {
    if act.Reserve? {
      ReserveKeeps(r, cap, w, act.pay);
    } else {
      forall t: nat
        ensures Life(Apply(r, w, act), w, t)
      {
        if t == act.ticket {
          LifeOfActor(r, cap, w, act);
        } else if SlotOf(t, cap) == SlotOf(act.ticket, cap) {
          LifeUnderOthers(r, cap, w, act, t);
        } else {
          LifeElsewhere(r, cap, w, act, t);
        }
      }
    }
  }

  /** Every state of a disciplined run satisfies the slot invariant. */
  lemma {:induction false} RunInv(tr: seq<Ring>, acts: seq<Action>, cap: nat, w: nat, n: nat)
    requires Run(tr, acts, cap, w) && Disciplined(tr) && n < |tr|
    ensures Inv(tr[n], cap, w)
  {
    if n > 0 {
      RunInv(tr, acts, cap, w, n - 1);
      assert OneWriterPerSlot(tr[n - 1]) && OneWriterPerSlot(tr[n]);
      assert Enabled(tr[n - 1], w, acts[n - 1]);
      InvStep(tr[n - 1], cap, w, acts[n - 1]);
    }
  }

  // ---- the passage of time ----

  lemma {:induction false} OneStepForward(r: Ring, cap: nat, w: nat, act: Action, t: nat)
    requires Inv(r, cap, w) && Enabled(r, w, act)
    ensures r.head <= Apply(r, w, act).head
    ensures t in r.log ==> t in Apply(r, w, act).log && Apply(r, w, act).log[t] == r.log[t]
    ensures Published(r, t) ==> Published(Apply(r, w, act), t)
    ensures Lapped(r, t) ==> Lapped(Apply(r, w, act), t)
  {
    assert Life(r, w, r.head);
  }

  /** Tickets only advance: what was written down stays, published stays published, lapped stays
      lapped. */
  lemma {:induction false} Forward(tr: seq<Ring>, acts: seq<Action>, cap: nat, w: nat, n: nat, m: nat, t: nat)
    requires Run(tr, acts, cap, w) && Disciplined(tr) && n <= m < |tr|
    ensures tr[n].head <= tr[m].head
    ensures t in tr[n].log ==> t in tr[m].log && tr[m].log[t] == tr[n].log[t]
    ensures Published(tr[n], t) ==> Published(tr[m], t)
    ensures Lapped(tr[n], t) ==> Lapped(tr[m], t)
    decreases m - n
  {
    if n < m {
      RunInv(tr, acts, cap, w, n);
      OneStepForward(tr[n], cap, w, acts[n], t);
      Forward(tr, acts, cap, w, n + 1, m, t);
    }
  }

  /** A slot shows ticket `t`'s even tag exactly when Shows says so, and while the ticket is published
      and not lapped the slot holds exactly what it wrote. */
  lemma {:induction false} TagTellsThePayload(tr: seq<Ring>, acts: seq<Action>, cap: nat, w: nat, n: nat, t: nat)
    requires Run(tr, acts, cap, w) && Disciplined(tr) && n < |tr|
    ensures var s := tr[n].slots[SlotOf(t, cap)];
            && (s.tag == 2 * t <==> Shows(tr[n], t))
            && (Published(tr[n], t) && !Lapped(tr[n], t) ==> t in tr[n].log && s.pay == tr[n].log[t])
  {
    RunInv(tr, acts, cap, w, n);
    assert Life(tr[n], w, t);
    assert tr[n].head > t + cap ==> t !in tr[n].writers;
  }

  // ---- the life of a word ----

  /** Word `k` of the slot of ticket `t`: `t`'s own from when it stores it until its successor in the
      slot does; zero until the first ticket of the slot stores it. */
  ghost predicate WordLife(r: Ring, cap: nat, w: nat, t: nat, k: nat)
    requires Shaped(r, cap, w) && k < w
  {
    var word := r.slots[SlotOf(t, cap)].pay[k];
    && (Stored(r, t, k) && !Stored(r, t + cap, k) ==> t in r.log && |r.log[t]| == w && word == r.log[t][k])
    && (t < cap && !Stored(r, t, k) ==> word == 0)
  }

  /** Storing a word of another ticket of the same slot. */
  lemma {:induction false} StoreElsewhere(r: Ring, cap: nat, w: nat, act: Action, t: nat, k: nat)
    requires Inv(r, cap, w) && Enabled(r, w, act) && OneWriterPerSlot(r) && k < w
    requires act.Store? && act.word == k && act.ticket != t && SlotOf(act.ticket, cap) == SlotOf(t, cap)
    ensures Stored(r, t, k) ==> Stored(Apply(r, w, act), t + cap, k)
    ensures t < cap ==> Stored(r, t, k)
  {
    var u := act.ticket;
    assert Life(r, w, t) && Life(r, w, u);
    assert SlotOf(t + cap, cap) == SlotOf(t, cap);
    if t < r.head {
      OnlySuccessorInterferes(r, cap, w, t, u);
    } else if t < cap {
      SlotsOfWindowDiffer(u, t, cap);
    }
  }

  /** Only its own store makes a word stored. */
  lemma {:induction false} StoredStep(r: Ring, cap: nat, w: nat, act: Action, t: nat, k: nat)
    requires Inv(r, cap, w) && Enabled(r, w, act) && k < w
    ensures Stored(Apply(r, w, act), t, k) <==> Stored(r, t, k) || act == Store(t, k)
  {
    assert Life(r, w, t);
  }

  lemma {:induction false} WordStep(r: Ring, cap: nat, w: nat, act: Action, t: nat, k: nat)
    requires Inv(r, cap, w) && Enabled(r, w, act) && OneWriterPerSlot(r) && k < w && WordLife(r, cap, w, t, k)
    ensures WordLife(Apply(r, w, act), cap, w, t, k)
  {
    assert Life(r, w, t);
    StoredStep(r, cap, w, act, t, k);
    StoredStep(r, cap, w, act, t + cap, k);
    if act.Store? && act.word == k && SlotOf(act.ticket, cap) == SlotOf(t, cap) && act.ticket != t {
      StoreElsewhere(r, cap, w, act, t, k);
    }
  }

  lemma {:induction false} WordsLive(
      tr: seq<Ring>, acts: seq<Action>, cap: nat, w: nat, n: nat, t: nat, k: nat)
    requires Run(tr, acts, cap, w) && Disciplined(tr) && n < |tr| && k < w
    ensures WordLife(tr[n], cap, w, t, k)
  {
    if n > 0 {
      WordsLive(tr, acts, cap, w, n - 1, t, k);
      RunInv(tr, acts, cap, w, n - 1);
      assert Enabled(tr[n - 1], w, acts[n - 1]) && OneWriterPerSlot(tr[n - 1]);
      WordStep(tr[n - 1], cap, w, acts[n - 1], t, k);
    }
  }

  /** Whose word it is: that of the last ticket of the slot to have stored it. */
  lemma {:induction false} WordOwner(
      tr: seq<Ring>, acts: seq<Action>, cap: nat, w: nat, n: nat, t: nat, k: nat)
    returns (j: nat)
    requires Run(tr, acts, cap, w) && Disciplined(tr) && n < |tr| && k < w && Stored(tr[n], t, k)
    ensures j == t <==> !Stored(tr[n], t + cap, k)
    ensures j != t ==> j >= t + cap
    ensures SlotOf(j, cap) == SlotOf(t, cap) && j in tr[n].log && |tr[n].log[j]| == w
    ensures tr[n].slots[SlotOf(t, cap)].pay[k] == tr[n].log[j][k]
    decreases tr[n].head - t
  {
    WordsLive(tr, acts, cap, w, n, t, k);
    j := t;
    if Stored(tr[n], t + cap, k) {
      assert SlotOf(t + cap, cap) == SlotOf(t, cap);
      j := WordOwner(tr, acts, cap, w, n, t + cap, k);
    }
  }

  /** What has been stored stays stored. */
  lemma {:induction false} StoredForward(
      tr: seq<Ring>, acts: seq<Action>, cap: nat, w: nat, n: nat, m: nat, t: nat, k: nat)
    requires Run(tr, acts, cap, w) && Disciplined(tr) && n <= m < |tr| && k < w && Stored(tr[n], t, k)
    ensures Stored(tr[m], t, k)
    decreases m - n
  {
    if n < m {
      RunInv(tr, acts, cap, w, n);
      assert Enabled(tr[n], w, acts[n]) && tr[n + 1] == Apply(tr[n], w, acts[n]);
      StoredStep(tr[n], cap, w, acts[n], t, k);
      StoredForward(tr, acts, cap, w, n + 1, m, t, k);
    }
  }

  // ---- the reader ----

  /** One lookup of a slot: the state in which its tag was loaded, those in which its payload
      words were, and the state in which the copy was complete. */
  datatype Load = Load(tagAt: nat, wordAt: seq<nat>, end: nat)

  ghost predicate LoadIn(tr: seq<Ring>, w: nat, ld: Load) {
    && |ld.wordAt| == w && ld.tagAt <= ld.end < |tr|
    && forall k :: 0 <= k < w ==> ld.tagAt <= ld.wordAt[k] <= ld.end
  }

  /** The copy such a lookup of ticket `t`'s slot returns. */
  ghost function Loaded(tr: seq<Ring>, cap: nat, w: nat, t: nat, ld: Load): Slot
    requires cap > 0 && LoadIn(tr, w, ld) && AllShaped(tr, cap, w)
  {
    var ix := SlotOf(t, cap);
    Slot(tr[ld.tagAt].slots[ix].tag, seq(w, k requires 0 <= k < w => tr[ld.wordAt[k]].slots[ix].pay[k]))
  }

  /** Two lookups in program order, the second after the first. */
  ghost predicate TwoLoads(tr: seq<Ring>, acts: seq<Action>, cap: nat, w: nat, la: Load, lb: Load) {
    && Run(tr, acts, cap, w) && Disciplined(tr)
    && LoadIn(tr, w, la) && LoadIn(tr, w, lb) && la.end <= lb.tagAt
  }

  /** The tests both host scans apply before they keep a copy for ticket `t`. */
  predicate Accepts(t: nat, a: Slot, b: Slot) {
    a.tag % 2 == 0 && a.tag == b.tag && a.tag == 2 * t
  }

  /** Acceptance is decided by the producers alone: the slot showed the ticket's tag at both tag loads;
      for a ticket other than 0, it had been published when the first tag was loaded and was not yet
      lapped when the second one was. */
  lemma {:induction false} AcceptedIffPublishedAndNotLapped(
      tr: seq<Ring>, acts: seq<Action>, cap: nat, w: nat, t: nat, la: Load, lb: Load)
    requires TwoLoads(tr, acts, cap, w, la, lb)
    ensures Accepts(t, Loaded(tr, cap, w, t, la), Loaded(tr, cap, w, t, lb))
            <==> Shows(tr[la.tagAt], t) && Shows(tr[lb.tagAt], t)
    ensures t >= 1 || Published(tr[la.tagAt], t) ==>
              (Accepts(t, Loaded(tr, cap, w, t, la), Loaded(tr, cap, w, t, lb))
               <==> Published(tr[la.tagAt], t) && !Lapped(tr[lb.tagAt], t))
  {
    TagTellsThePayload(tr, acts, cap, w, la.tagAt, t);
    TagTellsThePayload(tr, acts, cap, w, lb.tagAt, t);
    Forward(tr, acts, cap, w, la.tagAt, lb.tagAt, t);
  }

  /** Seqlock safety, for every ticket: the first copy of an accepted pair is exactly the record of its
      ticket. For ticket 0 the pair must not be that of a slot still unwritten. */
  lemma {:induction false} FirstCopyIsGenuine(
      tr: seq<Ring>, acts: seq<Action>, cap: nat, w: nat, t: nat, la: Load, lb: Load)
    requires TwoLoads(tr, acts, cap, w, la, lb) && (t >= 1 || Published(tr[la.tagAt], 0))
    requires Accepts(t, Loaded(tr, cap, w, t, la), Loaded(tr, cap, w, t, lb))
    ensures t in tr[la.tagAt].log && Loaded(tr, cap, w, t, la).pay == tr[la.tagAt].log[t]
  {
    TagTellsThePayload(tr, acts, cap, w, la.tagAt, t);
    RunInv(tr, acts, cap, w, la.tagAt);
    assert Life(tr[la.tagAt], w, t);
    AcceptedIffPublishedAndNotLapped(tr, acts, cap, w, t, la, lb);
    forall k | 0 <= k < w
      ensures Loaded(tr, cap, w, t, la).pay[k] == tr[la.tagAt].log[t][k]
    {
      var n := la.wordAt[k];
      Forward(tr, acts, cap, w, la.tagAt, n, t);
      Forward(tr, acts, cap, w, n, lb.tagAt, t);
      TagTellsThePayload(tr, acts, cap, w, n, t);
    }
  }

  /** The accepted pairs of ticket 0, exactly: the ticket was published at the first tag load, or it had
      not begun to write; a word of the first copy is the ticket's own if it had been stored when it was
      loaded, and zero otherwise. */
  lemma {:induction false} FirstCopyOfTicketZero(
      tr: seq<Ring>, acts: seq<Action>, cap: nat, w: nat, la: Load, lb: Load, k: nat)
    requires TwoLoads(tr, acts, cap, w, la, lb) && k < w
    requires Accepts(0, Loaded(tr, cap, w, 0, la), Loaded(tr, cap, w, 0, lb))
    ensures Published(tr[la.tagAt], 0) != Unmarked(tr[la.tagAt], 0)
    ensures var n := la.wordAt[k];
            && (Published(tr[la.tagAt], 0) ==> Stored(tr[n], 0, k))
            && (Stored(tr[n], 0, k) ==> 0 in tr[n].log && |tr[n].log[0]| == w)
            && Loaded(tr, cap, w, 0, la).pay[k] == if Stored(tr[n], 0, k) then tr[n].log[0][k] else 0
  {
    var n := la.wordAt[k];
    AcceptedIffPublishedAndNotLapped(tr, acts, cap, w, 0, la, lb);
    WordsLive(tr, acts, cap, w, n, 0, k);
    if Published(tr[la.tagAt], 0) {
      StoredForward(tr, acts, cap, w, la.tagAt, n, 0, k);
    }
    if Stored(tr[n], cap, k) {
      StoredForward(tr, acts, cap, w, n, lb.tagAt, cap, k);
      RunInv(tr, acts, cap, w, lb.tagAt);
    }
  }

  /** So the first copy of an accepted pair of ticket 0 is the ticket's record if and only if every
      word either had been stored or is zero anyway. */
  lemma {:induction false} TicketZeroIsGenuineIff(
      tr: seq<Ring>, acts: seq<Action>, cap: nat, w: nat, la: Load, lb: Load)
    requires TwoLoads(tr, acts, cap, w, la, lb) && 0 in tr[lb.end].log && |tr[lb.end].log[0]| == w
    requires Accepts(0, Loaded(tr, cap, w, 0, la), Loaded(tr, cap, w, 0, lb))
    ensures Loaded(tr, cap, w, 0, la).pay == tr[lb.end].log[0] <==>
            forall k :: 0 <= k < w ==> Stored(tr[la.wordAt[k]], 0, k) || tr[lb.end].log[0][k] == 0
  {
    var pay, record := Loaded(tr, cap, w, 0, la).pay, tr[lb.end].log[0];
    forall k | 0 <= k < w
      ensures pay[k] == record[k] <==> Stored(tr[la.wordAt[k]], 0, k) || record[k] == 0
    {
      FirstCopyOfTicketZero(tr, acts, cap, w, la, lb, k);
      Forward(tr, acts, cap, w, la.wordAt[k], lb.end, 0);
    }
  }

  /** The second copy, the one the host keeps, is genuine exactly as far as its words were loaded before
      the next ticket of the slot stored them: word `k` is that of ticket `j`, and `j` is the ticket
      itself if and only if its successor had not stored that word yet. */
  lemma {:induction false} SecondCopyProvenance(
      tr: seq<Ring>, acts: seq<Action>, cap: nat, w: nat, t: nat, la: Load, lb: Load, k: nat)
    returns (j: nat)
    requires TwoLoads(tr, acts, cap, w, la, lb) && k < w && (t >= 1 || Published(tr[lb.tagAt], 0))
    requires Accepts(t, Loaded(tr, cap, w, t, la), Loaded(tr, cap, w, t, lb))
    ensures j == t <==> !Stored(tr[lb.wordAt[k]], t + cap, k)
    ensures j != t ==> j >= t + cap
    ensures SlotOf(j, cap) == SlotOf(t, cap) && j in tr[lb.end].log && |tr[lb.end].log[j]| == w
    ensures Loaded(tr, cap, w, t, lb).pay[k] == tr[lb.end].log[j][k]
  {
    var n := lb.wordAt[k];
    AcceptedIffPublishedAndNotLapped(tr, acts, cap, w, t, la, lb);
    Forward(tr, acts, cap, w, la.tagAt, lb.tagAt, t);
    StoredForward(tr, acts, cap, w, lb.tagAt, n, t, k);
    j := WordOwner(tr, acts, cap, w, n, t, k);
    Forward(tr, acts, cap, w, n, lb.end, j);
  }

  /** In particular the whole second copy is genuine when no word of it was loaded after the ticket
      `t + cap` had stored it: when that ticket had not been handed out, had not begun, or when the
      lookup was atomic. */
  lemma {:induction false} SecondCopyIsGenuine(
      tr: seq<Ring>, acts: seq<Action>, cap: nat, w: nat, t: nat, la: Load, lb: Load)
    requires TwoLoads(tr, acts, cap, w, la, lb) && (t >= 1 || Published(tr[lb.tagAt], 0))
    requires Accepts(t, Loaded(tr, cap, w, t, la), Loaded(tr, cap, w, t, lb))
    requires forall k :: 0 <= k < w ==> !Stored(tr[lb.wordAt[k]], t + cap, k)
    ensures t in tr[lb.tagAt].log && Loaded(tr, cap, w, t, lb).pay == tr[lb.tagAt].log[t]
  {
    AcceptedIffPublishedAndNotLapped(tr, acts, cap, w, t, la, lb);
    Forward(tr, acts, cap, w, la.tagAt, lb.tagAt, t);
    RunInv(tr, acts, cap, w, lb.tagAt);
    assert Life(tr[lb.tagAt], w, t);
    forall k | 0 <= k < w
      ensures Loaded(tr, cap, w, t, lb).pay[k] == tr[lb.tagAt].log[t][k]
    {
      var j := SecondCopyProvenance(tr, acts, cap, w, t, la, lb, k);
      Forward(tr, acts, cap, w, lb.tagAt, lb.end, t);
    }
  }

  /** Two ways for that to be so: the next ticket of the slot has not been handed out when the copy ends,
      or the lookup is atomic. */
  lemma {:induction false} NotOverwritten(
      tr: seq<Ring>, acts: seq<Action>, cap: nat, w: nat, t: nat, lb: Load, k: nat)
    requires Run(tr, acts, cap, w) && Disciplined(tr) && LoadIn(tr, w, lb) && k < w
    requires Published(tr[lb.tagAt], t) && !Lapped(tr[lb.tagAt], t)
    requires tr[lb.end].head <= t + cap || lb.wordAt[k] == lb.tagAt
    ensures !Stored(tr[lb.wordAt[k]], t + cap, k)
  {
    Forward(tr, acts, cap, w, lb.wordAt[k], lb.end, t);
    RunInv(tr, acts, cap, w, lb.tagAt);
  }

  // ---- what the guarantees cannot be extended to ----

  /** One more producer step. */
  lemma {:induction false} Then(tr: seq<Ring>, acts: seq<Action>, cap: nat, w: nat, act: Action)
    returns (after: seq<Ring>, steps: seq<Action>)
    requires Run(tr, acts, cap, w) && Enabled(tr[|acts|], w, act)
    ensures Run(after, steps, cap, w) && steps == acts + [act]
    ensures after == tr + [Apply(tr[|acts|], w, act)]
    ensures Disciplined(tr) && OneWriterPerSlot(Apply(tr[|acts|], w, act)) ==> Disciplined(after)
  {
    steps := acts + [act];
    after := tr + [Apply(tr[|acts|], w, act)];
    forall n | 0 <= n < |steps|
      ensures Enabled(after[n], w, steps[n]) && after[n + 1] == Apply(after[n], w, steps[n])
    {
      if n < |acts| {
        assert Enabled(tr[n], w, acts[n]) && tr[n + 1] == Apply(tr[n], w, acts[n]);
      }
    }
  }

  /** In a ring of one slot of one word, ticket `t` marks the slot and stores its word. */
  lemma {:induction false} MarkAndStore(tr: seq<Ring>, acts: seq<Action>, t: nat)
    returns (after: seq<Ring>, steps: seq<Action>)
    requires Run(tr, acts, 1, 1)
    requires t in tr[|acts|].writers && tr[|acts|].writers[t].stage.Reserved? && |tr[|acts|].writers[t].pay| == 1
    ensures Run(after, steps, 1, 1) && tr <= after && |steps| == |acts| + 2
    ensures var r, r' := tr[|acts|], after[|steps|];
            && r'.head == r.head && r'.log == r.log
            && r'.slots == [Slot(2 * t + 1, r.writers[t].pay)]
            && r'.writers == r.writers[t := Writer(r.writers[t].pay, Copying({0}))]
    ensures Disciplined(tr) ==> Disciplined(after)
  {
    var r := tr[|acts|];
    after, steps := Then(tr, acts, 1, 1, Mark(t));
    var r1 := after[|steps|];
    after, steps := Then(after, steps, 1, 1, Store(t, 0));
    var r2 := after[|steps|];
    assert r2.slots[0].pay == r.writers[t].pay;
    assert {} + {0} == {0 as nat};
    assert Disciplined(tr) ==> OneWriterPerSlot(r) && OneWriterPerSlot(r1) && OneWriterPerSlot(r2);
  }

  lemma {:induction false} CommitAlone(tr: seq<Ring>, acts: seq<Action>, x: nat)
    returns (after: seq<Ring>, steps: seq<Action>)
    requires Run(tr, acts, 1, 1) && Disciplined(tr) && tr[|acts|].writers == map[]
    ensures Run(after, steps, 1, 1) && Disciplined(after) && tr <= after && |steps| == |acts| + 4
    ensures var r, r' := tr[|acts|], after[|steps|];
            && r'.head == r.head + 1 && r'.log == r.log[r.head := [x]]
            && r'.slots == [Slot(2 * r.head, [x])] && r'.writers == map[]
  {
    var h := tr[|acts|].head;
    after, steps := Then(tr, acts, 1, 1, Reserve([x]));
    after, steps := MarkAndStore(after, steps, h);
    after, steps := Then(after, steps, 1, 1, Publish(h));
  }

  /** A slot that was never written passes for ticket 0: between ticket 0's fetch-and-add and its
      marking store the reader accepts a record of zeros that nobody wrote. */
  lemma {:induction false} UnwrittenSlotPassesForTicketZero()
    returns (tr: seq<Ring>, acts: seq<Action>, la: Load, lb: Load)
    ensures TwoLoads(tr, acts, 1, 1, la, lb)
    ensures Accepts(0, Loaded(tr, 1, 1, 0, la), Loaded(tr, 1, 1, 0, lb))
    ensures !Published(tr[lb.end], 0) && 0 in tr[lb.end].log
    ensures Loaded(tr, 1, 1, 0, lb).pay != tr[lb.end].log[0]
  {
    tr, acts := Then([Fresh(1, 1)], [], 1, 1, Reserve([5]));
    la, lb := Load(1, [1], 1), Load(1, [1], 1);
    assert Loaded(tr, 1, 1, 0, lb).pay[0] == 0;
  }

  /** The kept copy can carry a foreign record: both tags are ticket 1's, but the word of the
      second copy is loaded after ticket 2 has stored its own. */
  lemma {:induction false} SecondCopyCanBeForeign()
    returns (tr: seq<Ring>, acts: seq<Action>, la: Load, lb: Load)
    ensures TwoLoads(tr, acts, 1, 1, la, lb)
    ensures Accepts(1, Loaded(tr, 1, 1, 1, la), Loaded(tr, 1, 1, 1, lb))
    ensures 1 in tr[lb.end].log && Loaded(tr, 1, 1, 1, lb).pay != tr[lb.end].log[1]
  {
    tr, acts := CommitAlone([Fresh(1, 1)], [], 5);
    tr, acts := CommitAlone(tr, acts, 6);
    var seen := tr[8];
    tr, acts := Then(tr, acts, 1, 1, Reserve([7]));
    tr, acts := MarkAndStore(tr, acts, 2);
    la, lb := Load(8, [8], 8), Load(8, [11], 11);
    assert tr[8] == seen;
    assert Loaded(tr, 1, 1, 1, lb).pay[0] == 7;
  }

  lemma {:induction false} ReserveTwice(tr: seq<Ring>, acts: seq<Action>, x: nat, y: nat)
    returns (after: seq<Ring>, steps: seq<Action>)
    requires Run(tr, acts, 1, 1)
    ensures Run(after, steps, 1, 1) && tr <= after && |steps| == |acts| + 2
    ensures var r, r' := tr[|acts|], after[|steps|];
            && r'.head == r.head + 2 && r'.slots == r.slots
            && r'.log == r.log[r.head := [x]][r.head + 1 := [y]]
            && r'.writers == r.writers[r.head := Writer([x], Reserved)][r.head + 1 := Writer([y], Reserved)]
  {
    after, steps := Then(tr, acts, 1, 1, Reserve([x]));
    after, steps := Then(after, steps, 1, 1, Reserve([y]));
  }

  /** Tickets 1 and 2 have both copied into the one slot, and neither is published. */
  lemma {:induction false} TwoCopies()
    returns (tr: seq<Ring>, acts: seq<Action>)
    ensures Run(tr, acts, 1, 1) && |acts| == 10
    ensures tr[10].slots == [Slot(5, [7])] && 1 in tr[10].log && tr[10].log[1] == [6]
    ensures 1 in tr[10].writers && tr[10].writers[1] == Writer([6], Copying({0}))
  {
    tr, acts := CommitAlone([Fresh(1, 1)], [], 5);
    tr, acts := ReserveTwice(tr, acts, 6, 7);
    tr, acts := MarkAndStore(tr, acts, 1);
    tr, acts := MarkAndStore(tr, acts, 2);
  }

  /** Two unpublished tickets in one slot break even the first copy. */
  lemma {:induction false} TwoWritersBreakTheFirstCopy()
    returns (tr: seq<Ring>, acts: seq<Action>, ld: Load)
    ensures Run(tr, acts, 1, 1) && LoadIn(tr, 1, ld)
    ensures Accepts(1, Loaded(tr, 1, 1, 1, ld), Loaded(tr, 1, 1, 1, ld))
    ensures 1 in tr[ld.end].log && Loaded(tr, 1, 1, 1, ld).pay != tr[ld.end].log[1]
  {
    tr, acts := TwoCopies();
    tr, acts := Then(tr, acts, 1, 1, Publish(1));
    ld := Load(11, [11], 11);
    assert tr[11].slots[0] == Slot(2, [7]);
    assert Loaded(tr, 1, 1, 1, ld).pay[0] == 7;
  }
}
