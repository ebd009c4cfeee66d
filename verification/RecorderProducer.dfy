/** `rec_commit` of bpf/etrace_common.h as a program over the slot array, and its refinement: run
    to completion, it takes exactly the atomic steps of the protocol. */
module RecorderProducer {
  import opened RecorderProtocol

  /** The steps one commit takes: reserve, mark, the payload words in address order, publish. */
  function CommitSteps(t: nat, payload: seq<nat>): seq<Action> {
    [Reserve(payload), Mark(t)] + seq(|payload|, k requires k >= 0 => Store(t, k)) + [Publish(t)]
  }

  function Below(k: nat): (s: set<nat>)
    ensures forall i :: i in s <==> 0 <= i < k
  {
    if k == 0 then {} else Below(k - 1) + {k - 1}
  }

  class Recorder {
    const w: nat
    var head: nat
    var slots: array<Slot>
    ghost var tr: seq<Ring>
    ghost var acts: seq<Action>

    /** The array is the ring that the steps taken so far lead to. */
    ghost predicate Tracks(writers: map<nat, Writer>)
      reads this, slots
    {
      && Run(tr, acts, slots.Length, w)
      && tr[|acts|].head == head && tr[|acts|].slots == slots[..] && tr[|acts|].writers == writers
    }

    /** No commit is under way. */
    ghost predicate Valid()
      reads this, slots
    {
      Tracks(map[])
    }

    constructor (cap: nat, words: nat)
      requires cap > 0
      ensures Valid() && head == 0 && w == words && slots.Length == cap && fresh(slots)
    {
      w, head := words, 0;
      slots := new Slot[cap](_ => Slot(0, seq(words, _ => 0)));
      tr, acts := [Fresh(cap, words)], [];
      new;
      assert slots[..] == Fresh(cap, words).slots;
    }

    ghost method Step(act: Action)
      requires Run(tr, acts, slots.Length, w) && Enabled(tr[|acts|], w, act)
      modifies `tr, `acts
      ensures Run(tr, acts, slots.Length, w) && acts == old(acts) + [act]
      ensures old(tr) <= tr && tr[|acts|] == Apply(old(tr[|acts|]), w, act)
    {
      tr, acts := Then(tr, acts, slots.Length, w, act);
    }

    /** The copy of the payload, one word at a time. */
    method StoreWords(t: nat, ix: nat, payload: seq<nat>)
      requires Tracks(map[t := Writer(payload, Copying({}))]) && |payload| == w
      requires ix == SlotOf(t, slots.Length)
      modifies this`tr, this`acts, slots
      ensures Tracks(map[t := Writer(payload, Copying(Below(w)))])
      ensures slots[..] == old(slots[..])[ix := Slot(old(slots[ix].tag), payload)]
      ensures old(tr) <= tr && acts == old(acts) + seq(w, k requires k >= 0 => Store(t, k))
    {
      ghost var stores := seq(w, k requires k >= 0 => Store(t, k));
      assert Below(0) == {};
      for k := 0 to w
        invariant Tracks(map[t := Writer(payload, Copying(Below(k)))])
        invariant old(tr) <= tr && acts == old(acts) + stores[..k]
        invariant slots[..] == old(slots[..])[ix := slots[ix]]
        invariant slots[ix].tag == old(slots[ix].tag) && |slots[ix].pay| == w && slots[ix].pay[..k] == payload[..k]
      {
        Step(Store(t, k));
        assert Below(k) + {k} == Below(k + 1);
        assert stores[..k + 1] == stores[..k] + [Store(t, k)];
        slots[ix] := slots[ix].(pay := slots[ix].pay[k := payload[k]]);
      }
      assert stores[..w] == stores;
      assert slots[ix].pay == payload;
    }

    /** The fetch-and-add and the odd tag. */
    method Begin(payload: seq<nat>) returns (t: nat, ix: nat)
      requires Valid() && |payload| == w
      modifies this, slots
      ensures Tracks(map[t := Writer(payload, Copying({}))]) && slots == old(slots)
      ensures t == old(head) && head == t + 1 && ix == SlotOf(t, slots.Length)
      ensures slots[..] == old(slots[..])[ix := Slot(2 * t + 1, old(slots[ix].pay))]
      ensures old(tr) <= tr && acts == old(acts) + [Reserve(payload), Mark(t)]
    {
      t := head;
      ix := SlotOf(t, slots.Length);
      Step(Reserve(payload));
      head := t + 1;
      assert Tracks(map[t := Writer(payload, Reserved)]);
      Step(Mark(t));
      slots[ix] := slots[ix].(tag := 2 * t + 1);
    }

    method RecCommit(payload: seq<nat>)
      requires Valid() && |payload| == w
      modifies this, slots
      ensures Valid() && slots == old(slots) && head == old(head) + 1
      ensures slots[..] == old(slots[..])[SlotOf(old(head), slots.Length) := Slot(2 * old(head), payload)]
      ensures old(tr) <= tr && acts == old(acts) + CommitSteps(old(head), payload)
    {
      var t, ix := Begin(payload);
      StoreWords(t, ix, payload);
      Step(Publish(t));
      slots[ix] := slots[ix].(tag := 2 * t);
    }
  }
}
