/** `itertools.combinations`, as the skeleton search of
    models/src/alg_models/causal/psi_pc.py uses it: every subset of the given size, once each. */
module Combinations {
  import opened Collections
  import Sorting

  function WithFirst(x: nat, cs: seq<seq<nat>>): (r: seq<seq<nat>>)
    ensures |r| == |cs|
  {
    seq(|cs|, i requires 0 <= i < |cs| => [x] + cs[i])
  }

  /** The combinations of `k` members, in the order of their positions. */
  function Choose(s: seq<nat>, k: nat): seq<seq<nat>> {
    if k == 0 then [[]]
    else if s == [] then []
    else WithFirst(s[0], Choose(s[1..], k - 1)) + Choose(s[1..], k)
  }

  lemma {:induction false} MembersCons(x: nat, t: seq<nat>)
    ensures Members([x] + t) == {x} + Members(t)
  {
  }

  /** Combinations with the first member come before those without. */
  ghost predicate Split(x: nat, all: seq<seq<nat>>, taking: seq<seq<nat>>, leaving: seq<seq<nat>>) {
    && |all| == |taking| + |leaving|
    && (forall i :: 0 <= i < |taking| ==> all[i] == [x] + taking[i])
    && (forall i :: 0 <= i < |leaving| ==> all[|taking| + i] == leaving[i])
  }

  lemma {:induction false} FirstMemberFirst(s: seq<nat>, k: nat)
    requires k > 0 && s != []
    ensures Split(s[0], Choose(s, k), Choose(s[1..], k - 1), Choose(s[1..], k))
  {
  }

  /** Every combination has `k` different members, all of them from `pool`. */
  ghost predicate Within(all: seq<seq<nat>>, k: nat, pool: set<nat>) {
    forall i :: 0 <= i < |all| ==> |all[i]| == |Members(all[i])| == k && Members(all[i]) <= pool
  }

  /** No subset of `pool` with `k` members is missed. */
  ghost predicate Covers(all: seq<seq<nat>>, k: nat, pool: set<nat>) {
    forall sub: set<nat> :: sub <= pool && |sub| == k ==> Listed(all, sub)
  }

  ghost predicate Listed(all: seq<seq<nat>>, sub: set<nat>) {
    exists i :: 0 <= i < |all| && Members(all[i]) == sub
  }

  lemma {:induction false} WithinStep(
      x: nat, k: nat, pool: set<nat>, all: seq<seq<nat>>, taking: seq<seq<nat>>, leaving: seq<seq<nat>>)
    requires k > 0 && Split(x, all, taking, leaving)
    requires Within(taking, k - 1, pool) && Within(leaving, k, pool) && x !in pool
    ensures Within(all, k, {x} + pool)
  {
    forall i | 0 <= i < |all|
      ensures |all[i]| == |Members(all[i])| == k && Members(all[i]) <= {x} + pool
    {
      if i < |taking| {
        MembersCons(x, taking[i]);
      } else {
        assert all[|taking| + (i - |taking|)] == leaving[i - |taking|];
      }
    }
  }

  lemma {:induction false} CoversStep(
      x: nat, k: nat, pool: set<nat>, all: seq<seq<nat>>, taking: seq<seq<nat>>, leaving: seq<seq<nat>>)
    requires k > 0 && Split(x, all, taking, leaving)
    requires Covers(taking, k - 1, pool) && Covers(leaving, k, pool)
    ensures Covers(all, k, {x} + pool)
  {
    forall sub: set<nat> | sub <= {x} + pool && |sub| == k
      ensures Listed(all, sub)
    {
      if x in sub {
        var less := sub - {x};
        assert Listed(taking, less);
        var i :| 0 <= i < |taking| && Members(taking[i]) == less;
        MembersCons(x, taking[i]);
        assert Members(all[i]) == sub;
      } else {
        assert Listed(leaving, sub);
        var i :| 0 <= i < |leaving| && Members(leaving[i]) == sub;
        assert Members(all[|taking| + i]) == sub;
      }
    }
  }

  lemma {:induction false} EmptyIsCovered(all: seq<seq<nat>>, pool: set<nat>)
    requires all == [[]]
    ensures Within(all, 0, pool) && Covers(all, 0, pool)
  {
    forall sub: set<nat> | |sub| == 0
      ensures Listed(all, sub)
    {
      assert sub == {} && Members(all[0]) == {};
    }
  }

  lemma {:induction false} NothingIsCovered(all: seq<seq<nat>>, k: nat)
    requires all == [] && k > 0
    ensures Within(all, k, {}) && Covers(all, k, {})
  {
    assert forall sub: set<nat> :: sub <= {} ==> |sub| == 0;
  }

  /** The combinations of `k` are exactly the subsets with `k` members. */
  lemma {:induction false} ChooseIsExact(s: seq<nat>, k: nat)
    requires Sorting.Distinct(s)
    ensures Within(Choose(s, k), k, Members(s)) && Covers(Choose(s, k), k, Members(s))
  {
    if k == 0 {
      EmptyIsCovered(Choose(s, 0), Members(s));
    } else if s == [] {
      NothingIsCovered(Choose(s, k), k);
    } else {
      ChooseIsExact(s[1..], k - 1);
      ChooseIsExact(s[1..], k);
      FirstMemberFirst(s, k);
      WithinStep(s[0], k, Members(s[1..]), Choose(s, k), Choose(s[1..], k - 1), Choose(s[1..], k));
      CoversStep(s[0], k, Members(s[1..]), Choose(s, k), Choose(s[1..], k - 1), Choose(s[1..], k));
    }
  }
}
