/** The thread set the target selector wants (src/collect/target_selector.cpp, step 9 of Evaluate):
    the pinned threads and the top threads of each selected process, within the thread budget. */
module ThreadChoice {
  import opened Arith
  import opened Collections
  import opened Hysteresis
  import Sorting

  /** `std::sort` by descending score. */
  function Negated(score: map<nat, real>): nat -> real {
    t => if t in score then -score[t] else 0.0
  }

  /** The observed threads listed under their processes. */
  ghost predicate ByProcess(owner: map<nat, nat>, byProc: map<nat, seq<nat>>) {
    && (forall p :: p in byProc ==> byProc[p] != [] && ListsProcess(owner, byProc[p], p))
    && (forall t :: t in owner ==> owner[t] in byProc && t in byProc[owner[t]])
  }

  ghost predicate ListsProcess(owner: map<nat, nat>, list: seq<nat>, p: nat) {
    Sorting.Distinct(list) && forall i :: 0 <= i < |list| ==> list[i] in owner && owner[list[i]] == p
  }

  ghost predicate Ordered(byProc: map<nat, seq<nat>>, score: map<nat, real>) {
    forall p :: p in byProc ==> Sorting.Sorted(byProc[p], Negated(score))
  }

  method GroupThreads(owner: map<nat, nat>, score: map<nat, real>) returns (byProc: map<nat, seq<nat>>)
    requires owner.Keys == score.Keys
    ensures ByProcess(owner, byProc) && Ordered(byProc, score)
    ensures byProc.Keys == owner.Values
  {
    var unsorted := CollectThreads(owner);
    byProc := map[];
    var rest := unsorted.Keys;
    while rest != {}
      invariant rest <= unsorted.Keys && byProc.Keys == unsorted.Keys - rest
      invariant Ordered(byProc, score)
      invariant forall p :: p in byProc ==> multiset(byProc[p]) == multiset(unsorted[p])
    {
      var p :| p in rest;
      var list := Sorting.SortBy(unsorted[p], Negated(score));
      byProc := byProc[p := list];
      rest := rest - {p};
    }
    SortingKeepsThreads(owner, unsorted, byProc);
  }

  method CollectThreads(owner: map<nat, nat>) returns (byProc: map<nat, seq<nat>>)
    ensures ByProcess(owner, byProc) && byProc.Keys == owner.Values
  {
    byProc := map[];
    var rest := owner.Keys;
    while rest != {}
      invariant rest <= owner.Keys
      invariant forall p :: p in byProc ==> byProc[p] != [] && ListsProcess(owner, byProc[p], p)
      invariant forall p, t :: p in byProc && t in byProc[p] ==> t !in rest
      invariant forall t :: t in owner.Keys - rest ==> owner[t] in byProc && t in byProc[owner[t]]
    {
      var t :| t in rest;
      var p := owner[t];
      var list := if p in byProc then byProc[p] else [];
      byProc := byProc[p := list + [t]];
      rest := rest - {t};
    }
    assert forall p :: p in byProc ==> byProc[p][0] in owner && owner[byProc[p][0]] == p;
  }

  lemma {:induction false} SortingKeepsThreads(
      owner: map<nat, nat>, a: map<nat, seq<nat>>, b: map<nat, seq<nat>>)
    requires ByProcess(owner, a) && a.Keys == b.Keys
    requires forall p :: p in b ==> multiset(b[p]) == multiset(a[p])
    ensures ByProcess(owner, b)
  {
    forall p | p in b
      ensures b[p] != [] && ListsProcess(owner, b[p], p) && forall t :: t in a[p] <==> t in b[p]
    {
      Sorting.SameMembers(a[p], b[p]);
      Sorting.DistinctPermutation(a[p], b[p]);
      forall i | 0 <= i < |b[p]|
        ensures b[p][i] in owner && owner[b[p][i]] == p
      {
        assert b[p][i] in a[p];
      }
    }
  }

  lemma {:induction false} CountOneMore(s: set<nat>, t: nat)
    ensures |s + {t}| == |s| + if t in s then 0 else 1
  {
    if t in s {
      assert s + {t} == s;
    }
  }

  /** Takes the first threads of a process: at most `per` of them, and no new one once the budget is
      reached. */
  method TakeThreads(list: seq<nat>, before: set<nat>, per: nat, budget: nat)
    returns (desired: set<nat>, k: nat)
    ensures k <= |list| && k <= per
    ensures forall t :: t in desired <==> t in before || t in list[..k]
    ensures |before| <= |desired| <= Max(|before|, budget)
    ensures k == |list| || k == per || |desired| >= budget
    ensures list != [] && per >= 1 && budget >= 1 ==> desired != {}
  {
    desired, k := before, 0;
    var take := per;
    while k < |list| && take > 0 && (|desired| < budget || list[k] in desired)
      invariant k <= |list| && 0 <= take && take + k == per
      invariant forall t :: t in desired <==> t in before || t in list[..k]
      invariant |before| <= |desired| <= Max(|before|, budget)
      invariant k >= 1 ==> desired != {}
    {
      CountOneMore(desired, list[k]);
      desired := desired + {list[k]};
      take := take - 1;
      k := k + 1;
    }
  }

  // ---- what was chosen ----

  /** `prefix` says how many threads were taken from the list of each process. */
  ghost predicate Prefixes(byProc: map<nat, seq<nat>>, prefix: map<nat, nat>, per: nat) {
    forall p :: p in prefix ==> p in byProc && prefix[p] <= |byProc[p]| && prefix[p] <= per
  }

  ghost predicate TakenFrom(owner: map<nat, nat>, byProc: map<nat, seq<nat>>, prefix: map<nat, nat>, t: nat) {
    t in owner && owner[t] in prefix && owner[t] in byProc
    && exists i :: 0 <= i < prefix[owner[t]] && i < |byProc[owner[t]]| && byProc[owner[t]][i] == t
  }

  ghost predicate Exhausted(list: seq<nat>, k: nat, per: nat, desired: set<nat>, budget: nat) {
    k == |list| || k == per || |desired| >= budget
  }

  ghost predicate Taken(owner: map<nat, nat>, byProc: map<nat, seq<nat>>, prefix: map<nat, nat>,
                        pinned: set<nat>, per: nat, budget: nat, desired: set<nat>) {
    && Prefixes(byProc, prefix, per)
    && (forall t :: t in desired <==> t in pinned || TakenFrom(owner, byProc, prefix, t))
    && (forall p :: p in prefix ==> Exhausted(byProc[p], prefix[p], per, desired, budget))
    && |pinned| <= |desired| <= Max(|pinned|, budget)
  }

  /** One more process, a prefix of its threads added to what was taken before. */
  lemma {:induction false} TakenOneMore(
      owner: map<nat, nat>, byProc: map<nat, seq<nat>>, prefix: map<nat, nat>, pinned: set<nat>,
      per: nat, budget: nat, before: set<nat>, p: nat, k: nat, desired: set<nat>)
    requires ByProcess(owner, byProc) && Taken(owner, byProc, prefix, pinned, per, budget, before)
    requires p in byProc && p !in prefix && k <= |byProc[p]| && k <= per
    requires forall t :: t in desired <==> t in before || t in byProc[p][..k]
    requires |before| <= |desired| <= Max(|before|, budget) && Exhausted(byProc[p], k, per, desired, budget)
    ensures Taken(owner, byProc, prefix[p := k], pinned, per, budget, desired)
  {
    forall t
      ensures t in desired <==> t in pinned || TakenFrom(owner, byProc, prefix[p := k], t)
    {
      assert t in byProc[p][..k] <==> exists i :: 0 <= i < k && byProc[p][i] == t;
    }
  }

  predicate Selected(pstate: map<nat, ProcState>, p: nat) {
    p in pstate && (pstate[p].member || pstate[p].pinned)
  }

  method ChooseThreads(pstate: map<nat, ProcState>, ghost owner: map<nat, nat>,
                       byProc: map<nat, seq<nat>>, pinned: set<nat>, per: nat, budget: nat)
    returns (desired: set<nat>, ghost prefix: map<nat, nat>)
    requires ByProcess(owner, byProc) && per >= 1 && budget >= 1
    ensures Taken(owner, byProc, prefix, pinned, per, budget, desired)
    ensures forall p :: p in prefix <==> p in byProc && Selected(pstate, p)
    ensures desired == {} <==> pinned == {} && forall p :: p in byProc ==> !Selected(pstate, p)
  {
    desired, prefix := pinned, map[];
    var rest := pstate.Keys;
    while rest != {}
      invariant rest <= pstate.Keys
      invariant Taken(owner, byProc, prefix, pinned, per, budget, desired)
      invariant forall p :: p in prefix <==> p in byProc && p !in rest && Selected(pstate, p)
      invariant prefix.Keys != {} ==> desired != {}
    {
      var p :| p in rest;
      rest := rest - {p};
      if (pstate[p].pinned || pstate[p].member) && p in byProc {
        var before, k := desired, 0;
        desired, k := TakeThreads(byProc[p], before, per, budget);
        TakenOneMore(owner, byProc, prefix, pinned, per, budget, before, p, k, desired);
        prefix := prefix[p := k];
      }
    }
  }

  // ---- what that means ----

  function OfProcess(threads: set<nat>, owner: map<nat, nat>, p: nat): set<nat> {
    set t | t in threads && t in owner && owner[t] == p
  }

  /** What a reader expects of the chosen threads. */
  ghost predicate GoodChoice(selected: set<nat>, owner: map<nat, nat>, score: map<nat, real>,
                             pinned: set<nat>, per: nat, budget: nat, desired: set<nat>)
    requires owner.Keys == score.Keys
  {
    && pinned <= desired && |desired| <= Max(|pinned|, budget)
    && (forall t :: t in desired - pinned ==> t in owner && owner[t] in selected)
    && (forall p :: |OfProcess(desired - pinned, owner, p)| <= per)
    && (forall t, u :: t in desired - pinned && u in owner.Keys - desired && owner[t] == owner[u] ==>
                         score[t] >= score[u])
    && (forall u :: u in owner.Keys - desired && owner[u] in selected ==>
                      |desired| >= budget || |OfProcess(desired, owner, owner[u])| >= per)
  }

  /** The threads taken from a process are a prefix of its list. */
  lemma {:induction false} TakenFromProcess(
      owner: map<nat, nat>, byProc: map<nat, seq<nat>>, prefix: map<nat, nat>,
                         pinned: set<nat>, per: nat, budget: nat, desired: set<nat>, p: nat)
    requires ByProcess(owner, byProc) && Taken(owner, byProc, prefix, pinned, per, budget, desired)
    ensures |OfProcess(desired - pinned, owner, p)| <= if p in prefix then prefix[p] else 0
    ensures p in prefix ==> |OfProcess(desired, owner, p)| >= prefix[p]
  {
    var unpinned, all := OfProcess(desired - pinned, owner, p), OfProcess(desired, owner, p);
    if p in prefix {
      var list := byProc[p][..prefix[p]];
      var chosen := Members(list);
      assert ListsProcess(owner, byProc[p], p);
      DistinctSize(list);
      assert unpinned <= chosen by {
        forall t | t in unpinned
          ensures t in chosen
        {
          var i :| 0 <= i < prefix[p] && byProc[p][i] == t;
          assert list[i] == t;
        }
      }
      assert chosen <= all by {
        forall t | t in chosen
          ensures t in all
        {
          var i :| 0 <= i < |list| && list[i] == t;
          assert byProc[p][i] == t;
        }
      }
      SubsetSize(unpinned, chosen);
      SubsetSize(chosen, all);
    } else {
      assert unpinned == {};
    }
  }

  /** Within a process, no thread left out scores above one taken. */
  lemma {:induction false} TakenScoreHighest(
      owner: map<nat, nat>, score: map<nat, real>, byProc: map<nat, seq<nat>>,
                          prefix: map<nat, nat>, pinned: set<nat>, per: nat, budget: nat,
                          desired: set<nat>, t: nat, u: nat)
    requires owner.Keys == score.Keys && ByProcess(owner, byProc) && Ordered(byProc, score)
    requires Taken(owner, byProc, prefix, pinned, per, budget, desired)
    requires t in desired - pinned && u in owner.Keys - desired && owner[t] == owner[u]
    ensures score[t] >= score[u]
  {
    var p := owner[t];
    var list := byProc[p];
    var i :| 0 <= i < prefix[p] && i < |list| && list[i] == t;
    var j :| 0 <= j < |list| && list[j] == u;
    assert Negated(score)(list[i]) <= Negated(score)(list[j]);
  }

  /** A thread of a selected process is left out only when its process has its share already or the
      budget is spent. */
  lemma {:induction false} LeftOutForAReason(
      owner: map<nat, nat>, byProc: map<nat, seq<nat>>, prefix: map<nat, nat>,
                          pinned: set<nat>, per: nat, budget: nat, desired: set<nat>, u: nat)
    requires ByProcess(owner, byProc) && Taken(owner, byProc, prefix, pinned, per, budget, desired)
    requires u in owner.Keys - desired && owner[u] in prefix
    ensures |desired| >= budget || |OfProcess(desired, owner, owner[u])| >= per
  {
    var p := owner[u];
    TakenFromProcess(owner, byProc, prefix, pinned, per, budget, desired, p);
  }

  lemma {:induction false} TakenIsAGoodChoice(
      owner: map<nat, nat>, score: map<nat, real>, byProc: map<nat, seq<nat>>,
                           prefix: map<nat, nat>, pinned: set<nat>, per: nat, budget: nat,
                           desired: set<nat>, selected: set<nat>)
    requires owner.Keys == score.Keys && ByProcess(owner, byProc) && Ordered(byProc, score)
    requires Taken(owner, byProc, prefix, pinned, per, budget, desired)
    requires forall p :: p in byProc ==> (p in prefix <==> p in selected)
    ensures GoodChoice(selected, owner, score, pinned, per, budget, desired)
  {
    forall p
      ensures |OfProcess(desired - pinned, owner, p)| <= per
    {
      TakenFromProcess(owner, byProc, prefix, pinned, per, budget, desired, p);
    }
    forall t, u | t in desired - pinned && u in owner.Keys - desired && owner[t] == owner[u]
      ensures score[t] >= score[u]
    {
      TakenScoreHighest(owner, score, byProc, prefix, pinned, per, budget, desired, t, u);
    }
    forall u | u in owner.Keys - desired && owner[u] in selected
      ensures |desired| >= budget || |OfProcess(desired, owner, owner[u])| >= per
    {
      LeftOutForAReason(owner, byProc, prefix, pinned, per, budget, desired, u);
    }
  }
}
