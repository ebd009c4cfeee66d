/** Process-level hysteresis of the target selector (src/collect/target_selector.cpp, step 7 of
    Evaluate): a rank band, streaks of evaluations outside it, and a minimum residency. What one
    evaluation does to one process, and what that means over whole runs. */
module Hysteresis {
  import opened Arith

  /** The rank of a process that was not observed. */
  const UNRANKED: nat := 0xFFFF_FFFF

  datatype Band = Band(enterRank: nat, leaveRank: nat, holdPeriods: nat, minResidencyNs: nat)

  /** What configuration sanitising guarantees. */
  ghost predicate ValidBand(b: Band) {
    1 <= b.enterRank <= b.leaveRank < UNRANKED && b.holdPeriods >= 1
  }

  datatype ProcState = ProcState(member: bool, pinned: bool, good: nat, bad: nat, joinedNs: nat)

  function Fresh(): ProcState {
    ProcState(false, false, 0, 0, 0)
  }

  /** Unsigned 64-bit difference of two clock readings. */
  function Elapsed(now: nat, since: nat): nat
    requires now < U64 && since < U64
  {
    if now >= since then now - since else now + U64 - since
  }

  /** The streaks after one more rank: a member counts ranks beyond `leaveRank`, another process
      counts ranks within `enterRank`. */
  function Counted(b: Band, st: ProcState, rank: nat): ProcState {
    if st.member then st.(bad := if rank > b.leaveRank then st.bad + 1 else 0)
    else st.(good := if rank <= b.enterRank then st.good + 1 else 0)
  }

  predicate WantsOut(b: Band, st: ProcState, now: nat)
    requires now < U64 && st.joinedNs < U64
  {
    st.member && st.bad >= b.holdPeriods && Elapsed(now, st.joinedNs) >= b.minResidencyNs
  }

  predicate WantsIn(b: Band, st: ProcState) {
    !st.member && st.good >= b.holdPeriods
  }

  function Left(st: ProcState): ProcState {
    st.(member := false, bad := 0)
  }

  function Joined(st: ProcState, now: nat): ProcState {
    st.(member := true, good := 0, joinedNs := now)
  }

  /** The fallback admits the top-ranked process without touching its streaks. */
  function FellBack(st: ProcState, now: nat): ProcState {
    st.(member := true, joinedNs := now)
  }

  /** What an evaluation may do to a process: pinned processes are left alone; a process that wants
      in is admitted or not, as the budget has it. */
  ghost predicate Ordinary(b: Band, st: ProcState, st': ProcState, rank: nat, now: nat)
    requires now < U64
  {
    if st.pinned then st' == st
    else
      var s1 := Counted(b, st, rank);
      s1.joinedNs < U64 &&
      if WantsOut(b, s1, now) then st' == Left(s1)
      else st' == s1 || (WantsIn(b, s1) && st' == Joined(s1, now))
  }

  /** One process's view of an evaluation. */
  datatype Eval = Eval(rank: nat, now: nat, fallback: bool)

  ghost predicate EvalStep(b: Band, st: ProcState, st': ProcState, e: Eval)
    requires e.now < U64
  {
    if e.fallback then
      e.rank == 1 &&
      (exists mid :: Ordinary(b, st, mid, e.rank, e.now) && !mid.member && !mid.pinned
                     && st' == FellBack(mid, e.now))
    else Ordinary(b, st, st', e.rank, e.now)
  }

  // ---- runs ----

  ghost predicate Stamped(evals: seq<Eval>) {
    forall i :: 0 <= i < |evals| ==> evals[i].now < U64
  }

  ghost predicate Monotone(evals: seq<Eval>) {
    forall i, j :: 0 <= i < j < |evals| ==> evals[i].now <= evals[j].now
  }

  /** The states of one process, before and after every evaluation of a run. */
  ghost predicate Path(b: Band, path: seq<ProcState>, evals: seq<Eval>) {
    && |path| == |evals| + 1 && Stamped(evals)
    && forall i :: 0 <= i < |evals| ==> EvalStep(b, path[i], path[i + 1], evals[i])
  }

  ghost predicate NoFallback(evals: seq<Eval>) {
    forall i :: 0 <= i < |evals| ==> !evals[i].fallback
  }

  ghost predicate FlipAt(path: seq<ProcState>, i: int) {
    0 <= i < |path| - 1 && path[i].member != path[i + 1].member
  }

  ghost predicate JoinAt(path: seq<ProcState>, i: int) {
    FlipAt(path, i) && path[i + 1].member
  }

  ghost predicate LeaveAt(path: seq<ProcState>, i: int) {
    FlipAt(path, i) && path[i].member
  }

  /** An unpinned process that is not a member has no bad streak. */
  ghost predicate NoBadStreak(st: ProcState) {
    !st.pinned && (st.member || st.bad == 0)
  }

  lemma {:induction false} NoBadStreaks(b: Band, path: seq<ProcState>, evals: seq<Eval>, n: nat)
    requires Path(b, path, evals) && NoBadStreak(path[0]) && n < |path|
    ensures NoBadStreak(path[n])
  {
    if n > 0 {
      NoBadStreaks(b, path, evals, n - 1);
      assert EvalStep(b, path[n - 1], path[n], evals[n - 1]);
    }
  }

  /** A bad streak of k counts the last k ranks, all beyond the band, all while a member. */
  lemma {:induction false} BadStreakCountsRanks(b: Band, path: seq<ProcState>, evals: seq<Eval>, n: nat)
    requires Path(b, path, evals) && path[0] == Fresh() && n < |path|
    ensures path[n].member ==> path[n].bad <= n
    ensures path[n].member ==> forall e :: n - path[n].bad <= e < n ==>
              path[e].member && evals[e].rank > b.leaveRank
  {
    if n > 0 {
      NoBadStreaks(b, path, evals, n - 1);
      BadStreakCountsRanks(b, path, evals, n - 1);
      assert EvalStep(b, path[n - 1], path[n], evals[n - 1]);
    }
  }

  /** A member admitted by rank has no good streak; another process's good streak of k counts the
      last k ranks, all within the band, all while not a member. */
  lemma {:induction false} GoodStreakCountsRanks(b: Band, path: seq<ProcState>, evals: seq<Eval>, n: nat)
    requires Path(b, path, evals) && NoFallback(evals) && path[0] == Fresh() && n < |path|
    ensures path[n].good <= n && (path[n].member ==> path[n].good == 0)
    ensures forall e :: n - path[n].good <= e < n ==>
              !path[e].member && evals[e].rank <= b.enterRank
  {
    if n > 0 {
      NoBadStreaks(b, path, evals, n - 1);
      GoodStreakCountsRanks(b, path, evals, n - 1);
      assert EvalStep(b, path[n - 1], path[n], evals[n - 1]);
    }
  }

  /** Leaving takes `holdPeriods` consecutive ranks beyond the band, all as a member, however the
      process had joined: by rank or by the fallback. */
  lemma {:induction false} LeaveTakesAHold(b: Band, path: seq<ProcState>, evals: seq<Eval>, j: int)
    requires ValidBand(b) && Path(b, path, evals) && path[0] == Fresh() && LeaveAt(path, j)
    ensures j + 1 >= b.holdPeriods
    ensures forall e :: j - b.holdPeriods < e <= j ==> path[e].member && evals[e].rank > b.leaveRank
  {
    NoBadStreaks(b, path, evals, j);
    BadStreakCountsRanks(b, path, evals, j);
    assert EvalStep(b, path[j], path[j + 1], evals[j]);
  }

  /** Joining takes `holdPeriods` consecutive ranks within the band, none as a member. */
  lemma {:induction false} JoinTakesAHold(b: Band, path: seq<ProcState>, evals: seq<Eval>, j: int)
    requires ValidBand(b) && Path(b, path, evals) && NoFallback(evals)
    requires path[0] == Fresh() && JoinAt(path, j)
    ensures j + 1 >= b.holdPeriods
    ensures forall e :: j - b.holdPeriods < e <= j ==> !path[e].member && evals[e].rank <= b.enterRank
  {
    NoBadStreaks(b, path, evals, j);
    GoodStreakCountsRanks(b, path, evals, j);
    assert EvalStep(b, path[j], path[j + 1], evals[j]);
  }

  /** Membership never flaps: two flips are at least `holdPeriods` evaluations apart. */
  lemma {:induction false} FlipsAreAHoldApart(b: Band, path: seq<ProcState>, evals: seq<Eval>, i: int, j: int)
    requires ValidBand(b) && Path(b, path, evals) && NoFallback(evals) && path[0] == Fresh()
    requires FlipAt(path, i) && FlipAt(path, j) && i < j
    ensures j - i >= b.holdPeriods
  {
    if path[j].member {
      LeaveTakesAHold(b, path, evals, j);
    } else {
      JoinTakesAHold(b, path, evals, j);
    }
  }

  // ---- residency ----

  /** A member joined at some evaluation, has stayed since, and remembers when. */
  lemma {:induction false} MemberSince(b: Band, path: seq<ProcState>, evals: seq<Eval>, n: nat)
      returns (i: int)
    requires ValidBand(b) && Path(b, path, evals) && path[0] == Fresh() && n < |path| && path[n].member
    ensures i < n && JoinAt(path, i) && path[n].joinedNs == evals[i].now
    ensures forall e :: i < e <= n ==> path[e].member
  {
    NoBadStreaks(b, path, evals, n - 1);
    assert EvalStep(b, path[n - 1], path[n], evals[n - 1]);
    if path[n - 1].member {
      i := MemberSince(b, path, evals, n - 1);
    } else {
      i := n - 1;
    }
  }

  /** Leaving also takes the minimum residency, counted from the join that began the membership. */
  lemma {:induction false} LeaveTakesTheResidency(b: Band, path: seq<ProcState>, evals: seq<Eval>, j: int)
      returns (i: int)
    requires ValidBand(b) && Path(b, path, evals) && Monotone(evals)
    requires path[0] == Fresh() && LeaveAt(path, j)
    ensures i < j && JoinAt(path, i)
    ensures forall e :: i < e <= j ==> path[e].member
    ensures evals[j].now - evals[i].now >= b.minResidencyNs
  {
    i := MemberSince(b, path, evals, j);
    NoBadStreaks(b, path, evals, j);
    assert EvalStep(b, path[j], path[j + 1], evals[j]);
    assert evals[i].now <= evals[j].now;
  }

  /** Leaving, in one statement: the join it ends is a hold and the minimum residency earlier, and all
      ranks of the last hold are beyond the band. */
  lemma {:induction false} LeaveIsEarned(
      b: Band, path: seq<ProcState>, evals: seq<Eval>, j: int) returns (i: int)
    requires ValidBand(b) && Path(b, path, evals) && Monotone(evals)
    requires path[0] == Fresh() && LeaveAt(path, j)
    ensures 0 <= i <= j - b.holdPeriods && JoinAt(path, i)
    ensures evals[j].now - evals[i].now >= b.minResidencyNs
    ensures forall e :: 0 <= e && j - b.holdPeriods < e <= j ==> evals[e].rank > b.leaveRank
  {
    i := LeaveTakesTheResidency(b, path, evals, j);
    LeaveTakesAHold(b, path, evals, j);
  }

  // ---- what is earned does happen ----

  /** As long as it stays a member, `k` ranks beyond the band in a row are a streak of `k` at least. */
  lemma {:induction false} BadRanksAreCounted(b: Band, path: seq<ProcState>, evals: seq<Eval>, n: nat, k: nat)
    requires ValidBand(b) && Path(b, path, evals) && path[0] == Fresh() && k <= n < |path| && path[n].member
    requires forall e :: n - k <= e < n ==> path[e].member && evals[e].rank > b.leaveRank
    ensures path[n].bad >= k
  {
    if k > 0 {
      BadRanksAreCounted(b, path, evals, n - 1, k - 1);
      NoBadStreaks(b, path, evals, n - 1);
      assert EvalStep(b, path[n - 1], path[n], evals[n - 1]);
    }
  }

  lemma {:induction false} GoodRanksAreCounted(b: Band, path: seq<ProcState>, evals: seq<Eval>, n: nat, k: nat)
    requires ValidBand(b) && Path(b, path, evals) && path[0] == Fresh() && k <= n < |path| && !path[n].member
    requires forall e :: n - k <= e < n ==> !path[e].member && evals[e].rank <= b.enterRank
    ensures path[n].good >= k
  {
    if k > 0 {
      GoodRanksAreCounted(b, path, evals, n - 1, k - 1);
      NoBadStreaks(b, path, evals, n - 1);
      assert EvalStep(b, path[n - 1], path[n], evals[n - 1]);
    }
  }

  /** A process that joined at `i` and has been a member since leaves at `j` if and only if its ranks have
      been beyond the band for a whole hold, and the minimum residency has passed. */
  lemma {:induction false} LeavesIffEarned(b: Band, path: seq<ProcState>, evals: seq<Eval>, i: nat, j: nat)
    requires ValidBand(b) && Path(b, path, evals) && Monotone(evals) && path[0] == Fresh()
    requires JoinAt(path, i) && i < j < |evals| && forall e :: i < e <= j ==> path[e].member
    ensures LeaveAt(path, j) <==>
            && j - i >= b.holdPeriods && evals[j].now - evals[i].now >= b.minResidencyNs
            && forall e :: j - b.holdPeriods < e <= j ==> evals[e].rank > b.leaveRank
  {
    if LeaveAt(path, j) {
      LeaveTakesAHold(b, path, evals, j);
      var since := LeaveTakesTheResidency(b, path, evals, j);
      assert since == i;
    } else if j - i >= b.holdPeriods && forall e :: j - b.holdPeriods < e <= j ==> evals[e].rank > b.leaveRank {
      var since := MemberSince(b, path, evals, j);
      assert since == i;
      BadRanksAreCounted(b, path, evals, j, b.holdPeriods - 1);
      NoBadStreaks(b, path, evals, j);
      assert evals[j].rank > b.leaveRank;
      assert EvalStep(b, path[j], path[j + 1], evals[j]);
    }
  }

  // ---- how often membership can change ----

  function Flips(path: seq<ProcState>): nat {
    if |path| < 2 then 0
    else
      var n := |path| - 1;
      Flips(path[..n]) + if path[n - 1].member != path[n].member then 1 else 0
  }

  /** Evaluations already counted towards the next flip, of the `holdPeriods` it takes. */
  function Progress(b: Band, st: ProcState): int {
    var streak := if st.member then st.bad else st.good;
    if streak < b.holdPeriods then streak else b.holdPeriods - 1
  }

  /** A state reached without the fallback. */
  ghost predicate Tidy(st: ProcState) {
    NoBadStreak(st) && (st.member ==> st.good == 0)
  }

  /** Every flip uses up `holdPeriods` evaluations, in any stretch of a run without the fallback. */
  lemma {:induction false} FlipsUseUpEvaluations(b: Band, path: seq<ProcState>, evals: seq<Eval>)
    requires ValidBand(b) && Path(b, path, evals) && NoFallback(evals) && Tidy(path[0])
    ensures Tidy(path[|evals|])
    ensures Flips(path) * b.holdPeriods + Progress(b, path[|evals|]) <= |evals| + Progress(b, path[0])
  {
    var n := |evals|;
    if n > 0 {
      FlipsUseUpEvaluations(b, path[..n], evals[..n - 1]);
      assert path[..n][n - 1] == path[n - 1];
      assert EvalStep(b, path[n - 1], path[n], evals[n - 1]);
      assert (Flips(path[..n]) + 1) * b.holdPeriods == Flips(path[..n]) * b.holdPeriods + b.holdPeriods;
    }
  }

  /** A stretch of n evaluations has at most floor((n - 1) / holdPeriods) + 1 flips. */
  lemma {:induction false} FewFlips(b: Band, path: seq<ProcState>, evals: seq<Eval>)
    requires ValidBand(b) && Path(b, path, evals) && NoFallback(evals) && Tidy(path[0])
    requires |evals| >= 1
    ensures Flips(path) <= (|evals| - 1) / b.holdPeriods + 1
    ensures path[0] == Fresh() ==> Flips(path) <= |evals| / b.holdPeriods
  {
    FlipsUseUpEvaluations(b, path, evals);
    AtMostTheQuotient(Flips(path), b.holdPeriods, |evals|);
  }

  lemma {:induction false} AtMostTheQuotient(k: nat, d: nat, n: nat)
    requires d >= 1 && n >= 1 && k * d <= n + d - 1
    ensures k <= (n - 1) / d + 1
    ensures k * d <= n ==> k <= n / d
  {
    QuotientIsTheLargest(k - 1, d, n - 1);
    QuotientIsTheLargest(k, d, n);
  }

  lemma {:induction false} QuotientIsTheLargest(k: int, d: nat, n: nat)
    requires d >= 1
    ensures k * d <= n ==> k <= n / d
  {
    var q := n / d;
    assert n == q * d + n % d;
    if k > q {
      MulMono(q + 1, k, d);
    }
  }

  // ---- what the fallback changes ----

  /** The fallback admits a process without clearing its good streak, which then survives the membership
      and counts towards the next one: what is left of the hold, but one evaluation at least. */
  function RestOfHold(b: Band, st: ProcState): (n: nat)
    ensures n >= 1
  {
    if st.good + 1 < b.holdPeriods then b.holdPeriods - st.good else 1
  }

  /** No process that left is back, without the fallback, before the rest of its hold has passed. */
  lemma {:induction false} RejoiningAfterAFallback(
      b: Band, path: seq<ProcState>, evals: seq<Eval>, i: nat, j: nat)
    requires ValidBand(b) && Path(b, path, evals) && path[0] == Fresh()
    requires LeaveAt(path, i) && i < j && JoinAt(path, j) && !evals[j].fallback
    requires forall e :: i < e <= j ==> !path[e].member
    ensures j - i >= RestOfHold(b, path[i + 1])
    ensures path[i].good == 0 ==> j - i >= b.holdPeriods
  {
    GoodStreakGrows(b, path, evals, i, j);
    NoBadStreaks(b, path, evals, i);
    NoBadStreaks(b, path, evals, j);
    assert EvalStep(b, path[i], path[i + 1], evals[i]);
    assert EvalStep(b, path[j], path[j + 1], evals[j]);
  }

  lemma {:induction false} GoodStreakGrows(b: Band, path: seq<ProcState>, evals: seq<Eval>, i: nat, n: nat)
    requires ValidBand(b) && Path(b, path, evals) && path[0] == Fresh() && i < n < |path|
    requires forall e :: i < e <= n ==> !path[e].member
    ensures path[n].good <= path[i + 1].good + (n - i - 1)
    decreases n - i
  {
    if n > i + 1 {
      GoodStreakGrows(b, path, evals, i, n - 1);
      NoBadStreaks(b, path, evals, n - 1);
      assert EvalStep(b, path[n - 1], path[n], evals[n - 1]);
    }
  }

  /** Evaluation `e` ranks the process within the band, does not fall back on it, and admits it if it
      is due. */
  ghost predicate Favourable(b: Band, path: seq<ProcState>, evals: seq<Eval>, e: nat)
    requires e < |evals| && |path| == |evals| + 1
  {
    && !evals[e].fallback && evals[e].rank <= b.enterRank
    && (WantsIn(b, Counted(b, path[e], evals[e].rank)) ==> path[e + 1].member)
  }

  /** And it is back exactly then, if it ranks within the band and is admitted when due. */
  lemma {:induction false} RejoinsAfterTheRest(b: Band, path: seq<ProcState>, evals: seq<Eval>, i: nat)
    requires ValidBand(b) && Path(b, path, evals) && path[0] == Fresh() && LeaveAt(path, i)
    requires i + RestOfHold(b, path[i + 1]) < |evals|
    requires forall e :: i < e <= i + RestOfHold(b, path[i + 1]) ==> Favourable(b, path, evals, e)
    ensures JoinAt(path, i + RestOfHold(b, path[i + 1]))
    ensures forall e :: i < e <= i + RestOfHold(b, path[i + 1]) ==> !path[e].member
  {
    var rest := RestOfHold(b, path[i + 1]);
    forall e | i < e <= i + rest
      ensures !path[e].member
    {
      OutUntilTheRest(b, path, evals, i, e);
    }
    OutUntilTheRest(b, path, evals, i, i + rest);
    NoBadStreaks(b, path, evals, i + rest);
    assert Favourable(b, path, evals, i + rest);
    assert EvalStep(b, path[i + rest], path[i + rest + 1], evals[i + rest]);
  }

  lemma {:induction false} OutUntilTheRest(b: Band, path: seq<ProcState>, evals: seq<Eval>, i: nat, e: nat)
    requires ValidBand(b) && Path(b, path, evals) && path[0] == Fresh() && LeaveAt(path, i)
    requires i < e <= i + RestOfHold(b, path[i + 1]) < |evals|
    requires forall e :: i < e <= i + RestOfHold(b, path[i + 1]) ==> Favourable(b, path, evals, e)
    ensures !path[e].member && path[e].good == path[i + 1].good + (e - i - 1)
  {
    if e > i + 1 {
      OutUntilTheRest(b, path, evals, i, e - 1);
      NoBadStreaks(b, path, evals, e - 1);
      assert Favourable(b, path, evals, e - 1);
      assert EvalStep(b, path[e - 1], path[e], evals[e - 1]);
    }
  }
}
