/** The BASE/DEEP phase machine: PhaseManager of src/phase_manager.cpp on top of the entry and exit of
    the deep collector (src/collect/deep_collector.cpp). The model's verdicts, the clock and the
    outcomes of attaching and opening are inputs; writes to kernel maps succeed. */
module Phases {
  datatype Phase = BASE | DEEP

  datatype Indicator = Indicator(kind: string, confidence: real)

  /** What the anomaly model says, or that it failed. */
  datatype Inference = Threw | Verdict(anomaly: bool, indicator: Indicator)

  datatype Config = Config(postSeconds: nat, debounceSamples: nat)

  // ---- ticks of one episode ----

  /** A tick in DEEP: what the model said, and how many quiet ticks were asked for. */
  datatype Tick = Tick(now: nat, inference: Inference, need: nat)

  /** A model that failed has found nothing. */
  predicate Found(t: Tick) {
    match t.inference
    case Threw => false
    case Verdict(anomaly, _) => anomaly
  }

  /** Quiet ticks at the end. */
  function Trailing(ticks: seq<Tick>): (n: nat)
    ensures n <= |ticks|
  {
    if ticks == [] || Found(ticks[|ticks| - 1]) then 0 else Trailing(ticks[..|ticks| - 1]) + 1
  }

  /** The recorded end: set by the first tick that completes a quiet run, to where the run began. */
  function EndStamp(ticks: seq<Tick>): nat {
    if ticks == [] then 0
    else
      var n := |ticks| - 1;
      var before := EndStamp(ticks[..n]);
      if before != 0 then before
      else if !Found(ticks[n]) && Trailing(ticks) >= ticks[n].need then ticks[|ticks| - Trailing(ticks)].now
      else 0
  }

  function Indicators(ticks: seq<Tick>): seq<Indicator> {
    if ticks == [] then []
    else
      var n := |ticks| - 1;
      Indicators(ticks[..n]) + if Found(ticks[n]) then [ticks[n].inference.indicator] else []
  }

  /** `listed` are the indicators of the anomalous verdicts, those of the ticks `js`, in order. */
  ghost predicate ListsAnomalous(ticks: seq<Tick>, js: seq<nat>, listed: seq<Indicator>) {
    && (forall i, j :: 0 <= i < j < |js| ==> js[i] < js[j])
    && (forall j: nat :: j in js <==> j < |ticks| && ticks[j].inference.Verdict? && ticks[j].inference.anomaly)
    && AreOf(ticks, js, listed)
  }

  ghost predicate AreOf(ticks: seq<Tick>, js: seq<nat>, listed: seq<Indicator>) {
    && |listed| == |js|
    && forall i :: 0 <= i < |js| ==> js[i] < |ticks| && ticks[js[i]].inference == Verdict(true, listed[i])
  }

  lemma {:induction false} OneMoreIndicator(ticks: seq<Tick>, js: seq<nat>, listed: seq<Indicator>, t: Tick)
    requires AreOf(ticks, js, listed)
    ensures AreOf(ticks + [t], js, listed)
    ensures Found(t) ==> AreOf(ticks + [t], js + [|ticks|], listed + [t.inference.indicator])
  {
  }

  lemma {:induction false} IndicatorsAreTheAnomalous(ticks: seq<Tick>) returns (js: seq<nat>)
    ensures ListsAnomalous(ticks, js, Indicators(ticks))
  {
    js := [];
    if ticks != [] {
      var n := |ticks| - 1;
      var before := IndicatorsAreTheAnomalous(ticks[..n]);
      js := OneMoreListed(ticks[..n], before, Indicators(ticks[..n]), ticks[n]);
      assert ticks[..n] + [ticks[n]] == ticks;
    }
  }

  lemma {:induction false} OneMoreListed(ticks: seq<Tick>, before: seq<nat>, listed: seq<Indicator>, t: Tick)
    returns (js: seq<nat>)
    requires ListsAnomalous(ticks, before, listed)
    ensures ListsAnomalous(ticks + [t], js, listed + if Found(t) then [t.inference.indicator] else [])
  {
    var n := |ticks|;
    js := if Found(t) then before + [n] else before;
    assert forall i :: 0 <= i < |before| ==> before[i] in before && before[i] < n;
    forall j: nat
      ensures j in js <==> j <= n && (ticks + [t])[j].inference.Verdict? && (ticks + [t])[j].inference.anomaly
    {
      assert j in js <==> j in before || (j == n && Found(t));
    }
    OneMoreIndicator(ticks, before, listed, t);
    assert listed + [] == listed;
  }

  /** `need` quiet ticks in a row from tick `i` on. */
  ghost predicate QuietFrom(ticks: seq<Tick>, i: nat, need: nat) {
    && i + need <= |ticks|
    && forall k :: i <= k < i + need ==> ticks[k].inference.Threw? || !ticks[k].inference.anomaly
  }

  ghost predicate Fixed(ticks: seq<Tick>, need: nat) {
    need >= 1 && forall k :: 0 <= k < |ticks| ==> ticks[k].need == need && ticks[k].now > 0
  }

  /** The quiet run that is counted: the failed or negative verdicts since the last anomaly. */
  lemma {:induction false} TrailingIsARun(ticks: seq<Tick>)
    ensures QuietFrom(ticks, |ticks| - Trailing(ticks), Trailing(ticks))
    ensures Trailing(ticks) < |ticks| ==>
              var last := ticks[|ticks| - Trailing(ticks) - 1].inference;
              last.Verdict? && last.anomaly
  {
    if ticks != [] && !Found(ticks[|ticks| - 1]) {
      var n := |ticks| - 1;
      TrailingIsARun(ticks[..n]);
    }
  }

  lemma {:induction false} TrailingCoversARun(ticks: seq<Tick>, i: nat)
    requires i <= |ticks| && QuietFrom(ticks, i, |ticks| - i)
    ensures Trailing(ticks) >= |ticks| - i
  {
    if i < |ticks| {
      var n := |ticks| - 1;
      assert !Found(ticks[n]);
      assert QuietFrom(ticks[..n], i, n - i);
      TrailingCoversARun(ticks[..n], i);
    }
  }

  /** Under a fixed configuration the recorded end is the first tick from which on there were enough
      quiet ticks in a row; no end is recorded while there is none. */
  lemma {:induction false} EndIsFirstQuietRun(ticks: seq<Tick>, need: nat)
    requires Fixed(ticks, need)
    ensures EndStamp(ticks) != 0 ==> exists i: nat :: FirstQuiet(ticks, i, need) && EndStamp(ticks) == ticks[i].now
    ensures EndStamp(ticks) == 0 ==> NoneQuiet(ticks, need)
  {
    if ticks != [] {
      var n := |ticks| - 1;
      var before := ticks[..n];
      EndIsFirstQuietRun(before, need);
      TrailingIsARun(ticks);
      if EndStamp(before) != 0 {
        var i: nat :| FirstQuiet(before, i, need) && EndStamp(before) == before[i].now;
        StaysFirst(ticks, i, need);
      } else {
        CompletedNow(ticks, need);
      }
    }
  }

  ghost predicate NoneQuiet(ticks: seq<Tick>, need: nat) {
    forall i: nat :: !QuietFrom(ticks, i, need)
  }

  ghost predicate FirstQuiet(ticks: seq<Tick>, i: nat, need: nat) {
    i < |ticks| && QuietFrom(ticks, i, need) && forall k: nat :: k < i ==> !QuietFrom(ticks, k, need)
  }

  lemma {:induction false} StaysFirst(ticks: seq<Tick>, i: nat, need: nat)
    requires ticks != [] && FirstQuiet(ticks[..|ticks| - 1], i, need)
    ensures FirstQuiet(ticks, i, need)
  {
    var before := ticks[..|ticks| - 1];
    forall k: nat | k < i
      ensures !QuietFrom(ticks, k, need)
    {
      assert !QuietFrom(before, k, need);
    }
  }

  /** When no run was complete before the last tick, one is now if and only if the trailing run is long
      enough, and then it is that run. */
  lemma {:induction false} CompletedNow(ticks: seq<Tick>, need: nat)
    requires ticks != [] && Fixed(ticks, need)
    requires NoneQuiet(ticks[..|ticks| - 1], need)
    ensures var t := Trailing(ticks);
            if t >= need then FirstQuiet(ticks, |ticks| - t, need) else NoneQuiet(ticks, need)
  {
    var before, t := ticks[..|ticks| - 1], Trailing(ticks);
    TrailingIsARun(ticks);
    forall i: nat | QuietFrom(ticks, i, need)
      ensures i + need == |ticks| && t >= need
    {
      assert i + need < |ticks| ==> QuietFrom(before, i, need);
      TrailingCoversARun(ticks, i);
    }
    if t >= need {
      assert QuietFrom(ticks, |ticks| - t, need);
    }
  }

  // ---- the log ----

  datatype Summary = Summary(
    ordinal: nat, start: nat, deadline: nat, end: nat, finalised: nat, indicators: seq<Indicator>)

  /** What happened, in order. */
  datatype Event =
    | Failed(ordinal: nat)
    | Entered(ordinal: nat, start: nat, deadline: nat)
    | Finalised(ordinal: nat, summary: Summary, ticks: seq<Tick>)
    | Exited(ordinal: nat)

  ghost predicate Attempt(e: Event) {
    e.Failed? || e.Entered?
  }

  /** The end of an episode: the debounced stamp if there is one, else the time it was finalised. */
  function EndOr(ticks: seq<Tick>, finalised: nat): nat {
    if EndStamp(ticks) != 0 then EndStamp(ticks) else finalised
  }

  /** What a finished episode says about itself is true: the start and the deadline are those of its
      entry, and the end lies between start and finalisation. */
  ghost predicate TrueTo(s: Summary, start: nat, deadline: nat, ticks: seq<Tick>) {
    s.start == start && s.deadline == deadline && s.end == EndOr(ticks, s.finalised)
    && s.start <= s.end <= s.finalised && s.indicators == Indicators(ticks)
  }

  /** A finished episode lists the indicators of the anomalous verdicts it was given, in order. */
  lemma {:induction false} EpisodeListsTheAnomalous(s: Summary, start: nat, deadline: nat, ticks: seq<Tick>)
    returns (js: seq<nat>)
    requires TrueTo(s, start, deadline, ticks)
    ensures ListsAnomalous(ticks, js, s.indicators)
  {
    js := IndicatorsAreTheAnomalous(ticks);
  }

  /** Under a fixed configuration the episode ends where its first long enough quiet run began, and as it
      is finalised if there was none. */
  lemma {:induction false} EpisodeEnds(s: Summary, start: nat, deadline: nat, ticks: seq<Tick>, need: nat)
    requires Fixed(ticks, need) && TrueTo(s, start, deadline, ticks)
    ensures forall i: nat :: FirstQuiet(ticks, i, need) ==> s.end == ticks[i].now
    ensures (forall i: nat :: !QuietFrom(ticks, i, need)) ==> s.end == s.finalised
  {
    EndIsFirstQuietRun(ticks, need);
    forall i: nat, j: nat | FirstQuiet(ticks, i, need) && FirstQuiet(ticks, j, need)
      ensures i == j
    {
    }
  }

  /** What may follow what: every entry is finalised, once, and then left. */
  ghost predicate MayFollow(e: Event, f: Event) {
    match e
    case Entered(o, start, deadline) =>
      f.Finalised? && f.ordinal == o && f.summary.ordinal == o && TrueTo(f.summary, start, deadline, f.ticks)
    case Finalised(o, _, _) => f.Exited? && f.ordinal == o
    case Failed(o) => Attempt(f) && f.ordinal == o + 1
    case Exited(o) => Attempt(f) && f.ordinal == o + 1
  }

  ghost predicate Protocol(log: seq<Event>) {
    && (log != [] ==> Attempt(log[0]) && log[0].ordinal == 1)
    && (forall p :: 0 <= p < |log| - 1 ==> MayFollow(log[p], log[p + 1]))
  }

  function LastOrdinal(log: seq<Event>): nat {
    if log == [] then 0 else log[|log| - 1].ordinal
  }

  ghost predicate AtRest(log: seq<Event>) {
    log == [] || log[|log| - 1].Failed? || log[|log| - 1].Exited?
  }

  lemma {:induction false} ProtocolGrows(log: seq<Event>, e: Event)
    requires Protocol(log)
    requires if log == [] then Attempt(e) && e.ordinal == 1 else MayFollow(log[|log| - 1], e)
    ensures Protocol(log + [e])
  {
  }

  /** Attempts are numbered without repetition. */
  lemma {:induction false} OrdinalsIncrease(log: seq<Event>, p: nat, q: nat)
    requires Protocol(log) && p < q < |log|
    ensures log[p].ordinal <= log[q].ordinal
    ensures Attempt(log[q]) ==> log[p].ordinal < log[q].ordinal
    decreases q - p
  {
    assert MayFollow(log[q - 1], log[q]);
    if p < q - 1 {
      OrdinalsIncrease(log, p, q - 1);
    }
  }

  /** Every successful entry is finalised exactly once, right before its only exit, unless it is still
      going on. */
  lemma {:induction false} EntryIsFinalisedOnce(log: seq<Event>, p: nat)
    requires Protocol(log) && p < |log| && log[p].Entered?
    ensures p + 1 == |log| || (log[p + 1].Finalised?
                              && TrueTo(log[p + 1].summary, log[p].start, log[p].deadline, log[p + 1].ticks))
    ensures forall q :: 0 <= q < |log| && log[q].Finalised? && log[q].ordinal == log[p].ordinal ==> q == p + 1
    ensures forall q :: 0 <= q < |log| && log[q].Exited? && log[q].ordinal == log[p].ordinal ==> q == p + 2
  {
    if p + 1 < |log| {
      assert MayFollow(log[p], log[p + 1]);
    }
    forall q | 0 <= q < |log| && !Attempt(log[q]) && log[q].ordinal == log[p].ordinal
      ensures q == p + 1 || q == p + 2
      ensures log[q].Finalised? ==> q == p + 1
      ensures log[q].Exited? ==> q == p + 2
    {
      if q < p {
        OrdinalsIncrease(log, q, p);
      } else {
        assert MayFollow(log[p], log[p + 1]);
        if q >= p + 2 {
          assert MayFollow(log[p + 1], log[p + 2]);
        }
        if q >= p + 3 {
          assert MayFollow(log[p + 2], log[p + 3]);
          OrdinalsIncrease(log, p + 2, p + 3);
          if q > p + 3 { OrdinalsIncrease(log, p + 3, q); }
        }
      }
    }
  }

  // ---- the machines ----

  /** What the fields of an episode say of its ticks. */
  datatype Progress = Progress(debounce: nat, endTs: nat, indicators: seq<Indicator>)

  function ProgressOf(ticks: seq<Tick>): Progress {
    Progress(Trailing(ticks), EndStamp(ticks), Indicators(ticks))
  }

  ghost predicate TimedBy(ticks: seq<Tick>, debounce: nat, firstFalse: nat, endTs: nat,
                          indicators: seq<Indicator>, start: nat, clock: nat) {
    && Progress(debounce, endTs, indicators) == ProgressOf(ticks)
    && (debounce > 0 ==> firstFalse == ticks[|ticks| - debounce].now)
    && 0 < start <= clock && TicksWithin(ticks, start, clock)
  }

  lemma {:induction false} StartsTimed(now: nat)
    requires now > 0
    ensures TimedBy([], 0, 0, 0, [], now, now)
  {
  }

  lemma {:induction false} AttemptGrows(log: seq<Event>, e: Event)
    requires Protocol(log) && AtRest(log) && Attempt(e) && e.ordinal == LastOrdinal(log) + 1
    ensures Protocol(log + [e]) && LastOrdinal(log + [e]) == e.ordinal
    ensures (log + [e])[|log + [e]| - 1] == e && (e.Failed? ==> AtRest(log + [e]))
  {
    ProtocolGrows(log, e);
  }

  lemma {:induction false} FoundTick(ticks: seq<Tick>, debounce: nat, firstFalse: nat, endTs: nat,
                  indicators: seq<Indicator>, start: nat, clock: nat, t: Tick)
    requires TimedBy(ticks, debounce, firstFalse, endTs, indicators, start, clock)
    requires Found(t) && clock <= t.now
    ensures TimedBy(ticks + [t], 0, 0, endTs, indicators + [t.inference.indicator], start, t.now)
  {
    assert (ticks + [t])[..|ticks|] == ticks;
  }

  lemma {:induction false} QuietTick(ticks: seq<Tick>, debounce: nat, firstFalse: nat, endTs: nat,
                  indicators: seq<Indicator>, start: nat, clock: nat, t: Tick, first: nat)
    requires TimedBy(ticks, debounce, firstFalse, endTs, indicators, start, clock)
    requires !Found(t) && clock <= t.now && first == if debounce == 0 then t.now else firstFalse
    ensures TimedBy(ticks + [t], debounce + 1, first,
                    if debounce + 1 >= t.need && endTs == 0 then first else endTs, indicators, start, t.now)
  {
    assert (ticks + [t])[..|ticks|] == ticks;
    assert Trailing(ticks + [t]) == debounce + 1;
    assert (ticks + [t])[|ticks| - debounce].now == first;
  }

  /** `now` extends `before` by `n` events. */
  ghost predicate Extends(before: seq<Event>, now: seq<Event>, n: nat) {
    |now| == |before| + n && now[..|before|] == before
  }

  /** The two events that close out a running episode. */
  ghost predicate ClosedOut(before: seq<Event>, log: seq<Event>, ordinal: nat, ticks: seq<Tick>, now: nat) {
    && Extends(before, log, 2) && log[|before|].Finalised? && log[|before| + 1] == Exited(ordinal)
    && log[|before|] == Finalised(ordinal, log[|before|].summary, ticks) && log[|before|].summary.finalised == now
  }

  class Collector {
    var active: bool
    var enabled: nat
    var dirOpen: bool
    var ordinal: nat
    var start: nat

    /** Collecting, enabled in the kernel and writing are one and the same. */
    ghost predicate Consistent()
      reads this
    {
      (active <==> enabled == 1) && (active <==> dirOpen) && enabled <= 1
    }

    constructor ()
      ensures Consistent() && !active
    {
      active, enabled, dirOpen, ordinal, start := false, 0, false, 0, 0;
    }

    method SetDeep(on: bool)
      modifies this`enabled
      ensures enabled == if on then 1 else 0
    {
      enabled := if on then 1 else 0;
    }

    /** `attached` and `created` say whether attaching the programs and opening the directory work. */
    method Enter(ordinal: nat, start: nat, attached: bool, created: bool) returns (ok: bool)
      requires Consistent() && !active
      modifies this
      ensures Consistent() && ok == active == (attached && created)
      ensures this.ordinal == ordinal && this.start == start
    {
      this.ordinal, this.start := ordinal, start;
      SetDeep(true);
      if !attached {
        SetDeep(false);
        return false;
      }
      if !created {
        Exit();
        return false;
      }
      dirOpen := true;
      active := true;
      ok := true;
    }

    method Exit()
      modifies this`enabled, this`active, this`dirOpen
      ensures !active && enabled == 0 && dirOpen == (old(dirOpen) && !old(active))
    {
      SetDeep(false);
      if active { dirOpen := false; }
      active := false;
    }
  }

  class PhaseManager {
    const deep: Collector
    var phase: Phase
    var ordinal: nat
    var startTs: nat
    var endTs: nat
    var deadline: nat
    var firstFalse: nat
    var debounce: nat
    var indicators: seq<Indicator>
    ghost var ticks: seq<Tick>
    ghost var log: seq<Event>
    ghost var clock: nat

    ghost predicate Valid()
      reads this, deep
    {
      && deep.Consistent() && (phase.DEEP? <==> deep.active)
      && Protocol(log) && LastOrdinal(log) == ordinal
      && (phase.BASE? ==> AtRest(log))
      && (phase.DEEP? ==> log != [] && log[|log| - 1] == Entered(ordinal, startTs, deadline) && Timed())
    }

    /** The fields of a running episode are what its ticks make them. */
    ghost predicate Timed()
      reads this
    {
      TimedBy(ticks, debounce, firstFalse, endTs, indicators, startTs, clock)
    }

    constructor (deep: Collector)
      requires deep.Consistent() && !deep.active
      ensures Valid() && this.deep == deep && phase == BASE && log == [] && clock == 0
    {
      this.deep, phase, ordinal := deep, BASE, 0;
      startTs, endTs, deadline, firstFalse, debounce, indicators := 0, 0, 0, 0, 0, [];
      ticks, log, clock := [], [], 0;
    }

    /** `attached` and `created` as for Enter of the collector. */
    method EnterDeep(cfg: Config, now: nat, attached: bool, created: bool)
      requires Valid() && phase.BASE? && now > 0 && now >= clock
      modifies this, deep
      ensures Valid() && clock == now && ordinal == old(ordinal) + 1
      ensures phase == if attached && created then DEEP else BASE
      ensures log == old(log) + [if attached && created
                                 then Entered(ordinal, now, now + cfg.postSeconds * 1000000000) else Failed(ordinal)]
      ensures phase.DEEP? ==> ticks == [] && startTs == now && deadline == now + cfg.postSeconds * 1000000000
    {
      ordinal := ordinal + 1;
      ResetEpisode(cfg, now);
      var ok := deep.Enter(ordinal, now, attached, created);
      ghost var event := if ok then Entered(ordinal, now, deadline) else Failed(ordinal);
      AttemptGrows(log, event);
      log := log + [event];
      phase := if ok then DEEP else BASE;
    }

    /** The fields of an episode that begins now. */
    method ResetEpisode(cfg: Config, now: nat)
      requires now > 0
      modifies this`startTs, this`endTs, this`deadline, this`firstFalse, this`debounce, this`indicators
      modifies this`ticks, this`clock
      ensures Timed() && ticks == [] && startTs == clock == now && deadline == now + cfg.postSeconds * 1000000000
    {
      startTs, endTs := now, 0;
      deadline := now + cfg.postSeconds * 1000000000;
      firstFalse, debounce, indicators := 0, 0, [];
      ticks, clock := [], now;
      StartsTimed(now);
    }

    /** Closes the books of the episode. */
    method FinalizeDeep(now: nat) returns (summary: Summary)
      requires Valid() && phase.DEEP? && now >= clock
      modifies this`endTs, this`log, this`clock
      ensures clock == now && log == old(log) + [Finalised(ordinal, summary, ticks)] && Protocol(log)
      ensures summary.finalised == now && summary.ordinal == ordinal
      ensures TrueTo(summary, startTs, deadline, ticks)
    {
      EndStampWithin(ticks, startTs, clock);
      if endTs == 0 { endTs := now; }
      summary := Summary(ordinal, startTs, deadline, endTs, now, indicators);
      clock := now;
      ProtocolGrows(log, Finalised(ordinal, summary, ticks));
      log := log + [Finalised(ordinal, summary, ticks)];
    }

    method ExitDeep()
      requires deep.Consistent() && deep.active && phase.DEEP? && Protocol(log)
      requires log != [] && log[|log| - 1].Finalised? && log[|log| - 1].ordinal == ordinal
      modifies this`phase, this`log, deep
      ensures Valid() && phase == BASE && log == old(log) + [Exited(ordinal)]
    {
      deep.Exit();
      phase := BASE;
      ProtocolGrows(log, Exited(ordinal));
      log := log + [Exited(ordinal)];
    }

    /** Ends a running episode: finalised, then left. */
    method CloseOut(now: nat)
      requires Valid() && phase.DEEP? && now >= clock
      modifies this, deep
      ensures Valid() && phase == BASE && clock == now && ordinal == old(ordinal)
      ensures ClosedOut(old(log), log, ordinal, old(ticks), now)
    {
      var summary := FinalizeDeep(now);
      ExitDeep();
    }

    /** One anomaly tick. In BASE it may start an episode; in DEEP it feeds the debounce and the
        indicators, and moves neither start nor deadline. */
    method TickAnomaly(cfg: Config, inference: Inference, now: nat, attached: bool, created: bool)
      requires Valid() && now > 0 && now >= clock
      modifies this, deep
      ensures Valid() && clock == now
      ensures old(phase).DEEP? ==>
                && phase.DEEP? && log == old(log) && startTs == old(startTs) && deadline == old(deadline)
                && ticks == old(ticks) + [Tick(now, inference, cfg.debounceSamples)]
      ensures old(phase).BASE? && (inference.Threw? || !inference.anomaly) ==>
                phase.BASE? && log == old(log) && ordinal == old(ordinal)
      ensures old(phase).BASE? && inference.Verdict? && inference.anomaly ==>
                && phase == (if attached && created then DEEP else BASE) && ordinal == old(ordinal) + 1
                && log == old(log) + [if attached && created
                                      then Entered(ordinal, now, now + cfg.postSeconds * 1000000000)
                                      else Failed(ordinal)]
    {
      var found := inference.Verdict? && inference.anomaly;
      if phase == BASE {
        clock := now;
        if found {
          EnterDeep(cfg, now, attached, created);
        }
        return;
      }
      if found {
        FeedIndicator(inference.indicator, Tick(now, inference, cfg.debounceSamples));
      } else {
        FeedQuiet(cfg, now, Tick(now, inference, cfg.debounceSamples));
      }
    }

    /** An anomaly in DEEP is an indicator and starts the debounce afresh. */
    method FeedIndicator(indicator: Indicator, ghost tick: Tick)
      requires Timed() && Found(tick) && tick.inference.indicator == indicator && tick.now >= clock
      modifies this`indicators, this`debounce, this`firstFalse, this`ticks, this`clock
      ensures Timed() && ticks == old(ticks) + [tick] && clock == tick.now
    {
      FoundTick(ticks, debounce, firstFalse, endTs, indicators, startTs, clock, tick);
      indicators := indicators + [indicator];
      debounce := 0;
      firstFalse := 0;
      ticks, clock := ticks + [tick], tick.now;
    }

    /** A quiet tick in DEEP; enough of them in a row fix the end of the anomaly, once. */
    method FeedQuiet(cfg: Config, now: nat, ghost tick: Tick)
      requires Timed() && !Found(tick) && tick.now == now >= clock && tick.need == cfg.debounceSamples
      modifies this`debounce, this`firstFalse, this`endTs, this`ticks, this`clock
      ensures Timed() && ticks == old(ticks) + [tick] && clock == now
    {
      var first, quiet := if debounce == 0 then now else firstFalse, debounce + 1;
      QuietTick(ticks, debounce, firstFalse, endTs, indicators, startTs, clock, tick, first);
      var end := if quiet >= cfg.debounceSamples && endTs == 0 then first else endTs;
      firstFalse, debounce, endTs := first, quiet, end;
      ticks, clock := ticks + [tick], now;
    }

    /** Ends the episode at the first call at or after the deadline. */
    method TickDeep(now: nat)
      requires Valid() && now >= clock
      modifies this, deep
      ensures Valid() && clock == now
      ensures phase.DEEP? <==> old(phase).DEEP? && now < old(deadline)
      ensures if old(phase).DEEP? && phase.BASE? then ClosedOut(old(log), log, ordinal, old(ticks), now)
              else log == old(log)
    {
      if phase != DEEP {
        clock := now;
        return;
      }
      if now >= deadline {
        CloseOut(now);
      } else {
        EarlierTicksWithin(ticks, startTs, clock, now);
        clock := now;
      }
    }

    method Shutdown(now: nat)
      requires Valid() && now >= clock
      modifies this, deep
      ensures Valid() && clock == now && phase.BASE? && !deep.active && deep.enabled == 0
      ensures if old(phase).DEEP? then ClosedOut(old(log), log, ordinal, old(ticks), now) else log == old(log)
    {
      if phase == DEEP {
        CloseOut(now);
      }
      clock := now;
    }

    method RequestDeep(cfg: Config, now: nat, attached: bool, created: bool)
      requires Valid() && now > 0 && now >= clock
      modifies this, deep
      ensures Valid() && clock == now
      ensures old(phase).DEEP? ==>
                phase.DEEP? && log == old(log) && startTs == old(startTs) && deadline == old(deadline)
      ensures old(phase).BASE? ==>
                && phase == (if attached && created then DEEP else BASE) && ordinal == old(ordinal) + 1
                && log == old(log) + [if attached && created
                                      then Entered(ordinal, now, now + cfg.postSeconds * 1000000000)
                                      else Failed(ordinal)]
    {
      if phase == BASE {
        EnterDeep(cfg, now, attached, created);
      } else {
        EarlierTicksWithin(ticks, startTs, clock, now);
        clock := now;
      }
    }

    method RequestBase(now: nat)
      requires Valid() && now >= clock
      modifies this, deep
      ensures Valid() && clock == now && phase.BASE?
      ensures if old(phase).DEEP? then ClosedOut(old(log), log, ordinal, old(ticks), now) else log == old(log)
    {
      if phase == DEEP {
        CloseOut(now);
      }
      clock := now;
    }
  }

  ghost predicate TicksWithin(ticks: seq<Tick>, start: nat, now: nat) {
    forall k :: 0 <= k < |ticks| ==> start <= ticks[k].now <= now
  }

  lemma {:induction false} EarlierTicksWithin(ticks: seq<Tick>, start: nat, now: nat, later: nat)
    requires TicksWithin(ticks, start, now) && now <= later
    ensures TicksWithin(ticks, start, later)
  {
  }

  lemma {:induction false} EndStampWithin(ticks: seq<Tick>, start: nat, now: nat)
    requires TicksWithin(ticks, start, now)
    ensures EndStamp(ticks) != 0 ==> start <= EndStamp(ticks) <= now
  {
    if ticks != [] {
      EndStampWithin(ticks[..|ticks| - 1], start, now);
    }
  }
}
