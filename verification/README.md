# Evidence pipeline: a verified model

This project models how eTrace-Diag gathers evidence, and proves what that evidence is worth: how records are produced in the
kernel, kept in a lossy ring, read back, merged, binned, selected for and framed out, and how two analyses consume them.
`dafny verify dfyconfig.toml` checks everything.

| component | files | form |
|---|---|---|
| flight recorder, lock-free | RecorderProtocol, RecorderProducer | interleaved state machine; the commit as a program that refines it |
| ring reader | RingDrain, Retention | class over an episode, against any run of the producers |
| merging and histograms | PerCpuMerge, Histogram | loops against folds and ranks |
| target selector | Scoring, Hysteresis, ThreadChoice, SelectionSteps, TargetSelector, FallbackRun | class with the history of its evaluations |
| phase machine | Phase | classes with a log of events |
| WebSocket framing (RFC 6455, sections 5.2, 5.3 and 5.5) | WsFrame, WsClient | printer and parser; class over a byte stream |
| kernel accounting | Tally, Accounting | classes over per-CPU maps |
| per-CPU map reader | PercpuSum | array updated in place |
| Psi-PC | Combinations, CausalGraph, Skeleton, PsiPc | adjacency matrix updated in place |
| folded stacks, flame tree, windows | Strings, Folded, Samples, Flame, Windows | round trip from samples to parser, path map, linear scan |
| shared theory | Arith, Collections, Sorting, Folds, Grouping | lemmas |

How to read the model:

* A run of the recorder is a sequence of ring states one atomic step apart; the words of a record may be stored in any order.
  A reader's load happens in one of these states, so choosing the states chooses the interleaving. Memory is taken as
  sequentially consistent: the odd tag is stored before the payload words, and they before the even tag, for every observer.
* Doubles are reals. Time stamps of a run do not decrease; where the source subtracts unsigned numbers the wrap-around is written
  out. Tickets, streaks and accounting counters do not wrap.
* `std::sort` and Python's `sorted` are any ordered permutation; a hash map is visited in any order; a shuffle is sorting by an
  arbitrary key.
* Maps in the kernel are finite maps whose updates succeed. What the outside decides (clock readings, lookups of the ring, CPUs
  read from the system, verdicts of the anomaly model, success of attaching, sizes of network reads, JavaScript's `Number`, the
  chi-square test, the conversion of clock ticks, the score function inside Evaluate) is a parameter; `StandardMeter` is the
  source's own score and conversion.

Where the code differs from what is said about it, the model follows the code:

* `DrainPost` visits `(prev, head]` although tickets are `0..head-1` (src/collect/deep_collector.cpp:408-427): each drain visits the
  ticket equal to the head it read before that ticket exists, and delivers it only if it is handed out and published during the
  scan. No later drain visits it. The half-open range would lose no ticket that is published when it is visited.
* The reader keeps its second copy, but only the first is bracketed by two tag reads; and ticket 0's tag is that of a slot never
  written. Both have a run that shows it and an exact condition, word by word.
* Entry reads the ring head before the pre-window reads it again: what was handed out in between is delivered twice, but for its
  first ticket, if it is published by then.
* Probe divides the backlog by the period of BASE and rounds down (src/collect/target_selector.cpp:140), so unless that period
  divides the backlog the ring may be a tick short of the seconds configured. During an episode the timer runs at the shorter
  period of DEEP (src/app.cpp:456-463), which Probe does not count at all: with the defaults on eight CPUs the ring then holds less
  than half of the configured 90 seconds.
* Names and symbols are rid of separators but not of line breaks, and a profile is one line for each stack.
* The byte-wise per-CPU sum drops carries (src/collect/map_reader.h:60-61 promises the sum): right exactly when no column overflows.
* A ping longer than 125 bytes is answered by a frame whose length byte is wrong.
* The fallback of the selector keeps a good streak alive, so membership may flap after it: the next hold is shorter by that streak.
* The selector's comment announces that a changed start time resets a thread's history (src/collect/target_selector.cpp:238-242);
  no history is reset, so a reused thread number is measured against the counters of the thread before.
* `_order_neighbors` is documented as descending; prepending makes it ascending (models/src/alg_models/causal/psi_pc.py:353-364).
* Windows are documented as inclusive at the boundary; the scan is half-open (models/src/alg_models/data/window.py:39-40).
* The WebSocket client is documented to handle continuation fragments; a continuation frame is returned as an empty message
  (src/model/ws_client.cpp:242-243).

## Model

| member | source | states |
|---|---|---|
| `RecorderProtocol.RunInv` | bpf/etrace_common.h:1315-1332 | in every state of every interleaving of producers, with at most one unpublished ticket per slot, each ticket ever handed out is either not yet marked, being copied word by word, published and intact, or lapped |
| `RecorderProtocol.TagTellsThePayload` | bpf/etrace_common.h:1319-1330 | a slot shows the even tag of ticket i if and only if i is published and not lapped, or i is 0 and has not begun to write; while i is published and not lapped the slot holds exactly what it wrote |
| `RecorderProtocol.AcceptedIffPublishedAndNotLapped` | src/collect/deep_collector.cpp:373-379 | for every ticket, the two tag tests of the host pass if and only if the slot showed its tag at both loads; except for an unpublished ticket 0 that is: published at the first load and not lapped at the second |
| `RecorderProtocol.FirstCopyIsGenuine` | src/collect/deep_collector.cpp:373-380 | seqlock safety over all interleavings: the first copy of an accepted pair is word for word the record of its ticket; of ticket 0, if it had been published at the first load |
| `RecorderProtocol.FirstCopyOfTicketZero` | src/collect/deep_collector.cpp:373-380 | an accepted pair of ticket 0 was taken when the ticket was published or had not begun; each word of its first copy is the ticket's own if it had been stored when it was loaded, and zero otherwise |
| `RecorderProtocol.TicketZeroIsGenuineIff` | src/collect/deep_collector.cpp:373-380 | so that copy is the record of ticket 0 if and only if every word had been stored when it was loaded or is zero anyway |
| `RecorderProtocol.WordOwner` | bpf/etrace_common.h:1326-1330 | in every state of every run, a word of a slot is that of the last ticket of the slot to have stored it |
| `RecorderProtocol.SecondCopyIsGenuine` | src/collect/deep_collector.cpp:418-425 | the copy the code keeps is genuine too if no word of it was loaded after the slot's next ticket had stored that word |
| `RecorderProtocol.SecondCopyProvenance` | src/collect/deep_collector.cpp:418-425 | exactly: a word of the kept copy is the ticket's own if and only if the slot's next ticket had not stored it when it was loaded; otherwise it is that of a later ticket of the slot |
| `RecorderProtocol.NotOverwritten` | src/collect/deep_collector.cpp:418-425 | which is so when the next ticket has not been handed out as the copy ends, or when the lookup is atomic |
| `RecorderProtocol.Forward` | bpf/etrace_common.h:1319-1330 | published and lapped are forever, and what a ticket was to write never changes, over any run |
| `RecorderProtocol.UnwrittenSlotPassesForTicketZero` | src/collect/deep_collector.cpp:376-380 | a run in which a slot that was never written is accepted as ticket 0 |
| `RecorderProtocol.SecondCopyCanBeForeign` | src/collect/deep_collector.cpp:377-380 | a run in which the kept copy of an accepted pair holds another ticket's record |
| `RecorderProtocol.TwoWritersBreakTheFirstCopy` | bpf/etrace_common.h:1319-1330 | a run in which two unpublished tickets of one slot break even the first copy |
| `RecorderProducer.Recorder.RecCommit` | bpf/etrace_common.h:1315-1332 | the commit, executed on the slot array, takes exactly the atomic steps of the protocol and leaves head + 1 and the new record in its slot, every other slot unchanged |
| `RecorderProducer.Recorder.StoreWords` | bpf/etrace_common.h:1328-1328 | the payload copy is a run of single-word steps that keeps the odd tag |
| `RingDrain.TicketsAreTaken` | src/collect/deep_collector.cpp:373-380 | a scan accepts exactly the visited tickets whose two lookups pass |
| `RingDrain.TicketsIncrease` | src/collect/deep_collector.cpp:418-426 | it accepts them in ticket order, none twice |
| `RingDrain.KeptAreTaken` | src/collect/deep_collector.cpp:373-381 | the rows of a scan are exactly the second copies of accepted tickets no older than the cutoff |
| `RingDrain.ScanRows` | src/collect/deep_collector.cpp:373-388 | a scan writes the kept records ordered by time stamp, or in per-CPU mode their sums by tid and tick |
| `RingDrain.RowsConserve` | src/collect/deep_collector.cpp:383-387 | in either mode the rows written account for exactly the records kept: every counter and bin as an integer sum modulo its width, the DEEP flag, the latest stamp |
| `RingDrain.KeptAreYoung` | src/collect/deep_collector.cpp:369-381 | a visit contributes its second copy if and only if it is accepted and stamp + pre-window >= anomaly start; the copies come in the order of the visits |
| `RingDrain.RowsAreMerged` | src/collect/deep_collector.cpp:383-387 | in per-CPU mode each row stands for the kept records of its thread in its tick |
| `RingDrain.RowsAreYoung` | src/collect/deep_collector.cpp:369-388 | in either mode no row of the window has row stamp + pre-window < anomaly start |
| `RingDrain.DeepCollector.Enter` | src/collect/deep_collector.cpp:130-134 | entry sets the drained-up-to mark to the head it read, or leaves it if the lookup fails |
| `RingDrain.DeepCollector.ExtractPre` | src/collect/deep_collector.cpp:358-398 | the pre-window is the rows, in the mode's form, of exactly the second copies of those of the last `cap` tickets below the head that are accepted and stamped at most the pre-window before the anomaly; nothing if the head cannot be read |
| `RingDrain.DeepCollector.DrainPost` | src/collect/deep_collector.cpp:400-433 | a drain writes the rows, in the mode's form, of all accepted tickets after the mark up to and including the head, reports a gap exactly when head + 64 reaches mark + cap (with a ring of fewer than 64 slots, 2^64 later), and moves the mark; over an episode no ticket is visited twice or skipped |
| `RingDrain.VisitIsExact` | src/collect/deep_collector.cpp:419-425 | a ticket whose slot is not reused during the visit is accepted if and only if it was published at the first load, and then the kept copy is what it wrote; of ticket 0, once it is published |
| `RingDrain.QuietDrainIsExact` | src/collect/deep_collector.cpp:411-425 | with no gap and at most 64 tickets handed out meanwhile, every visited ticket is still in its slot and is emitted if and only if it had been published |
| `RingDrain.BoundaryTicketNeedsLuck` | src/collect/deep_collector.cpp:418-425 | the ticket equal to the observed head is emitted if and only if it is handed out and published by the time the scan reaches it |
| `RingDrain.EpisodeDeliversThePublished` | src/collect/deep_collector.cpp:400-427 | over a whole episode of drains without a gap, a ticket is delivered if and only if it is in the episode's range and its producer had published it when its slot was first loaded; in order, none twice |
| `RingDrain.EpisodeDeliversTheirRecords` | src/collect/deep_collector.cpp:418-426 | and the copies delivered are, ticket by ticket, what the producers wrote |
| `RingDrain.HalfOpenDeliversExactlyOnce` | src/collect/deep_collector.cpp:373-373 | with half-open ranges, as the pre-window uses, an episode delivers every ticket from the first head to the last exactly once if and only if each is published when it is visited |
| `RingDrain.DrainPostLosesTheObservedHeads` | src/collect/deep_collector.cpp:408-427 | with the ranges the drain does use, when no ticket is handed out while a drain scans, every head a drain observed is lost for the episode, and every other ticket is delivered if and only if it is published when it is visited |
| `RingDrain.EpisodeDeliversTheSurvivors` | src/collect/deep_collector.cpp:400-427 | over an episode with gaps, however often the ring laps it: a ticket is delivered if and only if it is in range, published when its slot was first loaded and not lapped when it was loaded again |
| `RingDrain.TicketIsLost` | src/collect/deep_collector.cpp:408-427 | a run of two drains that lose a ticket, although it is published and still in its slot at the second |
| `RingDrain.DeliveredTwice` | src/collect/deep_collector.cpp:131-134 | the pre-window and the first drain both deliver exactly the tickets after the head read at entry and below the head read by the pre-window that were published when the pre-window visited them |
| `RingDrain.TicketIsDeliveredTwice` | src/collect/deep_collector.cpp:131-134 | a run in which the pre-window and the first drain both deliver a ticket |
| `RingDrain.EntryTicketIsVisitedByNeither` | src/collect/deep_collector.cpp:131-134 | the ticket equal to the head read at entry is visited by neither if and only if no ticket was handed out between the two readings; every later one up to the drain's head is visited |
| `Retention.EffectiveCpus` | src/collect/target_selector.cpp:129-132 | the effective CPUs are the smallest of the online CPUs and the limits that are set |
| `Retention.Probe` | src/collect/target_selector.cpp:134-147 | the budget is the largest the CPUs, the ring and the configuration admit, or the configured minimum if that is larger |
| `Retention.TicksFitTheBacklog` | src/collect/target_selector.cpp:138-141 | the ticks Probe counts are the most that fit the backlog, one at least |
| `Retention.ByConcurrency` | src/collect/target_selector.cpp:134-137 | the concurrency bound is the effective CPUs times the factor, rounded up |
| `Retention.LargestFitsIff` | src/collect/target_selector.cpp:140-145 | for any number of ticks: the budget times that number fits the ring if and only if the configured minimum does and so does one of the concurrency, the maximum and the ring's own share |
| `Retention.ProbeCountsOneTickLess` | src/collect/target_selector.cpp:138-141 | in BASE, the backlog can hold one tick more than Probe counts exactly when the period neither divides it nor exceeds it |
| `Retention.RecentTick` | bpf/etrace_common.h:1405-1413 | over ticks in any mixture of the two periods, one stamped within the backlog is among the last ones, as many as the backlog can hold with so many DEEP ticks |
| `Retention.WindowIsExact` | bpf/etrace_common.h:1411-1413 | that number is exact: so many ticks as close as the periods allow take less than the backlog, and one more does not |
| `Retention.RecentRecordsStay` | bpf/etrace_common.h:1405-1415 | a record of the last ticks is within as many tickets of the head as the budget allows those ticks |
| `Retention.BacklogIsKeptIff` | docs/architecture.md:53-53 | for any number of DEEP ticks among them: the ring keeps every record stamped within the configured seconds, over every run of ticks in the two periods, if and only if the budget times the ticks the backlog can then hold fits it |
| `Retention.BacklogIsAlwaysKeptIff` | src/app.cpp:456-463 | whatever the phases: if and only if the budget times the backlog in the shorter of the two periods, rounded up, fits it |
| `Retention.ProbedBudgetKeepsTheBacklogIff` | src/collect/target_selector.cpp:138-145 | the probed budget keeps those seconds if and only if the inputs say so: the ring has room for that many ticks of the configured minimum, and of the concurrency, the maximum or the ring's own share |
| `Retention.InBaseTheMinimumDecides` | src/collect/target_selector.cpp:138-145 | in BASE, when the period divides the backlog or exceeds it, if and only if the configured minimum fits |
| `Retention.ProbeFallsShort` | src/collect/target_selector.cpp:138-145 | one second in periods of 300 ms: Probe chooses ten threads for thirty slots, and the records of a tick 900 ms old are gone |
| `Retention.DeepTicksDisplaceTheBacklog` | src/app.cpp:456-463 | the defaults on eight CPUs: the ring keeps the backlog exactly while at most 1435 of its ticks are DEEP ticks, though it can hold 4500 of them |
| `Retention.PreWindowIsComplete` | src/collect/deep_collector.cpp:369-381 | end to end, in seconds: when the budget times the ticks of the backlog, DEEP ones included, and what is handed out during the scan fit the ring, every record of the backlog with stamp + pre-window >= anomaly start, if published when its slot is first loaded, is among the rows written, word for word |
| `Retention.PreWindowIsYoung` | src/collect/deep_collector.cpp:369-381 | and conversely: each row written is an accepted copy with stamp + pre-window >= anomaly start |
| `Histogram.Base4Bin` | bpf/etrace_common.h:342-352 | thirty shifts put every 64-bit value into the base-4 bin it belongs to |
| `Histogram.Log2lBin` | bpf/etrace_common.h:359-368 | sixty-three shifts put every 64-bit value into its power-of-two bin |
| `Histogram.BinsAreOrdered` | bpf/etrace_common.h:339-339 | bins do not overlap and follow the order of values |
| `Histogram.Record` | bpf/etrace_common.h:354-372 | recording samples counts, in each bin, exactly the samples that belong there |
| `Histogram.PercentileUs` | src/collect/deep_collector.cpp:322-339 | the percentile is the lower edge of the bin where the running count first reaches max(1, floor(q n)); a non-empty histogram never falls through |
| `Histogram.LowerEdge` | src/collect/deep_collector.cpp:333-334 | the edge computed by repeated multiplication is the bin's edge and stays within 64 bits |
| `Histogram.PercentileBoundsTheRankedSample` | src/collect/deep_collector.cpp:322-339 | that bin holds the sample of that rank: edge <= x < factor * edge in every interior bin |
| `Histogram.RecordedPercentile` | src/collect/deep_collector.cpp:322-339 | end to end from samples to percentile: the error factor |
| `PerCpuMerge.AddLaws` | src/collect/deep_collector.cpp:26-46 | adding counters, with their wrap-around, is commutative and associative and zero is neutral |
| `PerCpuMerge.AddIsPlus` | src/collect/deep_collector.cpp:26-46 | every counter and bin of a sum is the integer sum, modulo 2^32 or 2^64 as it is declared |
| `PerCpuMerge.SlicesAddUp` | bpf/etrace_common.h:1436-1473 | so is a fold over any number of CPUs |
| `PerCpuMerge.ListedIsMerged` | src/collect/deep_collector.cpp:53-73 | any listing of the groups has one row for each thread and tick that occurs, standing for exactly its records |
| `PerCpuMerge.SliceIsItsRecord` | bpf/etrace_common.h:1436-1473 | summing a CPU in the kernel is adding the record that CPU would commit |
| `PerCpuMerge.SumAcrossCpus` | bpf/etrace_common.h:1384-1402 | for every counter and bin: the integer sum of what the first 1024 CPUs hold, an absent key counting 0, modulo the width of the field |
| `PerCpuMerge.MergePerCpu` | src/collect/deep_collector.cpp:53-73 | two records share a row if and only if they have the same tid and the same time divided by the tick; in a row every counter and bin is the integer sum over those records modulo its width, the task that of the first, the stamp the latest, DEEP if any was; ordered by time |
| `PerCpuMerge.MergingConserves` | src/collect/deep_collector.cpp:57-69 | merging conserves the integer sum of every counter and bin modulo its width, the DEEP flag and the latest stamp; one record per tid and bucket |
| `PerCpuMerge.MergingIgnoresOrder` | src/collect/deep_collector.cpp:57-66 | the counters of every group do not depend on the order of the input |
| `PerCpuMerge.MergedTick` | bpf/etrace_common.h:1384-1403 | the two recorder modes agree: the per-CPU records of one tick, in any order, merge to the one record the kernel would have summed, each counter the integer sum over the CPUs modulo its width, with the task, the latest stamp and the DEEP flag |
| `Grouping.GroupingConserves` | src/collect/deep_collector.cpp:57-69 | whatever is accumulated by key is conserved in total |
| `Grouping.GroupsIgnoreOrder` | src/collect/deep_collector.cpp:57-66 | grouping a permutation gives the same groups |
| `Grouping.GroupIsItsShare` | src/collect/deep_collector.cpp:57-66 | a group is the accumulation of exactly the members with its key |
| `Scoring.ScoreIsMonotone` | src/collect/target_selector.cpp:94-112 | using more never lowers a score, whatever saturates |
| `Scoring.GrownIsGrowth` | src/collect/target_selector.cpp:264-278 | growth + before == now for a counter that did not go backwards, 0 otherwise, and the whole counter of a thread the oldest snapshot lacks |
| `Scoring.TicksAreNanoseconds` | src/collect/target_selector.cpp:281-283 | clock ticks become whole nanoseconds, rounded down |
| `Scoring.AggregatesAreSums` | src/collect/target_selector.cpp:287-295 | of each resource a process has used the sum of what its threads have used |
| `Scoring.ScoreIsWeighedShares` | src/collect/target_selector.cpp:94-112 | for every usage and window: the score is the weighed sum of what was used as a share, at most 1, of what saturates it, operations and bandwidth counting half each |
| `Scoring.AggregatesIgnoreOrder` | src/collect/target_selector.cpp:263-295 | process aggregates do not depend on the order in which threads are visited |
| `Scoring.ProcessOutscoresItsThreads` | src/collect/target_selector.cpp:287-308 | a process never scores below any of its threads |
| `Hysteresis.BadStreakCountsRanks` | src/collect/target_selector.cpp:324-326 | over any run, a bad streak of k is k consecutive ranks beyond the band as a member, the fallback included |
| `Hysteresis.GoodStreakCountsRanks` | src/collect/target_selector.cpp:330-332 | without the fallback, a good streak of k is k consecutive ranks within the band as a non-member |
| `Hysteresis.LeaveTakesAHold` | src/collect/target_selector.cpp:325-329 | every leave follows hold_periods consecutive ranks beyond leave_rank |
| `Hysteresis.JoinTakesAHold` | src/collect/target_selector.cpp:331-332 | every join without the fallback follows hold_periods consecutive ranks within enter_rank |
| `Hysteresis.FlipsAreAHoldApart` | src/collect/target_selector.cpp:319-356 | two membership flips of a process are at least hold_periods evaluations apart |
| `Hysteresis.LeaveTakesTheResidency` | src/collect/target_selector.cpp:326-329 | a leave comes at least the minimum residency after the join that began the membership |
| `Hysteresis.LeavesIffEarned` | src/collect/target_selector.cpp:324-329 | a member since its join leaves if and only if the last hold of ranks is beyond the band and the minimum residency has passed |
| `Hysteresis.FewFlips` | src/collect/target_selector.cpp:319-356 | n evaluations flip a process at most floor((n - 1) / hold) + 1 times, and n / hold from its creation |
| `Hysteresis.RejoiningAfterAFallback` | src/collect/target_selector.cpp:383-388 | after a leave, the next join by rank comes no sooner than the rest of the hold: the hold less the good streak that survived a fallback, at least one evaluation |
| `Hysteresis.RejoinsAfterTheRest` | src/collect/target_selector.cpp:319-356 | and exactly then, if the process ranks within the band meanwhile and is admitted when due |
| `ThreadChoice.GroupThreads` | src/collect/target_selector.cpp:361-368 | every observed thread is listed once under its process, by descending score |
| `ThreadChoice.TakeThreads` | src/collect/target_selector.cpp:374-380 | takes the longest prefix the per-process share and the budget admit |
| `ThreadChoice.ChooseThreads` | src/collect/target_selector.cpp:359-381 | the desired set is the pinned threads and a prefix of each selected process's list, and is empty only if there is nothing to choose |
| `ThreadChoice.TakenIsAGoodChoice` | src/collect/target_selector.cpp:359-381 | so: pinned included, at most max(pinned, budget) threads, at most the share of unpinned ones per process, none left out that scores higher, none left out without reason |
| `SelectionSteps.Slide` | src/collect/target_selector.cpp:248-252 | the window keeps the last snapshots, at least two of two or more; with a clock that does not run backwards exactly those inside it and the last two |
| `SelectionSteps.IndexTable` | src/collect/target_selector.cpp:223-246 | indexes exactly the listed threads, each by its last row |
| `SelectionSteps.StartTimesAreIgnored` | src/collect/target_selector.cpp:238-246 | tables that differ only in start times say the same, although a comment announces that a changed one resets the thread's history |
| `SelectionSteps.ReusedThreadIsMeasuredRightIff` | src/collect/target_selector.cpp:238-269 | a thread whose number another had in the oldest snapshot is measured since its own start if and only if the two have no counter in common |
| `SelectionSteps.ReusedThreadIsMissed` | src/collect/target_selector.cpp:238-269 | a pair of tables in which a thread that has run is taken for one that has not |
| `SelectionSteps.Measure` | src/collect/target_selector.cpp:260-295 | every thread is scored and every process aggregated, over the threads in some order |
| `SelectionSteps.UsagesAreOver` | src/collect/target_selector.cpp:260-286 | thread by thread over the rows of the table: switches are the growth of voluntary plus that of involuntary ones, faults minor plus major, the rest the growth of one counter each, the CPU time converted |
| `SelectionSteps.ProcessScoreIsOfItsThreads` | src/collect/target_selector.cpp:287-308 | a process scores what its threads have used together |
| `SelectionSteps.VisitOrderDoesNotMatter` | src/collect/target_selector.cpp:260-295 | hash-map order has no influence on process scores |
| `SelectionSteps.RankProcesses` | src/collect/target_selector.cpp:302-313 | ranks are 1..n, not shared, by descending score |
| `SelectionSteps.CountStreaks` | src/collect/target_selector.cpp:319-334 | collects exactly the unpinned processes due to leave and due to join |
| `SelectionSteps.MoveProcesses` | src/collect/target_selector.cpp:315-356 | every process moves as hysteresis has it; of those due, the best ranked join, as long as the process budget lasts |
| `SelectionSteps.SelectThreads` | src/collect/target_selector.cpp:358-398 | the fallback fires exactly when nothing would be watched although something is observed, and picks the top rank; the choice is good either way |
| `SelectionSteps.ApplyDiff` | src/collect/target_selector.cpp:400-416 | after the diff the kernel map's keys are the desired threads, pinned ones marked; reports a change exactly if the set changed |
| `SelectionSteps.KernelMapIsExact` | src/collect/target_selector.cpp:400-416 | the kernel map has exactly the members as keys and marks exactly the pinned ones |
| `TargetSelection.TargetSelector.ApplyPinned` | src/collect/target_selector.cpp:172-196 | adds exactly the non-zero pinned tids to pinned set, members and kernel map; the process of each newly pinned thread, its group or itself, becomes a pinned member as of now; no unpinned process changes |
| `TargetSelection.TargetSelector.Pin` | src/collect/target_selector.cpp:176-195 | pins one thread: its process becomes a pinned member joined now, and no other process changes |
| `TargetSelection.TargetSelector.Evaluate` | src/collect/target_selector.cpp:219-422 | keeps: kernel map keys are the members, pinned included, every evaluation of the run well judged; states the window kept, and the inputs field by field over the rows of the table and the oldest snapshot of the window, the new processes, the members and whether they changed |
| `TargetSelection.InputsAreMeasured` | src/collect/target_selector.cpp:255-286 | the inputs are measured over the table and the window: usage from the growth of counters, seconds from the two time stamps |
| `TargetSelection.ProcBudget` | src/collect/target_selector.cpp:342-344 | the process budget is the largest number of full shares in the thread budget, one at least |
| `TargetSelection.ProcessesAreExact` | src/collect/target_selector.cpp:420-421 | the processes reported are exactly those of the members |
| `TargetSelection.HigherScoreRanksFirst` | src/collect/target_selector.cpp:287-313 | of two processes, the one whose threads together score higher has the better rank |
| `TargetSelection.Judge` | src/collect/target_selector.cpp:260-398 | one evaluation on values: honest ranks, processes moved by hysteresis and budget, a good choice of threads, never empty when something is observed |
| `TargetSelection.RunIsAPath` | src/collect/target_selector.cpp:319-356 | in any run, whoever else competes or is pinned meanwhile, an unpinned process goes through hysteresis steps only |
| `TargetSelection.MembershipNeverFlaps` | src/collect/target_selector.cpp:319-356 | in any run of the selector, two flips of an unpinned process the fallback did not pick are hold_periods evaluations apart |
| `TargetSelection.LeavingIsEarned` | src/collect/target_selector.cpp:324-329 | in any run, a leave follows a hold of ranks beyond the band and the minimum residency |
| `TargetSelection.LeavesIffItIsEarned` | src/collect/target_selector.cpp:324-329 | and an earned leave happens: since its join, a process leaves if and only if a whole hold of ranks was beyond the band and the minimum residency has passed |
| `TargetSelection.JoiningIsEarned` | src/collect/target_selector.cpp:330-332 | in any run, a join without the fallback follows a hold of ranks within the band |
| `TargetSelection.JoinsUnlessFull` | src/collect/target_selector.cpp:330-356 | and an earned join happens: after a hold of ranks within the band a process joins, unless the selected processes leave no room for another full share |
| `TargetSelection.RejoiningIsEarned` | src/collect/target_selector.cpp:383-388 | in any run, with or without the fallback, a process that left joins by rank no sooner than after the rest of its hold |
| `TargetSelection.MembershipMovesRarely` | src/collect/target_selector.cpp:319-356 | in any run of n evaluations a process flips at most n / hold times |
| `FallbackRun.FallbackMayFlap` | src/collect/target_selector.cpp:383-388 | a run of the selector over two processes, evaluated every second, in which the one admitted by the fallback leaves and joins by rank one evaluation later, with a hold of two |
| `FallbackRun.SecondIsSeen` | src/collect/target_selector.cpp:248-258 | each evaluation of that run has the inputs of a process table and of the window of snapshots a second apart |
| `Combinations.ChooseIsExact` | models/src/alg_models/causal/psi_pc.py:334-334 | the combinations of k are exactly the subsets with k members |
| `CausalGraph.MiniCausalGraph.Neighbors` | models/src/alg_models/causal/psi_pc.py:64-65 | lists exactly the adjacent nodes, once each |
| `CausalGraph.MiniCausalGraph.MaxDegree` | models/src/alg_models/causal/psi_pc.py:67-68 | the largest degree, attained and at most n - 1 |
| `CausalGraph.MiniCausalGraph.RemoveEdge` | models/src/alg_models/causal/psi_pc.py:70-72 | removes exactly the two directions of one edge; the graph stays symmetric and loop-free |
| `CausalGraph.MiniCausalGraph.CiTest` | models/src/alg_models/causal/psi_pc.py:79-87 | whatever is cached, the answer is what the test itself says |
| `Skeleton.TestEdge` | models/src/alg_models/causal/psi_pc.py:334-346 | an edge is removed if and only if some subset of the given size separates it, and then both orders record a separating set; a surviving edge gets a p-value |
| `Skeleton.VisitNode` | models/src/alg_models/causal/psi_pc.py:322-346 | after a node's turn, each of its edges has withstood all subsets of that size of its other neighbours; the graph only shrank |
| `Skeleton.DeepEnough` | models/src/alg_models/causal/psi_pc.py:316-317 | when the depth has caught up with the degrees no test is missing |
| `Skeleton.SkeletonDiscovery` | models/src/alg_models/causal/psi_pc.py:290-347 | terminates; every missing edge has a symmetric separating set with p > alpha, every surviving edge has p <= alpha for every subset of the final neighbours of either end, and p-values of tests of its own |
| `Skeleton.VisitNeighborhood` | models/src/alg_models/causal/psi_pc.py:254-286 | the same for one depth around one node, with its register of independent nodes |
| `Skeleton.LocalSkeletonDiscovery` | models/src/alg_models/causal/psi_pc.py:222-287 | terminates; touches only edges of the node; survivors withstand every subset of the node's final neighbours; the register holds exactly the nodes independent given nothing |
| `PsiPc.ChunksConcatenate` | models/src/alg_models/causal/psi_pc.py:452-458 | the chunks together are the shuffled columns |
| `PsiPc.ChunkSizes` | models/src/alg_models/causal/psi_pc.py:455-457 | no chunk is empty or larger than gamma, and only the last may be smaller |
| `PsiPc.OrderNeighbors` | models/src/alg_models/causal/psi_pc.py:353-364 | a permutation with non-decreasing p-values |
| `PsiPc.Search` | models/src/alg_models/causal/psi_pc.py:406-417 | the nodes found around the F-node stay dependent on it given any subset of each other; each other node was separated, unless waived; every node found has p-values of tests of its own |
| `PsiPc.AlphasAreTenths` | models/src/alg_models/causal/psi_pc.py:404-405 | the levels start at the given one, go up by 0.1, and are tried exactly while below 1 |
| `PsiPc.RankLevel` | models/src/alg_models/causal/psi_pc.py:406-428 | a level reports exactly the columns found and not reported before, by ascending p-value |
| `PsiPc.RunPsiPc` | models/src/alg_models/causal/psi_pc.py:367-433 | the ranking is one batch per significance level tried, all of them unless enough columns were found |
| `PsiPc.RankingIsSound` | models/src/alg_models/causal/psi_pc.py:402-433 | a ranking is duplicate-free and made of columns it was given |
| `PsiPc.ReportedIffFound` | models/src/alg_models/causal/psi_pc.py:417-428 | a column is reported if and only if some level found it |
| `PsiPc.RunLevel` | models/src/alg_models/causal/psi_pc.py:461-493 | a level mixes the columns, cuts them into chunks and concatenates a ranking of each, cut short only by its first reported column; the result is distinct columns of the input |
| `PsiPc.RunMultiPhase` | models/src/alg_models/causal/psi_pc.py:496-539 | the shrinking loop terminates; its stages are phases that each dropped some columns and left more than gamma, but for the last; the result is the ranking of the survivors over all levels unless all are reported |
| `WsFrame.LengthRoundTrip` | src/model/ws_client.cpp:171-180 | every length form parses back, whatever follows |
| `WsFrame.LengthFormIsMinimal` | src/model/ws_client.cpp:171-180 | no shorter announcement of the same length exists |
| `WsFrame.UnmaskMasked` | src/model/ws_client.cpp:225-227 | unmasking undoes masking |
| `WsFrame.WireBytes` | src/model/ws_client.cpp:165-186 | a masked frame byte by byte: FIN and opcode, mask bit and length form, big-endian length and key, each payload byte exclusive-ored bit by bit with its key byte |
| `WsFrame.XorBits` | src/model/ws_client.cpp:225-227 | exclusive or, bit by bit |
| `WsFrame.BigEndianBytes` | src/model/ws_client.cpp:173-181 | byte i of a big-endian number is the number shifted right by the bytes after it |
| `WsFrame.FrameRoundTrip` | src/model/ws_client.cpp:165-230 | a printed frame parses back to the same opcode and payload and consumes exactly its bytes; beyond 64 MiB it is refused |
| `WsFrame.StreamRoundTrip` | src/model/ws_client.cpp:165-230 | concatenated frames parse back in order, none merged, split or lost |
| `WsClient.WsClient.ReadExact` | src/model/ws_client.cpp:62-72 | for any division into pieces delivers exactly the next n bytes, or fails because there are fewer |
| `WsClient.WsClient.SendText` | src/model/ws_client.cpp:165-195 | sends exactly one masked text frame, as far as the peer takes it |
| `WsClient.TextFrame` | src/model/ws_client.cpp:167-186 | the bytes pushed one by one are the frame of the message |
| `WsClient.WsClient.ReadFrame` | src/model/ws_client.cpp:197-230 | reads exactly the frame that parsing the stream gives, and not a byte more |
| `WsClient.PongEchoesIffShort` | src/model/ws_client.cpp:247-255 | a pong parses back to the ping's payload if and only if that has at most 125 bytes |
| `WsClient.ReceiveOverFrames` | src/model/ws_client.cpp:232-270 | past pings and pongs the first other frame decides: opcode 1 delivers its payload, 0 an empty message, 8 closes, any other fails; one pong per ping has been sent in order, and what follows is untouched |
| `WsClient.WsClient.HandleFrame` | src/model/ws_client.cpp:236-268 | what one frame does to input, output and connection, opcode by opcode |
| `WsClient.WsClient.RecvText` | src/model/ws_client.cpp:232-270 | on any stream of pings and pongs, then a frame, then more, in any pieces: a text is delivered with the rest unread, a continuation as an empty message, a close closes and fails, any other frame fails with the connection open; the pongs have been sent before; on any stream at all, terminates with what receiving over it gives |
| `Phases.EndIsFirstQuietRun` | src/phase_manager.cpp:125-131 | under a fixed configuration the recorded end is the first tick that begins debounce-many quiet ticks in a row; there is none while there is no such run |
| `Phases.TrailingIsARun` | src/phase_manager.cpp:125-131 | the debounce counts exactly the failed or negative verdicts since the last anomalous one |
| `Phases.EpisodeListsTheAnomalous` | src/phase_manager.cpp:119-124 | over any sequence of verdicts, the summary lists the indicators of the anomalous ones, in order |
| `Phases.EpisodeEnds` | src/phase_manager.cpp:39-50 | under a fixed configuration the summary's end is where the first long enough quiet run began, or when it was finalised if there was none |
| `Phases.OrdinalsIncrease` | src/phase_manager.cpp:16-16 | entry attempts are numbered without repetition |
| `Phases.EntryIsFinalisedOnce` | src/phase_manager.cpp:134-158 | every successful entry is finalised exactly once, truthfully, right before its only exit |
| `Phases.Collector.Enter` | src/collect/deep_collector.cpp:98-136 | after entry collecting, kernel flag and open directory agree, and succeed exactly if attaching and opening do |
| `Phases.Collector.Exit` | src/collect/deep_collector.cpp:287-294 | after exit nothing is active or enabled |
| `Phases.PhaseManager.EnterDeep` | src/phase_manager.cpp:15-33 | logs one attempt with the next ordinal; in DEEP, start and deadline are set |
| `Phases.PhaseManager.FinalizeDeep` | src/phase_manager.cpp:35-93 | the summary has the entry's start and deadline, the debounced end or else now, and start <= end <= now |
| `Phases.PhaseManager.TickAnomaly` | src/phase_manager.cpp:101-132 | in BASE an attempt is logged, with its outcome, if and only if the model gave a verdict and it is anomalous; a model that threw counts as quiet; in DEEP neither start nor deadline moves and the verdict is added to the episode; keeps DEEP iff active iff enabled |
| `Phases.PhaseManager.TickDeep` | src/phase_manager.cpp:134-140 | an episode is closed out, finalised and then left, at the first call at or after its deadline and not before |
| `Phases.PhaseManager.Shutdown` | src/phase_manager.cpp:142-147 | leaves BASE, a running episode closed out |
| `Phases.PhaseManager.RequestDeep` | src/phase_manager.cpp:149-151 | enters from BASE only |
| `Phases.PhaseManager.RequestBase` | src/phase_manager.cpp:153-158 | finalises and leaves a running episode, else nothing |
| `Tally.TwoBooksAgree` | bpf/etrace_common.h:575-590 | two maps that book the same increments agree in total on every counter and bin |
| `Tally.ElementsAreBalanced` | bpf/etrace_common.h:354-356 | in every element the histogram adds up to the count |
| `Tally.ElementAddsUp` | bpf/etrace_common.h:318-322 | over any events, the element of a key holds the integer sums of their number, bytes, latencies and failures, and in each bin the number of latencies it covers; a key has an element if and only if it has an event |
| `Tally.TotalAddsUp` | bpf/etrace_common.h:318-322 | the total of elements is the integer sum of every quantity |
| `Tally.Book` | bpf/etrace_common.h:318-322 | creating a zeroed element and increasing its fields books exactly one event |
| `Accounting.BlockIo.OnComplete` | bpf/etrace_common.h:566-593 | a completion is booked once per process and once per device with the same latency, and its request is forgotten; an unknown request changes nothing |
| `Accounting.BlockIoIsConserved` | bpf/etrace_common.h:575-590 | over any run, per-process and per-device totals agree on operations, bytes, latency and every bin, and every histogram adds up |
| `Accounting.Syscalls.Account` | bpf/etrace_common.h:825-841 | futex waits are booked apart, every other call by thread and call and by thread |
| `Accounting.CallsAddUp` | bpf/etrace_common.h:830-839 | over any run, the calls of a thread over all call ids add up to its total, in number and time |
| `Accounting.Scheduler.OnSwitch` | bpf/etrace_common.h:381-402 | keeps: on every CPU, each target's time is exactly the time between the switches it ran |
| `Accounting.TimeTelescopes` | bpf/etrace_common.h:393-401 | over all threads that ran, the times of a CPU add up to the time from its first switch to its last |
| `PercpuSum.ErrorIsLostCarries` | src/collect/map_reader.cpp:42-45 | true sum minus byte-wise sum is exactly the lost carries, each column's overflow one position up |
| `PercpuSum.ByteSumIsRightIffColumnsFit` | src/collect/map_reader.cpp:42-45 | the byte-wise sum is right if and only if no byte column exceeds 255 |
| `PercpuSum.TruncatedSumIsRightIff` | src/collect/map_reader.cpp:42-45 | modulo the field width, with at most 256 CPUs, it is right if and only if no column but the last overflows |
| `PercpuSum.FieldIsSummedIff` | src/collect/map_reader.h:60-61 | a field read from the summed element equals the sum over CPUs that the header promises if and only if no column of the field overflows |
| `PercpuSum.TwoCpusLoseACarry` | src/collect/map_reader.cpp:42-45 | two CPUs that counted 200 each are read as 144 |
| `PercpuSum.ColumnsAreByteSums` | src/collect/map_reader.cpp:38-45 | the column sums are those of the bytes at the CPUs' aligned slots |
| `PercpuSum.MapSlice.LookupPercpuSum` | src/collect/map_reader.cpp:34-47 | each byte of the output is the sum of that byte over the CPUs' aligned slots, modulo 256; untouched on failure; plain maps are copied |
| `PercpuSum.CarryingSum` | src/collect/map_reader.h:60-61 | a sum that carries meets the promise on every input |
| `Strings.SplitConcat` | tools/viz/js/flame.js:26-26 | splitting at a separator in the middle gives the pieces before and those after |
| `Strings.DecimalIsTheNumber` | src/collect/deep_collector.cpp:545-546 | a decimal consists of digits, stands for its number and has no leading zero |
| `Folded.LineRoundTrip` | tools/viz/js/flame.js:19-34 | a line with some frame and a positive value reads back to its frames and value, whatever else it contains |
| `Folded.LineIsRead` | tools/viz/js/flame.js:19-34 | any raw line: frames, last blank, positive number, or nothing is read |
| `Folded.TaskIsRead` | tools/viz/js/flame.js:51-56 | a task frame is a number, and after the first slash a name |
| `Folded.TextRoundTrip` | tools/viz/js/ui.js:314-316 | a profile whose lines are free of line breaks, written out and parsed, reads back line by line |
| `Samples.TaskRoundTrip` | tools/viz/js/flame.js:51-56 | process and thread frames give back number and name, whatever the name contains |
| `Samples.SanitizeComm` | src/collect/deep_collector.cpp:76-83 | the name up to its terminating zero, separators replaced |
| `Samples.Resolve` | src/collect/ebpf_manager.cpp:118-130 | the sanitised symbols of the non-zero addresses, root first, joined |
| `Samples.SymbolsFromTheRoot` | src/collect/ebpf_manager.cpp:118-130 | the frames are the sanitised symbols of exactly the non-zero addresses, the last address first |
| `Samples.StoreOnCpu` | src/collect/deep_collector.cpp:545-557 | the line of a sample on the CPU: process, thread, kernel frames, user frames |
| `Samples.StoreOffCpu` | src/collect/deep_collector.cpp:562-574 | the line of a wait, with or without a known process |
| `Samples.OnCpuSpelledOut` | src/collect/deep_collector.cpp:545-557 | the text of a line on the CPU |
| `Samples.OffCpuSpelledOut` | src/collect/deep_collector.cpp:562-574 | the text of a line of a wait, with or without a known process |
| `Samples.StoredFrames` | src/collect/deep_collector.cpp:552-556 | whatever raw names and symbols contain, splitting a stored line gives exactly the frames it was made of, empty ones dropped |
| `Samples.ProfileReadsBackIff` | src/collect/deep_collector.cpp:544-575 | from raw names and symbols to the viewer: every sample reads back to its process, thread, frames and value if and only if no name or symbol contains a line break and no ownerless wait is in a function named like a thread |
| `Samples.LineBreakLosesTheProcess` | src/collect/deep_collector.cpp:76-83 | what a line break in a process name does: one line becomes two, the first is dropped, the other has lost its process |
| `Samples.WaitIsMisread` | src/collect/deep_collector.cpp:565-574 | an ownerless wait in a function named like another thread is read as that thread |
| `Flame.ParseFolded` | tools/viz/js/flame.js:16-49 | lines in order, their total, and an entry for exactly the processes and threads that occur, each with its total and the name, and for threads the process, of its first line |
| `Flame.TotalsAreOfTheirLines` | tools/viz/js/flame.js:36-49 | the total of a process, or thread, adds up the lines of that process, or thread |
| `Flame.EntriesAreNamedFirst` | tools/viz/js/flame.js:36-49 | an entry exists exactly for each process and thread that occurs, named by its first line, a thread with that line's process |
| `Flame.BuildTree` | tools/viz/js/flame.js:116-138 | the tree has exactly the prefixes of the filtered lines, each with the sum of the lines below it and of those ending there |
| `Flame.FilteredAre` | tools/viz/js/flame.js:117-123 | what passes the filter: lines of the process and of the thread asked for, in order |
| `Flame.ValueIsSelfAndChildren` | tools/viz/js/flame.js:124-135 | every node's value is its self value plus its children's values |
| `Flame.RootIsTotal` | tools/viz/js/flame.js:124-124 | the root's value is the total of the filtered lines |
| `Windows.Validate` | models/src/alg_models/schemas.py:185-198 | the validator accepts exactly the ordered frames without duplicate keys |
| `Windows.SlidingWindows` | models/src/alg_models/data/window.py:46-67 | the scan returns exactly the non-empty filters of every stride-aligned window up to the last point |
| `Windows.WindowsAreWindows` | models/src/alg_models/data/window.py:46-67 | each window starts whole strides after the first and no later than the last point, ends a width later and holds exactly the points of its time, one at least |
| `Windows.CoverageOfTheScan` | models/src/alg_models/data/window.py:55-66 | a point is covered if and only if it is less than a width after an aligned time; always when stride <= width |
| `Windows.OutOfOrderBuffer.Accept` | models/src/alg_models/data/window.py:175-196 | accepts exactly the points not too late for the newest and not duplicates; no point is more than the tolerance behind an earlier one |
| `Windows.OutOfOrderBuffer.Drain` | models/src/alg_models/data/window.py:198-202 | hands out a valid frame of exactly the accepted points |
| `Windows.SortedIsAFrame` | models/src/alg_models/data/window.py:198-202 | sorting distinct points gives a valid frame |

## Left out

- BPF loading, attaching, perf events, timers, netlink, sockets and polling: calls into the kernel; their outcomes are parameters.
- SQLite writing, JSON, logging, configuration reading: wide and easy; the selector assumes what sanitising guarantees (src/config.cpp:77-86).
- Flight-recorder tags: the source shifts a 64-bit ticket, the model does not wrap; weaker memory orders than sequential consistency.
- RingDrain.DeepCollector.DrainPost: how a slot's words are laid out as a record is a parameter.
- Retention.PreWindowIsComplete: the timer mode, where a tick commits one record for each target; assumes target sets within the budget, which more pinned threads would exceed.
- TargetSelection.TargetSelector.Evaluate: the table of start times, which nothing reads, is not kept; gives no bound on the number of processes, because the fallback may exceed it; writing of join and leave events and the reset of a leaving thread's counters are not modelled.
- Hysteresis.FlipsAreAHoldApart: runs under one configuration, and without the fallback picking the process; Hysteresis.RejoiningAfterAFallback says what remains.
- Scoring and percentiles: rounding of doubles.
- Accounting.BlockIoIsConserved: no wipes between bookings, no full maps, no wrapping counters, elements zeroed as the helpers' comment says.
- Accounting.Scheduler.OnSwitch: switch counts, off-CPU stashes and wake-up latencies are not modelled; targets are fixed.
- Phases.PhaseManager.FinalizeDeep: the causal model's answer and the files written are not modelled; links after a failed attach are not modelled.
- PercpuSum.MapSlice.LookupPercpuSum: iteration and draining use the same sum; the iteration itself and wiping are not modelled.
- PsiPc.RunPsiPc: discretisation, the chi-square values and the count of tests; steps of the significance level are exact, not floating point.
- Folded.LineRoundTrip: values from 1 to 2^53, beyond which JavaScript rounds.
- Samples.StoreOnCpu: the cache of resolved stacks, which is keyed by stack alone, is not modelled.
- Flame.BuildTree: nodes are known by path instead of by object with a parent pointer; layout, search and drawing are left out.
- Windows.SlidingWindows: the cost of the scan.
- WebSocket: the opening handshake, reassembly of fragmented messages, and send failures other than a peer that stops reading.
- GPU providers, symbol lookup, ONNX, GMM, Time-RCD, severity scoring, charts: foreign or numeric code.
