# Supercluster: a verified model

Supercluster starts networks of stellar-core nodes on Kubernetes and puts them through
missions. Most of its code is orchestration, but seven pieces of it decide things that are
hard to get right by looking. This project models those pieces in Dafny, in the form the
source gives them, and proves what the source, its comments and its callers rely on.

| files | models |
|---|---|
| `Topology.dfy`, `Scaling.dfy`, `ScalingRuns.dfy`, `NetworkFile.dfy` | the pubnet peer graph: `addEdges` splits random edges to insert nodes, then tier 1 is fully connected and the map is pruned |
| `Quorum.dfy`, `Thresholds.dfy` | the default quorum set (67% of the organizations, 51% inside each) and the percent/threshold formulas |
| `JobStore.dfy`, `Marking.dfy`, `JobMonitor.dfy`, `JobCompletion.dfy`, `JobRetirement.dfy`, `JobReclaim.dfy`, `JobHistory.dfy`, `JobStatus.dfy`, `JobMonitorRuns.dfy` | the parallel-catchup job monitor on shared Redis data, with the workers of `worker.sh` interleaved call by call |
| `ShellCmd.dfy`, `ShellParser.dfy`, `ShellLexing.dfy`, `ShellPrinting.dfy`, `ShellRoundTrip.dfy`, `ShellBuilding.dfy`, `ShellSubstitution.dfy`, `ShellFailing.dfy` | the shell command tree and its printer, against a reference lexer and parser for the emitted subset of the POSIX Shell Command Language (sections 2.2 quoting, 2.6.3 command substitution, 2.7 redirection and 2.10 grammar of XCU chapter 2) |
| `BlockTime.dfy`, `AccountSlices.dfy` | the search for the shortest sustainable close time, and the split of genesis accounts over load generators |
| `Benchmark.dfy`, `ResultOrder.dfy` | who is to initiate the throughput measurement of a link, how traffic is credited, and whose it is |
| `Catchup.dfy` | the ledger ranges of parallel catchup |
| `Text.dfy` | strings, ordinal order, decimal numbers, sorted listings |

Random draws, pings, name lookups, network verdicts and the order of events are arbitrary, so
every statement holds for all of them. Exceptions and `failwith` are result values.

## Where the code and its promises part

Each promise below fails on some input. For each there is a lemma with such an input or run, and
the condition under which the promise does hold is proved in both directions.

* "Each edge exactly once" of the network file: exactly when no node lists a lower peer twice, no
  two entries give the same edge, and every link listed by its lower end is listed by an entry of
  its upper end as well (`NetworkFile.EachLinkOnceIff`). A link that only its lower end lists is
  dropped (`NetworkFile.LowerEndLinkLost`). Whatever is drawn, the final map knows exactly the new
  nodes and those that list a lower peer or are listed by a higher one (`NetworkFile.KeyIff`), and
  counting the peers of every node of the file works exactly when those are all
  (`NetworkFile.AllKeysIff`, `NetworkFile.ListedNodeHasNoKey`). What the file joins is joined in
  the extracted network exactly when the ends of every listed link are
  (`NetworkFile.FileStaysJoined`).
* "At any point, both `edgeArrayList` and `edgeSet` contain all the edges (and nothing more)".
  After one split they do exactly when the drawn entry occurs once in the list and the set
  lacked no other entry but the new ones (`ScalingRuns.SplitAgreesIff`); over a run exactly when
  no split draws an entry that occurs twice (`ScalingRuns.AgreesThroughoutIff`); over all runs
  whenever the network file gives no edge twice or the guard against small graphs admits no
  new node, and if the first new node is in no link yet, only then
  (`ScalingRuns.AlwaysAgreeIff`). Bounds, connectivity and attachment hold either way.
* "To preserve the degree of each existing node": a split does exactly when the drawn entry is
  still in the set (`ScalingRuns.SplitDegreesIff`), a run exactly when every split does
  (`ScalingRuns.DegreesKeptIff`). All runs do whenever the file gives no edge twice or fewer than
  two nodes are inserted, and if the first two new nodes are not tier 1 and in no link yet, only
  then or for a graph of one node (`ScalingRuns.AlwaysKeptIff`).
  `ScalingRuns.RepeatedEdgeGainsDegree` is a complete run over a file with a repeated edge in which
  an original node gains an edge.
* "3f + 1 for cross organization thresholds" is the Byzantine bound exactly up to f = 33, and
  up to f = 24 for the nodes of one organization (`Quorum.ByzantineThresholds`,
  `Quorum.ByzantineFails`); availability
  with f organizations wholly down stops at f = 33 as well (`Quorum.QuorumAvailable`).
  Intersection holds for every size.
* `percentOfThreshold` is "(hopefully)" the inverse: exactly when the rounding excess is zero
  (`Thresholds.InverseIff`), and not at 101 entries (`Thresholds.InverseFails`).
* Pipe, "and", "or" and sequence groups of one command print alike
  (`ShellRoundTrip.PipeOfOnePrintsAsSequence`), so the printer is injective exactly up to the
  operator of such a group (`ShellRoundTrip.PrintsAlikeIff`, `ShellBuilding.ExactRoundTripIff`).
  A .NET `$` admits a trailing newline and the empty string prints as no word
  (`ShellBuilding.OfStrReadsBackIff`, `ShellBuilding.LostArguments`). A quoted word inside
  backquotes can lose a backslash or end the substitution
  (`ShellSubstitution.SubstitutionReadsBackIff`, `ShellSubstitution.QuotedBackquoteLost`).
  The two comments on the dup redirections have the arrows swapped; the model follows the code.
  `StdErrToOut` ignores its argument.
* A job is in exactly one place at all times of a run exactly when no worker ends a job that was
  requeued under it (`JobMonitor.JobConservationIff`); `JobMonitorRuns.RetryDoublesFinish` is a
  run in which one does.
* A published status with nothing remaining and nothing in progress is always right for a pass
  without orphans. For any pass it is right exactly when whatever is in progress as it is
  published has been finished before (`JobCompletion.PublishedIff`), and at the second reading of
  the queue likewise (`JobCompletion.RereadIff`); in runs without a doubly placed job that means
  that nothing is in progress. It is right whenever no claim falls between the two second
  readings (`JobCompletion.OrphanPassIsSound`). `JobMonitorRuns.OrphanPassReportsEarly` is a run in
  which one does.
* The failed set is read before the progress list. A complete status that names no failure means
  success if it may be believed as complete and nothing failed after the failed set was read, up
  to the last reading of the lists (`JobCompletion.SuccessIsSound`). Exactly, as it is published
  it does when whatever is in progress was finished before and every job that failed has
  succeeded as well (`JobCompletion.PublishedSuccessIff`); as the progress list is read,
  `JobCompletion.SuccessIff` says when. In `JobMonitorRuns.FailureBetweenReadsIsHidden` the only
  job failed and the published status says neither.
* `worker.sh` checks its retiring mark and claims in two calls, so "stops claiming once marked" is
  not quite so. Every published retirable worker was marked in an earlier pass and owned nothing
  at the publishing pass's snapshot (`JobRetirement.RetirableWasMarked`, no assumption). From
  then on it never owns a job exactly when it owns none and is not between its check and its
  claim, or no job is live (`JobReclaim.DeletionIsSafeIff`, `JobReclaim.NeverOwnsIff`).
  `JobMonitorRuns.SlowClaimOwnsAfterRetirable` is a run in which it owns one.
* The block-time search never evaluates its upper bound. It reports that no close time in the
  range works exactly when the range is at most 100 ms wide, in which case it evaluates nothing,
  or its last probe misses (`BlockTime.ClaimsNoneIff`, `BlockTime.ClaimsNoneWrongly`).
* Each pair is to be measured once, by its initiator, but the client measures every peer of its
  node, and results are matched by position to the initiated peers only. With one usable result
  for each listed peer, in list order, every credited result belongs to its peer exactly when the
  initiated peers come first in the list (`ResultOrder.ListOrderIff`); read by file name, as the
  driver reads them, exactly when the initiated peers' files are listed by name and sort before
  all others (`ResultOrder.FileOrderIff`). `ResultOrder.ResultCreditedToWrongPeer` is an input on
  which neither holds. What follows about credited traffic is about this matching.

## Model

| member | source | states |
|---|---|---|
| `Scaling.ExtractEdges` | src/FSLibrary/StellarNetworkData.fs:174-180 | lists exactly the pairs (peer, key) with peer ordinally below key, for each peer a node names |
| `Scaling.ExtractEdgesNoDup` | src/FSLibrary/StellarNetworkData.fs:174-180 | each edge is extracted at most once if and only if no node lists a lower peer twice and no two entries give the same edge |
| `NetworkFile.EachLinkOnceIff` | src/FSLibrary/StellarNetworkData.fs:174-180 | "each edge exactly once" holds of the file's links if and only if that does and every link listed by its lower end is listed by an entry of its upper end as well |
| `NetworkFile.MirroredLinks` | src/FSLibrary/StellarNetworkData.fs:174-196 | with mirrored lists the nodes so linked are exactly those in some listed link |
| `NetworkFile.LowerEndLinkLost` | src/FSLibrary/StellarNetworkData.fs:177-177 | a file, with nothing listed twice, whose only link is dropped |
| `NetworkFile.KeyIff` | src/FSLibrary/StellarNetworkData.fs:354-354 | in every complete run the map has a key for a node if and only if it is new, lists a lower peer or is listed by a higher one |
| `NetworkFile.AllKeysIff` | src/FSLibrary/StellarNetworkData.fs:469-471 | the peers of every node of the file can be counted if and only if each is such a node |
| `NetworkFile.ListedNodeHasNoKey` | src/FSLibrary/StellarNetworkData.fs:469-471 | a file, with nothing listed twice, with a node that has a peer and no key |
| `NetworkFile.FileStaysJoined` | src/FSLibrary/StellarNetworkData.fs:286-354 | what the file's own lists join is joined after extraction if and only if the ends of every listed link are, so whenever lists mirror each other, and then stays joined in every run |
| `Scaling.SplitCounts` | src/FSLibrary/StellarNetworkData.fs:280-285 | splitting an edge adds exactly one edge, gives the new node two and leaves every other degree alone |
| `Scaling.SplitJoinsEnds` | src/FSLibrary/StellarNetworkData.fs:283-285 | the new node is joined to both ends of the split edge |
| `Scaling.SplitKeepsJoined` | src/FSLibrary/StellarNetworkData.fs:325-342 | nodes joined by a path stay joined after a split, also when the list still names an edge the set has lost |
| `Scaling.CoversIndex` | src/FSLibrary/StellarNetworkData.fs:324-325 | while the list covers the set, every index drawn below the size of the set is inside the list |
| `Scaling.CanSplitIff` | src/FSLibrary/StellarNetworkData.fs:327-333 | a picked edge is refused if and only if the new node is one of its ends or already has an edge to one of them |
| `ScalingRuns.SplitAgreesIff` | src/FSLibrary/StellarNetworkData.fs:297-299 | after a split list and set hold the same edges if and only if the drawn entry occurs once in the list and every other entry the set lacked is one of the new edges |
| `ScalingRuns.AgreesThroughoutIff` | src/FSLibrary/StellarNetworkData.fs:297-342 | in every run they agree at all times if and only if no split draws an entry that occurs twice at that time |
| `ScalingRuns.AlwaysAgreeIff` | src/FSLibrary/StellarNetworkData.fs:293-321 | they agree in every run if the file gives no edge twice or no node gets past the guard, and only then if no edge touches the first new node yet |
| `ScalingRuns.SplitDegreesIff` | src/FSLibrary/StellarNetworkData.fs:280-285 | a split leaves every other degree alone if and only if the split edge is still in the set |
| `ScalingRuns.DegreesAre` | src/FSLibrary/StellarNetworkData.fs:303-352 | in every run a degree is the original one plus two per edge split for the node plus one per edge at it split when already gone |
| `ScalingRuns.DegreesKeptIff` | src/FSLibrary/StellarNetworkData.fs:280-352 | a run leaves all degrees alone but for the splits made for a node if and only if it never splits an edge that is gone |
| `ScalingRuns.OneNodeKept` | src/FSLibrary/StellarNetworkData.fs:280-352 | inserting one node leaves all other degrees alone, whatever the file |
| `ScalingRuns.AlwaysKeptIff` | src/FSLibrary/StellarNetworkData.fs:280-352 | every run leaves degrees alone if the file gives no edge twice, fewer than two nodes are inserted or none is let in; and for two fresh first nodes outside tier 1, only then |
| `Scaling.AddEdges` | src/FSLibrary/StellarNetworkData.fs:286-354 | for all draws: makes a run of possible choices and ends with the map of its edge set, in which joined nodes are still joined, every new node is attached to an original edge and, if no edge was listed twice, sizes and degrees are accounted for exactly; drawn degrees are 27 to 63 for tier 1 and 1 to 64 otherwise; or fails for the stated reason (the degree drawn for the next node is at least the size of the graph, no edge, 100 picks in a row refused); it terminates |
| `Scaling.GainedDistinct` | src/FSLibrary/StellarNetworkData.fs:303-308 | distinct new nodes gain exactly 2*ceil(d/2) edges for drawn degree d, all other nodes none |
| `Scaling.NewNodeGains` | src/FSLibrary/StellarNetworkData.fs:58-72 | without repeated edges a new tier-1 node gains 28 to 64 edges and another 2 to 64, an even number, the drawn degree or one more |
| `Scaling.FinishedConnected` | src/FSLibrary/StellarNetworkData.fs:280-354 | a connected network stays connected through a whole scaling |
| `ScalingRuns.RepeatedEdgeGainsDegree` | src/FSLibrary/StellarNetworkData.fs:293-342 | a complete run past the guard, over a file with a repeated edge, in which an original node gains an edge |
| `Scaling.AdjacencyMap` | src/FSLibrary/StellarNetworkData.fs:451-459 | the three stages in a row, for all draws and settings: a symmetric, irreflexive map on the nodes of the scaled network, within the limit if there is one, tier 1 pairwise adjacent if it was connected |
| `Topology.AdjacencyIsEdges` | src/FSLibrary/StellarNetworkData.fs:185-196 | the map links exactly the ends of the edges in both directions, has no isolated key, and no loop if edges are ordered |
| `Topology.FullyConnectIs` | src/FSLibrary/StellarNetworkData.fs:203-218 | fails if and only if a tier-1 node is missing; otherwise adds exactly the links between different tier-1 nodes |
| `Topology.PruneStepKeeps` | src/FSLibrary/StellarNetworkData.fs:228-261 | a pruned node keeps exactly maxConnections peers, all protected ones among them; any other peer it keeps has fewer connections than each it drops, or as many and the lower name |
| `Topology.PruneConnectionsValue` | src/FSLibrary/StellarNetworkData.fs:263-268 | one prune step changes the node's own entry and removes the node from exactly the dropped peers' entries |
| `Topology.PruneStepLinks` | src/FSLibrary/StellarNetworkData.fs:225-270 | one step removes exactly the links between the node and the peers it drops, in both directions |
| `Topology.PruneAllIs` | src/FSLibrary/StellarNetworkData.fs:272-272 | the fold from any point: fails if and only if a remaining node started with too many protected peers, else keeps the pruning invariant and reaches the limit everywhere |
| `Topology.PruneIs` | src/FSLibrary/StellarNetworkData.fs:221-272 | pruning a symmetric map fails if and only if some node has more than maxConnections protected peers; otherwise the result is a symmetric subgraph within the limit that keeps every protected link and loses links only at nodes over the limit |
| `Topology.NothingToPrune` | src/FSLibrary/StellarNetworkData.fs:225-272 | a map within the limit is left as it is |
| `Topology.PruneLeastFirst` | src/FSLibrary/StellarNetworkData.fs:272-272 | nodes are pruned in the order of their names: the least node over the limit goes first, and then it is as if pruning began with the map that its step leaves |
| `Topology.PipelineIs` | src/FSLibrary/StellarNetworkData.fs:451-459 | fully connect then prune: refused if and only if tier 1 misses a node or has more than max+1 members; else tier 1 stays a clique and no link is invented |
| `Topology.PipelineKeeps` | src/FSLibrary/StellarNetworkData.fs:453-459 | with or without either stage the nodes, symmetry and irreflexivity stay, the limit holds if there is one, and without the first stage no link is added |
| `Topology.UnprotectedPrunes` | src/FSLibrary/StellarNetworkData.fs:458-458 | without fully connected tier 1 pruning is refused if and only if the limit is negative and there is a node |
| `Thresholds.ThresholdIsCeiling` | src/FSLibrary/StellarCoreCfg.fs:112-114 | the threshold is the ceiling of the percentage |
| `Thresholds.Adjunction` | src/FSLibrary/StellarCoreCfg.fs:114-117 | threshold of p reaches thr if and only if p is at least the percent of thr |
| `Thresholds.RoundTrip` | src/FSLibrary/StellarCoreCfg.fs:114-117 | the round trip returns thr plus the exact rounding excess |
| `Thresholds.InverseIff` | src/FSLibrary/StellarCoreCfg.fs:116-117 | it is an inverse if and only if that excess is zero, so for every set of at most 100 |
| `Thresholds.InverseFails` | src/FSLibrary/StellarCoreCfg.fs:116-117 | at 101 entries a threshold of 1 comes back as 2 |
| `Quorum.OrgsPartition` | src/FSLibrary/StellarNetworkData.fs:620-627 | grouping by home domain gives nonempty, disjoint organizations that hold every key |
| `Quorum.OrgsAreDomains` | src/FSLibrary/StellarNetworkData.fs:620-627 | two nodes have the same home domain if and only if some organization holds both keys, and every member of one is the key of a node |
| `Quorum.DefaultQuorumIs` | src/FSLibrary/StellarNetworkData.fs:629-654 | a set satisfies the default quorum set if and only if it holds at least 51 percent of at least 67 percent of the organizations |
| `Quorum.MajoritiesMeet` | src/FSLibrary/StellarNetworkData.fs:629-632 | two sets that satisfy one organization's 51% share a validator of it |
| `Quorum.QuorumsIntersect` | src/FSLibrary/StellarNetworkData.fs:615-654 | any two sets that satisfy the default quorum set share a validator, and with 3f+1 organizations in at least f+1 of them |
| `Quorum.ByzantineThresholds` | src/FSLibrary/StellarNetworkData.fs:615-618 | the percentages are 2f+1 of 3f+1 and f+1 of 2f+1 if and only if f is at most 33 and 24 |
| `Quorum.ByzantineFails` | src/FSLibrary/StellarNetworkData.fs:615-618 | at f = 34 and f = 25 the percentages ask for one more |
| `Quorum.FailingCounts` | src/FSLibrary/StellarNetworkData.fs:629-654 | satisfied and failing organizations together are all of them |
| `Quorum.QuorumAvailable` | src/FSLibrary/StellarNetworkData.fs:651-654 | with f of 3f+1 organizations wholly down the set is satisfiable if and only if f is at most 33 |
| `JobStore.RemoveLastIs` | src/MissionParallelCatchup/job_monitor.py:131-131 | LREM with count -1 removes exactly one occurrence, or nothing if there is none |
| `JobStore.RemovesLast` | src/MissionParallelCatchup/job_monitor.py:131-131 | and the one that goes is the last |
| `JobStore.Redis.RequeueJob` | src/MissionParallelCatchup/job_monitor.py:129-133 | a job in progress goes to the front of the queue, any other stays; the owner goes either way |
| `JobStore.Redis.RetryJobsInProgress` | src/MissionParallelCatchup/job_monitor.py:135-139 | alone it terminates with progress empty and the queue equal to old progress followed by old queue |
| `JobStore.RequeueConserves` | src/MissionParallelCatchup/job_monitor.py:129-133 | requeueing neither loses, doubles nor revives a job |
| `Marking.WorkerNamesDistinct` | src/MissionParallelCatchup/job_monitor.py:212-212 | different indices give different pod names |
| `Marking.WorkersAre` | src/MissionParallelCatchup/job_monitor.py:212-212 | the fleet is exactly the pods named by the prefix, a dash and an index below the worker count, as many as it counts |
| `Marking.GuardIsHarmless` | src/MissionParallelCatchup/job_monitor.py:217-220 | skipping the pod lookups returns the same workers to mark, whatever the lookups would answer |
| `Marking.MarksOnlyIdle` | src/MissionParallelCatchup/job_monitor.py:209-222 | only existing workers that own nothing and are not yet marked are marked |
| `Marking.MarksFirstNames` | src/MissionParallelCatchup/job_monitor.py:212-220 | of the idle workers those whose names sort first are marked |
| `Marking.LeftAfterMarking` | src/MissionParallelCatchup/job_monitor.py:211-220 | how many workers a pass marks and how many unmarked live ones that leaves, from the numbers of those that own a job and answered, of those that own none and resolve, of outstanding jobs and the configured minimum |
| `Marking.MarkingKeepsFloor` | src/MissionParallelCatchup/job_monitor.py:214-220 | at least as many unmarked live workers stay as there are outstanding jobs, and at least MIN_UNMARKED_WORKERS, or else all; some are marked if and only if there are more than either number besides an idle one, and then exactly the larger of them stay, or those that own a job |
| `JobMonitor.MonitorConserves` | src/MissionParallelCatchup/job_monitor.py:165-251 | no call of the monitor changes the live copies of jobs (queue, progress, monitor's hand) or the finished sets |
| `JobMonitor.ClaimConserves` | src/MissionParallelCatchup/parallel_catchup_helm/files/worker.sh:25-28 | a claim moves one job and keeps the live copies |
| `JobMonitor.FinishLive` | src/MissionParallelCatchup/parallel_catchup_helm/files/worker.sh:106-113 | the finishing transaction takes out one copy if the job is still in progress |
| `JobHistory.RecordedIff` | src/MissionParallelCatchup/parallel_catchup_helm/files/worker.sh:79-111 | in every run a job is in the succeeded set if and only if a worker that was running it ended it with exit code 0, and in the failed set with a worker if and only if that worker, running it, ended it otherwise |
| `JobHistory.EndDropsOwner` | src/MissionParallelCatchup/parallel_catchup_helm/files/worker.sh:111-111 | right after either the job has no owner |
| `JobHistory.ClaimStep` | src/MissionParallelCatchup/parallel_catchup_helm/files/worker.sh:25-28 | a claim takes the first job of the queue to the front of the progress list and makes the worker its owner |
| `JobHistory.OwnedIff` | src/MissionParallelCatchup/parallel_catchup_helm/files/worker.sh:25-113 | in every run a worker owns a job if and only if it claimed it and since then nobody claimed or ended it and the monitor did not drop its owner; and runs it if and only if it claimed it and has not ended it or crashed since |
| `JobHistory.ClaimsInOrder` | src/MissionParallelCatchup/parallel_catchup_helm/files/worker.sh:40-44 | in every run jobs are first claimed in the order in which they were queued, requeued or not |
| `JobHistory.OrphansAre` | src/MissionParallelCatchup/job_monitor.py:172-187 | whatever workers do between the reads, a pass requeues exactly the jobs it read as in progress that had no owner at its read of the owners |
| `JobHistory.PassDecides` | src/MissionParallelCatchup/job_monitor.py:207-249 | whatever workers do between the calls, marking leaves at least as many unmarked live workers as jobs waiting and in progress and at least the minimum, or else all; and the pass retries if and only if something was in progress, there was an owner and no owner answered, then or when asked again |
| `JobHistory.DropUninterrupted` | src/MissionParallelCatchup/job_monitor.py:248-249 | after a retry exactly the owners of the snapshot are dropped |
| `JobStatus.StatusIsRead` | src/MissionParallelCatchup/job_monitor.py:168-275 | in every run the published status shows the failed set that its pass read, and the length of the queue and the progress list as its pass read them last |
| `JobMonitor.NoJobLost` | src/MissionParallelCatchup/job_monitor.py:165-251 | in every interleaving every job is live or finished, no job has two live copies, nothing else appears |
| `JobMonitor.ExclusiveStep` | src/MissionParallelCatchup/job_monitor.py:244-249 | jobs stop being in exactly one place if and only if a worker ends a job that was requeued under it |
| `JobMonitor.JobConservationIff` | src/MissionParallelCatchup/job_monitor.py:129-139 | from distinct jobs, a run has each job in exactly one of queue, progress, hand, finished at all times if and only if no worker ends a job that was requeued under it |
| `JobMonitor.RequeueUninterrupted` | src/MissionParallelCatchup/job_monitor.py:179-182 | the protocol's calls in a row do what requeue_job does alone |
| `JobMonitor.RetryUninterrupted` | src/MissionParallelCatchup/job_monitor.py:135-139 | the protocol's calls in a row do what retry_jobs_in_progress does alone |
| `JobCompletion.CompletionStep` | src/MissionParallelCatchup/job_monitor.py:168-187 | every call of anyone keeps the invariant behind completion |
| `JobCompletion.CompletionIsSound` | src/MissionParallelCatchup/job_monitor.py:168-187 | once a pass publishes nothing remaining and nothing in progress, and had no orphans or found nothing in progress as it read the queue again, every job is finished then and forever after |
| `JobCompletion.RereadIff` | src/MissionParallelCatchup/job_monitor.py:184-187 | when a pass with orphans finds the queue empty again, all is done if and only if whatever is in progress was finished before; without doubly placed jobs, if and only if nothing is in progress |
| `JobCompletion.PublishedIff` | src/MissionParallelCatchup/job_monitor.py:256-271 | a complete-looking status, of any pass in any run, is right if and only if whatever is in progress as it is published was finished before; without doubly placed jobs, if and only if nothing is in progress |
| `JobCompletion.OrphanPassIsSound` | src/MissionParallelCatchup/job_monitor.py:184-187 | a pass with orphans is right if nobody claims between its two second readings |
| `JobCompletion.SuccessIsSound` | src/MissionParallelCatchup/job_monitor.py:171-187 | a believable complete status that names no failure means every job succeeded, if nothing failed between the read of the failed set and the last reading of the lists |
| `JobCompletion.PublishedSuccessIff` | src/MissionParallelCatchup/job_monitor.py:256-271 | as any pass publishes a complete-looking status, every job succeeded if and only if whatever is in progress was finished before and each job that failed succeeded as well |
| `JobCompletion.SuccessIff` | src/MissionParallelCatchup/job_monitor.py:171-172 | at the read of the progress list every job succeeded if and only if each that failed did as well; for jobs with one outcome, if and only if nothing failed since the read of the failed set |
| `JobRetirement.RetiredForever` | src/MissionParallelCatchup/parallel_catchup_helm/files/worker.sh:31-37 | a marked worker with no job and no claim under way stays so in every continuation |
| `JobReclaim.NeverOwnsIff` | src/MissionParallelCatchup/parallel_catchup_helm/files/worker.sh:31-44 | from any state, a marked worker never owns a job from there on if and only if it owns none and is not between its check and its claim, or no job is live |
| `JobRetirement.MarkStep` | src/MissionParallelCatchup/job_monitor.py:207-225 | every call of anyone keeps the marks in order: a pass publishes only workers marked before it |
| `JobRetirement.RetirableWasMarked` | src/MissionParallelCatchup/job_monitor.py:209-225 | in every interleaving a published retirable worker was marked in an earlier pass, and at the publishing pass's owner snapshot was marked already and owned nothing |
| `JobRetirement.RetirablesAre` | src/MissionParallelCatchup/job_monitor.py:225-225 | in every interleaving a pass publishes as retirable exactly the workers that were marked and owned nothing at its owner snapshot |
| `JobReclaim.DeletionIsSafeIff` | src/FSLibrary/MissionHistoryPubnetParallelCatchupV2.fs:446-467 | in every interleaving deleting a published worker hits no owner, now or later, if and only if it owns nothing and is not between check and claim, or no job is live |
| `JobRetirement.RetireStep` | src/MissionParallelCatchup/job_monitor.py:207-225 | every call of anyone keeps published workers from owning, if at each owner snapshot no marked worker is between its check and its claim |
| `JobRetirement.RetirementIsSafe` | src/FSLibrary/MissionHistoryPubnetParallelCatchupV2.fs:446-467 | under that assumption on timing a worker published as retirable owns nothing and never will, so deleting its pod hits no owner |
| `JobRetirement.RetirementIsSafeAtOnce` | src/MissionParallelCatchup/job_monitor.py:207-207 | if checking and claiming were one call, so that a marked worker never claims, retirement would be safe in every interleaving |
| `JobMonitorRuns.RetryDoublesFinish` | src/MissionParallelCatchup/job_monitor.py:244-249 | a reachable state with a job both finished and queued |
| `JobMonitorRuns.OrphanPassReportsEarly` | src/MissionParallelCatchup/job_monitor.py:184-187 | a reachable state whose published status looks complete although nothing is finished |
| `JobMonitorRuns.FailureBetweenReadsIsHidden` | src/MissionParallelCatchup/job_monitor.py:171-172 | a reachable state whose published status looks complete without a failure although the only job failed |
| `JobMonitorRuns.SlowClaimOwnsAfterRetirable` | src/MissionParallelCatchup/parallel_catchup_helm/files/worker.sh:33-44 | a reachable state in which a published retirable worker owns a job |
| `ShellRoundTrip.WellFormedPrints` | src/FSLibrary/StellarShellCmd.fs:41-47 | printing a well-formed tree meets no failwith |
| `ShellFailing.RaisesIff` | src/FSLibrary/StellarShellCmd.fs:41-88 | for every tree: printing raises if and only if, anywhere in it, a name does not match the pattern of names or a quoted text holds a quote |
| `ShellPrinting.LexesCmd` | src/FSLibrary/StellarShellCmd.fs:176-203 | the printed text of any well-formed tree reads as its tokens, in every context a command can stand in |
| `ShellLexing.LexesRedir` | src/FSLibrary/StellarShellCmd.fs:97-102 | a printed redirection reads as that one redirection |
| `ShellRoundTrip.ParseTokens` | src/FSLibrary/StellarShellCmd.fs:181-203 | the tokens of a well-formed tree parse as the tree they stand for, leaving the rest |
| `ShellRoundTrip.RoundTrip` | src/FSLibrary/StellarShellCmd.fs:176-203 | every well-formed tree prints, and parsing the text gives back the tree up to the operator of one-command groups, at any depth |
| `ShellRoundTrip.CanonText` | src/FSLibrary/StellarShellCmd.fs:187-190 | that operator is all the printer forgets |
| `ShellRoundTrip.PrintsAlikeIff` | src/FSLibrary/StellarShellCmd.fs:176-203 | two well-formed trees print alike if and only if they stand for the same tree |
| `ShellRoundTrip.PipeOfOnePrintsAsSequence` | src/FSLibrary/StellarShellCmd.fs:187-188 | a pipe of one command and a sequence of it are different trees that print alike, whatever the command |
| `ShellBuilding.ExactRoundTripIff` | src/FSLibrary/StellarShellCmd.fs:187-190 | parsing returns the very tree if and only if it has no one-command pipe, "and" or "or" group |
| `ShellCmd.PatternCharacters` | src/FSLibrary/StellarShellCmd.fs:38-55 | the characters that names and bare words may have, one by one |
| `ShellCmd.PatternsMatch` | src/FSLibrary/StellarShellCmd.fs:38-55 | a string matches either pattern if and only if it is made of such characters, or is such a string and a final newline |
| `ShellBuilding.OfStrOk` | src/FSLibrary/StellarShellCmd.fs:68-74 | exactly the good arguments become well-formed words |
| `ShellBuilding.OfStrStandsFor` | src/FSLibrary/StellarShellCmd.fs:68-74 | for every argument and all values of the variables: the value of its word is that of the variable which the argument names as ${name}, and otherwise the argument itself |
| `ShellBuilding.OfStrReadsBackIff` | src/FSLibrary/StellarShellCmd.fs:68-88 | for every string: its word prints and is read as one word that stands for it, in fact as itself, if and only if the string is a good argument |
| `ShellBuilding.LostArguments` | src/FSLibrary/StellarShellCmd.fs:54-55 | the empty string and a word with a trailing newline print without an error and do not read back |
| `ShellBuilding.CommandParses` | src/FSLibrary/StellarShellCmd.fs:127-127 | the text of a good argument list is read as one command whose words stand for the arguments |
| `ShellBuilding.CompositionParses` | src/FSLibrary/StellarShellCmd.fs:140-166 | PipeTo, AndAlso, OrElse and Then build well-formed trees whose text parses as the command's own members and then a command whose words stand for the arguments |
| `ShellBuilding.RedirectionParses` | src/FSLibrary/StellarShellCmd.fs:168-174 | the redirecting members apply to the whole command when read back, to or from a word that stands for the file |
| `ShellSubstitution.SubstitutionReadsBackIff` | src/FSLibrary/StellarShellCmd.fs:105-111 | a substitution of well-formed words reads back as itself if and only if backquotes leave its quoted words alone |
| `ShellSubstitution.SafeIfReadBack` | src/FSLibrary/StellarShellCmd.fs:185-185 | for any words at all, a substitution that reads back as itself is safe |
| `ShellSubstitution.QuotedBackquoteLost` | src/FSLibrary/StellarShellCmd.fs:185-185 | a quoted backquote prints without an error and does not read back |
| `BlockTime.MinBlockTime` | src/FSLibrary/MinBlockTimeTest.fs:537-600 | makes exactly the evaluations of a bisection, recovers exactly before those that follow a miss, reports the last target that met the level, and raises as the source does |
| `BlockTime.TargetIsMean` | src/FSLibrary/MinBlockTimeTest.fs:577-590 | every evaluation is made with more than 100 between the last missed target, or the lower bound, and the last one met, or the upper bound, at their mean rounded down |
| `BlockTime.Narrowed` | src/FSLibrary/MinBlockTimeTest.fs:577-590 | for any answers the interval ends at most 100 wide, its lower end the bound or a missed target, its upper end the bound or a target that met the level |
| `BlockTime.ProbesInside` | src/FSLibrary/MinBlockTimeTest.fs:580-582 | every evaluated target lies strictly between the bounds |
| `BlockTime.RaisesIff` | src/FSLibrary/MinBlockTimeTest.fs:512-524 | the search fails loudly if and only if an evaluation raised |
| `BlockTime.ReportIsSound` | src/FSLibrary/MinBlockTimeTest.fs:592-594 | for any answers the reported target met the level, and within 100 below it lies the lower bound or a missed target |
| `BlockTime.AtMost` | src/FSLibrary/MinBlockTimeTest.fs:577-590 | a range of at most 100*2^k takes at most k evaluations |
| `BlockTime.AtLeast` | src/FSLibrary/MinBlockTimeTest.fs:577-590 | a range of at least 101*2^k takes more than k, unless one raises |
| `BlockTime.OnlyTheMidpoint` | src/FSLibrary/MinBlockTimeTest.fs:577-582 | widths from 101 to 200 evaluate the midpoint alone |
| `BlockTime.NearLeast` | src/FSLibrary/MinBlockTimeTest.fs:543-594 | with consistent answers the result exceeds the least sustainable target, or the lower bound, by at most 100 |
| `BlockTime.ClaimsNoneIff` | src/FSLibrary/MinBlockTimeTest.fs:595-600 | with consistent answers "no block time" is reported if and only if the range is at most 100 wide or the last probe is below the least sustainable target |
| `BlockTime.ClaimsNoneWrongly` | src/FSLibrary/MinBlockTimeTest.fs:595-600 | if only the upper bound works, the report says that nothing in the range does |
| `AccountSlices.Partition` | src/FSLibrary/MinBlockTimeTest.fs:393-421 | fails if and only if there is no load generator; otherwise gives every node the slice of its share |
| `AccountSlices.LoadGenNodesAre` | src/FSLibrary/MinBlockTimeTest.fs:366-372 | the load generators are the nodes that are to generate load if there are any, else tier 1 in a network of more than ten nodes, else all |
| `AccountSlices.ActiveLoadGenNodesAre` | src/FSLibrary/MinBlockTimeTest.fs:376-386 | in mixed mode as many of the first load generators are active as the larger rate says, at least one and at most all; otherwise all |
| `AccountSlices.SliceSizes` | src/FSLibrary/MinBlockTimeTest.fs:402-415 | a load generator prepares all the transactions for an even share of the accounts among the active ones, any other node none for one account |
| `AccountSlices.RankIndexes` | src/FSLibrary/MinBlockTimeTest.fs:366-374 | the running index of a load generator is its position in the list of load generators |
| `AccountSlices.ActiveIsFirst` | src/FSLibrary/MinBlockTimeTest.fs:376-386 | the active nodes are the first load generators in list order |
| `AccountSlices.SliceInRange` | src/FSLibrary/MinBlockTimeTest.fs:402-412 | every load generator's slice lies inside the accounts |
| `AccountSlices.SlicesAgreeOrPart` | src/FSLibrary/MinBlockTimeTest.fs:408-412 | two load generators sign for the same accounts if their shares agree, in mixed mode modulo the active count, and for none in common otherwise |
| `AccountSlices.ActiveSlicesDisjoint` | src/FSLibrary/MinBlockTimeTest.fs:388-412 | no two active nodes sign for the same account |
| `AccountSlices.ActiveSlicesCover` | src/FSLibrary/MinBlockTimeTest.fs:388-402 | the active slices together hold every account but a remainder smaller than their number |
| `Benchmark.OneInitiator` | src/scripts/parse_benchmark_results.py:198-220 | of two different names exactly one initiates, hash collisions included; a node never initiates to itself |
| `Benchmark.InitiatorIs` | src/scripts/parse_benchmark_results.py:198-220 | of hashes of equal parity the lower initiates, of different parity the higher; on a collision the name that sorts first |
| `Benchmark.HashIsSum` | src/scripts/parse_benchmark_results.py:204-205 | the hash is the sum of the character codes |
| `Benchmark.LinkTestedOnce` | src/scripts/parse_benchmark_results.py:255-262 | over a symmetric topology keyed by short names the lists of peers to initiate to together hold each link exactly once, and no node itself |
| `Benchmark.UsableIs` | src/scripts/parse_benchmark_results.py:268-274 | a result counts if and only if something was sent or came back or a round trip was timed, and those that count stay in order |
| `Benchmark.InitiatedIs` | src/scripts/parse_benchmark_results.py:255-262 | a node initiates to exactly the listed peers it should, in list order |
| `Benchmark.OneTestCredits` | src/scripts/parse_benchmark_results.py:282-295 | who is credited with what by one test: the forward traffic, and as the reverse one what the initiator received or else what the peer sent |
| `ResultOrder.CreditedRightlyIs` | src/scripts/parse_benchmark_results.py:276-280 | the tests of a pod whose results are all usable carry them in the order read, each credited to its peer if and only if the matching says so |
| `ResultOrder.ListOrderIff` | src/scripts/parse_benchmark_results.py:276-280 | with a usable result for each listed peer, in list order, every credited result belongs to its peer if and only if no initiated peer follows one that is not |
| `ResultOrder.FileOrderIff` | src/FSLibrary/StellarStatefulSets.fs:1204-1213 | read by file name, if and only if the initiated peers' files are listed by name and sort before all others |
| `ResultOrder.ResultCreditedToWrongPeer` | src/scripts/start-benchmark-client.sh:36-80 | a node with two peers whose one credited result was measured with the other peer |
| `Benchmark.InitialMetrics` | src/scripts/parse_benchmark_results.py:230-244 | one zero entry for each node that has a pod |
| `Benchmark.CreditTest` | src/scripts/parse_benchmark_results.py:282-299 | the updates for one matched result credit sender, receiver and retransmits as the definition of traffic says |
| `Benchmark.CreditPod` | src/scripts/parse_benchmark_results.py:247-299 | the i-th usable result is credited to the i-th initiated peer, surplus results to nobody |
| `Benchmark.Aggregate` | src/scripts/parse_benchmark_results.py:223-305 | after all pods each node holds exactly the traffic that the matching by position credits to it, and the warning is that of the totals |
| `Benchmark.ValidateNetworkBalance` | src/scripts/parse_benchmark_results.py:341-354 | warns if and only if the totals differ by more than five percent of what was sent |
| `Benchmark.TrafficConserved` | src/scripts/parse_benchmark_results.py:276-299 | total send minus total receive is the forward traffic towards peers without a pod |
| `Benchmark.WarnsAboutLeak` | src/scripts/parse_benchmark_results.py:341-354 | the warning is about exactly that traffic, so it never appears when every peer credited has a pod |
| `Catchup.GetCatchupRanges` | src/FSLibrary/MissionCatchupHelpers.fs:196-208 | the loop builds the commands of exactly the specified ranges |
| `Catchup.CountIs` | src/FSLibrary/MissionCatchupHelpers.fs:203-206 | there are ceil((latest-start)/ledgersPerJob) ranges |
| `Catchup.Ascending` | src/FSLibrary/MissionCatchupHelpers.fs:203-206 | each range ends one job size before the next, the last at the latest ledger |
| `Catchup.NeighboursOverlap` | src/FSLibrary/MissionCatchupHelpers.fs:197-204 | neighbours share exactly the last overlapLedgers ledgers of the earlier one |
| `Catchup.Covers` | src/FSLibrary/MissionCatchupHelpers.fs:200-208 | together the ranges replay one unbroken stretch that holds every ledger after start and none after the latest |
| `Catchup.JobTextInjective` | src/FSLibrary/MissionCatchupHelpers.fs:204-204 | the text of a job tells its range |
| `Catchup.JobTextSays` | src/FSLibrary/MissionCatchupHelpers.fs:204-204 | before its only slash the text says the last ledger, after it the count |
| `Catchup.JobsDistinct` | src/FSLibrary/MissionCatchupHelpers.fs:203-208 | the jobs come in ascending order and no two have the same text |

## Left out

- JobRetirement.RetirementIsSafe: assumes that no marked worker is between its check and its claim when a later pass takes its owner snapshot, because `worker.sh` makes two calls and the property is false without it; `JobReclaim.DeletionIsSafeIff` has no assumption.
- ScalingRuns.AlwaysAgreeIff: is exact for a first new node without an edge in the file, because its key is drawn at random and its entry has no peers. `ScalingRuns.AlwaysKeptIff` is likewise, and for first two nodes outside tier 1, because a tier-1 node needs at least 14 splits, which a small file may not admit.
- Catchup.GetCatchupRanges: requires a positive job size when there is anything to cover, because the loop does not end otherwise.
- ResultOrder.FileOrderIff: takes the shell to list files in ordinal order, because its collation is a setting of the container.
- Benchmark.LinkTestedOnce: is for keys that are short names, which the pod names of a benchmark's topology are.
- One pass of the monitor is a state machine over its Redis calls instead of a method, because workers act between any two calls; its two procedures are methods of `JobStore.Redis`.
- Failed Redis, HTTP and DNS calls, and the exception that ends a pass early: calls succeed.
- A worker's validation of the job key, its retries of the finishing transaction, and the metrics set and the count of the succeeded set.
- 32-bit overflow of int, and floating-point rounding: integers are unbounded and throughput is real.
- Kubernetes, helm, pod deletion and log collection; the driver's own filter on live pods.
- The other quorum sets (flat and automatic), the choice of the tier-1 nodes that have a home domain, validator naming and org name cleanup in FullPubnetCoreSets, and trimming and removal of nodes after the adjacency map is built.
- The record fields of a core set other than those that select load generators; two core sets that are equal in all fields count as the same node.
- The targets of the upgrades that one evaluation makes (set sizes and ledger limits), and the service-level reading itself: an evaluation is an arbitrary verdict.
- RTT statistics, peer counts, iperf3 parsing and the report: a usable result is given by its throughputs.
- The full POSIX grammar: the reference parser accepts the subset that the printer emits and rejects everything else; of expansion only the value of a word is modelled, and execution is not.
- TOML generation, pod specifications, geography, delays, missions, logging and command-line parsing.
