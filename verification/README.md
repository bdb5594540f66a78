# gocdnext: verified models of the hard parts

This project models the parts of gocdnext whose correctness is not visible from one function body, and
proves what they promise. Each module follows one component of the repository:

| component | modules |
|---|---|
| agent shutdown: the two-barrier drain, the establishment handoff | `Drain`, `DrainInvariant`, `DrainTheorems`, `DrainDelivery`, `Handoff` |
| coalescing cleanup pool, run-scoped service pods | `CleanupPool`, `CleanupClient`, `ServicePods`, `ServiceRace` |
| backoff and retried creates | `Backoff`, `IsolatedCreate` |
| dependency graphs (local runner, web UI) | `Graph`, `PlanTopo`, `PipelineOrder`, `PipelineFlows`, `PipelinePartition`, `PipelineTies` |
| cache-key templates and their two hash resolvers | `CacheKeyGrammar`, `CacheKey`, `CacheKeyExpand`, `CappedBuffers`, `HashResolver` |
| filesystem artifact store and capability tokens | `ArtifactKeys`, `ArtifactStore`, `Base64Url`, `Signer` |
| log masking, Trivy gate, coverage reports | `Masks`, `TrivyBaseline`, `TrivyGate`, `CoverageTotals`, `GoCover`, `Lcov` |
| shared | `Wrappers`, `Sequences`, `MapSums`, `Decimal`, `Strings`, `Scanner`, `Sorting` |

Concurrent protocols are transition systems: an event is one atomic action of the code (a channel
operation, a critical section, a send, a reply), a run is any sequence of events, and theorems are about
every reachable state or every run. Objects and loops that the code updates in place are classes and
methods proved against a specification. What the code cannot see (API replies, random draws, chunk
sizes, the resolver of a template, SHA-256, HMAC, the calendar) is a parameter, so every theorem holds
for all of them. Strings are byte strings.

## What the proofs found

Several things one would like to say are not true of the code. Each is stated as the exact condition
under which it holds.

- `abandonAll` promises to name every uncertain job. A job that left `running` before the snapshot while
  its result was still in the FIFO is in neither of the two sets it joins; its id is published only if a
  later job of the same id is running, and the reported number can be too low
  (`AbandonNamesEveryUnprocessedJobIff`, `AbandonCountCoversIff`, `AbandonCanUndercount`).
- Run-scoped cleanups list pods by the full run id but delete by name, and names hold only twelve
  characters of the run id. Two runs that share them can lose a pod to each other's cleanup; with distinct
  prefixes no interleaving does (`CollisionLosesAPod`, `DeletesAreLicensedIff`).
- Two exits of a cleanup worker drop an accepted ceiling that no engine call was asked for. The
  engine-error exit does exactly when the run's ceiling was raised since the failed call began; the exit of
  the shutdown drain that finds its budget spent just after taking a run does exactly when that run has any
  ceiling of 0 or more. The success exit never does (`ExitDropsACeilingIff`, `ErrorExitCanLoseACeiling`,
  `PostPopCanLoseACeiling`).
- A create attempt that ends with the context's error is not marked ambiguous even if the server
  committed it, and an ordinary error is never marked. A failed create leaves an object that nobody
  reconciles exactly when some attempt, the last one included, was committed and the call ended with an
  ordinary error, or its only attempt was committed and cut short by the context (`UnreconciledIff`,
  `ObjectsAreLeftBehind`, `Cluster.CreateIsolatedJobPod`).
- A mask that starts or ends with a star, or holds three stars in a row, can reappear around its own
  replacement. All other masks are kept out of every text (`KeptOutIffSafe`).
- The error text of the Trivy baseline asks for a non-empty list of targets, but an empty list is
  accepted; an exception without targets never fails the gate, not even when it has expired
  (`NoTargetsIsAccepted`, `NoTargetsNeverFails`, `ExpiredFails`).
- Coverage counters are 64-bit sums without an overflow check in the go-cover and lcov parsers: in whatever
  order they are summed, they are exact in every package and overall if and only if the total fits, and
  beyond that a profile of two blocks, or a tracefile of two files, shows more covered than there is (`GoCover.ExactIffTheTotalFits`,
  `Lcov.ExactIffTheTotalFits`, `GoCover.OverflowPaintsMoreThanAll`, `Lcov.OverflowPaintsMoreThanAll`).
- `groupByDependency` calls the input order its tie breaker. Inside a flow ties follow the order in which the
  breadth-first search finds the nodes, which only starts at the first listed one. An acyclic flow is in its
  least order by input order if and only if, wherever several nodes are available, the first found is the
  first given (`LeastByInputIff`, `TiesNeedNotFollowTheInput`); it is enough that nodes of which neither is
  downstream of the other are found as given (`FoundAsGivenIsEnough`).
- A storage key that names a place below the root is refused as escaping it exactly when its first plain
  segment starts with two dots (`RefusedThoughInsideIff`, `TwoDotsInFrontAreRefused`).

## Model

| member | source | states |
|---|---|---|
| DrainInvariant.StepKeepsInv | agent/internal/rpc/drain.go:94-292 | every atomic action of jobs, send loop, server and controller keeps the fourteen-part invariant of the protocol: results exist once, barriers are where the controller thinks, nothing suppressed is past the check, a server EOF covers the whole wire |
| DrainInvariant.ReachableInv | agent/internal/rpc/drain.go:94-292 | the invariant holds in every state of every interleaving |
| DrainTheorems.RunningOnlyShrinks | agent/internal/rpc/client.go:726-763 | once draining is set no job is dispatched, the running set only shrinks, and what was sent or processed stays so |
| DrainTheorems.CleanIsHonest | agent/internal/rpc/drain.go:141-164 | a drain that reports Clean means that the server processed the JobResult of every job ever dispatched |
| DrainTheorems.TimeoutEofIsExact | agent/internal/rpc/drain.go:169-229 | a timed-out drain that ends in EOF reports exactly the jobs whose result was not processed, by identity and by number |
| DrainTheorems.CutoffDecides | agent/internal/rpc/drain.go:169-199 | from the moment the cutoff barrier is reached, whether the drain still waits for it or has given up, each candidate is settled: its result was sent before, or it never is, and on the cutoff path suppression follows the same line |
| DrainTheorems.SuppressedStaysSilent | agent/internal/rpc/client.go:466-502 | after the cutoff is released no JobResult, Coverage or TestResults of a suppressed job is ever sent |
| DrainTheorems.AbandonSpillsAtMostOne | agent/internal/rpc/client.go:604-634 | after abandonAll has published its set at most one output of an abandoned job is still sent: the one already past the check |
| DrainTheorems.AbandonNamesEveryUnprocessedJobIff | agent/internal/rpc/drain.go:231-258 | abandonAll publishes the id of every unprocessed job in every continuation exactly when every unprocessed job has its id among the running ones at the snapshot |
| DrainTheorems.AbandonHoldsEveryUnprocessedJobIff | agent/internal/rpc/drain.go:231-258 | the job states it cancels hold every unprocessed job in every continuation exactly when none had left running with an unprocessed result |
| DrainTheorems.AbandonCountCoversIff | agent/internal/rpc/drain.go:231-258 | the reported number covers all unprocessed jobs in every continuation exactly when it does at the snapshot |
| DrainTheorems.AbandonCanUndercount | agent/internal/rpc/drain.go:231-258 | a run in which one unprocessed job is abandoned, not named, and reported as none |
| DrainTheorems.CleanCanHappen | agent/internal/rpc/drain.go:141-164 | a run with a job in which the drain ends clean |
| DrainTheorems.TimeoutEofCanHappen | agent/internal/rpc/drain.go:169-229 | a run in which a timed-out drain ends in EOF with one job abandoned |
| DrainDelivery.StepKeepsDue | agent/internal/rpc/client.go:604-634 | every step of every part keeps what is on the wire or due there, in order; what is handed over becomes due unless the suppression in force names it |
| DrainDelivery.NothingIsLost | agent/internal/rpc/client.go:466-502 | over whole runs without suppression on a living stream, wire, send loop and FIFO hold exactly once and in order everything that was handed over |
| DrainDelivery.SentInOrder | agent/internal/rpc/client.go:604-634 | what is sent is a prefix of what was handed over, and all of it once the FIFO is empty |
| DrainDelivery.OutputIsCarried | agent/internal/rpc/client.go:466-502 | each output a job produces, reports as well as the result, is on the wire, on its way or in the job's hands, in order and once |
| DrainDelivery.ProducedIsDelivered | agent/internal/rpc/client.go:466-502 | from the start: what a job has produced is what was sent of it, followed by what is on its way |
| DrainDelivery.DispatchStarts | agent/internal/rpc/client.go:726-763 | a dispatched id that is not running starts, unless the drain has begun |
| DrainDelivery.CanFlush | agent/internal/rpc/client.go:604-634 | from any state the idle loop can send the whole FIFO up to the next barrier: exactly what the suppression lets through |
| DrainDelivery.CanHandOver | agent/internal/rpc/client.go:466-502 | a working job can hand over any output that is not suppressed as soon as there is room |
| DrainDelivery.CleanDrainCanFinish | agent/internal/rpc/drain.go:141-164 | from every reachable state with a living stream, a drain whose jobs have finished can end clean |
| DrainDelivery.TimedOutDrainCanFinish | agent/internal/rpc/drain.go:169-229 | from every reachable state with a living stream, a drain whose budget expires can end in the server's EOF, whatever jobs still run |
| Handoff.OneWinner | agent/internal/rpc/client.go:315-396 | in every interleaving an established stream is never cancelled by the trigger and a cancelled one is never established |
| Handoff.FirstOneWins | agent/internal/rpc/client.go:315-396 | a connected stream is established exactly unless it was cancelled first, the watcher cancels exactly unless it is established, and an abort exits clean exactly after a trigger |
| Handoff.QuietStartStreams | agent/internal/rpc/client.go:315-396 | without a trigger, and while the process and the server answer, the start is never aborted |
| Handoff.TriggerFirstExitsClean | agent/internal/rpc/client.go:315-396 | once the trigger has won, the run can only end in a clean exit |
| Handoff.StreamFirstSurvives | agent/internal/rpc/client.go:315-396 | once the stream has won no later trigger cancels it, and only its own end ends it |
| CleanupPool.StepKeepsInv | agent/internal/rpc/client.go:840-1137 | dispatcher, workers, cancellation and budget keep the pool's invariant |
| CleanupPool.PoolIsConsistent | agent/internal/rpc/client.go:840-871 | pending is exactly the queued runs plus the runs being processed, none twice, and every pending run has a ceiling |
| CleanupPool.SuccessExitCovers | agent/internal/rpc/client.go:1087-1128 | a worker that leaves by the success exit has used the highest ceiling accepted since the entry was created, with at most one call per accepted ceiling |
| CleanupPool.CallsAreAccepted | agent/internal/rpc/client.go:1103-1128 | every engine call uses an accepted ceiling, higher than all earlier ones of the same hold |
| CleanupPool.SteadyWorkerCalls | agent/internal/rpc/client.go:912-948 | from every reachable state a waiting worker takes the first run of the queue and calls the engine with its ceiling |
| CleanupPool.DrainingWorkerCalls | agent/internal/rpc/client.go:974-1016 | so does a worker in the shutdown drain while its budget lasts; with an empty queue it stops |
| CleanupPool.RaisedCeilingIsCalled | agent/internal/rpc/client.go:1103-1128 | after a successful call comes another one with the raised ceiling exactly when it was raised, otherwise the entry is deleted and the worker moves on |
| CleanupPool.ExitDropsACeilingIff | agent/internal/rpc/client.go:974-1128 | in every reachable state, exactly when each exit of a worker drops an accepted ceiling the engine was never asked for: the success exit never, the error exit when the ceiling was raised since the failed call began, the others when any ceiling is 0 or more |
| CleanupPool.ExitLeavesNothingBehind | agent/internal/rpc/client.go:974-1137 | after any exit the run is not pending, not queued and not held: what was dropped stays dropped |
| CleanupPool.FailedCeilingIsUnprocessed | agent/internal/rpc/client.go:1118-1123 | the error exit also leaves the failed ceiling itself, higher than every one that succeeded |
| CleanupPool.ErrorExitCanLoseACeiling | agent/internal/rpc/client.go:1118-1123 | a run in which a ceiling coalesced during a failing call is dropped |
| CleanupPool.PostPopCanLoseACeiling | agent/internal/rpc/client.go:995-1012 | a run in which the drain budget ends just after a worker has taken a run, and its ceiling is dropped |
| CleanupPool.EnqueueIsAcceptAndRecord | agent/internal/rpc/client.go:840-871 | the enqueue of the client is the dispatcher's Accept and Record of the transition system |
| CleanupClient.Client.EnqueueRunCleanup | agent/internal/rpc/client.go:840-871 | the pool's Accept and Record on the client's fields: a run that is not ignored or dropped ends up pending with the highest ceiling accepted for it, a known run takes no second slot, and an ignored one changes nothing |
| CleanupClient.Client.ClearCleanupEntry | agent/internal/rpc/client.go:1132-1137 | removes the run from both maps |
| CleanupClient.Client.RunCleanup | agent/internal/rpc/client.go:1087-1128 | the loop starts with the run's ceiling, terminates over finitely many raises, uses strictly rising accepted ceilings, stops at the first failed call and reports it, covers all ceilings when it succeeds, and always clears the entry |
| ServicePods.PodNameInjective | agent/internal/engine/kubernetes_services.go:106-113 | a pod name determines short run id, generation (negative ones too) and service |
| ServicePods.BuiltPodIsOurs | agent/internal/engine/kubernetes_services.go:398-440 | a built pod is recognised as ours for exactly its own full run id, service and generation, and is selected by exactly its own run's cleanup |
| ServicePods.Cluster.Validate | agent/internal/engine/kubernetes_services.go:115-133 | accepts exactly the lists of distinct, well-named services with images |
| ServicePods.Cluster.EnsureOne | agent/internal/engine/kubernetes_services.go:157-220 | creates at most its own pod over any sequence of retried attempts, and succeeds exactly when its create was answered or the name was taken by a pod of exactly this run, service and generation: a sibling's, or its own of an attempt reported as failed |
| ServicePods.Cluster.RetryCreate | agent/internal/engine/kubernetes_services.go:168-182 | the retry loop in which a taken name is a success on any attempt |
| ServicePods.Cluster.AwaitAddresses | agent/internal/engine/kubernetes_services.go:222-286 | one alias per service with its own pod's address, or an error exactly when a wait fails |
| ServicePods.Cluster.EnsureServices | agent/internal/engine/kubernetes_services.go:84-286 | fails for an empty run id, a bad list, a service that does not settle on the pods found, or a missing address, each exactly then, and otherwise succeeds; then every service has a pod of exactly this run, service and generation and its address; no existing pod changes, and nothing is touched when validation fails |
| ServicePods.Cluster.CreatePods | agent/internal/engine/kubernetes_services.go:157-220 | the create phase succeeds exactly when every service settles on the pods that were there before the call |
| ServicePods.Cluster.CleanupRunServices | agent/internal/engine/kubernetes_services.go:466-526 | removes exactly the run's pods up to the ceiling whose delete is not denied, counts them, and fails exactly when one is left or nothing could be listed |
| ServiceRace.AdoptedPodIsTheAdopters | agent/internal/engine/kubernetes_services.go:201-216 | in every interleaving, with colliding short ids too, a pod is reused exactly when it was built for the adopter's full run id, service and generation |
| ServiceRace.CreatedPodCanBeAdopted | agent/internal/engine/kubernetes_services.go:157-220 | a create whose name is free makes a pod that every agent of the same run and generation can adopt |
| ServiceRace.UndisturbedCleanup | agent/internal/engine/kubernetes_services.go:466-526 | from any state, a cleanup that lists and deletes without interference removes exactly the run's pods up to its ceiling |
| ServiceRace.DeletesAreLicensed | agent/internal/engine/kubernetes_services.go:466-526 | with distinct short ids, in every interleaving of agents and revived runs a pod is deleted only if an accepted cleanup of its own run covers its generation |
| ServiceRace.CollisionLosesAPod | agent/internal/engine/kubernetes_services.go:106-113 | two runs with the same short id: a run in which one's cleanup deletes the other's pod |
| ServiceRace.DeletesAreLicensedIff | agent/internal/engine/kubernetes_services.go:466-526 | deletes are licensed in every interleaving if and only if no two run ids share a short id |
| ServiceRace.ErrorFreeCleanupIsThorough | agent/internal/engine/kubernetes_services.go:489-526 | an error-free cleanup leaves none of the pods it listed with a generation up to its ceiling |
| Backoff.NominalClosedForm | agent/internal/engine/poll.go:84-99 | after k transient errors the nominal delay is min(2^k * base, max(cap, 2 * base)) |
| Backoff.RetrySleepBounds | agent/internal/engine/poll.go:224-255 | every retry sleep is at least the interval and Retry-After, and within max(cap, 2 * base) without one |
| Backoff.PollWithBackoff | agent/internal/engine/poll.go:224-266 | a wait of budget T polls at most T/base + 1 times, ends early exactly when the condition does, gives up exactly when polls and sleeps exceed the budget, counts exactly the re-polls after transient errors, and sleeps as computed |
| IsolatedCreate.TryFacts | agent/internal/engine/poll.go:191-222 | what every end of a retried create says about the object, for any sequence of commits and replies |
| IsolatedCreate.SuccessIsOurs | agent/internal/engine/poll.go:191-222 | success on an absent name means that the object exists and one of our attempts created it |
| IsolatedCreate.StrangerIsAdoptedIff | agent/internal/engine/poll.go:200-205 | a stranger's object is reported as success exactly when an attempt was transient first |
| IsolatedCreate.UnmarkedMeansNotTransient | agent/internal/engine/poll.go:206-221 | an unmarked context error means that no attempt was transient |
| IsolatedCreate.UnreconciledIff | agent/internal/engine/poll.go:191-222 | an unmarked failure leaves the object behind exactly when an attempt landed and the end was an ordinary error or a single cut-off attempt |
| IsolatedCreate.ObjectsAreLeftBehind | agent/internal/engine/poll.go:191-222 | the shortest such failures: one landed attempt that the context cuts off, a landed transient attempt before an ordinary error, and a landed ordinary error |
| IsolatedCreate.NothingUnreconciled | agent/internal/engine/poll.go:191-222 | no such object when only transient attempts land and ordinary errors come first |
| IsolatedCreate.Cluster.CreateSecret | agent/internal/engine/poll.go:191-222 | the retry loop on the cluster does what the specification of a retried create says |
| IsolatedCreate.Cluster.CreatePod | agent/internal/engine/kubernetes_isolated.go:697-704 | the same for the pod, with the pod of a direct reply captured |
| IsolatedCreate.Cluster.CreateIsolatedJobPod | agent/internal/engine/kubernetes_isolated.go:649-737 | succeeds exactly when both creates do, an adopted pod can be read and the owner patch works, and then hands back a pod that owns its Secret; an ownerless Secret or a lost pod is left behind exactly in the listed cases; nothing else in the cluster changes |
| Graph.OrderMeansAcyclic | cli/internal/runlocal/plan.go:212-216 | a topological order of all nodes rules out cycles |
| Graph.StuckMeansCycle | cli/internal/runlocal/plan.go:250-252 | nodes that all wait for each other contain an actual cycle, by walking back one step more than there are nodes |
| PlanTopo.TopoSort | cli/internal/runlocal/plan.go:217-254 | fails exactly when the needs are cyclic (duplicates included); otherwise lists every job once after its needs, in first-ready-first-out order |
| PlanTopo.CountNeeds | cli/internal/runlocal/plan.go:222-231 | in-degrees and adjacency lists are those of the needs graph |
| PlanTopo.FifoOrderIsUnique | cli/internal/runlocal/plan.go:212-216 | that order is determined: jobs follow the completion of their last need, ties the declaration |
| PlanTopo.PlannedJobsFollowTheirNeeds | cli/internal/runlocal/plan.go:212-254 | with unique names the planned stage holds every job once, each after all its same-stage needs |
| PlanTopo.CyclesAreCircles | cli/internal/runlocal/plan.go:250-252 | and the failure case is exactly a circle of jobs needing each other |
| PipelineOrder.TopoOrder | web/lib/pipeline-graph.ts:101-126 | always a permutation: the greedy part, then in input order what is left, which is something exactly when there is a cycle |
| PipelineOrder.SortByRank | web/lib/pipeline-graph.ts:114-114 | the ready list in ascending rank with the same members |
| PipelineOrder.GreedyIsLeast | web/lib/pipeline-graph.ts:97-126 | a complete greedy order is the rank-lexicographically least topological order |
| PipelineOrder.ExhaustedMeans | web/lib/pipeline-graph.ts:124-124 | nodes are left over exactly when the flow is cyclic |
| PipelineFlows.BuildAdjacency | web/lib/pipeline-graph.ts:50-62 | neighbours in both directions, each once in edge order; touched nodes are those with a neighbour |
| PipelineFlows.Explore | web/lib/pipeline-graph.ts:66-84 | the search finds exactly the connected component of its root, in breadth-first order |
| PipelineFlows.GroupByDependency | web/lib/pipeline-graph.ts:32-95 | the flows are separate components in input order of their first node, hold all touched nodes and exactly their inner edges; independent nodes are the untouched ones |
| PipelinePartition.EachNodeHasOnePlace | web/lib/pipeline-graph.ts:26-31 | with unique names every node is independent, exactly when no valid edge touches it, or in exactly one flow |
| PipelinePartition.SameFlowIffJoined | web/lib/pipeline-graph.ts:26-31 | two nodes share a flow exactly when valid edges join them |
| PipelinePartition.EachEdgeHasOneFlow | web/lib/pipeline-graph.ts:40-47 | the valid edges are exactly the edges of the flows, each in one of them |
| PipelinePartition.EdgesKeepTheirNumber | web/lib/pipeline-graph.ts:40-47 | a valid edge is listed in its flow as often as it was given |
| PipelinePartition.NoNodeIsRepeated | web/lib/pipeline-graph.ts:26-31 | no flow, and not the list of independent nodes, has a node twice or one that was not given |
| PipelinePartition.AcyclicFlowIsInLeastOrder | web/lib/pipeline-graph.ts:97-126 | an acyclic flow is listed upstream first, in its least such order by discovery rank |
| PipelineTies.LeastByInputIff | web/lib/pipeline-graph.ts:26-31 | input order is the tie breaker of an acyclic flow if and only if discovery and input agree wherever there is a choice |
| PipelineTies.FoundAsGivenIsEnough | web/lib/pipeline-graph.ts:26-31 | which is so when nodes of which neither is downstream of the other are found in the order given |
| PipelineTies.TiesNeedNotFollowTheInput | web/lib/pipeline-graph.ts:28-29 | three pipelines whose only grouping lists a flow in another order than the first one by input |
| CacheKeyGrammar.ScanIsSound | proto/cachekey/parser.go:75-77 | what the scanner finds at the front of a text is a token of the grammar |
| CacheKeyGrammar.ScanIsComplete | proto/cachekey/parser.go:75-77 | a token at the front is found and read in only one way, whatever follows |
| CacheKeyGrammar.TokenIsLong | proto/cachekey/parser.go:8-15 | a token takes at least the twelve bytes of the hash that replaces it |
| CacheKeyGrammar.SplitIsWellCut | proto/cachekey/parser.go:186-259 | text chunks and token slices of a key concatenate to exactly the key |
| CacheKeyGrammar.AcceptsIsTheGrammar | proto/cachekey/parser.go:8-15 | a key has a reading in the grammar exactly when its cut passes the parser's checks, and never a second one |
| CacheKey.Parse | proto/cachekey/parser.go:174-262 | accepts exactly the keys of the grammar and returns the parts of their one reading; a straggler error points at two braces |
| CacheKeyExpand.Expand | proto/cachekey/parser.go:275-309 | the concatenation of texts and hashes, refused on a failed or mis-sized hash, a bad length or a bad character |
| CacheKeyExpand.HasTokens | proto/cachekey/parser.go:314-321 | some part is a call |
| CacheKeyExpand.TemplateExpands | proto/cachekey/parser.go:275-309 | an accepted key with tokens always expands under a 12-hex resolver, to a key no longer than its template and without braces |
| CacheKeyExpand.StrictTextIsLiteral | proto/cachekey/parser.go:17-20 | an expanded key parses as one literal with no tokens |
| CacheKeyExpand.BracesMeanTokens | agent/internal/runner/prep.go:32-32 | for accepted keys the two-brace probe tells exactly whether there are tokens |
| CacheKeyExpand.ExpandedKeyIsFinal | proto/cachekey/parser.go:17-20 | expanding an expanded key changes nothing |
| CacheKeyExpand.ExpandEntry | agent/internal/runner/cachekey_expand.go:90-115 | one entry is rewritten to its expansion, or left alone on failure |
| CacheKeyExpand.ExpandCacheKeys | agent/internal/runner/cachekey_expand.go:85-117 | succeeds exactly when every key expands, then no key holds a template; entries listed twice do no harm |
| CacheKeyExpand.PrintParses | proto/cachekey/parser.go:8-15 | parsing a printed list of parts gives the list back, with braces and newlines allowed in arguments |
| CappedBuffers.CappedBuffer.Write | agent/internal/podfs/podfs.go:59-72 | keeps the first max bytes of all writes, reports every write as complete, and marks overflow |
| CappedBuffers.CappedBuffer.Truncated | agent/internal/podfs/podfs.go:74-79 | not truncated means nothing was dropped |
| CappedBuffers.OverflowWithoutLoss | agent/internal/podfs/podfs.go:59-79 | marked without loss exactly when the last write was empty and the buffer exactly full |
| HashResolver.StreamHash | agent/internal/runner/cachekey_expand.go:279-314 | for any chunking, succeeds exactly when the read is not broken off and the file is within both caps, and then has fed exactly its bytes |
| HashResolver.HostHash | agent/internal/runner/cachekey_expand.go:175-272 | accepts exactly 1 to 100 regular files that stay below the real work directory once symlinks are followed and can be read to their end, of at most 16 MiB each and 64 MiB together, and hashes their sorted records; no match, too many files and a missing work directory are reported as such |
| HashResolver.ReadFile | agent/internal/runner/cachekey_pod_resolver.go:183-196 | the first cap + 1 bytes of the file, for any write chunking |
| HashResolver.FeedPodFile | agent/internal/runner/cachekey_pod_resolver.go:156-173 | one file within the caps is fed as its record |
| HashResolver.PodHash | agent/internal/runner/cachekey_pod_resolver.go:120-177 | accepts within the same limits when the listing and every read work, and computes the same key as the host |
| HashResolver.SortUnder | agent/internal/runner/cachekey_pod_resolver.go:136-139 | sorting absolute paths is sorting relative paths, whatever the work directory |
| HashResolver.HostAndPodAgree | agent/internal/runner/cachekey_pod_resolver.go:136-139 | for the same files in any order both resolvers accept the same inputs and compute the same key |
| ArtifactKeys.ResolveKey | server/internal/artifacts/filesystem.go:112-137 | the loop computes the path of a key, or refuses it |
| ArtifactKeys.ResolvesBelowRoot | server/internal/artifacts/filesystem.go:110-137 | an accepted key names a place below the root with plain segments only |
| ArtifactKeys.CacheKeysLandInCache | server/internal/artifacts/handler.go:60-61 | a key that starts with cache/ resolves to root/cache or below |
| ArtifactKeys.ResolveIsIdempotent | server/internal/artifacts/filesystem.go:126-136 | a printed path resolves to itself, and is refused exactly when it starts with a backslash |
| ArtifactKeys.RefusedThoughInsideIff | server/internal/artifacts/filesystem.go:126-136 | a key that names a place below the root is refused exactly when its first plain segment starts with two dots |
| ArtifactKeys.TwoDotsInFrontAreRefused | server/internal/artifacts/filesystem.go:132-135 | for instance every file of the root whose name puts two dots in front of another name |
| ArtifactStore.OutsideCacheNeverChanges | server/internal/artifacts/handler.go:58-64 | whatever uploads interleave, an object outside root/cache keeps its content until its own path is deleted |
| ArtifactStore.SuccessMeansStored | server/internal/artifacts/filesystem.go:233-277 | an upload just answered with success finds exactly its bytes stored |
| ArtifactStore.WriteOnce | server/internal/artifacts/filesystem.go:233-277 | over a run without a delete of the path all successful uploads outside root/cache carried the same bytes, and those are stored |
| ArtifactStore.FilesAreWhole | server/internal/artifacts/filesystem.go:198-231 | every file is the whole body of one successful upload of its path, in root/cache too |
| ArtifactStore.StraightUpload | server/internal/artifacts/handler.go:46-82 | from any state an upload that nobody interferes with is answered as one caller would be, and stores its body exactly then |
| ArtifactStore.FilesystemStore.Put | server/internal/artifacts/filesystem.go:198-231 | one caller: replaces the object unless the key is refused or the upload breaks, and then changes nothing |
| ArtifactStore.FilesystemStore.PutCreateOnly | server/internal/artifacts/filesystem.go:237-277 | one caller: stores the object where there is none, accepts the same bytes again, refuses others, and never changes an object |
| ArtifactStore.FilesystemStore.HandlePut | server/internal/artifacts/handler.go:46-82 | replaces exactly under cache/, and no PUT changes an object outside root/cache |
| ArtifactStore.FilesystemStore.Delete | server/internal/artifacts/filesystem.go:187-196 | removes exactly the object of the key |
| Base64Url.RoundTrip | server/internal/artifacts/signer.go:99-105 | unpadded base64url decodes to every byte string it encoded (RFC 4648, sections 3.2 and 5) |
| Signer.PayloadInjective | server/internal/artifacts/signer.go:100-105 | the signed text determines key, verb and expiry second |
| Signer.VerifyOfSign | server/internal/artifacts/signer.go:54-98 | a minted token opens its own key for its own verb up to its expiry second, and nothing else |
| Signer.AcceptedMeansGranted | server/internal/artifacts/signer.go:62-98 | an accepted token whose signed text was really signed opens a key granted for that verb and not expired |
| Masks.ApplyMasks | agent/internal/runner/runner_io.go:69-77 | replaces the masks of at least four bytes one after the other |
| Masks.ReplacesOnlyMasks | agent/internal/runner/runner_io.go:69-77 | the text is cut at the leftmost masks, each cut is filled with three stars, and everything else stays as it was |
| Masks.NothingNew | agent/internal/runner/runner_io.go:69-77 | no replacement creates a safe mask, and it removes its own |
| Masks.GoneForGood | agent/internal/runner/runner_io.go:64-77 | a safe mask of the list is not in the output, whatever the other masks are |
| Masks.KeptOutIffSafe | agent/internal/runner/runner_io.go:64-77 | exactly the safe masks are kept out of every text; masks without a star are safe |
| TrivyBaseline.LoadBaseline | plugins/scripts/trivy_gate.py:153-241 | loads exactly the baselines of version 1 whose unpublished block is valid, whose entries are valid and whose identities are all different; what is loaded is within its class's window |
| TrivyBaseline.CheckException | plugins/scripts/trivy_gate.py:166-231 | the checks of one entry accept exactly complete entries whose classes fit each other and whose dates fit the class |
| TrivyBaseline.CheckUnpublished | plugins/scripts/trivy_gate.py:125-147 | the checks of one hidden target accept exactly complete, current entries of at most 30 days |
| TrivyBaseline.LoadUnpublishedTargets | plugins/scripts/trivy_gate.py:113-150 | loads exactly the lists of different targets that are all signed off, current and within 30 days |
| TrivyBaseline.UnpublishedLapses | plugins/scripts/trivy_gate.py:113-150 | an entry that hides a target is refused more than 30 days after any day on which it was valid |
| TrivyBaseline.SameKey | plugins/scripts/trivy_gate.py:72-85 | identities are equal exactly when target, package, version, origin and class are, and the binary except for OS packages |
| TrivyBaseline.NoTargetsIsAccepted | plugins/scripts/trivy_gate.py:177-179 | an empty list of targets passes the validation |
| TrivyGate.DedupeFindings | plugins/scripts/trivy_gate.py:253-284 | keeps of each identity its first row, in order |
| TrivyGate.RowKeyIsIdentity | plugins/scripts/trivy_gate.py:279-280 | two rows have the same identity exactly when they differ in the fix at most |
| TrivyGate.Evaluate | plugins/scripts/trivy_gate.py:303-399 | fails exactly when the policy is not met; failures, warnings and matches hold exactly the findings and unused exceptions judged so, in order, and each target's counters count its lines in them, which makes up its CRITICAL and HIGH findings plus its unused expired or obsolete exceptions |
| TrivyGate.PassesIff | plugins/scripts/trivy_gate.py:6-13 | the gate passes exactly when no exception with a target has expired and every CRITICAL or HIGH finding is of a known class and covered by an exception that allows it, or is a HIGH that is only observed |
| TrivyGate.LeftoversAre | plugins/scripts/trivy_gate.py:379-392 | of the unused exceptions the expired ones fail, and the others warn exactly where their target was scanned |
| TrivyGate.CountersPerTarget | plugins/scripts/trivy_gate.py:314-315 | each counter of a target on its own: its findings and unused exceptions of that judgement |
| TrivyGate.CountersAddUp | plugins/scripts/trivy_gate.py:314-315 | over all targets a counter adds up to the number of lines in the list of its kind |
| TrivyGate.NoCriticalSlipsThrough | plugins/scripts/trivy_gate.py:6-13 | a passing gate over a loaded baseline holds every CRITICAL by an exception of the same identity, not expired, approved in the last 7 days (emergency) or 90 days (os-no-fix, no fix) |
| TrivyGate.PassingIsAntitone | plugins/scripts/trivy_gate.py:303-399 | what passes on a later day passes on an earlier one |
| TrivyGate.ExpiredFails | plugins/scripts/trivy_gate.py:8-8 | an expired exception with a target fails the gate, matched or not |
| TrivyGate.NoTargetsNeverFails | plugins/scripts/trivy_gate.py:379-392 | an exception without targets has no effect at all |
| CoverageTotals.AddKeepsConsistent | agent/internal/runner/coverage.go:216-233 | adding lines to a package keeps covered within the total everywhere and the totals equal to the sums over packages |
| CoverageTotals.ConsistentMeans | agent/internal/runner/coverage.go:277-283 | a consistent summary covers no more than there is |
| CoverageTotals.CapPackages | agent/internal/runner/coverage.go:458-486 | the ascending (ratio, name) list of all packages, cut after 200, for ratios in any floating-point rounding |
| CoverageTotals.WorstAreKept | agent/internal/runner/coverage.go:456-479 | everything kept is worse than everything cut, and the list is determined |
| CoverageTotals.CoverageGate | agent/internal/runner/coverage.go:118-134 | fails without lines; in float64 a threshold that is met never fails, and one that is missed always does unless the percentage rounds up to it |
| CoverageTotals.AddThenWrap | agent/internal/runner/coverage.go:216-231 | adding lines to 64-bit counters is adding them exactly and wrapping once |
| CoverageTotals.WrappedIsExactIff | agent/internal/runner/coverage.go:216-231 | 64-bit counters are the exact ones, in every package and overall, exactly when the total fits |
| GoCover.CommutesIffSizesAgree | agent/internal/runner/coverage.go:153-159 | the order of two profile bodies does not matter exactly when they agree on the sizes of shared blocks |
| GoCover.ConcatenationIsIdempotent | agent/internal/runner/coverage.go:153-159 | listing a body twice changes nothing |
| GoCover.SumsAreUnique | agent/internal/runner/coverage.go:214-236 | the merged blocks determine the summary, whatever the map's iteration order |
| GoCover.LineRoundTrip | agent/internal/runner/coverage.go:186-200 | a written record is read back, whatever spaces and colons its key holds |
| GoCover.ExactIffTheTotalFits | agent/internal/runner/coverage.go:214-234 | in whatever order the blocks are visited, the 64-bit summary is the wrapped exact one, and exact if and only if the total fits |
| GoCover.OverflowPaintsMoreThanAll | agent/internal/runner/coverage.go:214-234 | a profile of two blocks with more covered than there is |
| GoCover.Summarise | agent/internal/runner/coverage.go:214-236 | each package sums its own blocks, the totals all of them, in 64-bit counters and any order of visiting |
| GoCover.ParseGoCover | agent/internal/runner/coverage.go:160-239 | accepts exactly the profiles with no line of 1 MiB or more, a header and at least one well-formed record and nothing malformed, and sums their merged blocks in 64-bit counters, exactly when the total fits |
| Lcov.ExactIffTheTotalFits | agent/internal/runner/coverage.go:245-329 | whatever the lines, the 64-bit summary is the wrapped exact one, which is consistent, and exact if and only if the total fits |
| Lcov.ParseLcov | agent/internal/runner/coverage.go:245-329 | a line of 1 MiB or more is an error; every accepted tracefile gives a consistent summary in 64-bit counters, exact exactly when the total fits |
| Lcov.ClassifyReads | agent/internal/runner/coverage.go:289-319 | SF, LF, LH, DA and end lines are read for what they say |
| Lcov.ReadsItsRecords | agent/internal/runner/coverage.go:241-329 | a tracefile written from records is read as exactly their sum, and refused exactly when it has none or one whose own totals are implausible; a record that only lists its lines never is |
| Lcov.OverflowPaintsMoreThanAll | agent/internal/runner/coverage.go:272-283 | a tracefile of two files with more covered than there is |

## Left out

- gRPC, HTTP, Kubernetes and Docker clients, exec streams, git, archives and codecs: abstract steps, or
  outcomes given from outside.
- Logging, metrics other than the retry counter, lifecycle events and acknowledgement messages.
- Drain: a job is "outputs, then exactly one JobResult, then done"; heartbeats and the Draining frame are
  ordinary traffic, and the budgets are events that may happen at any time.
- Handoff: the drain that follows an established stream is the subject of Drain.
- ServicePods: pod specs and lifecycle events. The waits for addresses run one after the other, which only
  decides which of several failures is reported.
- IsolatedCreate: adopting a pod that cannot be read back leaves the pod behind; the contract of
  CreateIsolatedJobPod says exactly when.
- PlanTopo: matrix expansion, the `--job` filter and the building of planned jobs: one map update per
  field.
- PipelineFlows: an edge's stage, which the code carries along unread, and the header text of a flow
  beyond its two end points.
- CacheKey: error texts; the order of the checks is kept. A resolver that changes its answer during one
  expansion is not modelled.
- HashResolver: glob matching (the matched files are given); which of several errors is reported. A cancelled job
  is a read that breaks off.
- ArtifactStore: directories, and keys that name another upload's temporary file. Temporary names are
  random and taken to be nobody's key.
- Signer: the MAC is an unknown function; comparing in constant time is not modelled.
- TrivyBaseline: the YAML syntax; other values than strings and lists of strings are known by their text alone. The
  calendar is an unknown function.
- TrivyGate: message texts, the Markdown summary and the failure for a missing scan. The lists of the report
  keep their structured lines instead of texts, so equal texts are not merged.
- CoverageTotals: float64 is an unknown rounding; of its bits only monotonicity and exact whole numbers up to 2^53 are
  used.
- Lcov: Cobertura and JaCoCo reports add nothing to the same sums.
- The web application, the CLI commands, schemas and plugin senders.
