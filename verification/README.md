# Verified models of the test platform's core

The platform runs API tests, browser tests, data workflows and load tests for
projects that bring their own sources, environments and secrets. This project
models its five stateful cores and proves what each promises, over every input
and every interleaving. Each model keeps the code's own branches, constants and
error cases; where the code does not do what one would expect, the model keeps
the code's behaviour and a theorem says exactly when it deviates.

**Workflows.** `WorkflowGraph` is the validator: Kahn's algorithm over a
multigraph with labelled edges accepts exactly the acyclic well-formed graphs.
`WorkflowScheduler` is the wave scheduler, proved to compute one declarative
schedule. `WorkflowMeaning` shows that the schedule is unique and that a node
runs exactly when active edges lead to it from a root. `WorkflowExecution`
joins both: one record per definition, whatever the scan order. `WorkflowContext`
reads a run without its loops: every node saw exactly what earlier rounds had
extracted, and the last extraction of a name wins. The wave size
cannot matter, because every node of a wave sees the same snapshot; it is
computed and then bounds only how many nodes run at once. A workflow whose last
nodes are all skipped raises instead of finishing. This happens exactly when a
node of the last wave has an edge leading on, so a workflow completes exactly
when its last wave consists of sinks. `WorkflowExecution.UntakenBranchIsStuck`
is the smallest example.

**Runs and attempts.** `RunDomain` holds the transition tables and the retry
decision. `RunStore` has each repository operation as a step, and
`RunRepository` the repository as a class proved to take those steps.
`RunProtocol` interleaves managers, dispatch, cancellation, retries, heartbeats,
the lease reaper and the convergence of failed runs. `RunSafety`, `RunHistory`
and `RunBounds` prove what all interleavings keep. `RunStranding` covers the one
surprising outcome: a cancellation that lands after the manager's last look, or
before it schedules a retry, leaves a terminal attempt and a run in CANCELLING,
which only an explicit convergence moves. `RunCancellation` makes that window
exact: a cancellation seen at the look ends attempt and run CANCELLED, one that
lands later strands the run, and nothing else does with a SUCCEEDED attempt.
`RunCompletion` says what becomes of a result nobody disturbs, and `RunLeases`
what a heartbeat is worth. `EventLog`, `RunnerAgent` and `EventStream` cover
event numbering and the resumable server-sent event stream (section 9.2 of the
HTML Living Standard). The retry rule's idempotent methods are those of section
9.2.2 of RFC 9110.

**Load tests.** `LoadMetrics` and `LoadSummary` are the counters, the reservoir
and the percentiles; `LoadResponses` the response buffer and the sorted store;
`LoadEngine` the interleaving of workers, service, cancellation, repository
errors and start-up recovery. `LoadRuns` shows what whole runs conserve: a run
that reports success made, counted and stored every request exactly once.
`LoadReports` compares the final report with the stored responses: it describes
exactly them.
`LoadEndings` says exactly how a run ends. The service leaves it RUNNING if and
only if it could not read the run at all or its error handler met an error of its
own, and then it reads RUNNING until the start-up recovery marks it FAILED.
`LoadWitnesses` gives runs that come to success and to either of these endings.

**Versioned secrets.** `Environment` builds a revision, `EnvironmentStore` keeps
the chain of revisions, `ConfigurationResolver` reads a pinned one.
`EnvironmentHistory` looks at whole histories of requests: which are accepted,
that the revisions are what the accepted ones returned, and that a run is
resolved from the one it is pinned to. Encryption
is symbolic (section 7 of NIST SP 800-38D): a box opens under exactly the key and
the associated data it was sealed with.

**Archives and logins.** `ArchivePaths`, `SourceArchive` and `SourceStore` relate
the archive validator to extraction. The validator accepts a file entry named
`.`, which extraction then refuses with an error that is no `SourceStoreError`;
acceptance guarantees extraction exactly for the other archives.
`SourceRoundTrip` says exactly which materializations succeed. `LoginThrottle`
bounds the failures in any window and shows that the bound is reached;
`LoginAdmission` says exactly which arrivals are admitted.

`Wrappers`, `Sorting` and `PythonText` hold option and result types, insertion
sort, and Python's white space.
`dafny verify dfyconfig.toml` verifies everything.

## Model

| member | source | states |
|---|---|---|
| WorkflowGraph.ValidateWorkflowGraph | services/api/data_factory_domain.py:77-136 | the validator accepts exactly the well-formed acyclic definitions; a rejection names the first defect in scan order, NoRoot and NotAcyclic exactly when they apply |
| WorkflowGraph.WellFormedExactly | services/api/data_factory_domain.py:56-115 | a definition is well-formed exactly if counts, identifiers and node types are admissible, identifiers are unique, and every edge joins declared nodes with an outcome its source may have: http always/success/failure, condition always/true/false, parallel always |
| WorkflowGraph.CheckNodes | services/api/data_factory_domain.py:77-94 | finds the earliest node defect, or that all nodes are sound |
| WorkflowGraph.CheckEdges | services/api/data_factory_domain.py:95-115 | finds the earliest edge defect, and otherwise tallies in-degrees and target lists with parallel edges counted separately |
| WorkflowGraph.VisitInDependencyOrder | services/api/data_factory_domain.py:125-136 | the ready-stack loop visits every node if and only if the multigraph is acyclic, and then in topological order |
| WorkflowGraph.CountOff | services/api/data_factory_domain.py:129-134 | one count is lowered per edge, and a target becomes ready when its last incoming edge is counted |
| WorkflowGraph.ResolvingLowersCounts | services/api/data_factory_domain.py:129-134 | resolving a node lowers each target's count by the number of parallel edges to it |
| WorkflowGraph.OrderedImpliesAcyclic | services/api/data_factory_domain.py:118-136 | a topological order excludes every cycle, self-loops included |
| WorkflowGraph.StuckHasCycle | services/api/data_factory_domain.py:135-136 | a nonempty set in which every node is fed from the set contains a cycle, so an incomplete visit proves one |
| WorkflowGraph.AcyclicIffOrderable | services/api/data_factory_domain.py:118-136 | acyclicity and the existence of a topological order coincide |
| WorkflowScheduler.RunGraph | services/api/data_factory_executor.py:180-243 | the two-level loop computes the declarative schedule; it raises exactly when a node is skipped after the last wave; results, failure and final context follow from the schedule |
| WorkflowScheduler.SkipFixpoint | services/api/data_factory_executor.py:192-211 | repeated scans stop with nothing left to skip and every skip justified |
| WorkflowScheduler.PendingMeansReady | services/api/data_factory_executor.py:213-225 | on an acyclic graph, a pending node after the skip fixpoint means some node is ready |
| WorkflowScheduler.WaveLimit | services/api/data_factory_executor.py:245-258 | the wave size is the least of the caps in force and at least one |
| WorkflowContext.CapsExactly | services/api/data_factory_executor.py:245-258 | a wave is capped by exactly the parallel nodes that ran and have an edge into it, at their own limit or else two |
| WorkflowScheduler.RunWave | services/api/data_factory_executor.py:226-234 | every ready node runs against the same context snapshot and is resolved soundly |
| WorkflowScheduler.MergeExtractions | services/api/data_factory_executor.py:235-237 | extractions are merged in declaration order into the context of the next round |
| WorkflowScheduler.ContextSaturates | services/api/data_factory_executor.py:235-243 | the context no longer changes once every node that ran lies behind |
| WorkflowContext.ContextIsExact | services/api/data_factory_executor.py:226-237 | the context of a round holds, for every name, what the last node by round and declaration position extracted before it, and otherwise exactly the initial value; nothing else is the context |
| WorkflowContext.EdgeLeadsExactly | services/api/data_factory_executor.py:260-272 | an edge leads on always, on its source's success, on its failure, or on the branch its condition took, and never from a skipped node |
| WorkflowContext.ScheduleMeansExactly | services/api/data_factory_executor.py:180-243 | the computed schedule is exactly the run in which every node that ran saw its round's context, and ran if and only if it is a root or an edge leads to it |
| WorkflowMeaning.ScheduleIsUnique | services/api/data_factory_executor.py:180-243 | workflow, node behaviour and initial context determine executions and rounds completely |
| WorkflowMeaning.RanIffActivelyReachable | services/api/data_factory_executor.py:196-211 | a node has run if and only if a path of active edges leads to it from a root |
| WorkflowMeaning.SkipFixpointIsUnique | services/api/data_factory_executor.py:192-211 | the skip fixpoint does not depend on the scan order |
| WorkflowMeaning.UnconditionalAlwaysCompletes | services/api/data_factory_executor.py:260-272 | a workflow of unconditional edges runs every node and never raises |
| WorkflowMeaning.RaisesIffLastWaveLeadsOn | services/api/data_factory_executor.py:191-225 | the run raises if and only if a node of its last wave has an outgoing edge |
| WorkflowMeaning.BranchIsValid | services/api/data_factory_domain.py:77-136 | the validator accepts a condition with one edge of its `true` branch |
| WorkflowMeaning.UntakenBranchRaises | services/api/data_factory_executor.py:223-225 | in every schedule of that workflow with the condition false, the run raises |
| WorkflowMeaning.RaisingNeedsTwoNodes | services/api/data_factory_executor.py:223-225 | no workflow with fewer nodes or edges raises |
| WorkflowExecution.UntakenBranchIsStuck | services/api/data_factory_executor.py:223-225 | when the condition comes out false, that workflow has exactly one record, the raise |
| WorkflowExecution.Execute | services/api/data_factory_executor.py:137-155 | a run validates first and refuses with the validator's own defect, refuses the empty workflow, and records what the schedule from the overridden variables says |
| WorkflowExecution.RecordIsUnique | services/api/data_factory_executor.py:137-155 | a definition has exactly one possible record, valid or not |
| WorkflowContext.FinishedIsExact | services/api/data_factory_executor.py:137-155 | a finished record reports each node's own status, failed if one failed, and its context holds the last extraction of every name over the overridden variables |
| RunDomain.BackoffIsCappedAndMonotone | services/retry_policy.py:15-36 | retry delays never shrink, stay between the base delay and the cap, and stay at the cap |
| RunDomain.BackoffDoubles | services/retry_policy.py:34-36 | the first delay is the base, and each further one twice the one before, up to the cap |
| RunStore.SweepLeavesNoExpiredLease | services/api/repository.py:221-240 | a sweep leaves no leased attempt at or before the cutoff, and sweeping again changes nothing |
| RunLeases.HeartbeatExactly | services/api/domain.py:175-200 | a heartbeat renews exactly the runner's own unexpired lease, for a positive time, and changes nothing else |
| RunLeases.HeartbeatProtects | services/api/repository.py:207-240 | after it the attempt is not lost under any actions whose sweeps look no further than the new lease |
| RunLeases.ExpiredIsLost | services/api/repository.py:221-240 | in every state the protocol keeps, a sweep at or after the expiry loses the attempt as INFRA_ERROR and leaves its run ended |
| RunLeases.UnexpiredIsKept | services/api/repository.py:221-240 | a sweep changes no other attempt, and no run without an expired attempt |
| RunStore.SweepOneMore | services/api/repository.py:228-240 | visiting one more attempt reaps it and ends its run where the table permits, whatever was visited before |
| RunRepositoryModel.RunRepository.Transition | services/api/repository.py:120-125 | takes exactly one table-checked step or changes nothing |
| RunRepositoryModel.RunRepository.Cancel | services/api/repository.py:127-136 | cancels, is idempotent in CANCELLING, and refuses terminal runs unchanged |
| RunRepositoryModel.RunRepository.Begin | services/api/repository.py:153-172 | claims a fresh attempt and starts its run together, or changes nothing |
| RunRepositoryModel.RunRepository.RenewAttemptLease | services/api/repository.py:207-219 | extends only an unexpired lease of the same runner |
| RunRepositoryModel.RunRepository.Complete | services/api/repository.py:242-249 | records a result only for its own attempt and a legal final state |
| RunStore.CompletesExactly | services/api/repository.py:242-249 | a result is recorded exactly if it names the attempt and its run and the table permits the state, and then on that attempt alone |
| RunStore.CancelsExactly | services/api/repository.py:127-136 | a cancellation is accepted exactly while the run has not ended, and changes nothing once it is CANCELLING |
| RunRepositoryModel.RunRepository.ExpireAttemptLeases | services/api/repository.py:221-240 | succeeds exactly on sweepable tables, returns exactly the reaped attempts, and on an error leaves a partial sweep |
| RunRepositoryModel.RunRepository.AppendEvent | services/api/repository.py:251-283 | appends under the next cursor, returns the stored record for an identical event, and changes nothing on a conflict |
| RunRepositoryModel.RunRepository.ListEvents | services/api/repository.py:285-295 | lists the run's events after the cursor in cursor order, whatever the table order |
| RunSafety.WriteRetryKeepsInv | services/runner_manager.py:144-156 | a run goes to RETRY_WAIT only when its one live manager has no leased attempt left |
| RunSafety.BeginKeepsInv | services/api/repository.py:153-172 | claiming from DISPATCHING finds nothing else alive on the run |
| RunSafety.ApplyKeepsInv | services/runner_manager.py:86-165 | every step of every participant keeps the protocol invariant |
| RunBounds.OneLiveAttempt | services/runner_manager.py:86-165 | under every interleaving a run has at most one leased attempt, and only in RUNNING, CANCELLING or a terminal state |
| RunBounds.SweepAlwaysCompletes | services/api/repository.py:221-240 | in every reachable state the reaper completes and leaves no expired lease |
| RunBounds.LostStaysLost | services/api/domain.py:175-200 | after a loss no late heartbeat or result changes the attempt or its ended run |
| RunBounds.ManagerOutcome | services/runner_manager.py:128-165 | a manager that left `execute` has a terminal attempt; returned, it wrote the matching run state, RETRY_WAIT, or INFRA_ERROR for an abandoned retry; escaped, its run is CANCELLING or ended |
| RunBounds.BoundedLife | services/retry_policy.py:15-36 | attempts never exceed the limit, versions never exceed 4 * limit + 1, and the state fixes the version as a function of the attempts |
| RunHistory.ApplyEvolves | services/api/domain.py:46-97 | one action moves every record by at most one legal transition |
| RunHistory.TerminalIsForever | services/api/domain.py:46-97 | terminal runs and attempts never change again |
| RunHistory.CancellationSticks | services/api/domain.py:55-66 | a run that entered CANCELLING is never later SUCCEEDED or RETRY_WAIT |
| RunHistory.EscapesExactly | services/runner_manager.py:139-162 | exactly when an InvalidTransition escapes from the manager, with the store unchanged and the attempt terminal |
| RunCancellation.CancelSeenIsRecorded | services/runner_manager.py:128-162 | over all action sequences: if the run is CANCELLING when the manager looks after a SUCCEEDED result, seven calls later attempt and run have ended CANCELLED, unless the attempt is lost, the manager crashes, or somebody else ends the run |
| RunCancellation.LateCancelAlwaysStrands | services/runner_manager.py:128-162 | a cancellation after the look and before the final write always ends with a SUCCEEDED attempt and a run in CANCELLING, with the same exceptions |
| RunCancellation.OnlyLateCancelStrands | services/runner_manager.py:128-162 | whenever a run is left CANCELLING behind a SUCCEEDED attempt, it was not being cancelled at the manager's look, and was cancelled after it |
| RunCompletion.ResultIsActedOn | services/runner_manager.py:128-165 | a result for a RUNNING run that nobody disturbs is acted on: the attempt ends with it, and the run ends with it, asks for a retry exactly if the policy, the attempts left and the methods allow one, or ends INFRA_ERROR for want of a scheduler |
| RunCompletion.SchedulingDecides | services/runner_manager.py:150-156 | a scheduler that fails makes the manager's next call, whenever it comes, end the run; one that works lets it return |
| RunCompletion.EnginesAgree | services/runner_manager.py:86-91 | under every interleaving a manager that has accepted its task runs it against a run of the same engine |
| RunStranding.LateCancelStrands | services/runner_manager.py:128-162 | a concrete run whose attempt succeeded while the run is left CANCELLING |
| RunStranding.RetryWhileCancellingStrands | services/runner_manager.py:144-156 | a concrete run with a retryable result whose retry is refused while the run is left CANCELLING |
| RunStranding.StrandedUntilConverged | services/local_runner_service.py:197-207 | such a run stays as it is if and only if no convergence comes; the first one ends it with INFRA_ERROR for good |
| EventLog.AppendKeepsLog | services/api/repository.py:251-283 | cursors stay 1..n, event ids and (attempt, number) pairs stay unique, nothing is rewritten, a repeated append is a no-op |
| EventLog.AppendsExactly | services/api/repository.py:251-283 | an event is taken exactly if attempt, run and engine agree and it is already there word for word, or new in id and number; a new one goes to the end under the next cursor |
| EventLog.ListedIsSorted | services/api/repository.py:285-295 | a listing holds exactly the run's events after the cursor, in strictly rising cursor order |
| EventLog.ListingIsUnique | services/api/repository.py:285-295 | a listing sorted by cursor is determined by its events |
| RunnerAgentModel.PersistEvent | services/runner_manager.py:105-115 | exactly when an event is delivered, what the collector and a heartbeat change, and that a raise leaves the log as it was |
| RunnerAgentModel.RunnerAgent.Emit | runner/agent.py:123-135 | a delivered event carries the agent's next number; a raising sink leaves number and log unchanged |
| RunnerAgentModel.NextNumberIsFree | runner/agent.py:123-135 | the agent's next number is never taken, so a successful append adds its own event |
| RunnerAgentModel.NumbersStayInStep | runner/agent.py:123-148 | for any interleaving of agents and threads, with any raising sinks, each attempt's events are numbered 0, 1, 2, ... in cursor order |
| EventStreamModel.EventStream.Deliver | services/api/routes.py:170-175 | delivers everything after the cursor and advances past it, or fails on a missing run |
| EventStreamModel.EventStream.GoesOn | services/api/routes.py:176-183 | a later look at the run closes the stream on a terminal or missing run or a gone client |
| EventStreamModel.ListedFromPrefix | services/api/routes.py:192-207 | what is listed after the last received event is exactly the rest |
| EventStreamModel.DeliveriesArePrefix | services/api/routes.py:159-207 | over any number of cut and resumed sessions the deliveries are a gap-free, duplicate-free prefix of the run's events |
| EventStreamModel.UncutPollCatchesUp | services/api/routes.py:159-189 | one uncut poll leaves the client with everything appended so far |
| LoginThrottleModel.LoginThrottle.Enter | services/api/auth_throttle.py:23-37 | prunes, admits exactly below the limit with a free slot, and gives the slot back on refusal |
| LoginAdmission.AdmittedExactly | services/api/auth_throttle.py:23-45 | over all interleavings an arrival is admitted if and only if fewer than max_concurrent logins hold a slot and the key has fewer than max_failures failures since its last success that are younger than the window |
| LoginThrottleModel.FailuresAreBounded | services/api/auth_throttle.py:12-45 | in any window without a success, a key has at most max_failures + max_concurrent - 1 recorded failures, over all interleavings |
| LoginThrottleModel.BoundIsReached | services/api/auth_routes.py:101-111 | some interleaving of logins reaches that bound |
| LoginThrottleModel.OpenWindowIsRemembered | services/api/auth_throttle.py:29-33 | pruning never forgets a failure of a window that is still open |
| LoadMetrics.MetricValues.Add | services/api/load_test_executor.py:172-188 | one observation updates every counter, extreme and the reservoir in place |
| LoadMetrics.AddedDescribes | services/api/load_test_executor.py:172-188 | the values keep describing the observations: exact counts, sum, extremes, status and error counts, and a reservoir of min(total, 10000) observed latencies |
| LoadMetrics.FullReservoirReplaces | services/api/load_test_executor.py:177-182 | in a full reservoir exactly the drawn place takes the new latency |
| LoadMetrics.Metrics.Add | services/api/load_test_executor.py:203-224 | a call updates the overall and the one target's values and the samples of its outcome, and returns the request's place |
| LoadMetrics.SamplesAreTheFirst | services/api/load_test_executor.py:209-223 | the samples kept are the first five successful and the first ten failed requests |
| LoadMetrics.TallyDescribesCalls | services/api/load_test_executor.py:191-224 | after any calls, total = successes + failures = sum of target totals, and each target describes exactly its own calls |
| LoadSummary.RoundsToNearest | services/api/load_test_executor.py:262-264 | rounding yields the only integer within one half, the even one on a tie |
| LoadSummary.RankIsRounded | services/api/load_test_executor.py:262-264 | the clamping of the percentile index never takes effect |
| LoadSummary.SummaryIsOrdered | services/api/load_test_executor.py:255-278 | min <= p50 <= p95 <= p99 <= max, and the reported counters agree |
| LoadSummary.SummaryIsExact | services/api/load_test_executor.py:255-278 | the report of any observations: exact counts, rates, mean and extremes, and p50, p95 and p99 by nearest rank, ties to even, among the sampled latencies, which are all of them up to ten thousand; milliseconds are the nearest multiples of 0.001 |
| LoadSummary.PercentileIsExact | services/api/load_test_executor.py:260-264 | until the reservoir is full a percentile is the order statistic of all observations |
| LoadResponses.BySequenceKeeps | services/api/load_test_repository.py:236-238 | sorting in a batch keeps every response, in order of sequence numbers |
| LoadResponses.AcceptedKeepsNumbers | services/api/load_test_service.py:95-101 | buffering and draining at fifty loses and repeats no sequence number |
| LoadResponses.BatchesOfFifty | services/api/load_test_service.py:95-101 | after n responses the last n mod 50 wait in order and all others are stored |
| LoadResponses.SelectedExactly | services/api/load_test_repository.py:241-249 | exactly the responses that pass the filter are selected, each at its rank among them |
| LoadResponses.OrderedNumbersCount | services/api/load_test_repository.py:236-249 | a sorted store of exactly the numbers 1..n holds k + 1 at place k |
| LoadResponses.PagesReadAll | services/api/load_test_repository.py:241-249 | reading page by page yields every item in order, without gap or repetition |
| LoadResponses.ResponseBuffer.Responses | services/api/load_test_service.py:95-101 | a response is buffered, the fiftieth drains the buffer into the store, and a refused batch is lost with an error |
| LoadResponses.ResponseBuffer.Flush | services/api/load_test_service.py:103-108 | flushing empties the buffer into the store, or loses it with an error |
| LoadResponses.LoadTestRepository.AddRunResponses | services/api/load_test_repository.py:224-239 | extends and re-sorts the run's responses, or fails on a missing run |
| LoadResponses.LoadTestRepository.ListRunResponses | services/api/load_test_repository.py:241-249 | returns the requested page of the selected responses and their number |
| LoadResponses.LoadTestRepository.UpdateRun | services/api/load_test_repository.py:251-263 | changes only a run that is still RUNNING |
| LoadResponses.LoadTestRepository.RecoverRunningRuns | services/api/load_test_repository.py:265-278 | marks exactly the runs that read RUNNING as FAILED and counts them |
| LoadEngine.StepKeepsInv | services/api/load_test_executor.py:353-408 | every step of workers, service and recovery, failing repository calls included, conserves indices, sequence numbers, totals and responses |
| LoadRuns.FinishedStoresAll | services/api/load_test_service.py:78-142 | however a run ends, closed or left behind, unless the store failed, it stored 1..total once each in order, each response naming the target of its index |
| LoadRuns.SuccessIsExact | services/api/load_test_executor.py:353-408 | a run that reports success claimed and counted each index once, hit each target once per congruent index, stored 1..n in order, and in COUNT mode n is the request count |
| LoadReports.ReportDescribesResponses | services/api/load_test_service.py:78-142 | however a run ends, unless the store failed, the final metrics describe exactly the stored responses, overall and target by target |
| LoadReports.FiltersAgreeWithReport | services/api/load_test_repository.py:241-249 | listing the successful or failed responses yields as many as the report counts |
| LoadRuns.PagesAreExact | services/api/load_test_repository.py:241-249 | after a successful COUNT run the pages carry 1..request_count exactly once in order |
| LoadWitnesses.SomeRunSucceeds | services/api/load_test_executor.py:353-408 | every COUNT test, with any number of workers, has a run that comes to success |
| LoadRuns.ReportsOnlyGrow | services/api/load_test_service.py:84-93 | over any events reported totals never shrink and a closed run never changes |
| LoadEndings.EndsExactly | services/api/load_test_service.py:78-142 | the exact ending: left RUNNING if and only if the run could not be read or the handler itself failed, SUCCEEDED exactly if nothing raised or failed and nobody cancelled before the last update, else FAILED |
| LoadEndings.SilentAfterCancel | services/api/load_test_service.py:84-93 | after a cancellation workers publish nothing more |
| LoadEndings.WorkersAreTheLeast | services/api/load_test_executor.py:401-403 | the number of workers is the least of concurrency, worker limit and, in COUNT mode, request count |
| LoadEndings.LeftUntilRecovered | services/api/load_test_repository.py:265-278 | a run left behind reads RUNNING over any events without a recovery, and FAILED after one |
| LoadWitnesses.FailingFlushLeavesRunning | services/api/load_test_service.py:127-139 | a run with one answered request, one raising request and a failing last flush is left RUNNING |
| LoadWitnesses.FailingUpdatesLeaveRunning | services/api/load_test_service.py:119-139 | a run in which no worker raises, but the last update fails twice, is left RUNNING |
| Environment.DecryptsExactly | services/api/environment_crypto.py:72-121 | a secret opens under exactly the key and associated data it was encrypted with, to its plaintext |
| Environment.ValidateInputs | services/api/environment_repository.py:73-106 | raises the first objection in input order, and none exactly for valid inputs |
| Environment.BuildConfigurationValues | services/api/environment_repository.py:109-151 | builds variables before parameters and stops at the first failure |
| Environment.BuildIsSound | services/api/environment_repository.py:109-151 | every secret of a built revision opens under the revision's own associated data, and no slot is used twice |
| Environment.BuildReadsBack | services/api/environment_repository.py:119-150 | a built revision reads back the text or value each input stands for |
| Environment.BuildSucceedsExactly | services/api/environment_repository.py:109-151 | building succeeds exactly for valid inputs whose references match and, where there are secrets, with a key |
| EnvironmentStore.EnvironmentRepository.CreateEnvironment | services/api/environment_repository.py:162-188 | creates revision 1 under a free name, or changes nothing |
| EnvironmentStore.EnvironmentRepository.UpdateEnvironment | services/api/environment_repository.py:207-240 | appends one rebuilt revision and moves the name, or changes nothing |
| EnvironmentStore.EnvironmentRepository.GetRevision | services/api/environment_repository.py:247-254 | reads the revision, or fails on a missing environment or revision |
| EnvironmentHistory.RevisionsAreTheAccepted | services/api/environment_repository.py:247-254 | in every history revision k can be read exactly if k requests have succeeded on the environment, and is what the k-th of them returned, with that id and number |
| EnvironmentStore.ApplyKeepsStore | services/api/environment_repository.py:154-240 | every request, refused or not, keeps chains, names and secrets consistent |
| EnvironmentStore.EverySecretOpens | services/api/environment_crypto.py:98-121 | in every history every stored secret opens under its own revision's associated data and no other |
| EnvironmentStore.CarriedSecretKeepsText | services/api/environment_repository.py:127-150 | a secret carried by reference keeps its text through any number of updates and interleaved requests |
| EnvironmentStore.UpdateSucceedsExactly | services/api/environment_repository.py:207-240 | an update succeeds exactly when its checks pass, its inputs are valid and its references are current |
| EnvironmentHistory.UpdatesAcceptedExactly | services/api/environment_repository.py:66-151 | an update succeeds exactly if the version is current, the status move is one of four, the stripped name is admissible and free in the project, and inputs and references are sound |
| EnvironmentHistory.CreationsAcceptedExactly | services/api/environment_repository.py:162-188 | a creation succeeds exactly for an admissible free name and sound inputs without references |
| EnvironmentHistory.ValidInputsExactly | services/api/environment_repository.py:73-106 | inputs are valid exactly if they are at most a hundred, differently named, each of admissible name, shape and size |
| EnvironmentHistory.RequestIsHonoured | services/api/environment_repository.py:162-240 | an accepted request returns the requested name and status, the next revision and version, and the same project |
| EnvironmentHistory.InputsAreHonoured | services/api/environment_repository.py:109-151 | its record holds one value per input: public ones as given, new secrets under the given text |
| EnvironmentHistory.InputsKeepTheirOrder | services/api/environment_repository.py:109-151 | the values stand in the order of the inputs, variables before parameters |
| EnvironmentStore.ForeignReferenceRejected | services/api/environment_repository.py:131-138 | a reference that is not the slot's current one is refused with the store unchanged |
| EnvironmentStore.StaleReferenceRejected | services/api/environment_repository.py:131-150 | a reference of any earlier revision is refused with the store unchanged |
| EnvironmentStore.ArchivedIsFinal | services/api/environment_domain.py:19-37 | chains start as drafts, never return to DRAFT, and end at an archived revision |
| EnvironmentStore.NamesAreUnique | services/api/environment_repository.py:171-188 | in every history two environments of one project have different names |
| EnvironmentStore.PinnedRevisionStays | services/api/environment_repository.py:247-254 | a revision that was readable reads the same after any further requests |
| EnvironmentStore.RevisionsNeverChange | services/api/environment_repository.py:237-254 | earlier revisions never change, whatever is requested later |
| ConfigurationResolverModel.CanonicalIsOrderFree | services/api/environment_repository.py:54-63 | the canonical list does not depend on the order of the request |
| ConfigurationResolverModel.CanonicalAscends | services/api/environment_repository.py:54-63 | the canonical list ascends by category, then name in text order, then reference |
| ConfigurationResolverModel.ConfigurationResolver.Snapshot | services/api/environment_repository.py:261-298 | fills the two dictionaries value by value and fails on an unmatched reference |
| ConfigurationResolverModel.ConfigurationResolver.ResolveSecretValues | services/api/environment_repository.py:325-361 | opens the requested secrets in canonical order |
| ConfigurationResolverModel.SnapshotHoldsExactly | services/api/environment_repository.py:261-298 | a snapshot holds every public value, every requested secret under its own text, and no other secret |
| EnvironmentHistory.PinnedIsAccepted | services/api/environment_repository.py:261-273 | in every history a run gets the record its pinned request returned, only if it is ACTIVE and of the run's project, and else the matching error |
| EnvironmentHistory.SnapshotIsOfTheAccepted | services/api/environment_repository.py:261-298 | in every history a snapshot succeeds exactly if the pinned record is there, ACTIVE, of the project and has the requested secrets, and holds exactly that record's visible values |
| EnvironmentHistory.ResolvedIsOfTheAccepted | services/api/environment_repository.py:325-361 | the resolved secrets are the requested ones, each once and under the text the pinned record holds |
| ConfigurationResolverModel.ResolversAgreeExactly | services/api/environment_repository.py:261-375 | check and resolution accept exactly the duplicate-free requests the snapshot accepts |
| ConfigurationResolverModel.ResolvedTextsAreTheSnapshots | services/api/environment_repository.py:325-361 | the resolved texts are the snapshot's entries |
| ArchivePaths.ArchivePathsExactly | services/source_store.py:357-371 | accepted names are exactly the texts of plain relative paths, with or without a final slash, and the lone dot |
| ArchivePaths.KeyFollowsParts | services/source_store.py:305-309 | paths whose parts fold alike share one key |
| SourceRoundTrip.DirectoriesEndInSlash | services/source_store.py:300-318 | an accepted entry is a directory exactly if its name is a path followed by a slash |
| SourceRoundTrip.EntrypointsExactly | services/source_store.py:244-258 | accepted entrypoints are exactly the texts of plain non-empty paths without outer white space |
| SourceArchive.AcceptsExactly | services/source_store.py:287-338 | an archive is accepted exactly if all entries are sound, keys are distinct, no file lies under a file, counts and sizes fit, and there is a file; the listing is then its files in order |
| SourceArchive.AcceptedIsExtractable | services/source_store.py:287-338 | in an accepted archive no two files share a key, none lies under another, all payloads fit, and the unverified listing is the same |
| SourceArchive.ParentsAreMade | services/source_store.py:373-380 | where no ancestor is taken, exactly the ancestors are added and nothing else changes |
| SourceArchive.AcceptedExtractsExactly | services/source_store.py:340-355 | an accepted archive extracts to exactly its files and their ancestors if and only if no file is named by a lone dot |
| SourceStore.ArchiveEntries | services/source_store.py:287-338 | lists the files or raises the first error of the scan, the parent check or the payload check |
| SourceStore.Workspace.SafeArchiveParent | services/source_store.py:373-380 | creates the ancestors one by one and stops at a conflict |
| SourceStore.Workspace.AtomicWriteStream | services/source_store.py:382-399 | the target appears with the whole payload, or nothing changes when the limit is passed |
| SourceStore.Workspace.ExtractArchive | services/source_store.py:340-355 | extracts file by file and leaves what was written before an error |
| SourceStore.LocalSourceStore.PutArchive | services/source_store.py:92-99 | stores exactly the accepted archives under their digest |
| SourceStore.LocalSourceStore.Materialize | services/source_store.py:184-210 | checks project, digest, entrypoint and stored content, then extracts |
| SourceStore.AcceptedMaterializesExactly | services/source_store.py:184-210 | an accepted archive materializes into an empty workspace exactly when no file is named by a lone dot, on case-sensitive and case-folding file systems |
| SourceRoundTrip.RefusalsExactly | services/source_store.py:184-202 | the refusals for project, digest, entrypoint and missing source, in order, each leaving the workspace alone |
| SourceRoundTrip.MaterializesExactly | services/source_store.py:184-210 | from a store filled by accepted archives a run gets its project exactly if the reference is its own, the archive is stored, the entrypoint names one of its files and no file is a lone dot; the workspace then holds exactly the files and their ancestors |
| SourceRoundTrip.ExtractionKeepsTheWorkspace | services/source_store.py:340-380 | whatever a workspace held before, and however an extraction ends, nothing of it is lost or replaced |
| SourceRoundTrip.PayloadsFitExactly | services/source_store.py:325-338 | payloads are accepted exactly if all can be read and together stay within 50 MiB |
| SourceStore.DotEntryIsNeverMaterialized | services/source_store.py:340-355 | a concrete accepted archive that can never be materialized |

## Left out

- Running a workflow node, sending a request, rendering templates: what comes out is a parameter of the model. So are node positions, names and the rest of a node's configuration, and `max_concurrency` values that `int()` refuses (schemas bound it to 1..100).
- `RunnerManager.execute`, `prepare_run`, `retry_run`, `DatabaseRunDispatcher.dispatch` and `_converge_infra_error` are steps of the protocol machine and not methods, because calls of other participants come in between; dispatch, retry and convergence may happen whenever the transition table permits, which covers the guards the callers check first.
- Completion callbacks, the execution batch coordinator and the max_parallel claim: `test_plan_repository` is not part of this model.
- `create_attempt` and `claim_attempt`, which no service calls, and idempotency keys of run creation.
- SQL repositories, migrations, HTTP handlers, schemas, cookies and the web front end.
- Clocks, UUIDs, nonces and random draws are parameters or counters; real cryptography and hashing are symbolic.
- Artifact storage: the collector is a parameter of the event sink.
- EventStreamModel.DeliveriesArePrefix: claims a prefix only, since a session may end before events appended between its read and its terminal check.
- LoadSummary.SummaryIsOrdered: latencies and ratios are reals; binary floating point in sums and in the percentile index is not modelled.
- LoadRuns.SuccessIsExact: covers the REQUESTS traffic mode; SCENARIO mode and response bodies are left out, and preparing targets and authentication only succeed or raise.
- Load test definitions: names, categories, targets and versions are plain indexes and version checks.
- SourceStore.AcceptedMaterializesExactly: limits of the operating system, such as the length of one file name, Unicode normalization by the file system, and durability are not modelled; nor are host sources, Git imports, single-file sources and the textual form of source references.
- SourceArchive.AcceptedExtractsExactly: an archive entry whose payload fails to read part-way is one that cannot be read at all.
- ConfigurationResolverModel.CanonicalAscends: secret references are numbers, whose order stands for the order of their texts.
- Connector secrets, environment listings and timestamps of environments.
- Quality assets, parameters, connectors and scripts: only create, read, update and delete.
