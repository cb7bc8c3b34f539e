# DieAudit: models and proofs

DieAudit audits source repositories: it starts agents and tools in containers, collects their findings on a
whiteboard, has validators attempt every finding, and judges the result. Most of the code orchestrates Docker,
Postgres and HTTP, but a number of its parts carry real state: tasks interleaving behind a semaphore, a log with a
cursor that is posted while it grows, tables whose rows must stay unique or in step with what is running. This
project models those parts in Dafny and proves what they are for. Every awaited call becomes a step that succeeds or
raises; a database table becomes a sequence or a map; time is an `int` or a `real`.

`dafny verify dfyconfig.toml` checks everything.

| module | component |
|---|---|
| `ValidatorFanOut` | findings × rounds validation attempts behind a semaphore, as a transition system over all interleavings |
| `Judgement` | resolving finding statuses from verdicts and attempts, and the path from the fan-out to the final status |
| `RateLimiter` | the fixed-window limiter of the HTTP guards |
| `TranscriptFlush` | posting transcript events: the serial client, and flushes that overlap |
| `RuntimeLifecycle` | ensure, cleanup and reconcile of run-scoped runtimes, containers, networks and keys |
| `FindingIdentity`, `FindingStore` | canonical identities, tool ingest and whiteboard sync |
| `Triage` | scoring and triage of candidate cards, and the filters that read the decisions |
| `Compaction` | compaction of event payloads |
| `ExecutionGraph` | the graph of an audit run and its summary |
| `LockFiles`, `Dependencies`, `Dedupe` | lock-file readers, dependency records and vulnerability grouping |
| `PercentEncoding`, `HashRoutes` | hash routes of the web UI (section 2.1 of RFC 3986) |
| `DnsLabels` | container names as DNS labels (section 2.3.1 of RFC 1035, section 2.1 of RFC 1123) |
| `TranscriptPaging`, `AuditRetention`, `KimiConfig` | transcript pages, retention of audit events, the generated Kimi configuration |
| `Prelude`, `Text` | shared vocabulary: counting, sums, and the string library |

## Where the code does less than one would expect

In each case the code is modelled as it is, a lemma shows where the expectation fails, and another says for all inputs
exactly when it holds.

- A caller that waits exactly `retry_after_seconds` can be denied again, because the waiting time is truncated:
  `RateLimiter.RetryAfterCanBeTooShort`; it is enough exactly as `RateLimiter.RetryAfterSufficesExactlyWhen` says.
- A validator session that fails is returned, not raised, so its attempt is recorded as completed and its finding
  confirmed: `ValidatorFanOut.FailedSessionIsCompleted`, `Judgement.FailedSessionConfirms`. Completed rows mean
  completed agent runs exactly as `ValidatorFanOut.CompletedRowsMeanCompletedRunsExactlyWhen` says, and findings are
  confirmed without one exactly as `Judgement.ConfirmedWithoutCompletedRunExactlyWhen` says.
- The status of the answer to a post is not looked at, so a batch the platform refuses counts as posted and is lost,
  without any overlap: `TranscriptFlush.RefusalLosesAnEvent`, `TranscriptFlush.RefusalLosesExactlyWhen`.
- When flushes overlap, an event can be lost for good: `TranscriptFlush.OverlapWithAFailureLosesAnEvent`, and, by the
  answer to a post of the session before, `TranscriptFlush.StalePostLosesAnEvent`. One step loses an event exactly as
  `TranscriptFlush.StepLosesExactlyWhen` says, and a whole run as `TranscriptFlush.RunLosesExactlyWhen` and
  `TranscriptFlush.AnsweredRunLosesExactlyWhen` say. If no post is refused or raises, no event is skipped.
- A runtime whose start raised midway, at a launch or at the final write, is handed out as running by the next ensure
  with no container recorded: `RuntimeLifecycle.HalfStartedRuntimeIsReused`. A row lists what its start brought up
  exactly when that start was completed or brought nothing up: `RuntimeLifecycle.ReusedRuntimeListsItsStartExactlyWhen`
  for two ensures, `RuntimeLifecycle.EnsureAfter` after any history.
- An ensure that raises after making its network and before inserting its row leaves a network that reconcile does not
  remove: `RuntimeLifecycle.UnreadyNetworkStays`, `RuntimeLifecycle.NoStrayNetworkExactlyWhen`.
- A string exactly 23 characters over the limit that already ends in the truncation marker is left as it is:
  `Compaction.StringStable`; `Compaction.UnchangedExactlyWhenStable` characterises all fixed points.
- The execution graph looks the names of step nodes up among the names of steps. So a step has a node exactly when no
  step named like its node comes before its first event (`ExecutionGraph.StepOccursExactlyWhen`,
  `ExecutionGraph.StepHasNodeExactlyWhen`; `ExecutionGraph.StepIsHidden` for the rest). And the events that are meant to
  overwrite a step's status do not, unless such a step is known: `ExecutionGraph.SecondEventIsIgnored`,
  `ExecutionGraph.LastToldExactlyWhen`. As the events are listed newest first, ignoring them is what makes a node show
  the step's newest status; it does exactly as `ExecutionGraph.NewestStatusExactlyWhen` says.
- A dependency of a blank ecosystem shares its record with one of the ecosystem "unknown", but not its
  vulnerabilities: `Dependencies.BlankEcosystemLosesAVulnerability`, `Dependencies.NoneLostExactlyWhen`.
- A project called "audit-runs" loses its audit run in a printed hash, and a project called like a leaf word loses its
  overview: `HashRoutes.RunRouteRoundTrip`, `HashRoutes.OverviewRoundTrip`. A run-scoped view printed without an audit
  run never reads back without one: `HashRoutes.RunlessRouteMisreads`.
- A Kimi override keyed by the template's name leaves `default_model` without a table:
  `KimiConfig.NameKeyedOverrideIsUndeclared`, `KimiConfig.DefaultModelIsDeclaredExactlyWhen`. Override roles that differ
  in '_' and '-' declare tables of the same name: `KimiConfig.DashedRolesCollide`,
  `KimiConfig.TableNamesAreDistinctExactlyWhen`.

## Model

| member | source | states |
|---|---|---|
| `ValidatorFanOut.StepKeepsInvariant` | `services/platform/app/runtime/orchestrator.py:1437-1625` | one completed or raised await of any task, or a change of the cancel flag, keeps the global invariant: permits plus holders equal the limit, and each attempt's row and evidence are those of the point its task is at |
| `ValidatorFanOut.RunKeepsInvariant` | `services/platform/app/runtime/orchestrator.py:1384-1625` | the invariant holds at every point of every interleaving |
| `ValidatorFanOut.AtMostLimitInside` | `services/platform/app/runtime/orchestrator.py:1382-1511` | in every interleaving at most max(1, max_parallel) attempts are inside the semaphore at once |
| `ValidatorFanOut.RowHistoriesAreLawful` | `services/platform/app/runtime/orchestrator.py:1461-1625` | every attempt row goes queued, then cancelled, or running and then completed or failed, and nothing else; the row shows the last entry |
| `ValidatorFanOut.TerminalIsForever` | `services/platform/app/runtime/orchestrator.py:2139-2168` | a terminal row is never written again, whatever happens afterwards |
| `ValidatorFanOut.CancellationBound` | `services/platform/app/runtime/orchestrator.py:1454-1545` | once the cancel flag is set and stays set, at most max(1, max_parallel) further attempts enter running |
| `ValidatorFanOut.CancellationBoundIsAttained` | `services/platform/app/runtime/orchestrator.py:1496-1597` | for every limit there is a run in which exactly that many attempts enter running after the flag was set, so the bound cannot be improved |
| `ValidatorFanOut.RunsTerminate` | `services/platform/app/runtime/orchestrator.py:1384-1435` | no interleaving has more than eight task steps per attempt, so every fair run drains |
| `ValidatorFanOut.NeverStuck` | `services/platform/app/runtime/orchestrator.py:1496-1511` | until all tasks have ended some task can succeed in its next step: the semaphore never deadlocks |
| `ValidatorFanOut.DrainedAttempt` | `services/platform/app/runtime/orchestrator.py:1528-1625` | an attempt whose table and flag accesses all worked ends with a terminal row, exactly one evidence record of the kind that matches it, and that status in the drained results |
| `ValidatorFanOut.Drained` | `services/platform/app/runtime/orchestrator.py:1406-1424` | after draining there is one result per attempt, all permits are back, there is one row per attempt, and per status as many results as rows |
| `ValidatorFanOut.ResultsMatchRows` | `services/platform/app/runtime/orchestrator.py:1416-1424` | the number of drained results with a status is the number of rows with it |
| `ValidatorFanOut.CompletedRowsAreReturns` | `services/platform/app/runtime/orchestrator.py:1563-1625` | once drained, a row says completed exactly when the attempt's agent call returned a run, whatever that run's status |
| `ValidatorFanOut.StepKeepsAgents` | `services/platform/app/runtime/orchestrator.py:1555-1605` | what an attempt's agent call returned is never forgotten or replaced, and only a returned run of another status adds one |
| `ValidatorFanOut.CompletedRowsMeanCompletedRunsExactlyWhen` | `services/platform/app/runtime/orchestrator.py:1555-1605` | over every interleaving without table faults that drains, every completed row means a completed agent run if and only if no agent call returned a run of another status |
| `ValidatorFanOut.FailedSessionIsCompleted` | `services/platform/app/runtime/orchestrator.py:842-882` | a run on which the only agent session fails, and its attempt is recorded as completed with the evidence of an agent run |
| `ValidatorFanOut.CompletedRowsHaveRuns` | `services/platform/app/runtime/orchestrator.py:1555-1596` | at any point of any interleaving, faults included, a completed row is of an attempt whose agent call returned a run |
| `ValidatorFanOut.Schedule` | `services/platform/app/runtime/orchestrator.py:1384-1404` | the scheduled attempts are exactly the pairs of a finding and a round from 1 to the number of rounds, each at its place |
| `ValidatorFanOut.TallyStatuses` | `services/platform/app/runtime/orchestrator.py:1421-1424` | the status counts are, for every status, the number of results that have it |
| `ValidatorFanOut.ScaleValidators` | `services/platform/app/runtime/orchestrator.py:1350-1435` | draining ends in a state some interleaving reaches; completed, failed and cancelled counts add up to findings × rounds; without table faults there are exactly that many rows, the counts match them, and each has its one evidence record |
| `Judgement.Judge.MarkStatus` | `services/platform/app/runtime/orchestrator.py:2192-2199` | exactly the findings named get the status, all others keep theirs |
| `Judgement.Judge.ApplyJudgement` | `services/platform/app/api/routes.py:6527-6582` | the whole findings table and the decision list after judging one audit run |
| `Judgement.IndexVerdicts` | `services/platform/app/api/routes.py:6528-6534` | the index built by overwriting holds, per finding, the verdict that a backward scan for the last valid one finds |
| `Judgement.LastVerdictWins` | `services/platform/app/api/routes.py:6528-6534` | overwriting while reading forwards and searching backwards for the last valid verdict agree |
| `Judgement.NothingStaysUndecided` | `services/platform/app/api/routes.py:6535-6582` | no finding of the run is candidate or validating afterwards, only its status changed, and findings of other runs are untouched |
| `Judgement.JudgedStatus` | `services/platform/app/api/routes.py:6540-6571` | the last valid verdict decides; without one a finding is confirmed exactly when an attempt completed, or it was confirmed and no attempt failed |
| `Judgement.OneDecisionPerFinding` | `services/platform/app/api/routes.py:6535-6582` | one decision per finding of the run, in order, reporting the status the finding has afterwards |
| `Judgement.JudgementIsIdempotent` | `services/platform/app/api/routes.py:6527-6582` | judging again with the same verdicts and attempts changes nothing and decides the same |
| `Judgement.CompletedRowsAreReturnedAttempts` | `services/platform/app/api/routes.py:6553-6571` | the completed rows that judgement counts exist exactly when the agent call of some attempt at the finding returned a run, whatever that run's status |
| `Judgement.ValidatedFindingsAreConfirmed` | `services/platform/app/runtime/orchestrator.py:1385` | over every interleaving without table faults, a finding marked validating and left without a verdict becomes confirmed exactly when the agent call of one of its attempts returned a run, whatever its status, or a row of an earlier fan-out says completed, and needs_review otherwise |
| `Judgement.ConfirmedWithoutCompletedRunExactlyWhen` | `services/platform/app/api/routes.py:6553-6571` | such a finding is confirmed exactly when a completed agent run or an earlier completed row stands behind it, unless only runs of another status were returned and no earlier row says completed: then, and only then, it is confirmed without either |
| `Judgement.FailedSessionConfirms` | `services/platform/app/api/routes.py:6553-6571` | for every finding, a run on which its only agent session fails and it is confirmed |
| `RateLimiter.FixedWindowRateLimiter.Check` | `services/platform/app/services/http_guards.py:25-42` | the four fields of the decision and the new windows, as functions of this key's window |
| `RateLimiter.FixedWindowRateLimiter.Prune` | `services/platform/app/services/http_guards.py:44-52` | exactly the windows at least two lengths old disappear |
| `RateLimiter.FixedWindowRateLimiter.Serve` | `services/platform/app/services/http_guards.py:25-52` | serving any non-decreasing trace gives each key the decisions of a limiter that is never pruned and sees only that key |
| `RateLimiter.PruningIsInvisible` | `services/platform/app/services/http_guards.py:28-52` | pruning cannot be observed and keys do not interfere: all four fields of every decision are those of the single-key, never-pruned limiter |
| `RateLimiter.SlidingBound` | `services/platform/app/services/http_guards.py:25-42` | within any closed interval of one window length at most 2 × limit checks of a key are allowed, and within a half-open one at most 2 × limit - 1 |
| `RateLimiter.ClosedBoundIsAttained` | `services/platform/app/services/http_guards.py:25-42` | a trace with 2 × limit allowed checks in a closed interval, for every limit and window |
| `RateLimiter.HalfOpenBoundIsAttained` | `services/platform/app/services/http_guards.py:25-42` | a trace with 2 × limit - 1 allowed checks in a half-open interval, for every limit and window |
| `RateLimiter.DenialsKeepTheStart` | `services/platform/app/services/http_guards.py:28-36` | any number of denied checks leaves the start of the window, and so the reset, where it was |
| `RateLimiter.RetryAfterPlusOneSuffices` | `services/platform/app/services/http_guards.py:36-42` | after any denials, a check at least retry_after + 1 seconds after the last one is allowed |
| `RateLimiter.RetryAfterSufficesExactlyWhen` | `services/platform/app/services/http_guards.py:36-42` | waiting exactly retry_after is enough if and only if the remaining time was a whole number of seconds or below one |
| `RateLimiter.RetryAfterSufficesForWholeSeconds` | `services/platform/app/services/http_guards.py:36-42` | for whole-second times retry_after itself is enough |
| `RateLimiter.RetryAfterCanBeTooShort` | `services/platform/app/services/http_guards.py:36-42` | for every window of at least two seconds, a trace from the empty limiter on which a caller waits exactly retry_after and is denied again |
| `TranscriptFlush.EventsForPlatform` | `services/agents/kimi-code-agent/kimi_acp_runtime_server.py:207-228` | event k of a batch carries log event k under number start + k with the session's identifiers |
| `TranscriptFlush.RuntimeRecordingClient.BeginSession` | `services/agents/kimi-code-agent/kimi_acp_runtime_server.py:44-48` | a new session starts at the end of the log with numbers from 0 |
| `TranscriptFlush.RuntimeRecordingClient.Flush` | `services/agents/kimi-code-agent/kimi_acp_runtime_server.py:87-96` | a flush posts what the cursor has not passed under the next numbers; if the post does not raise, it moves cursor and numbers together; if it raises, nothing changes, so a retry repeats the same numbers; the numbering equals cursor minus the session's base throughout |
| `TranscriptFlush.RuntimeRecordingClient.HandleCallback` | `services/agents/kimi-code-agent/kimi_acp_runtime_server.py:53-85` | a callback records one event and flushes; what was delivered only grows, also when it raises |
| `TranscriptFlush.RuntimeRecordingClient.HandleAll` | `services/agents/kimi-code-agent/acp_runner.py:12-87` | any callbacks, each of which may raise, append exactly their events to the log |
| `TranscriptFlush.RuntimeRecordingClient.RunSession` | `services/agents/kimi-code-agent/kimi_acp_runtime_server.py:105-155` | whatever raises, what was posted without raising is what was recorded since the session began, numbered 0, 1, 2, … without gap or repeat, and attributed to its own session id or one of this session, never of an earlier one; a completed result counts all of it, and the runtime_error event of a failed one takes the next fresh number |
| `TranscriptFlush.StepKeepsInvariant` | `services/agents/kimi-code-agent/kimi_acp_runtime_server.py:53-96` | however flushes overlap, the cursor never goes back or passes the end of the log, and every batch carries only events recorded since its session began |
| `TranscriptFlush.CursorNeverGoesBack` | `services/agents/kimi-code-agent/kimi_acp_runtime_server.py:87-96` | the same over every run of overlapping flushes |
| `TranscriptFlush.OwnFlushCarriesOwnEvent` | `services/agents/kimi-code-agent/kimi_acp_runtime_server.py:53-57` | in every reachable state the batch a callback's own flush posts contains the event that callback recorded |
| `TranscriptFlush.LostStaysLost` | `services/agents/kimi-code-agent/kimi_acp_runtime_server.py:93-96` | an event the cursor has passed without its being delivered or under way is never delivered later |
| `TranscriptFlush.DeliverableUnlessLost` | `services/agents/kimi-code-agent/kimi_acp_runtime_server.py:87-96` | an event of the session can still reach the platform if and only if it is not lost |
| `TranscriptFlush.StepLosesExactlyWhen` | `services/agents/kimi-code-agent/kimi_acp_runtime_server.py:44-96` | one step loses an event that was not lost if and only if the event is undelivered, no other post carries it, and the step accepts a post without it, has a post refused, has its post raise behind the cursor, or begins a session |
| `TranscriptFlush.RunLosesExactlyWhen` | `services/agents/kimi-code-agent/kimi_acp_runtime_server.py:44-96` | over every run an event is lost for good if and only if some step of the run gave it up |
| `TranscriptFlush.AnsweredRunLosesExactlyWhen` | `services/agents/kimi-code-agent/kimi_acp_runtime_server.py:87-96` | once all posts are answered, an event is lost if and only if a post was accepted or refused, or a session begun, after it was recorded, and no accepted post carried it |
| `TranscriptFlush.StaleAcceptLosesExactlyWhen` | `services/agents/kimi-code-agent/kimi_acp_runtime_server.py:44-96` | accepting a post of an earlier session moves the cursor over the running session and its counter by a batch that carried none of it, and loses exactly the undelivered events that no post is on its way with |
| `TranscriptFlush.StalePostLosesAnEvent` | `services/agents/kimi-code-agent/kimi_acp_runtime_server.py:44-96` | a run on which that loses the session's only event and its numbers start at 1 |
| `TranscriptFlush.CommitSkipsNothingExactlyWhen` | `services/agents/kimi-code-agent/kimi_acp_runtime_server.py:93-96` | committing a post of any session skips nothing if and only if every event of the running session recorded while it was unanswered has been delivered already |
| `TranscriptFlush.OverlappingFlushesSkipNothing` | `services/agents/kimi-code-agent/kimi_acp_runtime_server.py:53-96` | if no post is refused or raises, then whenever none is unanswered every event of the session has been delivered |
| `TranscriptFlush.OverlapWithAFailureLosesAnEvent` | `services/agents/kimi-code-agent/kimi_acp_runtime_server.py:93-96` | two overlapping posts of which the second raises lose an event |
| `TranscriptFlush.RefusalLosesExactlyWhen` | `services/agents/kimi-code-agent/kimi_acp_runtime_server.py:231-243` | an answer with an error status does not raise, so it moves the cursor all the same, and loses exactly the undelivered recorded events that no other post carries |
| `TranscriptFlush.RefusalLosesAnEvent` | `services/agents/kimi-code-agent/kimi_acp_runtime_server.py:87-96` | one refused post, with no overlap, loses the session's only event |
| `RuntimeLifecycle.RuntimeOrchestrator.ActiveAgentRuntime` | `services/platform/app/runtime/orchestrator.py:2242-2252` | the newest active row of the run is found exactly when there is an active one |
| `RuntimeLifecycle.RuntimeOrchestrator.LaunchAll` | `services/platform/app/runtime/orchestrator.py:702-738` | containers, keys and the containers reported, up to and including the first launch that raises |
| `RuntimeLifecycle.RuntimeOrchestrator.EnsureAgentRuntime` | `services/platform/app/runtime/orchestrator.py:655-773` | the whole new state whichever call raises: the newest active runtime is reused and marked running, or a row is inserted first and marked running with its containers only if nothing raised; the invariant holds and other audit runs are unchanged |
| `RuntimeLifecycle.LaunchesAreSafe` | `services/platform/app/runtime/orchestrator.py:1678-1855` | launching for a run with an active row keeps the invariant and the shares of all other runs, wherever it stops |
| `RuntimeLifecycle.RuntimeOrchestrator.CleanupRun` | `services/platform/app/runtime/orchestrator.py:885-920` | a cleanup that completes removes exactly the run's share and marks its runtimes; one that raises keeps the invariant, changes no other run and leaves the runtimes uncleaned, so a later reconcile finds them |
| `RuntimeLifecycle.CleanupIsLocal` | `services/platform/app/runtime/orchestrator.py:2312-2321` | cleaning up some runs leaves the rows, containers, networks and keys of every other run as they were |
| `RuntimeLifecycle.RuntimeOrchestrator.ReconcileRunRuntimes` | `services/platform/app/runtime/orchestrator.py:292-321` | runs without a qualifying row are unchanged even when a cleanup raises; a complete reconcile cleans up exactly the condemned runs, counts what it checked and cleaned, and leaves a settled state |
| `RuntimeLifecycle.CondemnedRunsAre` | `services/platform/app/runtime/orchestrator.py:309-318` | the runs reconcile cleans up are exactly those with an uncleaned row that is expired, orphaned, or of a finished run that is not retained |
| `RuntimeLifecycle.SweepSettles` | `services/platform/app/runtime/orchestrator.py:309-321` | afterwards every uncleaned runtime is unexpired with an audit run that is unfinished or retained, and every live container and active key belongs to a run with such a runtime |
| `RuntimeLifecycle.NetworksAfterSweep` | `services/platform/app/runtime/orchestrator.py:292-321` | a complete reconcile removes exactly the networks of condemned runs; one that stays belongs to a run with a legitimate runtime if and only if the run had an uncleaned one |
| `RuntimeLifecycle.NoStrayNetworkExactlyWhen` | `services/platform/app/runtime/orchestrator.py:292-321` | every network left belongs to a run with a legitimate runtime if and only if every network belonged to a run with an uncleaned runtime |
| `RuntimeLifecycle.UnreadyNetworkStays` | `services/platform/app/runtime/orchestrator.py:655-690` | the network of an ensure that raised before inserting its row is left by the reconcile that follows, if the run has no uncleaned runtime |
| `RuntimeLifecycle.Operate` | `services/platform/app/runtime/orchestrator.py:655-920` | every serial run of ensure, cleanup and reconcile, each of which may raise midway, keeps at most one starting or running, uncleaned runtime per audit run, and keeps every row telling what its start came to |
| `RuntimeLifecycle.EnsureAfter` | `services/platform/app/runtime/orchestrator.py:674-773` | after any history, the runtime an ensure hands out is a running one of the run, and its row lists what its start brought up if and only if that start was completed or brought nothing up |
| `RuntimeLifecycle.ReusedRuntimeListsItsStartExactlyWhen` | `services/platform/app/runtime/orchestrator.py:674-773` | for every pair of scripts, the row after a start and a reuse, and that it lists what the start brought up if and only if every launch and the final write succeeded or nothing was brought up |
| `RuntimeLifecycle.HalfStartedRuntimeIsReused` | `services/platform/app/runtime/orchestrator.py:674-687` | after a start that raised at a launch or at the final write, the next ensure returns that runtime as running with no containers recorded |
| `FindingIdentity.IdentityIsFixedPoint` | `services/platform/app/services/finding_dedupe.py:10-33` | every computed identity is canonical, and the canonical ones are exactly the fixed points of computing the identity from stored columns |
| `FindingIdentity.LineNumbersAgree` | `services/platform/app/services/finding_dedupe.py:27-33` | a line number printed as text and the integer give the same line |
| `FindingStore.FindExisting` | `services/platform/app/services/finding_dedupe.py:36-53` | a finding with the identity is returned exactly when one is known |
| `FindingStore.MatchIsUnique` | `services/platform/app/services/finding_dedupe.py:36-53` | with unique identities any two matches are the same finding |
| `FindingStore.FindingStore.IngestToolFindings` | `services/platform/app/api/routes.py:3723-3777` | the tables after ingesting a result list, and the number created |
| `FindingStore.IngestKeepsUnique` | `services/platform/app/api/routes.py:3735-3777` | ingest keeps identities unique and canonical, changes no existing finding and touches no card |
| `FindingStore.IngestIsIdempotent` | `services/platform/app/api/routes.py:3735-3777` | ingesting the same result again changes nothing |
| `FindingStore.StoredFindingsAreRecognised` | `services/platform/app/api/routes.py:3735-3777` | ingesting any stored findings again, from whatever tool, creates nothing |
| `FindingStore.FindingStore.SyncWhiteboardCandidateFindings` | `services/platform/app/api/routes.py:3034-3113` | the tables after a sync; created plus linked is the number of candidate cards |
| `FindingStore.SyncKeepsInvariant` | `services/platform/app/api/routes.py:3047-3108` | after any number of cards identities are unique, new findings are candidates of the run, and exactly the unlinked candidates among those cards have changed |
| `FindingStore.SyncLinksByIdentity` | `services/platform/app/api/routes.py:3047-3108` | after a sync every candidate card is linked, linked cards keep their finding, and two cards that were unlinked share a finding exactly when their identities are equal |
| `FindingStore.SyncIsIdempotent` | `services/platform/app/api/routes.py:3034-3113` | a second sync changes nothing |
| `FindingStore.PipelinesKeepIdentitiesUnique` | `services/platform/app/api/routes.py:3034-3777` | every sequence of ingests and syncs keeps identities unique within each audit run and never changes a finding |
| `Triage.SwarmCandidateValueDecision` | `services/platform/app/api/routes.py:4315-4416` | the score is the sum over the patterns that occur, the decision follows from it, and deep dive means at least 55 |
| `Triage.MoreHighValueNeverDemotes` | `services/platform/app/api/routes.py:4322-4408` | a text that matches further high-value patterns never scores lower or gets a lesser decision |
| `Triage.TriageStore.TriageWhiteboardSwarmCandidates` | `services/platform/app/api/routes.py:4221-4300` | the decision table and the two card lists after triage |
| `Triage.TriagePartitions` | `services/platform/app/api/routes.py:4271-4300` | every candidate card is listed, as eligible exactly when it scores at least 55, and as many are listed as there are candidates |
| `Triage.UpsertContents` | `services/platform/app/api/routes.py:4239-4270` | an upsert replaces the row of the same run and card, or adds one, and changes nothing else |
| `Triage.TriageContents` | `services/platform/app/api/routes.py:4232-4270` | afterwards there is exactly one row per candidate card, saying what the card says now, and every other row is as it was |
| `Triage.RetriageKeepsOneRow` | `services/platform/app/api/routes.py:4221-4300` | triaging again neither adds nor changes a row |
| `Triage.FiltersReadTheLastTriage` | `services/platform/app/api/routes.py:5781-5820` | after triage both filters select exactly the findings with a candidate card linked that scores at least 55 |
| `Triage.FiltersSelectWorthwhileFindings` | `services/platform/app/api/routes.py:5781-5820` | the same after any number of triages of a whiteboard whose cards are edited, relinked and added in between |
| `Compaction.CompactionIsBounded` | `services/platform/app/api/routes.py:6594-6614` | at most 1 + b + … + b^5 nodes for b = max_items + 1, at most five levels below the root, and no string longer than max_string but for one marker |
| `Compaction.NodesBounded` | `services/platform/app/api/routes.py:6594-6614` | the node bound from any depth |
| `Compaction.ShapeBounded` | `services/platform/app/api/routes.py:6594-6614` | the nesting and string bounds from any depth |
| `Compaction.StringStable` | `services/platform/app/api/routes.py:6597-6600` | a string comes back unchanged exactly when it is within the limit, or 23 characters over it and ending in the marker that says so |
| `Compaction.UnchangedExactlyWhenStable` | `services/platform/app/api/routes.py:6594-6614` | a payload comes back unchanged if and only if it is stable: within all limits, or with every excess already the marker compaction would write |
| `Compaction.FittingPayloadsAreUnchanged` | `services/platform/app/api/routes.py:6594-6614` | a payload with no node below depth 4 and nothing over its limit comes back unchanged |
| `ExecutionGraph.IdTextIsInjective` | `services/platform/app/api/routes.py:4446-4593` | the identifiers the graph writes are different for different rows, so comparing them is comparing rows |
| `ExecutionGraph.GraphBuilder.AddNode` | `services/platform/app/api/routes.py:4432-4437` | a node is appended exactly when its identifier is new, and nothing else changes |
| `ExecutionGraph.GraphBuilder.AddEdge` | `services/platform/app/api/routes.py:4439-4444` | an edge is appended exactly when both ends are known and it is new, and nothing else changes |
| `ExecutionGraph.GraphBuilder.Restatus` | `services/platform/app/api/routes.py:4484-4489` | the node with the identifier gets the status unless it is unknown, and nothing else changes |
| `ExecutionGraph.GraphBuilder.AddSteps` | `services/platform/app/api/routes.py:4457-4491` | exactly the nodes of the steps that occur, with their statuses, the edges to them and the edges from one to the next |
| `ExecutionGraph.NamedStepsOccur` | `services/platform/app/api/routes.py:4460-4483` | a step occurs if and only if some event names it at a point where no step named like its node has occurred |
| `ExecutionGraph.StepOccursExactlyWhen` | `services/platform/app/api/routes.py:4460-4483` | a named step occurs if and only if no step named like its node has occurred before its first event |
| `ExecutionGraph.StepHasNodeExactlyWhen` | `services/platform/app/api/routes.py:4466-4482` | the graph has a node for a step if and only if the step occurs |
| `ExecutionGraph.StepIsHidden` | `services/platform/app/api/routes.py:4466-4482` | a step whose first event comes after a step named like its node has no node in the graph |
| `ExecutionGraph.NewestStatusExactlyWhen` | `services/platform/app/api/routes.py:4461-4489` | with events listed newest first, a step's node shows the status of the step's newest event if and only if no older event overwrote it or the last that did says the same |
| `ExecutionGraph.LastToldExactlyWhen` | `services/platform/app/api/routes.py:4461-4489` | the last event of the list that tells a status is the one shown if and only if a step named like the node is known by then, or the first event says the same |
| `ExecutionGraph.SecondEventIsIgnored` | `services/platform/app/api/routes.py:4468-4489` | of two events that name a step the second changes nothing, whatever it tells |
| `ExecutionGraph.NothingOverwritten` | `services/platform/app/api/routes.py:4468-4489` | an event overwrites a status only after an event that names a step like the node of another |
| `ExecutionGraph.NodesStandForRows` | `services/platform/app/api/routes.py:4424-4612` | the nodes are exactly those of the audit run, of the steps that occur, and of the first row of each identifier, with the kind of its table and the status of the row |
| `ExecutionGraph.EdgesLinkRows` | `services/platform/app/api/routes.py:4424-4612` | the edges are exactly those from the audit run to its steps, from one step of the order to the next, and those that agents, tasks, containers, cards and whiteboard edges contribute when both ends are loaded |
| `ExecutionGraph.GraphShowsRows` | `services/platform/app/api/routes.py:4424-4612` | every row has its node; every occurring step, agent and task can be reached from the audit run; started tasks, containers and every whiteboard edge between loaded cards have their edges |
| `ExecutionGraph.BuildExecutionGraph` | `services/platform/app/api/routes.py:4424-4619` | the graph has exactly these nodes and edges, none twice and none dangling; every node of a step, agent or task can be reached from the audit run; the summary tallies its nodes, by_kind and by_status sum to node_count, and completed + unfinished + failed never exceeds it |
| `ExecutionGraph.ExecutionGraphSummary` | `services/platform/app/api/routes.py:4654-4670` | the two tallies count, for every set of kinds or statuses, the nodes in it; completed + unfinished + failed never exceeds node_count |
| `LockFiles.CargoLock` | `services/mcp-tools/tool_mcp.py:1309-1329` | the loop over the lines emits what the record reader of the specification reads |
| `LockFiles.PoetryLock` | `services/mcp-tools/tool_mcp.py:1267-1287` | the same for Poetry |
| `LockFiles.YarnLock` | `services/mcp-tools/tool_mcp.py:1190-1211` | the same for Yarn |
| `LockFiles.ParseSplitsAtHeaders` | `services/mcp-tools/tool_mcp.py:1190-1211` | parse(xs + [header] + ys) = parse(xs) + parse([header] + ys) for Cargo, Poetry and Yarn, for all lines |
| `LockFiles.RenderedPackagesAreRead` | `services/mcp-tools/tool_mcp.py:1309-1329` | reading the rendered records of any packages gives them back if and only if every name and version is non-empty and has no quote at either end |
| `LockFiles.LockFileRoundTrip` | `services/mcp-tools/tool_mcp.py:1267-1287` | the same through the text and its lines, for single-line names and versions |
| `LockFiles.DetectDependencies` | `services/mcp-tools/tool_mcp.py:1134-1155` | the loop with the seen set keeps the first package of each key, in order |
| `LockFiles.DetectedPackages` | `services/mcp-tools/tool_mcp.py:1147-1155` | every package is represented by exactly one listed one, the first with its ecosystem, version and case-folded name; detecting twice changes nothing |
| `Dependencies.DependencyVulnerabilityMap` | `services/platform/app/api/routes.py:3228-3237` | for every key the grouped index answers what a linear scan finds, in order, and has no empty groups |
| `Dependencies.DependencyStore.ReplaceDependencyRecords` | `services/platform/app/api/routes.py:3185-3225` | the table afterwards: the rows of other runs, then one row per record key of the named packages |
| `Dependencies.RecordsHaveDistinctKeys` | `services/platform/app/api/routes.py:3196-3209` | the records have distinct dedupe keys, which are exactly those of the named packages |
| `Dependencies.RecordsCountTheirVulnerabilities` | `services/platform/app/api/routes.py:3210-3223` | vulnerability_count is the number of attached vulnerabilities; with non-blank ecosystems these are exactly the ones that name the record's columns |
| `Dependencies.AttachedExactlyWhenLed` | `services/platform/app/api/routes.py:3206-3210` | a vulnerability is attached to some record if and only if a package with its key is the first of its record key |
| `Dependencies.ListedVulnerabilitiesAreAttached` | `services/platform/app/api/routes.py:3196-3225` | with non-blank ecosystems, and whenever packages sharing a record share their key, every vulnerability whose package is listed is attached |
| `Dependencies.NonBlankEcosystemsStayApart` | `services/platform/app/api/routes.py:3200` | packages of non-blank ecosystems that share a record share their key |
| `Dependencies.NoneLostExactlyWhen` | `services/platform/app/api/routes.py:3196-3244` | no listed vulnerability is ever lost, however they are listed, if and only if every key listed is that of a first package |
| `Dependencies.BlankEcosystemLosesAVulnerability` | `services/platform/app/api/routes.py:3200-3242` | for every name and version, a blank ecosystem listed before "unknown" leaves the vulnerability of the latter attached to nothing |
| `Dependencies.BlankEcosystemIsEmpty` | `services/platform/app/api/routes.py:3240-3244` | a reported ecosystem of blanks has the empty text in its key, a missing one "unknown" |
| `PercentEncoding.DecodeEncode` | `services/web-ui/src/navigation.tsx:112-113` | decoding an encoded identifier gives it back, for every string |
| `PercentEncoding.EncodedIsSafe` | `services/web-ui/src/navigation.tsx:112-113` | an encoded identifier has only unreserved characters and percent signs, so no slash and no white space |
| `HashRoutes.RunRouteRoundTrip` | `services/web-ui/src/navigation.tsx:82-132` | parsing the printed hash of a run-scoped view gives back project, audit run and view if and only if the project is not called "audit-runs", or the audit run is |
| `HashRoutes.OverviewRoundTrip` | `services/web-ui/src/navigation.tsx:82-116` | the overview keeps its project always, and its view if and only if the project is not one of the eight leaf words |
| `HashRoutes.AuditRunsRoundTrip` | `services/web-ui/src/navigation.tsx:82-118` | the list of audit runs keeps project and view always |
| `HashRoutes.RunlessRouteMisreads` | `services/web-ui/src/navigation.tsx:89-113` | for every project, a run-scoped view printed without an audit run parses with one: the view's own word, or "audit-runs" in a project of that name |
| `DnsLabels.PartsAreLabels` | `services/platform/app/runtime/orchestrator.py:2857-2861` | whatever the text, a part is empty or a label within its length, and its letters and digits are the first ones of the text, all of them if there is room |
| `DnsLabels.LabelsAreFixedPoints` | `services/platform/app/runtime/orchestrator.py:2857-2861` | exactly the labels within the length, and the empty text, are left as they are |
| `DnsLabels.DnsLabelPartIsIdempotent` | `services/platform/app/runtime/orchestrator.py:2857-2861` | making a part of a part changes nothing |
| `DnsLabels.ContainerNamesAreDnsLabels` | `services/platform/app/runtime/orchestrator.py:2769-2775` | every container name is a DNS label of at most 60 characters, so the cut at 63 and the final trim never apply and no part is lost |
| `TranscriptPaging.FollowingReadsEverything` | `services/platform/app/api/routes.py:2163-2199` | following last_id while the transcript grows reads a prefix of what follows the starting point, each row once and in id order, and all of it when has_more is false |
| `TranscriptPaging.FollowingEnds` | `services/platform/app/api/routes.py:2177-2198` | following ends after at most one request more than there are full pages |
| `TranscriptPaging.SelectedAre` | `services/platform/app/api/routes.py:2178-2186` | the rows selected are exactly the later rows of the agent run, in strictly ascending order |
| `AuditRetention.AuditEventTable.CleanupPlatformAuditEvents` | `services/platform/app/api/routes.py:1481-1519` | exactly the unexpired events with fewer than keep_latest newer unexpired ones stay; their number is the smaller of keep_latest and the unexpired ones, and deletions and survivors add up to what there was |
| `AuditRetention.RetainedAreTheNewest` | `services/platform/app/api/routes.py:1494-1505` | an event is among the selected identifiers exactly when fewer than keep_latest events are newer |
| `KimiConfig.AllEffectiveModelConfigs` | `services/platform/app/runtime/agent_runtime_package.py:195-206` | one configuration per override that is a dictionary, and the agent's own if its role has none |
| `KimiConfig.KimiConfigToml` | `services/platform/app/runtime/agent_runtime_package.py:304-360` | one provider table and one model table per configuration, in order, with its names; every model table names its provider and has positive sizes |
| `KimiConfig.DefaultModelIsDeclaredExactlyWhen` | `services/platform/app/runtime/agent_runtime_package.py:304-366` | default_model names a declared table if and only if, with an effective override, some override role has the alias of the agent's role, and without one the profile's reference is declared unpadded or some override role has it as its alias |
| `KimiConfig.DefaultModelIsDeclared` | `services/platform/app/runtime/agent_runtime_package.py:195-366` | with non-empty overrides keyed by role and no surrounding blanks, default_model is declared |
| `KimiConfig.NameKeyedOverrideIsUndeclared` | `services/platform/app/runtime/agent_runtime_package.py:243-252` | an override keyed by the template's name for which default_model is not declared |
| `KimiConfig.TablesAgreeExactlyWhen` | `services/platform/app/runtime/agent_runtime_package.py:391-392` | two roles get tables of the same names if and only if they agree up to "_" for "-" and trailing blanks |
| `KimiConfig.TableNamesAreDistinctExactlyWhen` | `services/platform/app/runtime/agent_runtime_package.py:195-354` | no two tables have the same name if and only if no two override roles agree up to "_" for "-" and trailing blanks, and the agent's own tables are named like none of theirs |
| `KimiConfig.DashedRolesCollide` | `services/platform/app/runtime/agent_runtime_package.py:201-354` | any two roles that differ in "_" and "-" only declare model tables of the same name |

## Left out

- Effects of Docker, HTTP, SQL and the file system: they are steps that succeed or raise, and a post that raises
  counts as not accepted. In `TranscriptFlush.RuntimeRecordingClient` a post counts as accepted when it does not
  raise; posts refused with an error status are told apart in the model of overlapping flushes. A database transaction
  is one step.
- Random identifiers are counters or parameters; their freshness is assumed, as is that of the eight-digit hash in a
  container name.
- The fan-out without a semaphore (`semaphore=None`), which the scheduler never uses, and the reason texts of
  cancellations. Cancelling the event loop's own tasks is not modelled: a task ends by returning or raising.
- `ValidatorFanOut.RunsTerminate` assumes that an awaited call returns or raises; a call that hangs keeps its permit.
- Exactly-once delivery under overlapping flushes: sequence numbers then repeat or skip, and only what is stated above
  holds.
- At most one active runtime under concurrent ensures: the look-up and the insert are separate calls. The invariant of
  `RuntimeLifecycle` is over serial runs.
- RuntimeLifecycle.RuntimeOrchestrator.CleanupRun: container exit codes, captured logs and the container and network
  history rows are not modelled.
- RuntimeLifecycle.RuntimeOrchestrator.EnsureAgentRuntime: one clock reading stands for the two of the source, and the
  contents of the runtime package are not modelled.
- Which match a finding look-up returns when several exist: with unique identities there is only one
  (`FindingStore.MatchIsUnique`). A look-up sees the rows added earlier in the same session.
- Finding writers that skip deduplication: manual creation, the `/sca` route and the best-effort Semgrep pass.
- Text columns of findings, cards and decisions that no modelled decision reads: descriptions, reasons, confidence.
- The card summaries in the triage response, of which at most 80 of each kind are kept; the identifier lists, which are
  complete, are modelled.
- The 500 events a graph is built from are given; older ones are not part of it.
- Containers whose agent run has no row: their edge is dropped, so they need not be reachable.
- Labels, groups and data of graph nodes.
- Values that JSON cannot hold, and dictionaries whose keys collide once turned into strings: `Compaction` takes JSON
  values with string keys.
- Lock files other than Cargo, Poetry and Yarn, and a round trip for Yarn, whose descriptors do not determine the text.
- Unicode case mapping and digits: lower case maps the letters A to Z only, and integers are read from ASCII digits.
  `DnsLabels.PartsAreLabels` holds of any text, and so whatever the case mapping.
- Rounding of floating-point times: times are real numbers.
- Lone surrogates in identifiers, on which `encodeURIComponent` throws; a Dafny string has none.
- The exception a malformed escape raises while a hash is parsed is a missing route.
- The table behind transcript pages is given in the order of its auto-increment key, and rows are assumed to
  become visible in that order.
- The query bounds of the clean-up and of transcript pages, which the web framework enforces.
- KimiConfig.KimiConfigToml: the document is modelled as its default model and tables; provider types, URLs, keys, the
  fixed sections and the TOML text are left out, and the overrides are given in the order of their roles.
- Claiming of queued pipeline work, the whiteboard service, the agent output ingestor, authentication, serializers,
  migrations, settings, React components and markdown rendering.
