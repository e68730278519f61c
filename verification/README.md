# Verified models of the CH-UI cores

Dafny models of the parts of CH-UI whose correctness is not settled by reading one function, with proofs of
what they promise. The code that changes state step by step is modelled by classes, loops and methods; each method
is proved against a specification, and the specification's properties are proved as lemmas.

| module | what it models |
|---|---|
| `Graph`, `Dag` | dependency graphs of models, Kahn's algorithm, connected components, upstream closure |
| `Refs` | comment stripping and the `$ref(name)` scanner, extraction and resolution |
| `ModelRuns` | the run engine: entry points, locking, the pass over the order, result rows, totals and status, validation |
| `Calendar`, `Cron` | the Gregorian calendar, cron fields, the search for the next run |
| `Delivery` | Kafka partition consumers, the batch channel, the pipeline runner, offset marking, as a state machine |
| `Ingestion`, `Sessions` | the consumer's message loop and the runner's loop over batches as objects; successive sessions on a partition |
| `Lifecycle`, `Alerts`, `Digests`, `Materialize` | alert delivery: backoff, retries, escalation, the job table, digest buckets, turning events into jobs |
| `Streaming` | cutting a streamed result into numbered chunks |
| `Sync` | reconciling the models of a connection with repository files |
| `LikeSearch`, `QueryHistory` | searching the query history, and its pruning |
| `StartArgs`, `ServerFlags` | the server's start arguments, recovering them from a running process for a restart, and the flags as the server reads them |
| `Common`, `Text` | sequence, set and string helpers |

How the world outside is represented: map iteration is an arbitrary choice (`:|`); ClickHouse is a fixed function
`accepts` from statements to success; database calls are operations on a table that succeed, except where the table
itself refuses (a unique name) and except for sink writes, which may fail; clocks are parameters; the channel, the
consumers and the runner of the ingestion pipeline interleave freely as actions of a state machine. A sink reports
as many rows as the batch has records. `filepath.Abs` is a function that answers an absolute path or fails. Times
are whole units since the start of year 1, where the time package truncates from.

## Where the code does not do what one would expect

For each of these a lemma says exactly when the expectation fails; where that is not an input already, a further lemma
gives one.

- The runner leaves a failed batch unacknowledged so that it is retried, but goes on. Below the highest mark everything
  is in the sink exactly while no later batch of the partition was marked past a failed one
  (`Delivery.AtLeastOnceIffNothingMarkedPastFailure`, for any two messages `Delivery.FailureThenSuccess`), and a session
  that has marked something loses a message for good exactly when that happened (`Sessions.LosesExactlyPastFailure`).
- A group without any committed offset starts with the newest messages, so a first session that has marked nothing
  loses everything it received: a received message can arrive later exactly when something is marked and all of it
  below the message (`Sessions.ArrivesLaterExactlyAboveMarks`, `Sessions.NothingMarkedLosesAll`, for one message
  `Sessions.FirstFailureLosesMessage`).
- The cron search covers 365 days, so an annual run is missed exactly when the year from it on holds a leap day, and
  always after a run on the leap day itself (`Cron.YearlyRunIsMissedAcrossLeapDay`, `Cron.FirstOfMarchStops`). Whether
  a cron expression is accepted therefore depends on the date (`Cron.ValidityDependsOnDate`).
- The comment on `parseField` promises values within the bounds of the field; ranges and numbers are not clipped to
  them (`Cron.FieldStaysInBoundsExactly`, `Cron.SeventyFiveIsAllowed`).
- A range that ends at the largest 64-bit integer is walked for ever (`Cron.LoopEndsExactly`,
  `Cron.RangeCronIsEndlessExactly`).
- The backoff leaves its range of 10 seconds to 30 minutes, because the conversion to 64 bits overflows, exactly
  beyond attempt 30, and the attempt limit of a rule has no upper bound (`Lifecycle.BackoffIsBoundedUpTo30`,
  `Lifecycle.BackoffAt31`).
- A digest receives an event after it was sent exactly when its route has used windows of two lengths, at any clock
  reading (`Digests.LateExactlyWithTwoWindows`, `Digests.ChangedWindowCanBeLate`).
- The cooldown is counted from the creation of events, not of jobs: two events of one fingerprint handled at one time
  are both sent exactly when the first is already older than the cooldown
  (`Materialize.BothSentExactlyWhenFirstIsOld`, `Materialize.TwoOldEventsAreBothSent`).
- A `$ref(name)` is left in a resolved model exactly when a used target database name contains one
  (`Refs.LeftoverReferences`, `Refs.ReferenceFromDatabase`).
- Removing block comments can put a new one together, exactly when a slash that is kept is followed by removed comments
  and an asterisk, with a closing mark later on (`Refs.NewBlockExactly`, `Refs.BlockFromTwoComments`).
- Two accepted repository files can give one model name (`Sync.NamesClashExactly`, `Sync.UpperCaseEndingClashes`).
  A sync mirrors the files exactly when files of one name are one file and no name is held by another kind of model
  (`Sync.MirrorsExactlyFreeDistinctFiles`, `Sync.TwoFilesOfOneName`), and syncing the same files again changes nothing
  exactly when files of one name agree (`Sync.RepeatIsQuietExactlyWhenConsistent`, `Sync.TwoFilesNeverSettle`).
- A file that cannot be fetched or parsed counts as missing: a sync deletes a model that has a file in the repository
  exactly when only such files have its name (`Sync.DeletesOnlyAbandonedExactly`, `Sync.UnreadableFileDeletesModel`).
  The head counts as synced all the same, so the file is tried again, and the model comes back, exactly when the head
  has moved or is empty (`Sync.SkippedExactly`, `Sync.BackExactlyWhenHeadMoves`).
- The search is case-insensitive in ASCII only; beyond it an entry can fail to be found by its own text
  (`LikeSearch.SearchIsSubstringSearch`, `LikeSearch.CapitalIsNotFound`).
- The scan for `--pid-file` also looks at the values of other flags, so a restart can end up without a PID file
  (`StartArgs.RestartNamesPidExactly`, `StartArgs.ConfigHidesPid`). Sanitizing is idempotent, and start arguments are
  recovered after an update, exactly when the PID file path stays as it is (`StartArgs.SanitizeTwiceExactly`,
  `StartArgs.RestartRecoversStartExactly`, `StartArgs.RelativePidMoves`).
- The sanitizer does not read flags as the server does. A restart runs with the settings of the server exactly when no
  argument in flag position is a shorthand with a joined value or `--dev=…`, and no flag stands behind `--`
  (`ServerFlags.RestartKeepsSettingsExactly`): a server started with `-p8080` restarts on the default port
  (`ServerFlags.JoinedPortIsLost`), and only a flag behind `--` can make up for one that is lost
  (`ServerFlags.LostAndGained`).
- Reading the arguments of a process drops blank ones, which keeps every flag and value exactly when no flag has a blank
  value in an argument of its own (`ServerFlags.BlankValuesAreLostExactly`); behind a blank configuration file the flag
  for the port is read as its name (`ServerFlags.BlankConfigTakesPort`).
- A single-model run of an unknown model succeeds as an empty run with status error (`ModelRuns.NothingToRunExactly`,
  `ModelRuns.EmptyRunIsError`), and of the lists that validation accepts a full run of a connected tunnel refuses
  exactly the empty one: compare the contracts of `ModelRuns.Runner.Validate` and `ModelRuns.Runner.RunAll`.

## Model

| member | source | states |
|---|---|---|
| Graph.StuckNodesHoldCycle | internal/models/dag.go:46-70 | finitely many nodes that each wait for one of them hold a dependency cycle |
| Graph.UpstreamStandsBefore | internal/models/dag.go:54-66 | in a topological order the whole transitive upstream of a model stands before it |
| Graph.TopologicalIsAcyclic | internal/models/dag.go:68-73 | a graph with a topological order over its edges has no cycle |
| Dag.DepGraph.AddEdge | internal/models/dag.go:40-41 | one edge is added to the dependencies, and the reverse edges keep mirroring them with multiplicity |
| Dag.DepGraph.LinkModel | internal/models/dag.go:31-44 | either the model's references all resolve, its edges and its in-degree are exactly those, or the error names a reference of its own that is unknown or its own |
| Dag.DepGraph.Link | internal/models/dag.go:31-44 | in any key order: either all references are known and the graph is the resolved dependency map, or the reported reference problem exists and no run order does |
| Dag.DepGraph.Roots | internal/models/dag.go:46-52 | the initial queue holds exactly the models that wait for nothing, once each |
| Dag.DepGraph.Release | internal/models/dag.go:60-65 | after placing a model every in-degree counts exactly the unplaced dependencies and the queue holds exactly the newly ready models |
| Dag.DepGraph.PlaceHead | internal/models/dag.go:55-66 | one round keeps the order topological, the in-degrees exact and the queue complete |
| Dag.PendingAfterPlacing | internal/models/dag.go:60-61 | placing a model lowers the unplaced dependencies of another by the number of edges between them |
| Dag.StillWaiting | internal/models/dag.go:60-62 | the in-degree behind a reverse edge is still positive, so it reaches zero once |
| Dag.LeftoverHoldsCycle | internal/models/dag.go:68-70 | when the queue runs dry too early, a real cycle runs inside the unplaced models |
| Dag.DepGraph.Sort | internal/models/dag.go:46-70 | the order is topological; if it is too short a cycle exists among the unplaced models |
| Dag.BuildDAG | internal/models/dag.go:19-74 | succeeds exactly when all references are known and the graph is acyclic; the order lists every model once with dependencies first; a cycle error means a cycle, another error a bad reference |
| Dag.SearchFoundClass | internal/models/dag.go:91-119 | a breadth-first search that has run dry found the whole class of its start, and filtering the order by it gives one component |
| Dag.DepGraph.Search | internal/models/dag.go:91-112 | terminates although models are queued repeatedly; finds a set closed under dependencies and dependents, all joined to the start and disjoint from earlier components |
| Dag.DepGraph.Enqueue | internal/models/dag.go:102-111 | queues every unvisited neighbour and nothing that is not joined to the start |
| Dag.DepGraph.ConnectedComponents | internal/models/dag.go:78-124 | the components partition the order; two models share one exactly when an undirected path joins them; each keeps the order |
| Dag.DepGraph.ComponentContaining | internal/models/dag.go:128-137 | the component of a listed model, nothing for another |
| Dag.FilterKeepsTopological | internal/models/runner.go:133-139 | keeping a dependency-closed part of a topological order leaves a topological order |
| Dag.ComponentIsRunOrder | internal/models/runner.go:94-100 | a component is closed under dependencies and topological by itself |
| Dag.UpstreamWalk.Walk | internal/models/dag.go:142-150 | terminates on every dependency map and adds only upstream models, with everything they depend on |
| Dag.GetUpstreamDeps | internal/models/dag.go:140-153 | exactly the models reached by one or more dependency edges, cyclic maps included |
| Refs.RefIsMatch | internal/models/ref.go:23 | the scanner finds every text of the reference pattern at its position, with its name and length |
| Refs.MatchIsRefText | internal/models/ref.go:23 | what the scanner finds is a text of the pattern's language, with that name |
| Refs.NoLineCommentLeft | internal/models/ref.go:16-18 | no line comment is left after stripping |
| Refs.NewBlockExactly | internal/models/ref.go:11-19 | removing the block comments leaves a new one exactly when a kept slash is followed by removed comments and an asterisk, with a closing mark later on |
| Refs.BlockFromTwoComments | internal/models/ref.go:11-19 | an input of eight characters at which this happens, line comments stripped as well |
| Refs.Dedup | internal/models/ref.go:43-51 | the names without repetition, and all of them |
| Refs.ExtractRefs | internal/models/ref.go:41-53 | the first occurrences of the referenced names in the stripped body, in order |
| Refs.ResolveRefs | internal/models/ref.go:58-75 | the stripped body with its references replaced; an error exactly when some reference has no target, and it names one |
| Refs.OnlyReferencesChange | internal/models/ref.go:61-74 | the result is the stripped body woven from the same literals, with only the references replaced by their quoted targets |
| Refs.MatchesSplitAtBacktick | internal/models/ref.go:72 | no reference runs across a backtick |
| Refs.LeftoverReferences | internal/models/ref.go:58-75 | a reference is left in the result exactly when the database name of a used target contains one |
| Refs.ReferenceFromDatabase | internal/models/ref.go:58-75 | a body and a target database at which a reference is left |
| ModelRuns.OnePassMeetsExpected | internal/models/runner.go:249-312 | along every topological order the loop reaches the outcomes that the graph and the world alone determine |
| ModelRuns.RunsAgree | internal/models/runner.go:249-312 | two runs agree on every model they share: order and restriction never change an outcome |
| ModelRuns.SkippedBelowErrors | internal/models/runner.go:256-271 | a model is skipped exactly when some transitive upstream model errored |
| ModelRuns.SentAfterUpstreamSucceeded | internal/models/runner.go:256-296 | every statement of a model is sent only after the success of every transitive upstream model was recorded in the run |
| ModelRuns.TotalsAddUp | internal/models/runner.go:251-312 | succeeded, failed and skipped add up to the models of the run |
| ModelRuns.SkippedNeedsErrored | internal/models/runner.go:265-271 | a run with a skipped model has an errored one |
| ModelRuns.StatusFromCounters | internal/models/runner.go:315-320 | success exactly for a non-empty run in which every model succeeded, error exactly when none did, partial otherwise |
| ModelRuns.BuiltModelsResolve | internal/models/runner.go:273-281 | after the graph is built no reference of any model can fail to resolve, so that error branch is never taken |
| ModelRuns.ProblemFreeIsKnown | internal/models/runner.go:162-185 | the collected reference problems are empty for every buildable list, and when they are empty only a cycle can prevent building |
| ModelRuns.UpstreamIsRunOrder | internal/models/runner.go:129-139 | the filtered order of a single-model run is topological and lists the model and its upstream |
| ModelRuns.NothingToRunExactly | internal/models/runner.go:129-139 | a single-model run covers nothing exactly when the model is not in the list |
| ModelRuns.EmptyRunIsError | internal/models/runner.go:314-321 | a run that covers nothing is recorded with status error and no counts |
| ModelRuns.ComponentIsJoined | internal/models/runner.go:94-99 | the order of a pipeline run lists exactly the models joined to the anchor |
| ModelRuns.Runner.AcquireLock | internal/models/runner.go:343-351 | granted exactly when the connection has no run, and held afterwards |
| ModelRuns.Runner.BuildGraph | internal/models/runner.go:212-233 | succeeds exactly for buildable lists; the graph has the resolved dependencies over exactly the models |
| ModelRuns.Runner.Send | internal/models/runner.go:291-296 | succeeds exactly when every statement is accepted; sends those up to and including the first that is refused |
| ModelRuns.Runner.Attempt | internal/models/runner.go:273-311 | success exactly when the references resolve and the statements are accepted; statements are sent only after the row was set running, and none when a reference does not resolve |
| ModelRuns.Runner.RunModel | internal/models/runner.go:253-311 | the verdict, the row updates and the statements sent for one model after the verdicts so far |
| ModelRuns.Runner.RunInOrder | internal/models/runner.go:249-312 | verdicts, failure set, counters, rows and the history of updates and statements are those of one pass over the order |
| ModelRuns.Runner.Execute | internal/models/runner.go:235-324 | the finished run reports exactly the verdicts, totals and status of one pass |
| ModelRuns.Runner.ExecuteOrder | internal/models/runner.go:235-324 | over a topological order the finished run reports the order-free outcomes |
| ModelRuns.Runner.RunAll | internal/models/runner.go:34-63 | starts exactly under its preconditions, covers all models, reports their order-free outcomes, releases the lock |
| ModelRuns.Runner.RunPipeline | internal/models/runner.go:66-101 | the same for exactly the models joined to the anchor, and refuses an unknown anchor |
| ModelRuns.Runner.RunSingle | internal/models/runner.go:104-142 | the same for exactly the model and its upstream |
| ModelRuns.Runner.CheckRefs | internal/models/runner.go:163-181 | the unknown and the self references of one model, in order |
| ModelRuns.Runner.Validate | internal/models/runner.go:145-201 | no errors exactly when the list is empty or the graph can be built; which errors are reported otherwise |
| Calendar.NumberOfDate | internal/scheduler/cron.go:90-94 | counting day by day from 1 January of year 1 agrees with the closed formula of the Gregorian calendar |
| Calendar.DateOfNumber | internal/scheduler/cron.go:90-94 | and every valid date is reached at its number |
| Calendar.DayWithinMonth | internal/scheduler/cron.go:92-96 | every day number up to 28 is reached within 30 days |
| Calendar.SameDateApart | internal/scheduler/cron.go:88-101 | two days of one date are at least 365 days apart, 366 when the year from the first on holds a leap day, as it always does after 29 February |
| Cron.Stepped | internal/scheduler/cron.go:36-53 | with a 64-bit counter, testing every number of a range ends exactly when the counter can get past its end, and then finds exactly the steps from its start |
| Cron.LoopEndsExactly | internal/scheduler/cron.go:49-53 | a 64-bit counter gets past the end of a range exactly when that is not the largest integer |
| Cron.ParseField | internal/scheduler/cron.go:16-64 | returns exactly unless some part is walked for ever; then exactly the numbers that some comma-separated part stands for, parts that do not parse standing for none |
| Cron.FieldStaysInBoundsExactly | internal/scheduler/cron.go:14-64 | a field allows only numbers of its bounds exactly when each of its parts stands for nothing or for numbers of the bounds |
| Cron.SeventyFiveIsAllowed | internal/scheduler/cron.go:55-59 | the minute field "75" allows minute 75 |
| Cron.RangeIsEndlessExactly | internal/scheduler/cron.go:42-53 | a range written out in decimal is walked for ever exactly when it reaches up to the largest integer |
| Cron.RangeCronIsEndlessExactly | internal/scheduler/cron.go:69-79 | and so is the whole expression with this range for the minute |
| Cron.SpacedFields | internal/scheduler/cron.go:70 | the fields of words with blanks between them are the words |
| Cron.ComputeNextRun | internal/scheduler/cron.go:69-105 | returns exactly unless some field is walked for ever; then the least whole minute after the start that matches all five fields within 525600 minutes, nothing exactly when there is none |
| Cron.Search | internal/scheduler/cron.go:81-104 | the minute-by-minute search finds the first due minute of the horizon |
| Cron.ValidateCron | internal/scheduler/cron.go:107-111 | when the computation returns, true exactly when a due minute lies in the horizon |
| Cron.NextIsMonotone | internal/scheduler/cron.go:66-105 | a later start gives no earlier run, and the same run until it is reached |
| Cron.ScheduleVisitsAll | internal/scheduler/cron.go:66-105 | following the schedule visits every due minute in order, none skipped and none twice |
| Cron.ScheduleEndsAtGap | internal/scheduler/cron.go:88-104 | it ends only before a gap longer than the horizon, with every due minute up to there visited |
| Cron.WeeklyRunExists | internal/scheduler/cron.go:88-99 | with day and month free and a weekday allowed a run follows within 7 days |
| Cron.MonthlyRunExists | internal/scheduler/cron.go:88-99 | with weekday and month free and a day up to 28 allowed a run follows within 31 days |
| Cron.YearlyRunIsMissedAcrossLeapDay | internal/scheduler/cron.go:88-104 | after an annual run none is found exactly when the year from it on holds a leap day, always after a run on 29 February; otherwise it follows after 365 days |
| Cron.FirstOfMarchStops | internal/scheduler/cron.go:69-105 | for midnight of 1 March this happens exactly before leap years |
| Cron.ValidityDependsOnDate | internal/scheduler/cron.go:107-111 | right after its run this expression is accepted exactly when the next year is not a leap year |
| Delivery.EveryRunKeepsInv | internal/pipelines/kafka.go:108-173 | in every interleaving, with the session ending before, with or without the pipeline, each consumer's messages are those handed over followed by those buffered, in offset order; marks and metrics are those of the written batches |
| Delivery.RunnerKeepsEmitted | internal/pipelines/runner.go:265-296 | the runner moves batches along but never changes which were handed over |
| Delivery.MarkedExactlyWritten | internal/pipelines/kafka.go:121-133 | a marked message is in the sink; between batches every message in the sink is marked |
| Delivery.EmittedIsPrefix | internal/pipelines/kafka.go:114-141 | the batches of a partition concatenate to an in-order, duplicate-free prefix of the messages received, to all of them after a clean close |
| Delivery.EarlierIsSmaller | internal/pipelines/kafka.go:143-171 | of two batches of a partition the earlier holds the smaller offsets |
| Delivery.AtLeastOnceIffNothingMarkedPastFailure | internal/pipelines/runner.go:272-287 | everything up to the highest marked offset is in the sink exactly while no batch of the partition was marked past a failed one |
| Delivery.FailureThenSuccess | internal/pipelines/runner.go:273-287 | for every batch size and any two messages of a partition, a run in which the first is below the highest mark and never reached the sink |
| Delivery.DeliverOne | internal/pipelines/kafka.go:114-167 | from a quiet state a message can be received, handed over by itself and handled, written or not, into a quiet state again |
| Ingestion.PartitionConsumer.Flush | internal/pipelines/kafka.go:114-141 | hands over the whole buffer as one batch with its messages, gives up when the session has ended, or is left waiting when neither is possible |
| Ingestion.PartitionConsumer.OnMessage | internal/pipelines/kafka.go:148-167 | is the receive step of the state machine, followed by the outcome of the flush when the batch is full |
| Ingestion.PartitionConsumer.OnOther | internal/pipelines/kafka.go:145-152 | a tick and the end of the claim are the steps of the state machine, followed by the outcome of the flush |
| Ingestion.PartitionConsumer.Retry | internal/pipelines/kafka.go:134-138 | a flush that was left waiting goes on when the channel has room or the session has ended, as actions of the pipeline |
| Ingestion.PartitionConsumer.TakeTurn | internal/pipelines/kafka.go:143-172 | one turn of the loop is a stretch of a run of the pipeline: what the runner did meanwhile, then a waiting flush or the next event |
| Ingestion.PartitionConsumer.ConsumeClaim | internal/pipelines/kafka.go:143-172 | the loop, over any turns, waiting flushes included, is a stretch of a run of the whole pipeline, and the one that the turns make; what was received are the messages taken, in order |
| Ingestion.DoneStays | internal/pipelines/kafka.go:145-152 | a consumer that has returned takes no further part |
| Ingestion.MessageReacts | internal/pipelines/kafka.go:148-167 | the state machine after a message and each outcome of its flush |
| Ingestion.OtherReacts | internal/pipelines/kafka.go:145-152 | the state machine after a tick or the end of the claim and each outcome of its flush |
| Ingestion.PipelineRunner.Handle | internal/pipelines/runner.go:272-296 | counts and acknowledges a batch exactly when its write succeeded, else counts an error |
| Delivery.HandleIsRunnerSteps | internal/pipelines/runner.go:272-296 | the runner's steps for one batch, write, marks and finish, or the failed write, lead to metrics, marks and log with that batch handled |
| Ingestion.PipelineRunner.Run | internal/pipelines/runner.go:265-308 | metrics and marks after the loop are those of the handled batches; the final status tells stopped, error and success apart |
| Sessions.MarkIsReceived | internal/pipelines/kafka.go:121-129 | a session marks only messages that it has received, at their place in the log |
| Sessions.NeverAgain | internal/pipelines/kafka.go:86-95 | a message that the next session starts behind is not written in any later session either |
| Sessions.ArrivesLaterExactlyAboveMarks | internal/pipelines/kafka.go:43-95 | a received message can reach the sink in a later session exactly when something of the partition is marked, and all of it below the message |
| Sessions.LosesExactlyPastFailure | internal/pipelines/runner.go:273-287 | a first session that has marked something loses a message for good exactly when it has marked past a failed batch |
| Sessions.NothingMarkedLosesAll | internal/pipelines/kafka.go:43 | a first session that has marked nothing loses for good exactly what it has received |
| Sessions.FirstFailureLosesMessage | internal/pipelines/kafka.go:43 | one message whose write fails in a first session, lost for good |
| Lifecycle.BackoffFits | internal/alerts/dispatcher.go:409-411 | the doubled wait fits 64 bits exactly up to attempt 30 |
| Lifecycle.BackoffIsBoundedUpTo30 | internal/alerts/dispatcher.go:405-416 | the wait is between 10 seconds and 30 minutes on every machine exactly up to attempt 30 |
| Lifecycle.BackoffAt31 | internal/alerts/dispatcher.go:409-415 | at attempt 31 the wait can be negative |
| Lifecycle.BackoffGrows | internal/alerts/dispatcher.go:405-416 | up to there a later attempt never waits less |
| Lifecycle.SettledInv | internal/alerts/dispatcher.go:178-228 | processing a due row uses one attempt, never leaves it sending, and escalates exactly on the refused attempt that reaches the limit |
| Lifecycle.ThresholdAboveMaxNeverEscalates | internal/alerts/dispatcher.go:422-424 | an escalation threshold above the attempt limit is never reached |
| Lifecycle.EveryHistoryKeepsInv | internal/alerts/dispatcher.go:168-229 | in every history: attempts within the limit, queued means none, retrying means some are left, no row is left sending, at most one escalation and only at the limit |
| Lifecycle.RowsStay | internal/alerts/dispatcher.go:168-229 | a row once created is in every later table |
| Lifecycle.RowLife | internal/alerts/dispatcher.go:168-229 | a row changes as often as it uses attempts, at most up to its limit; sent and failed rows never change; escalation happens once at most |
| Alerts.JobTable.Create | internal/database/alerts.go:650-664 | the new row is queued with no attempts and a positive limit; nothing else changes |
| Alerts.JobTable.ListDue | internal/database/alerts.go:666-738 | due jobs, earliest first, leaving out only later ones and only when the batch is full |
| Alerts.JobTable.TryEscalation | internal/alerts/dispatcher.go:418-449 | sends one escalation exactly under the route's conditions |
| Alerts.JobTable.ProcessJob | internal/alerts/dispatcher.go:178-228 | the marks of one job add up to its settled row and touch no other |
| Alerts.JobTable.ProcessDueJobs | internal/alerts/dispatcher.go:168-229 | every listed job is settled once, the others stay, and the pass is a step of a history |
| Digests.OneBucket | internal/database/alert_digests.go:50-52 | a clock reading lies in exactly one bucket of its window |
| Digests.DigestTable.Upsert | internal/database/alert_digests.go:45-136 | the event is added to the digest of its bucket, which is created when missing; no other digest changes |
| Digests.DigestTable.ListDue | internal/database/alert_digests.go:138-197 | closed digests with an attempt due, first closed first, leaving out only later ones |
| Digests.DigestTable.ProcessDigest | internal/alerts/dispatcher.go:242-286 | the marks of one digest add up to its settled row and touch no other |
| Digests.DigestTable.ProcessDueDigests | internal/alerts/dispatcher.go:231-287 | every listed digest is settled once and the others stay |
| Digests.PassIsRun | internal/alerts/dispatcher.go:231-287 | a pass over the due digests is a stretch of a run |
| Digests.EveryRunKeepsInv | internal/database/alert_digests.go:45-136 | in every run the count of a digest is the number of events upserted for its key, its ids are the first 200 of them in arrival order, and it leaves collecting only after its bucket closed |
| Digests.FixedWindowsAreNeverLate | internal/database/alert_digests.go:46-52 | with fixed windows and a non-decreasing clock no event is added to a digest that has left collecting |
| Digests.LateExactlyWithTwoWindows | internal/database/alert_digests.go:46-52 | from any clock reading on, late events are possible exactly when a route is used with windows of two lengths, those that are not positive read as 15 minutes |
| Digests.ChangedWindowCanBeLate | internal/database/alert_digests.go:46-98 | for any growth of a window and any clock reading, a run from there on with a late event |
| Digests.ClosedDigestIsFrozen | internal/database/alert_digests.go:66-98 | under fixed windows a digest that has left collecting keeps its events |
| Materialize.Dispatcher.HandleRoute | internal/alerts/dispatcher.go:134-156 | one event on one route: nothing without recipients, a digest entry, nothing under the cooldown, else a job |
| Materialize.Dispatcher.MaterializeEventJobs | internal/alerts/dispatcher.go:104-166 | the nested loops handle exactly the matching combinations one after the other and mark every event processed |
| Materialize.Dispatcher.HasRecentDispatch | internal/database/alerts.go:630-648 | whether a job that has not failed exists for the route and fingerprint with an event not older than the bound |
| Materialize.EventItemsAre | internal/alerts/dispatcher.go:121-157 | a tick handles every event on every route of every matching rule, and nothing else |
| Materialize.NoAlertIsLost | internal/alerts/dispatcher.go:121-163 | afterwards each of these has its job, or a recent job of the same fingerprint under the cooldown, or is counted once in its digest, whose count grew by exactly the events for it and which stores their ids while there is room; and the event is processed |
| Materialize.DigestsGrow | internal/alerts/dispatcher.go:138-143 | a tick lets every digest grow by exactly the events that go to it, in order |
| Materialize.TickIsArrivals | internal/alerts/dispatcher.go:138-143 | the digests after a tick are those of a run of the digest table with one arrival for each event that goes to a digest |
| Materialize.BothSentExactlyWhenFirstIsOld | internal/alerts/dispatcher.go:144-152 | two repeats handled at one time are both sent exactly when the first is already older than the cooldown |
| Materialize.TwoOldEventsAreBothSent | internal/alerts/dispatcher.go:144-152 | from any point in time on, two events of one fingerprint that are both sent under a cooldown |
| Materialize.EveryRunKeepsInv | internal/alerts/dispatcher.go:95-166 | in every run no event is dispatched twice on a route, a repeat of a fingerprint is sent only after the earlier job failed or its event got older than the cooldown, and the digests are those of a run of the digest table in which every event for a digest arrives once, with all that such a run keeps |
| Streaming.ChunkAt | connector/clickhouse.go:400-431 | chunk k holds the rows from k times the size on, full except for the last |
| Streaming.ChunkingIsUnique | connector/clickhouse.go:400-431 | there is one way to cut rows into such chunks |
| Streaming.StreamRows | connector/clickhouse.go:382-435 | without an error the chunks are that cutting of the first non-empty lines up to the limit, and the total is their number; with an error they are an initial part of it, and the error says what happened |
| Streaming.FlushLast | connector/clickhouse.go:424-430 | the rest is sent as a last chunk that is not empty |
| Sync.ModelChanged | internal/github/sync.go:179-199 | true exactly when the stored content differs from the file in some field |
| Sync.ModelStore.CreateModel | internal/database/models.go:127-147 | refused exactly when the connection has the name; else one new row |
| Sync.ModelStore.UpdateModel | internal/database/models.go:150-163 | refused exactly when another row has the name; else the row with this id is rewritten |
| Sync.ModelStore.ListGitHubModels | internal/database/models.go:409-437 | each repository model of the connection once, as stored |
| Sync.ModelStore.SyncFile | internal/github/sync.go:129-166 | one file against the snapshot: created, updated, unchanged or an error, and the table accordingly |
| Sync.ModelStore.Prune | internal/github/sync.go:168-176 | removes exactly the listed models whose name no file has, and counts them |
| Sync.ModelStore.DoSync | internal/github/sync.go:81-178 | nothing happens for the head synced last; otherwise the files are read, table and counts are those of the reconciliation, and the head is stored as synced whatever could not be read; other connections keep theirs |
| Sync.SkippedExactly | internal/github/sync.go:89-91 | a sync is skipped exactly when it finds the head of the one before and that is not empty |
| Sync.NothingChangesAtOneHead | internal/github/sync.go:89-177 | while the head stays, further syncs change nothing, whatever the files have become |
| Sync.BackExactlyWhenHeadMoves | internal/github/sync.go:89-177 | after a sync that could read no file of a name, the name has a repository model at the next sync of a readable file exactly when the head has moved or is empty and no other kind of model holds the name |
| Sync.ReadFiles | internal/github/sync.go:100-114 | the files that can be fetched and parsed, with their model names, and the others |
| Sync.SyncTouchesOnlyItsOwn | internal/github/sync.go:117-176 | models of other sources and connections survive unchanged, ids and names are kept, every repository model left has a file, names stay unique |
| Sync.FileHasRow | internal/github/sync.go:129-147 | a file ends up with a repository model of its name exactly when the name is not held by another kind of model |
| Sync.MirrorsExactlyFreeDistinctFiles | internal/github/sync.go:117-176 | the repository models equal the parsed files field by field exactly when no name is held and files of one name are one file |
| Sync.TwoFilesOfOneName | internal/github/sync.go:117-176 | two files of one name are not mirrored |
| Sync.CountsAddUp | internal/github/sync.go:129-176 | created, updated, unchanged and failed add up to the files, and the table grows by created less deleted |
| Sync.RepeatIsQuietExactlyWhenConsistent | internal/github/sync.go:117-176 | syncing the same files again creates and deletes nothing, and updates nothing exactly when files of one name have one content or a held name |
| Sync.TwoFilesNeverSettle | internal/github/sync.go:117-176 | two files of one name are rewritten at the next sync |
| Sync.DeletedExactly | internal/github/sync.go:168-176 | a sync deletes exactly the repository models whose name no readable file has |
| Sync.DeletesOnlyAbandonedExactly | internal/github/sync.go:100-176 | it deletes only models without a repository file exactly when no stored model has only the name of files that could not be read |
| Sync.UnreadableFileDeletesModel | internal/github/sync.go:100-176 | a model whose only file could not be fetched is deleted |
| Sync.NamesClashExactly | internal/github/client.go:121-142 | two accepted files give one model name exactly when one is the other with ".sql" added and the shorter has the ending in another case |
| Sync.UpperCaseEndingClashes | internal/github/client.go:131-133 | two files that give one model name, for every stem |
| LikeSearch.EscapedTextMatches | internal/database/query_history.go:99-104 | an escaped text in a pattern matches exactly itself, in either case |
| LikeSearch.PercentThenText | internal/database/query_history.go:99-104 | between two percent signs it matches exactly the texts that contain it |
| LikeSearch.SearchIsSubstringSearch | internal/database/query_history.go:99-104 | an entry is listed exactly when its text contains the trimmed, lower-cased search text up to the case of ASCII letters, wildcards included literally, whatever lower-casing does beyond ASCII |
| LikeSearch.AsciiSearch | internal/database/query_history.go:99-104 | for a search in ASCII that is a case-insensitive substring search |
| LikeSearch.CapitalIsNotFound | internal/database/query_history.go:99-104 | a capital beyond ASCII is not found by itself |
| QueryHistory.NewestByRank | internal/database/query_history.go:63-67 | an entry is among the first n of the listing exactly when fewer than n are above it |
| QueryHistory.PruneAgain | internal/database/query_history.go:60-71 | adding to a pruned history and pruning again is pruning the full history |
| QueryHistory.HistoryTable.SelectNewest | internal/database/query_history.go:64-66 | the limited listing |
| QueryHistory.HistoryTable.CreateEntry | internal/database/query_history.go:40-76 | the new entry's user and connection keep their newest entries, the others all |
| QueryHistory.HistoryHoldsTheNewest | internal/database/query_history.go:40-76 | however often it was pruned, the history of a user on a connection is exactly the newest 500 entries ever recorded there |
| StartArgs.TokensOfRendered | cmd/update.go:250-294 | writing tokens out as arguments and reading them again as the sanitizer does gives them back |
| StartArgs.Sanitize | cmd/update.go:237-300 | the loop keeps exactly the known flags with their values, PID file paths made absolute, and adds the PID file when none shows |
| StartArgs.HasFlag | cmd/update.go:302-309 | found exactly when some element is the flag or starts with it and an equals sign |
| StartArgs.SanitizeKeepsEveryFlag | cmd/update.go:237-300 | the new command line has every flag and value of the old one that the sanitizer knows, in order, and the given PID file after them when none showed |
| StartArgs.RestartNamesPidExactly | cmd/update.go:296-299 | it has a PID file flag exactly when the old one had or no value looked like one |
| StartArgs.ConfigHidesPid | cmd/update.go:296-309 | a command line whose configuration file name keeps the PID file from being added |
| StartArgs.SanitizeTwiceExactly | cmd/update.go:237-300 | sanitizing again changes nothing exactly when a PID flag showed or the given path stays as it is, as every absolute path does |
| StartArgs.RelativePidMoves | cmd/update.go:237-300 | a relative path that changes when sanitizing again |
| StartArgs.Build | cmd/server.go:264-289 | the arguments are the rendering of the given flags in their fixed order |
| StartArgs.BuiltIsFixedExactly | cmd/server.go:264-289 | start arguments are a fixed point of the sanitizer exactly when their PID file path stays as it is, whatever the other values look like |
| StartArgs.ReadProcessArgs | cmd/update.go:212-235 | the arguments after the executable, blank ones left out |
| StartArgs.DetectRestartArgs | cmd/update.go:200-210 | the sanitized arguments of the process, or command and PID file when they cannot be read |
| StartArgs.SplitProcessText | cmd/update.go:220 | splitting the kernel's text gives the arguments of the process back |
| StartArgs.RestartRecoversStartExactly | cmd/update.go:200-300 | for a command line that the start command has built: after an update the server restarts with exactly its arguments, if and only if its PID file path stays as it is |
| ServerFlags.SettingsOfCommandLine | cmd/server.go:130-138 | the server reads a command line written from known flags as exactly their settings |
| ServerFlags.KeptFlag | cmd/update.go:250-294 | an argument in flag position that the sanitizer keeps is kept with the value that the server reads for it |
| ServerFlags.DroppedFlag | cmd/update.go:250-294 | one that it drops sets nothing that the server runs with, exactly unless it is a shorthand with a joined value or `--dev=…` |
| ServerFlags.KeptAndLost | cmd/update.go:237-300 | the settings of the server and those of the kept flags differ in number by what is lost and by what stands behind `--`, and by nothing else when nothing is lost |
| ServerFlags.RestartKeepsSettingsExactly | cmd/update.go:237-300 | a restart runs with the settings of the server, PID file paths made absolute and one added, exactly when nothing is lost and nothing stands behind `--` |
| ServerFlags.JoinedPortIsLost | cmd/update.go:256-262 | `-p8080`, `-p=8080` and every other port joined to its shorthand is lost |
| ServerFlags.LostAndGained | cmd/update.go:250-294 | a lost flag and the same flag behind `--`, after which the settings are the same |
| ServerFlags.BlankValuesAreLostExactly | cmd/update.go:225-233 | leaving blank arguments out keeps every flag and value exactly when no flag has a blank value in an argument of its own |
| ServerFlags.BlankConfigTakesPort | cmd/update.go:225-233 | a blank configuration file name, after which the flag for the port is read as that name |
| ServerFlags.RestartFromProcess | cmd/update.go:200-300 | with nothing lost, nothing behind `--` and no blank value, a server of any command line is restarted with its settings |

## Left out

- HTTP handlers, the tunnel gateway, SMTP, S3, ClickHouse and Kafka clients, OIDC, OS services, configuration, the
  user interface and all cryptography: input and output, or library code.
- `Delivery.EveryRunKeepsInv`: covers one consumer session. Parsing of the message value is left out, since the record
  carries the message's own bytes either way, and so are the last-batch timestamp, run logs and the 64-bit wrap-around
  of metrics.
- `Ingestion.PartitionConsumer.ConsumeClaim`: the turns are a parameter; what other partitions do in between is not part
  of them, though it is of `Delivery.EveryRunKeepsInv`.
- `Sessions.ArrivesLaterExactlyAboveMarks`: marks are committed when a session is over and its batches are handled; a
  session that begins before the runner is through with the batches of the last one, and a crash between a mark and its
  commit, are not modelled.
- `Cron.ComputeNextRun`: that it does not return is a value, `Endless`.
- `Refs.RefIsMatch`: texts are sequences of characters, not UTF-8 bytes; trimming the matched name is the identity on
  names and is not written out.
- `ModelRuns.Runner.Execute`: the status columns of the models themselves, timings and the logged statement are not
  modelled, and neither is the loading of models and credentials, which become parameters.
- `ModelRuns.BuiltModelsResolve`: assumes, as the store does, that model ids are distinct.
- `Alerts.JobTable.ProcessJob`: messages, subjects and provider ids are not modelled; an escalation counts once it
  is attempted, whether or not its channel accepts it.
- `Digests.DigestTable.Upsert`: the list of titles, cut at 30, is not modelled; it grows as the ids do.
- `Materialize.Dispatcher.MaterializeEventJobs`: which new events a tick lists, at most 100 and oldest first, is a
  parameter; case folding is that of ASCII.
- Store failures in the alert, sync and model cores, several dispatchers, and concurrent starts of one pipeline.
- `Streaming.StreamRows`: the encoding of a chunk, the metadata query and the 10 MB line limit are left out; a read
  error is a parameter.
- `Sync.ReadFiles`: fetching and parsing a file is a function that may fail.
- `Sync.ModelStore.DoSync`: the head and the files at it are parameters; failing requests for them, timestamps, the
  status column and the sync log are not modelled; ids are numbers that are never used again.
- `Sync.NamesClashExactly`: covers files directly in the directory, which the filter requires; the path prefix itself is
  not modelled.
- `LikeSearch.SearchIsSubstringSearch`: the program's lower-casing is a parameter, the database's is that of ASCII; the
  rest of the query (user, connection, status, paging) is not modelled.
- `QueryHistory.HistoryHoldsTheNewest`: covers recording only; deleting and clearing entries by hand are left out. Ids
  are numbers in the order of their text.
- `StartArgs.Build`: the text of a duration is a parameter, and a flag that was not given is `None`.
- `ServerFlags.RestartKeepsSettingsExactly`: the flag library is not part of this model; its rules for long flags,
  shorthands, boolean flags and `--` are written out. Settings are names with the texts of their values: that a server
  whose values do not parse does not start is left out, and so are shorthands joined behind `-h`.
- `buildDDL`, severity ranking and similar choices are in the models but settled by reading one branch.
