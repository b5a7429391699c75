# SentinelFlow: verified model

SentinelFlow takes telemetry events over HTTP, carries them through Kafka into a
partitioned PostgreSQL table, correlates error rates into incidents, pages people through an
escalating alert workflow and runs remediation runbooks with approval gates. This project
models the protocols that carry those promises and proves what they keep over every run.

Each SQL statement is one atomic step, and each transaction commits as a whole or not at all.
Concurrent parts are state machines over such steps (`Enabled`, `Next`, runs of steps), and
the objects that the Go code updates in place are classes whose methods emit exactly those
steps, with everybody else acting in between. The two Temporal workflows are driven by a
script of what the environment does at each wait (signals, timeouts, activity attempts, lost
acknowledgements); a class with the workflow's own flags and loops is proved equal to a
function of the script, and the theorems speak of the trace of every script.

| file | what it models |
|---|---|
| `Incidents.dfy` | the incident table, its statements, status order, fingerprints |
| `Correlation.dfy`, `EventCounts.dfy`, `Sightings.dfy` | evaluator cycles, restarts and operators as one machine; what an event count means; what a cycle leaves in the table |
| `Evaluator.dfy` | the evaluator's cycle as it runs, interleaved and failing anywhere |
| `Remediation.dfy`, `RemediationSafety.dfy`, `RemediationRetries.dfy`, `RemediationChecks.dfy`, `RemediationSchedule.dfy`, `RemediationEndings.dfy`, `RemediationTraps.dfy` | the remediation workflow |
| `Alerting.dfy`, `AlertingSafety.dfy`, `AlertingSchedule.dfy`, `AlertingRecords.dfy` | the alert workflow |
| `Events.dfy`, `EventBounds.dfy` | normalization, validation, the API's and the engine's time bounds |
| `Pipeline.dfy`, `PipelineSafety.dfy`, `PipelineOutcomes.dfy`, `PipelineLosses.dfy`, `Engine.dfy` | logs, offsets, consumer group, retries and the engine's loop |
| `Queries.dfy`, `Keyset.dfy`, `Walks.dfy` | filter-to-query compiler, cursors, pages and walks over changing tables |
| `PartitionNames.dfy`, `Partitions.dfy`, `PartitionSafety.dfy`, `PartitionStore.dfy` | daily partitions: names, routing, draining the default partition |
| `Janitor.dfy` | the maintenance cycle |
| `Retries.dfy` | how often a retried statement applies when replies are lost |
| `CycleLock.dfy`, `Migrations.dfy`, `Starters.dfy` | the advisory lock, the migration runner, the workflow starters |

## Where the code does less than its documentation says

- Fingerprints: docs/architecture.md says no combination of values can collide. They are
  collision-free exactly on fields without the separator (`Incidents.UnambiguousExactlyWhenFree`);
  nothing in event validation rules the separator out.
- docs/architecture.md shows an older insert (`ON CONFLICT (event_id)`) and an older count
  update. The model follows the Go statements: the key is the timestamp and the id, and a
  grouped detection adds only what is new since the previous cycle.
- The bound between cycles is inclusive and has no upper end. An active incident can count an
  event again exactly when the event is dated at or after the start of the latest successful
  cycle, or none has succeeded since the evaluator started
  (`EventCounts.CountedAgainExactlyWhenNotBehind`); `EventCounts.CountedAtMostOnce` says how
  often at most.
- A record whose judgement changes from invalid to valid while it is being processed can be
  discarded by one consumer, accepted by another that has lost the partition, and never
  stored. That can happen exactly to records invalid as they are produced, valid at another
  moment, and not kept from it by a record of the same key that waits before them
  (`PipelineLosses.LostExactlyWhenUntimely`); in any run every other record that was
  judged valid and committed is stored (`PipelineOutcomes.LostWasUntimely`). The engine's
  future bound is what makes such records: they are the well-formed ones dated further ahead
  than it when produced (`PipelineOutcomes.EngineIsSensible`).
- A rejection that arrives while an approval is being recorded is wiped with it
  (`RemediationTraps.RejectWhileRecordingApprovalIsLost`), and the row of a refused step can
  name an approver (`RemediationTraps.RefusalCanNameApprover`).
- internal/remediate/workflow.go says it never acts on an incident that is no longer live, but
  the status is read once, before the step. A step of either kind acts on a resolved incident
  exactly when the run comes to it, reads the incident live, passes the gate if there is one,
  and the incident is resolved by the turn in which the action starts
  (`RemediationSchedule.LateExactlyWhen`): the turn after the read for an automatic step
  (`RemediationTraps.AutoStepActsOnResolved`), the fourth after it for a gated one
  (`RemediationTraps.GatedStepActsOnResolved`). It never happens twice
  (`RemediationSchedule.AtMostOneLateAction`). A level is paged late in the same way
  (`AlertingSchedule.LatePageExactlyWhen`).
- docs/architecture.md sections 13.5 and 14.4 promise that retries neither page again nor
  execute a step twice. Rows are not duplicated, but an attempt that took effect without being
  heard of is repeated (`RemediationTraps.ActionCanRunTwice`,
  `AlertingSchedule.PageCanBePostedTwice`), and only then
  (`RemediationSchedule.ActionRepeatsExactlyWhen`, `AlertingSchedule.PageRepeatsExactlyWhen`).
- The alert workflow does not read the database after the last level times out, so an
  acknowledged incident can still end as "exhausted"
  (`AlertingSafety.ExhaustedDespiteAcknowledgement`; `AlertingSchedule.LateExhaustionExactlyWhen`
  says exactly when).
- An event dated outside the years 0000 to 9999 is accepted when the API's bounds are off, and
  does not read back from its own wire form (`EventBounds.AcceptedYetUnreadable`).
- Migration files are applied in file order. That is version order for two versions exactly
  when neither starts the other with a character below the separator next
  (`Migrations.FileOrderExactlyWhen`): "1" and "20" are in order, "1" and "10" are not
  (`Migrations.WidthsMatter`).

## Model

| member | source | states |
|---|---|---|
| Incidents.RunKeepsConsistentAndAdvances | internal/store/incidents.go:55-93 | over every interleaving of upserts, acknowledgements, resolutions, sweeps and markers: one active incident per fingerprint, resolved_at set exactly when resolved, status only along the lifecycle, counts and last_seen_at never back, resolved rows frozen |
| Incidents.FingerprintInjective | internal/incident/incident.go:82-84 | fingerprints differ for different rules, tenants and services when rule and tenant carry no separator |
| Incidents.UnambiguousExactlyWhenFree | internal/incident/incident.go:82-84 | a fingerprint belongs to one triple if and only if no field contains the separator |
| Incidents.IncidentStore.UpsertOpen | internal/store/incidents.go:154-202 | true: a new open row, every column as given, where no active row has the fingerprint; false: exactly one active row of the fingerprint gains the increment and the later last_seen_at; an invalid draft or a taken id changes nothing; a transport error leaves open whether it applied |
| Incidents.IncidentStore.Transition | internal/store/incidents.go:380-411 | success is acknowledged from open, or resolved from open or acknowledged: the one row gets that status and its own stamp and nothing else changes; a refusal means the guard matched no row, changes nothing and tells a missing incident from an illegal transition as of its second look; a transport error of either statement leaves open whether it applied |
| Incidents.OperatorChanges | internal/store/incidents.go:71-85 | the two guarded updates on any table: the change is made exactly when the guard matches, and otherwise nothing is |
| Incidents.MarkersStampOnce | internal/store/incidents.go:106-117 | a marker stamps its own column of its own row, and only when that is empty |
| Incidents.LifecycleSteps | internal/incident/incident.go:51-66 | the only steps are open to acknowledged and either to resolved, which are the updates' guards |
| Incidents.IncidentStore.AutoResolveStale | internal/store/incidents.go:283-298 | resolves exactly the active rows last seen before the cutoff and reports how many; an error leaves open whether it applied |
| Correlation.ReplayConsistent | internal/correlate/evaluator.go:100-181 | every history of cycles, restarts and operators keeps the incident table consistent and the bound no later than the cycle's start |
| Correlation.StepCounts | internal/store/incidents.go:60-64 | every step moves an incident's event_count by exactly the events that step counted |
| Correlation.NotTwicePerCycle | internal/correlate/evaluator.go:103-159 | no cycle counts into an incident it has already counted into |
| EventCounts.CountedAtMostOnce | internal/correlate/evaluator.go:110-118 | over any run an incident counts an event at most once, plus once per cycle that saw it dated at or after its start, per failed cycle that had counted it, per restart |
| EventCounts.UndisturbedCountIsDistinct | internal/correlate/evaluator.go:112-118 | with none of those, event_count is the number of distinct error events counted |
| EventCounts.CountedAgainExactlyWhenNotBehind | internal/correlate/evaluator.go:115-118 | between cycles an active incident can count an event again, with or without failures but no restart, if and only if no cycle has succeeded yet or the event is dated at or after the start of the latest that did |
| EventCounts.NeverAgain | internal/correlate/evaluator.go:174-176 | an event dated before a successful cycle's start is not counted into an existing incident again, whatever fails, until a restart |
| EventCounts.CountedTwiceWhenDatedAtStart | internal/store/events.go:157-166 | a whole run, without failures or restarts, that counts an event dated at a cycle's start twice |
| EventCounts.FollowedCountIsExact | internal/correlate/evaluator.go:110-176 | when every cycle since the opening succeeded, fired, started within a window of the one before and read the errors dated between the two starts, event_count equals the errors dated from one window before the opening to the last start, whatever is dropped once counted |
| EventCounts.FollowedCountIsAtLeast | internal/correlate/evaluator.go:174-176 | with failed cycles and restarts in between, event_count is at least that number |
| Evaluation.WindowStats | internal/store/events.go:157-204 | one row per service with events in the window and no other, with the exact totals, errors and new errors |
| Evaluation.VerdictIsDetection | internal/correlate/rule.go:89-129 | on a read's tallies a rule fires exactly when the service's events in the window are enough and bad enough, and reports the window's errors and those since the bound |
| Evaluation.MoreErrorsKeepFiring | internal/correlate/rule.go:101-111 | what fires keeps firing when one more error event arrives: more errors never turn a rule quiet |
| Correlation.OnlyErrorsFire | internal/correlate/rule.go:101-111 | a service with nothing but errors fires exactly when it has enough of them and the threshold is at most one |
| Correlation.FiresExactlyAtThreshold | internal/correlate/rule.go:101-111 | a rule fires for a service exactly when it has events in the window, at least the minimum, and the fraction of them that are errors reaches the threshold |
| Evaluation.World.UpsertDetection | internal/correlate/evaluator.go:133-139 | the upsert is the machine's detection step, or, on an error, that step or nothing |
| Evaluation.Evaluator.constructor | internal/correlate/evaluator.go:72-92 | a new evaluator has no previous cycle, and a quiet period of five minutes unless a positive one is given |
| Evaluation.Evaluator.ApplyRules | internal/correlate/evaluator.go:127-158 | one service's tallies against a group: on success exactly the firing rules are detected, with operators and ingestion acting in between |
| Evaluation.Evaluator.ApplyWindow | internal/correlate/evaluator.go:109-160 | one lookback reads once and, on success, detects exactly what fires on what it read |
| Evaluation.Evaluator.EvaluateWindows | internal/correlate/evaluator.go:103-160 | all lookbacks in any order: on success exactly the firing rule and service pairs are detected, each on its own window's read |
| Evaluation.Evaluator.EvaluateOnce | internal/correlate/evaluator.go:100-181 | a cycle is begin, detections, sweep and end, none dated before its start or after the clock; it fails exactly when some statement of it failed; the bound advances to the start exactly on success; on success everything that fires was detected, the sweep came after, and each fired key has a row last seen in this cycle (first seen in it if new) that is still active unless an operator resolved it or the sweep cut off later than the start |
| Sightings.SeenKeysAnswered | internal/correlate/evaluator.go:163-201 | over any history of a cycle's detections, sweeps and operators, every key detected has such a row |
| Remediation.Workflow.IncidentRemediationWorkflow | internal/remediate/workflow.go:75-216 | the loop over mutable flags and the reused record is the function of the environment's script that the theorems are about |
| Remediation.Workflow.RecordAction | internal/remediate/workflow.go:109-114 | an audit write retried up to three attempts, any of which may apply unheard |
| RemediationSafety.EveryRunIsLawful | internal/remediate/workflow.go:116-211 | every action, write and decision of every run is one the trace before it allows, and the rows are those the trace wrote |
| RemediationSafety.ExecutedPrefixAndApprovals | internal/remediate/workflow.go:116-211 | at every point the executed steps are an in-order prefix of the runbook, and gated steps executed never exceed approvals received |
| RemediationSafety.AuditRowsTellTheTruth | internal/remediate/workflow.go:118-126 | at every point the rows cover steps 1 to k, all before k succeeded, and a row says succeeded only if its action ran |
| RemediationSafety.StoppedStays | internal/remediate/workflow.go:134-170 | nothing runs after a rejected, timed-out, failed or skipped outcome |
| RemediationSafety.RejectBeforeDecisionHalts | internal/remediate/workflow.go:151-170 | a reject before a decision point, with none cleared in between, makes that decision a refusal and stops the run |
| RemediationSafety.RefusedExactlyWhenUnclearedReject | internal/remediate/workflow.go:156-180 | a decision is a refusal if and only if such a reject precedes it |
| RemediationTraps.RejectWhileRecordingApprovalIsLost | internal/remediate/workflow.go:172-180 | a run in which a reject during the recording of the approval is wiped and the gated step runs |
| RemediationRetries.RetriesLeaveSameRows | internal/remediate/workflow.go:67-72 | retries with lost acknowledgements leave the rows and outcome of the run in which each activity ran once |
| RemediationSchedule.ActionRunsExactly | internal/remediate/workflow.go:77-80 | over a whole run a step's action runs exactly as often as the attempts of its turn take effect, if the run comes to it, and so at most three times |
| RemediationSchedule.ActionRepeatsExactlyWhen | internal/remediate/workflow.go:183-192 | a run repeats a step's action if and only if it starts it and, in that turn, an attempt that ran goes unheard and a later one runs |
| RemediationSchedule.CompletesExactlyWhen | internal/remediate/workflow.go:116-216 | a run completes if and only if every step reads the incident live, passes any gate, and is heard to act and to record it |
| RemediationEndings.HaltsExactlyWhen | internal/remediate/workflow.go:128-211 | a run halts if and only if the step it comes to last is skipped on a resolved incident, times out unanswered, is rejected, or fails |
| RemediationEndings.HaltedRows | internal/remediate/workflow.go:134-211 | and then the audit table is one succeeded row for each earlier step and, last, the row of that very cause: skipped and timed out name nobody, rejected and failed the sender heard last as the wait ended |
| RemediationEndings.CompletedRows | internal/remediate/workflow.go:205-216 | a completed run leaves exactly one succeeded row per step, naming the sender of its grant, or nobody without a gate |
| RemediationEndings.FinishedStepsKeepRows | internal/remediate/workflow.go:116-126 | however a run stops, the steps that finished keep those rows |
| RemediationEndings.StepEnds | internal/remediate/workflow.go:116-211 | every step goes on, halts, errs or waits as the script says, writes the row of its own ending and touches no other step's |
| RemediationTraps.ActionCanRunTwice | internal/remediate/workflow.go:77-80 | a completed run whose one action ran twice |
| RemediationRetries.DecisionNamesLatestSender | internal/remediate/workflow.go:89-104 | every decision names the sender of the latest signal heard, and is a grant exactly when only approvals were heard |
| RemediationTraps.RefusalCanNameApprover | internal/remediate/workflow.go:163-169 | a run in which a step is refused and its row names the approver |
| RemediationChecks.EveryActionWasChecked | internal/remediate/workflow.go:128-140 | before every run of a step's action the incident was read for that step and was open or acknowledged |
| RemediationSchedule.OneStepActs | internal/remediate/workflow.go:128-211 | a step of either kind starts its action exactly when the status is read live and any gate is passed, late exactly when the incident is resolved by the turn of the action |
| RemediationSchedule.LateExactlyWhen | internal/remediate/workflow.go:126-192 | a run acts on a resolved incident if and only if some step it comes to is read live, passes its gate if any, and finds it resolved when the action starts |
| RemediationSchedule.AtMostOneLateAction | internal/remediate/workflow.go:128-192 | once the database has the incident resolved at most one further action is started, however approvals fall |
| RemediationTraps.AutoStepActsOnResolved | internal/remediate/workflow.go:128-192 | a completed run of an automatic step whose incident is resolved between the read and the action |
| RemediationTraps.GatedStepActsOnResolved | internal/remediate/workflow.go:151-192 | a run in which the incident is resolved while a gate waits and the action still runs |
| Alerting.Workflow.IncidentAlertWorkflow | internal/alerting/workflow.go:83-170 | the escalation loop over its flags is the function of the environment's script that the theorems are about |
| Alerting.Workflow.SendNotification | internal/alerting/workflow.go:134-136 | post then record, retried up to five attempts, any of which may apply unheard |
| AlertingSafety.EveryRunIsLawful | internal/alerting/workflow.go:105-167 | every page, post and row of every run is one the trace before it allows, and the rows are those the trace wrote |
| AlertingSafety.RecordedPagesClimbInOrder | internal/store/notifications.go:27-33 | at every point the recorded pages are levels 1 to k in order, one row each, then at most one exhausted row after all levels |
| AlertingSafety.AtMostOneLatePage | internal/alerting/workflow.go:108-120 | once the database has left open, at most one further level is paged however signals are lost |
| AlertingSafety.NoPageOnceOwned | internal/alerting/workflow.go:90-120 | after a signal or a read that is not open, no further level is paged |
| AlertingSafety.ExhaustedExactlyWhenUnowned | internal/alerting/workflow.go:151-167 | an error-free run writes the exhausted row exactly when neither flag was set at the end of the loop |
| AlertingSafety.ExhaustedDespiteAcknowledgement | internal/alerting/workflow.go:141-167 | a run in which the incident was acknowledged during the last wait and the run still ends as exhausted |
| AlertingSchedule.LatePageExactlyWhen | internal/alerting/workflow.go:105-136 | a run pages a level of an incident no longer open if and only if it comes to a level, reads the incident open with no signal yet, and the incident has left open by the next turn |
| AlertingSchedule.LateExhaustionExactlyWhen | internal/alerting/workflow.go:141-167 | a run announces as exhausted an incident no longer open if and only if it escalates past every level unowned and the incident has left open by the turn after the last wait |
| AlertingSchedule.PagePostsExactly | internal/alerting/workflow.go:85-88 | over a whole run a page's webhook is posted exactly as often as the attempts of its turn post, if the run sends it, and so at most five times |
| AlertingSchedule.PageRepeatsExactlyWhen | internal/alerting/workflow.go:134-136 | a run posts a page again if and only if it sends it and, in that turn, an attempt that posted goes unheard and a later one posts |
| AlertingSchedule.EndsExactlyWhen | internal/alerting/workflow.go:105-170 | a run ends well if and only if the level it comes to last finds an owner, or all time out and the exhaustion is heard to be recorded; it fails if and only if that level's read, page or wait fails, or the exhaustion is never heard to be recorded |
| AlertingRecords.PageRecordedExactly | internal/alerting/notifier.go:49-91 | a page has a row if and only if the run sends it and some attempt in its turn writes one, and the row says delivered exactly when the first such attempt's post was |
| AlertingSchedule.PageCanBePostedTwice | internal/store/notifications.go:27-33 | a completed run that posts a page twice and records it once |
| Events.NormalizeIdempotent | internal/event/event.go:116-139 | normalizing twice is normalizing once |
| Events.NormalizedMeans | internal/event/event.go:116-139 | every text loses exactly the space around it, id and severity their capitals, a blank environment and missing attributes get their defaults, and nothing else changes |
| Events.TrimIsCore | internal/event/event.go:121-128 | trimming gives the one core a text has: no space at either end, only space cut off |
| Events.SameIdExactlyWhen | internal/event/event.go:121 | two ids get one normal form if and only if they agree up to case and surrounding space |
| Events.ReportsExactlyBreaches | internal/event/event.go:185-226 | validation reports every breach of the contract and nothing else |
| Events.CheckPassesExactlyWhen | internal/event/freshness.go:69-97 | the bounds let a timestamp through if and only if it is the zero time or breaches neither positive bound, and name exactly the bounds it breaches |
| Events.Draft.Normalize | internal/event/event.go:120-139 | the in-place normalization, field by field, is the normal form |
| EventBounds.AcceptedThenInvalid | internal/event/freshness.go:54-97 | an accepted event is judged invalid later exactly when its timestamp cannot be written or still breaches the engine's future bound, never for its age |
| EventBounds.WritableKeptExactlyWhen | internal/engine/processor.go:132-168 | while the clock runs between two moments of the writable years, the engine discards no accepted event with a writable timestamp if and only if its future bound is off, or at least the API's positive one, or reaches past the last writable year |
| EventBounds.NothingDiscardedExactlyWhen | internal/event/freshness.go:69-97 | it discards no accepted event at all if and only if in addition both API bounds are on and keep what is accepted inside the writable years |
| EventBounds.AcceptedYetUnreadable | internal/event/event.go:77-93 | with its bounds off the API accepts an event dated just past year 9999 that the engine cannot read back |
| EventBounds.BoundedTimestampsAreWritable | internal/event/freshness.go:69-97 | with both API bounds on and a clock inside four-digit years, accepted timestamps are writable |
| PipelineSafety.StepKeepsInv | internal/engine/runner.go:60-128 | every step of producers, consumers, coordinator and database keeps the pipeline's invariant, and no committed offset moves back |
| PipelineSafety.RunKeepsInv | internal/engine/runner.go:60-64 | the same over whole runs, and nothing stored, judged or logged is undone |
| PipelineSafety.CommittedMeansSettled | internal/engine/runner.go:60-112 | in every run every record below a committed offset was judged invalid or has its key stored, and every row is the stored form of a logged record judged valid |
| PipelineOutcomes.LostWasUntimely | internal/engine/processor.go:149-205 | in any run, among any traffic, a committed record that was judged valid and whose key is not stored was invalid as it was produced and valid later |
| PipelineOutcomes.StoredExactlyUnlessLost | internal/engine/runner.go:60-64 | once every log is committed the stored keys are exactly those of records judged valid if and only if no record is lost, and are never anything else |
| PipelineOutcomes.TimelyRunsStoreExactlyAccepted | internal/engine/processor.go:160-168 | they are exactly those when every record ever judged valid was valid as it was produced, whatever else is produced |
| PipelineLosses.LostExactlyWhenUntimely | internal/engine/processor.go:160-168 | after any history, with any backlog and other traffic, a record produced can be judged valid and be lost if and only if it is invalid as it is produced, valid at another moment, not stored already, and no record of its key valid now waits before it in its partition, save one the owner has discarded and can still commit past |
| PipelineOutcomes.EngineIsSensible | internal/engine/processor.go:126-168 | the engine's judgement only turns from invalid to valid, and does so exactly for well-formed records dated past its bound |
| PipelineOutcomes.EngineRowsAreTheirRecords | internal/store/events.go:29-33 | in every run of the engine every row is keyed by its own timestamp and its own id, and is the normal form, field by field, of a logged record judged valid |
| PipelineOutcomes.SameKeyExactlyWhen | internal/store/events.go:22-33 | two dated records share a primary key if and only if their instants agree and their ids agree up to case and surrounding space |
| PipelineOutcomes.AcceptedIsStoredAsPrepared | internal/engine/processor.go:149-205 | an event the API accepted, once read back, is stored under its instant and id as the very event the API prepared |
| PipelineOutcomes.TimelyEngineRunsHoldEveryRecord | internal/engine/runner.go:60-64 | once a timely run is fully committed every record ever judged valid has a row with its instant and its id |
| PipelineSafety.AdvanceTo | internal/kafkax/consumer.go:122-135 | a commit moves each of its partitions to just after its last record in the batch and moves no other |
| Engine.Consumer.constructor | internal/engine/runner.go:44-58 | a runner joins with at least one attempt per insert and one record per poll, five and 250 by default |
| Engine.Consumer.InsertWithRetry | internal/engine/processor.go:212-256 | at most the policy's number of statements, exactly that many when transient failures use them up; success moves on by exactly one record |
| Engine.Consumer.Process | internal/engine/processor.go:149-205 | anything but a failure leaves the record settled: discarded ones judged invalid, stored and duplicate ones accepted, stored exactly when the insert found the key new; a failure moves on by no record |
| Engine.Consumer.ProcessBatch | internal/engine/runner.go:121-128 | success means every record of the batch is settled, failure that one is not yet done; nothing is committed on the way |
| Engine.Consumer.Turn | internal/engine/runner.go:78-115 | a turn fails only with a record in doubt or a commit refused; then it has committed nothing of its own and the process ends |
| Engine.Consumer.Run | internal/engine/runner.go:66-117 | when the loop ends, for whatever reason, no offset has moved back and everything below one is settled |
| Queries.NormalizeLimit | internal/store/query.go:81-90 | the page size asked for when it is within 1 and 200, 50 when none is, 200 when it is more |
| Queries.FilterBuilder.Add | internal/store/query.go:33-36 | the compiled clauses ask for one condition more, with every argument still bound once and in order |
| Queries.FilterBuilder.After | internal/store/query.go:50-60 | the row-value comparison is added unless the cursor is zero, with both arguments bound in order |
| Queries.FilterBuilder.Paginate | internal/store/query.go:68-79 | the limit argument is the page size plus one, the offset is bound exactly when positive, and the conditions keep their meaning |
| Queries.BuildEventListQuery | internal/store/events.go:286-318 | for every filter the clauses over their arguments select exactly the rows that satisfy the non-empty fields and lie below the cursor; placeholders 1 to n occur once each |
| Queries.BuildIncidentListQuery | internal/store/incidents.go:453-474 | the same for incident filters |
| Keyset.CursorRoundTrip | internal/store/cursor.go:27-61 | a token decodes to its cursor exactly when the cursor has an id and a moment in four-digit years or is zero, and is refused otherwise, with the error saying which |
| Keyset.ListEvents | internal/store/events.go:242-280 | a page is the sorted, filtered rows below the cursor, cut to size, with a next cursor exactly when there is more |
| Keyset.ListIncidents | internal/store/incidents.go:206-243 | the same for incidents |
| Walks.FixedTableWalk | internal/store/events.go:263-280 | on a fixed table following tokens ends within the pages the rows need and gathers exactly the filtered table in order |
| Walks.WalkNeverRepeatsAPosition | internal/store/query.go:47-60 | however the table changes between pages no event comes up twice |
| Walks.WalkNeverRepeatsAnIncident | internal/store/incidents.go:206-243 | incidents, whose last_seen_at only grows, do not repeat either |
| Walks.StayedMeansListedOnce | internal/store/cursor.go:10-16 | a completed walk lists exactly once every row that stayed in place and matching; one is missed only if it moved, stopped matching or was not there |
| Partitions.RoutedKeysUnique | internal/store/partitions.go:103-111 | when rows sit in their day's partition or else the default, no key is in two partitions |
| PartitionSafety.RunRefinesFlatTable | internal/store/partitions.go:128-178 | over every interleaving of inserts, drops and creations, committed or rolled back at any statement, the partitions hold exactly what one flat table would, each row in its day's partition or else the default |
| PartitionSafety.DrainShows | internal/store/partitions.go:153-172 | moving a day's rows from the default to the new partition leaves the row set as it was |
| PartitionSafety.InsertShows | internal/store/events.go:28-33 | a routed insert is the flat table's insert, and changes something exactly when the key is new |
| PartitionStores.PartitionStore.CreatePartition | internal/store/partitions.go:128-178 | success means the partition is there unless somebody dropped it meanwhile; success or failure, the rows are the flat table's; it fails exactly when some statement failed or could not get its lock |
| PartitionStores.PartitionStore.MakePartition | internal/store/partitions.go:159-167 | after the staged rows are cleared nothing opposes the new partition |
| PartitionStores.PartitionStore.DropPartition | internal/store/partitions.go:209-231 | a name that is not a dated partition is refused and changes nothing; success means the day has none; a dated one is refused exactly when a statement failed |
| PartitionNames.NamesRoundTrip | internal/store/partitions.go:24-44 | the name of a day parses back to it if and only if its year is within 0000 and 9999, and is refused otherwise |
| PartitionNames.AcceptedNameIsTheDaysName | internal/store/partitions.go:32-44 | any name that parses is the name of the day returned |
| PartitionNames.NamesDiffer | internal/store/partitions.go:25-27 | different days have different names |
| PartitionNames.DefaultHasNoDay | internal/store/partitions.go:29-35 | the default partition never parses as a day |
| PartitionNames.DatesRoundTrip | internal/store/partitions.go:39 | every Gregorian date is the date of its own day, as RFC 3339 appendix C has leap years |
| PartitionNames.DaysCountOn | internal/store/partitions.go:201-204 | days count on date by date, by the months' lengths and the Gregorian leap days, and the Unix epoch is 1 January 1970 |
| PartitionNames.FourDigitYears | internal/event/event.go:77-93 | the instants the wire form can write are exactly those of years 0 to 9999 |
| PartitionNames.BoundsTile | internal/store/partitions.go:201-204 | a day's bounds hold exactly its instants and the next day's begin where they end |
| Janitor.DailyAgrees | internal/store/partitions.go:24-44 | the store's names satisfy what the janitor's cycle relies on: no name is read as another day's, and the default partition as none |
| Janitor.Janitor.constructor | internal/janitor/janitor.go:70-89 | lookahead and retention default to 7 and 30 days |
| Janitor.Janitor.Ensure | internal/janitor/janitor.go:116-130 | creates exactly the missing days of the lookahead, in order, and stops at the first failure |
| Janitor.Janitor.Expire | internal/janitor/janitor.go:136-155 | drops exactly the listed dated names that are expired, and never another |
| Janitor.Janitor.RunOnce | internal/janitor/janitor.go:103-174 | an error-free cycle leaves exactly the old unexpired names and the days ahead; no drop follows a failed create; unexpired and undated names survive any cycle; a second cycle at the same time asks for nothing; a cycle fails exactly when some call of it failed |
| Janitor.ExpiredExactlyWhen | internal/janitor/janitor.go:132-145 | a day is expired if and only if even its last instant is past the retention counted from the start of today |
| Janitor.DroppedRowsWereOld | internal/janitor/janitor.go:132-145 | dropping an expired day loses only rows older than the retention horizon |
| Janitor.AcceptableYetDropped | internal/event/freshness.go:86-94 | some event acceptable now is of an expired day exactly when no age bound is set or the oldest acceptable instant is; never when the bound is at most the retention |
| CycleLock.OneLeader | internal/store/lock.go:27-40 | in every run with connections dying anywhere at most one replica keeps a live lock session, and no idle connection has the lock |
| CycleLock.LeadershipSticks | internal/store/lock.go:18-22 | leadership stays until released or the session is lost |
| CycleLock.Lock.Acquire | internal/store/lock.go:47-77 | true exactly when this replica's live session has the lock then; a live leader keeps its session; a refusal means another session had the lock when it was tried, or no live connection was to be had; every connection taken is kept or given back |
| CycleLock.Lock.Release | internal/store/lock.go:81-96 | the replica keeps nothing checked out and does not lead, and nothing happens when it did not |
| Migrations.Up | internal/migrate/migrate.go:91-148 | however it ends the applied versions are a prefix no shorter than before; success applies all; a second run changes nothing; it fails exactly when some statement failed |
| Migrations.Down | internal/migrate/migrate.go:151-207 | success removes exactly the last steps applied, or all there were; otherwise fewer, and still a prefix; fewer than one step is refused |
| Migrations.Serve | internal/migrate/migrate.go:86-90 | over any sequence of runs, failing or crashing anywhere, the applied versions stay a prefix, and an Up that succeeds after a Down restores them all |
| Migrations.FileOrderExactlyWhen | internal/migrate/migrate.go:53-59 | two files are in the order of their versions if and only if neither version starts the other with a character below the separator next |
| Migrations.FileOrderIsVersionOrder | internal/migrate/migrate.go:53-59 | so for versions of one width file order is version order |
| Migrations.WidthsMatter | internal/migrate/migrate.go:53-59 | versions of different widths whose files are in the other order |
| Starters.AtMostOneRunEach | internal/alerting/temporal.go:25-47 | given that the server rejects a second run under one id, each incident gets at most one run, and a marked one has its run or no runbook, with any number of starters, crashes and lost replies |
| Starters.Starter.StartPending | internal/remediate/starter.go:106-155 | every listed incident with a runbook is asked for and no other, those counted are exactly those heard to succeed, each has its run, and runs and marks are never taken back |

## Left out

- Kafka, PostgreSQL and Temporal themselves: ordered logs that resume from the committed offset, atomic statements and transactions, duplicate workflow ids rejected, bounded activity retries and signals that arrive or are lost are taken as given.
- Retries of one activity or statement do not overlap: each attempt ends before the next begins.
- A lost connection: a failed statement on the lock's connection is taken to mean its session is gone, which is what releases the lock on the server.
- One evaluator: correlation histories have a single evaluator with restarts, because internal/correlate/runner.go:18 takes no lease although cmd/incident-engine/main.go:174-175 passes one.
- One janitor, one list of migrations: two janitors at once, and a list that differs between migration runs, are not modelled; migration runs are serialized by their lock.
- HTTP handlers, routing, configuration, metrics, logging, tracing, the dashboard and deployment files.
- JSON, base64 (RFC 4648 section 5), UUID parsing and name-based ids (RFC 9562 section 5.5): round trips and injectivity are assumed; audit ids are the tuples they are derived from.
- Timestamps are integers, in nanoseconds from the start of year 0: their text (RFC 3339 section 5.6) is modelled only as the years it can write and as partition names.
- Precision: PostgreSQL keeps and compares timestamps in microseconds. In Correlation, EventCounts and the pipeline's keys a moment is what it compares, so a cycle's start and an event's instant are taken cut to the microsecond, as the statements' arguments are; an event dated in the start's own microsecond is not behind it.
- The event id column's own reading of a UUID (braces, missing hyphens): ids are compared as the normalized text.
- Evaluation.Evaluate: compares by cross-multiplication and does not model floating-point rounding of the error rate.
- Incidents.IncidentStore.Transition: which of its two statements a transport error hit is not reported, as in the code.
- Events.NormalizeIdempotent: lower-casing and trimming cover ASCII, which is all the accepted ids and severities use.
- Counters are unbounded integers; 64-bit wrap-around is not modelled.
- The back-off delay between retries, poll intervals and other wall-clock liveness.
- Incidents.IncidentStore.UpsertOpen: the validation of title, severity and details is one flag of the draft.
- Keyset.ListEvents: scanning, transport errors and the text of the SQL are not modelled, only its clauses, arguments and meaning.
- Webhook payloads, on-call rotation, runbook matching, error texts and the read-only audit listings.
- Walks.FixedTableWalk: rows are taken to have an id and a moment in four-digit years, which is what validation and the wire form let through.
- Retention against storage: the pipeline's statements are about a table from which nothing is dropped; the janitor's are about what a drop removes.
