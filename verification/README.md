# Network automation: a verified model

The repository turns intent held in Nautobot into configuration on SR Linux devices. A Kafka
consumer hands each request to a Temporal workflow; the workflow prepares an artifact, deploys it
over gNMI, validates the device and publishes one outcome record; a read API rebuilds what happened
from the workflow's event history, compares live state with intent and infers the topology; a
browser checks what the API sends. This project models those parts in Dafny and proves what they
promise.

Where the source changes state step by step, so does the model: the consumer (`Bridge.Consumer`),
the workflow (`Workflow.DeploymentRun`) and the artifact directory (`ArtifactStore.Directory`) are
classes, and the history projection, the path parser, the response normaliser, the comparators, the
topology and the error walk are methods with loops. Each is proved equal to a function, or against
what it should compute, and the theorems are about that. What runs beside them (other runs, crashes,
late replies, lost acknowledgements) is a step relation, and the theorems hold after any sequence of
steps.

## Parts

- **Delivery.** `Delivery` is the protocol of polling, starting, committing and seeking, with
  uncertain starts and commits, restarts, retention and duplicate publication; `DeliverySafety` what
  every run of it keeps, `DeliveryRecovery` and `DeliveryFaults` how it recovers and what single faults
  do, `WorkflowIds` the IDs it starts; `Bridge` is the code, proved to take exactly the protocol's
  steps.
- **Workflow.** `Retry` has the backoff arithmetic and the attempt loop, `Timetables` what executing an
  activity means, `DeploymentModels` the records and their validators, `Workflow` the run,
  `Classification` how activities name their failures, `Deployments` what holds of every run,
  `PublishedRecords` what it logs and publishes, field by field.
- **Artifacts.** `Artifacts` is the shape check, `ArtifactStore` the shared files under interleaved
  deployments and the operations on the directory.
- **History.** `Stages` is the projection as a function, `Projection` the loops, `StageFacts` and
  `StageShape` what it conserves, `Timeline`, `TimelineTimes`, `TimelineStatus`, `HistoryPrefixes`,
  `RunningTimeline` and `PendingTimeline` what it shows of the runs `Workflow` can produce.
  `Descriptions`, `PendingOnly`, `StagesShown`, `HistoryStages` and `FilledStages` read every stage off
  the history and the pending activities themselves.
- **Device state.** `GnmiPath`, `PathPrinting`, `PathReading`, `PathTexts`, `GetResponse` and
  `ResponsePositions` read paths and responses, `Leaves`, `ExpectedStates` and `CheckKeys` are the
  expected state and its three traversals, `Validation`, `Comparisons`, `Comparison`,
  `ComparisonReturns`, `ChecksMade` and `Agreement` the two comparators, `Browser` the browser's own
  validators, `Numbers` its numbers, `RefusedDetails` and `AcceptedDetails` what it refuses and
  accepts, `RpcErrors` the naming of gNMI failures.
- **Topology and rendering.** `Links`, `LinkPositions` and `Topology` infer links, `Rendering` orders
  what is rendered.
- **Shared.** `Outcomes`, `Sorting`, `Text`, `Plans`, `Gather`, `OrderedMaps`, `DeviceErrors`.

## What turned out not to hold

The model follows the code. Each of these has a lemma with its exact condition, and one with an input
where it is not plain from the condition that there is any.

- A prepare that ends in a timeout has no valid outcome record, so the run publishes nothing and
  waits for its execution timeout (`Deployments.StuckExactlyWhen`, `Deployments.StuckRunsExist`).
- A history with more than 64 things to show has no timeline at all: constructing the 65th stage
  fails before the list is cut (`StageFacts.FailsExactlyWhen`).
- A validate activity that returned "failed" instead of raising would be shown as completed
  (`TimelineStatus.TimelineIsTrueExactlyWhen`, `TimelineStatus.ReturnedFailuresExist`). Today's
  activity raises on every failed result, so no run takes this path yet.
- Pending activities are described before the history is read, so more than one stage can be shown as
  running: exactly when the open activity and the known pending ones are more than one
  (`PendingTimeline.RunningOfRunsExactlyWhen`, `PendingTimeline.StalePendingShowsTwo`).
- Check keys repeat when the loopback has the name of a routed interface
  (`CheckKeys.KeysAreUniqueExactlyWhen`).
- The browser counts UTF-16 units, trims other characters than Python does and reads numbers as
  doubles, so it refuses some details the server builds (`Browser.DetailAcceptedExactlyWhen`,
  `RefusedDetails.ValidDetailIsRefused`, `RefusedDetails.HugeNumberIsRefused`).
- Two links can share a key when a name holds a colon, and then one of them is lost
  (`Topology.NoneIsMissedExactlyWhen`, `Topology.KeysCollideWithColons`).

## Model

| member | source | states |
|---|---|---|
| WorkflowIds.WorkflowIdsDiffer | src/network_automation/events/models.py:508-513 | render and deployment requests with one event ID never share a workflow ID, and no two event IDs do |
| Delivery.SameWorkflowExactlyWhen | src/network_automation/events/consumer.py:88-109 | two requests ask for one workflow exactly when topic and event agree |
| DeliverySafety.StartsAccountedKept | src/network_automation/events/consumer.py:127-139 | use-existing with reject-duplicate: every step keeps the executions begun equal to those forgotten plus the one retained |
| DeliverySafety.InvariantHolds | src/network_automation/events/consumer.py:52-187 | the delivery invariant after any run of steps, faults and restarts included |
| DeliverySafety.NothingIsSkipped | src/network_automation/events/consumer.py:52-187 | every offset below the committed one, and every one read past, is poison or has its workflow started |
| DeliverySafety.CommittedNeverDecreases | src/network_automation/events/consumer.py:52-73 | committed offsets never decrease, although a commit applied unseen is repeated |
| DeliverySafety.RestartRepeatsAtMostOne | src/network_automation/events/consumer.py:52-73 | position and committed offset of a partition are never more than one message apart |
| DeliverySafety.StartedOnceWhileRetained | src/network_automation/events/consumer.py:127-139 | under redelivery, duplicate publication and late starts a workflow ID is started at most once while retained |
| DeliverySafety.ExactlyOnce | src/network_automation/events/consumer.py:127-187 | a committed request whose workflow was never forgotten has been started exactly once |
| DeliverySafety.NothingStartedUnasked | src/network_automation/events/consumer.py:88-139 | only workflows some message asked for are ever started |
| DeliverySafety.AsksIsRequest | src/network_automation/events/consumer.py:88-109 | a message is a request for a workflow exactly when it is a render event on the render topic or a deployment event on the deployment topic, and that is the event's workflow |
| DeliverySafety.RequestsAreStarted | src/network_automation/events/consumer.py:88-139 | in every run, a committed or passed render event on the render topic, and deployment event on the deployment topic, has its workflow among those started; and whatever was started is the workflow of such a message |
| DeliveryFaults.LateStartIsFound | src/network_automation/events/consumer.py:127-165 | a start whose answer was lost but which took effect is found by the second start: one execution, and the message can be committed |
| DeliveryFaults.ForgottenIsStartedAgain | src/network_automation/events/consumer.py:127-139 | a workflow forgotten while its message is still to be read again runs twice, so exactly-once needs that it was not |
| DeliveryFaults.RetainedIsNotStartedAgain | src/network_automation/events/consumer.py:127-142 | a repeated or duplicate message changes nothing while its workflow is retained, open or closed |
| DeliveryRecovery.DrainCommitsEverything | src/network_automation/events/consumer.py:127-187 | an undisturbed stretch commits every message of a partition and touches no other |
| DeliveryRecovery.RecoversFromAnyRun | src/network_automation/events/consumer.py:217-253 | after any run with faults, a restart and such a stretch leave nothing uncommitted |
| DeliveryFaults.LoopCatchesUp | src/network_automation/events/consumer.py:217-253 | as many undisturbed turns of the loop as messages are left commit the whole partition |
| Bridge.Consumer.constructor | src/network_automation/events/consumer.py:203-213 | a consumer without committed offsets reads each partition from its start |
| Bridge.Consumer.CommitOrSeek | src/network_automation/events/consumer.py:52-73 | true exactly when the commit was acknowledged; otherwise the position is back at the message, whether or not the broker applied it |
| Bridge.Consumer.StartWorkflow | src/network_automation/events/consumer.py:127-142 | started, an existing one used, already started or unknown, by what Temporal retains |
| Bridge.Consumer.ProcessMessage | src/network_automation/events/consumer.py:76-187 | takes exactly the protocol's steps, with anything happening between start and commit, and keeps its invariant; true exactly when accepted or poison, and committed, and then the message is poison or its workflow has been started |
| Bridge.Consumer.PollOnce | src/network_automation/events/consumer.py:240-253 | an empty poll or a poll error changes nothing; a message is processed from the partition's position |
| Bridge.Consumer.TakeTurn | src/network_automation/events/consumer.py:217-253 | nothing is polled while a broker probe is due and failing; the next probe is ten seconds after the last success; the invariant is kept |
| Bridge.Consumer.Run | src/network_automation/events/consumer.py:217-253 | the loop takes exactly the protocol's steps, turn by turn; from a fresh start it reaches only states the delivery invariant allows |
| Retry.UncappedIsGeometric | src/network_automation/workflows/render_device.py:25-91 | the closed form of the uncapped waits, for any policy |
| Retry.TotalBackoffBound | src/network_automation/workflows/render_device.py:25-91 | the sum of n capped waits is bounded by the geometric sum and by n times the maximum |
| Retry.TotalBackoffExact | src/network_automation/workflows/render_device.py:25-91 | that sum exactly: geometric until the cap, linear from there |
| Retry.BackoffNeverShrinks | src/network_automation/workflows/render_device.py:25-91 | no wait is shorter than the one before it |
| Retry.ExecuteBounds | src/network_automation/workflows/render_device.py:216-222 | whatever the attempts do, they stay within the policy's number and the activity within its worst case and deadline |
| Retry.OnlyTransientFailuresAreRetried | src/network_automation/workflows/render_device.py:25-91 | every attempt but the last ended in a retryable failure, and the last is the result |
| Retry.TransientEndsExhausted | src/network_automation/workflows/render_device.py:43-67 | without a deadline, an activity that ends in a transient failure has used up its attempts |
| Timetables.ExecutionHasTimetable | src/network_automation/workflows/render_device.py:25-91 | every execution has a timetable: when each attempt begins and ends, which are retried after which wait, and why the last is the last, in terms of limits, deadline, attempts and failures only |
| Timetables.TimetableIsExecuted | src/network_automation/workflows/render_device.py:25-91 | and no other course has one |
| Timetables.GivesUpOnlyAtDeadline | src/network_automation/workflows/render_device.py:80-91 | an activity that ends in a timeout, or a failure neither permanent nor of a type not retried, with attempts left has a deadline that the elapsed time and the next wait reach |
| Deployments.ActivityWorstCases | src/network_automation/workflows/render_device.py:43-91 | 183, 96, 90 and 165 seconds for prepare, deploy, validate and publish, from the general sum of capped waits |
| Deployments.FirstWaits | src/network_automation/workflows/render_device.py:43-91 | the first waits of each policy, in seconds |
| Deployments.LaterWaits | src/network_automation/workflows/render_device.py:43-91 | all later ones are the policy's longest |
| DeploymentModels.WorkflowIdIsValid | src/network_automation/events/models.py:172-183 | the workflow ID of a canonical event ID passes the outcome's validator |
| Workflow.DeploymentRun.ExecuteActivity | src/network_automation/workflows/render_device.py:216-222 | attempts one activity, always on the same input, to the outcome its policy and limits determine |
| Workflow.DeploymentRun.PublishOutcome | src/network_automation/workflows/render_device.py:240-246 | publishes a record that its validators accept, under the publish policy; one they refuse is never published |
| Workflow.DeploymentRun.RunDeployment | src/network_automation/workflows/render_device.py:211-359 | the run as a function of what the outside decides: its ending, its attempts and its time |
| Deployments.ScheduledOnce | src/network_automation/workflows/render_device.py:211-359 | in an orderly log the attempts of an activity stand together, numbered from 1, all on one input |
| Deployments.RunIsOrderly | src/network_automation/workflows/render_device.py:211-359 | in every run the stages come in order and once each, attempts within 3/3/12/5, retries on the same prepared value, publish once and last; a run that publishes takes at most 534 of the 600 seconds, one that cannot takes all of them |
| Deployments.ArrivedIsValidExactlyWhen | src/network_automation/events/models.py:298-362 | the outcome satisfies every validator, times included, exactly when the failing stage may report its failure |
| Deployments.StuckExactlyWhen | src/network_automation/workflows/render_device.py:125-135 | a run publishes nothing exactly when prepare ended in a failure outside its nine categories |
| Deployments.StuckRunsExist | src/network_automation/workflows/render_device.py:223-246 | a prepare that times out three times is such a run |
| Deployments.OutcomeTellsWhatHappened | src/network_automation/workflows/render_device.py:211-359 | the published record names the stage that failed, why, for which bytes and when they were deployed |
| PublishedRecords.RecordIsExact | src/network_automation/workflows/render_device.py:125-359 | the published record is exactly that of the completed run or of the stage that failed, each field from the input, prepared value, deployment or failure it belongs to; other failures of deploy and validate count as internal errors |
| PublishedRecords.EveryAttemptIsLogged | src/network_automation/workflows/render_device.py:211-359 | the attempts made are those of every activity begun, numbered from 1, on the request, the prepared value and the record, and no others |
| PublishedRecords.TimeIsSpent | src/network_automation/workflows/render_device.py:211-359 | a run that publishes takes as long as the activities it begins |
| PublishedRecords.ValidatorsDemand | src/network_automation/events/models.py:298-362 | every accepted record has this form: ID, path, digest, sizes, times, and which fields each stage has |
| PublishedRecords.AcceptedExactlyWhen | src/network_automation/events/models.py:172-362 | exactly these records are accepted, digit by digit |
| Classification.PrepareFailureIsClassified | src/network_automation/activities/deployment.py:127-147 | every failure prepare raises is one of its nine categories, retried exactly when transient |
| Classification.DeployFailureIsClassified | src/network_automation/activities/deployment.py:150-167 | the same for deploy, but for missing settings |
| Classification.ValidateFailureIsClassified | src/network_automation/activities/deployment.py:150-167 | the same for validate, but for missing settings |
| Classification.RefusalIsClassified | src/network_automation/activities/deployment.py:403-426 | a refused validation is retried exactly when it may still converge |
| Classification.PrepareCategories | src/network_automation/activities/deployment.py:127-147 | which failure of prepare has which category |
| Classification.DeviceCategories | src/network_automation/activities/deployment.py:150-167 | which failure of the device has which category, for deploying and for validating, and which is retried |
| Classification.StuckExactlyOnTimeout | src/network_automation/activities/deployment.py:127-147 | with the failures prepare raises, a run is stuck exactly when its last attempt at preparing timed out, and that was the third |
| Artifacts.VerifyArtifactShape | src/network_automation/activities/deployment.py:76-124 | each refusal under the source's conditions, in its order |
| Artifacts.VerifyShapeAcceptsExactlyWhen | src/network_automation/activities/deployment.py:76-124 | accepted exactly when it is ASCII commands of the promised size and digest, newline-ended, with one line and no other setting the host name, to the device |
| Artifacts.ShapeRefusals | src/network_automation/activities/deployment.py:76-124 | which refusal it is otherwise, in terms of paths, bytes and lines |
| Artifacts.SplitUndoesJoin | src/network_automation/activities/deployment.py:100-100 | splitting gives back lines that hold no line break |
| Artifacts.LinesAre | src/network_automation/activities/deployment.py:100-100 | the lines of any text: what ends a line, a carriage return taking a newline with it, and no line after the last end |
| Artifacts.RenderingIsAccepted | src/network_automation/rendering/srlinux.py:117-148 | a rendering of well-formed commands passes its own check |
| ArtifactStore.SentIsOwnRendering | src/network_automation/devices/srlinux.py:79-96 | however deployments interleave, bytes sent to a device are those its own prepare rendered, and they passed the shape check |
| ArtifactStore.TargetIsComplete | src/network_automation/rendering/srlinux.py:117-148 | the shared file holds its earlier content or one complete rendering for its device, at every moment |
| ArtifactStore.TargetMoves | src/network_automation/rendering/srlinux.py:139-139 | only the replace step changes a target, to that writer's whole rendering |
| ArtifactStore.TargetsDiffer | src/network_automation/rendering/srlinux.py:105-106 | different devices have different targets |
| ArtifactStore.ReadSucceedsExactlyWhen | src/network_automation/devices/srlinux.py:154-169 | a deploy reads its bytes exactly while the shared file holds its own rendering |
| ArtifactStore.VouchedExactlyWhen | src/network_automation/activities/deployment.py:266-286 | a prepare passes its check exactly when the shared file still holds its own rendering, in good shape |
| ArtifactStore.OverwrittenIsRefused | src/network_automation/devices/srlinux.py:154-169 | after other bytes were written over it, a deploy refuses the file |
| ArtifactStore.UndisturbedDeploymentSends | src/network_automation/activities/deployment.py:266-286 | undisturbed, a well-shaped rendering is prepared, read back and sent |
| ArtifactStore.WriteStepsGive | src/network_automation/rendering/srlinux.py:117-148 | what the steps of one undisturbed writing, or of one that fails on the way, leave in the files |
| ArtifactStore.Directory.WriteArtifact | src/network_automation/rendering/srlinux.py:117-148 | replaces the target with the rendering and returns its identity, or leaves the directory as it was, whichever operation fails; just as the steps of the protocol do |
| ArtifactStore.Directory.ReadArtifact | src/network_automation/devices/srlinux.py:154-169 | returns the bytes exactly when digest, size and encoding match, with the source's error otherwise; just as the read step of the protocol |
| Projection.CollectPending | src/network_automation/api/workflows.py:373-383 | the last entry of each activity counts, in the place of its first, attempts clamped |
| Projection.CollectEvents | src/network_automation/api/workflows.py:393-461 | the fold over the history, failing as soon as a 65th stage is numbered |
| Projection.AppendOpen | src/network_automation/api/workflows.py:462-470 | the activities still open, in the order they were scheduled |
| Projection.AppendPending | src/network_automation/api/workflows.py:472-488 | the activities that are only pending |
| Projection.FillInFailure | src/network_automation/api/workflows.py:490-529 | the failing stage, the ones it kept from being reached, and its category |
| Projection.ProjectStages | src/network_automation/api/workflows.py:386-542 | the whole projection, loops, pops and insertions included |
| HistoryStages.FoldShows | src/network_automation/api/workflows.py:405-461 | the fold over any history with distinct event IDs: which stage each event shows and which activities stay open, read off the history alone |
| HistoryStages.RecordedIsRead | src/network_automation/api/workflows.py:386-488 | every recorded stage of such a history, for any pending activities: order, keys, statuses, times, durations, attempts and which have a category |
| StagesShown.RecordedIsShown | src/network_automation/api/workflows.py:386-488 | the same at every prefix of a run's history: start, closed activities, the open one and those only pending |
| StagesShown.TimelineIsShown | src/network_automation/api/workflows.py:531-541 | and on the timeline, numbered from 1, with at most the closing stage more |
| StagesShown.AttemptsAreShown | src/network_automation/api/workflows.py:409-430 | the open activity shows the attempt described last for its name, at least 1 and at most 100, or that of its start if it is larger, or none; those only pending show the one described last |
| PendingOnly.PendingOnlyIsShown | src/network_automation/api/workflows.py:373-488 | each described name that is not open is shown once, with the attempt described last |
| FilledStages.KnownExactlyWhen | src/network_automation/api/workflows.py:42-48 | the five activities that have a stage, by name |
| FilledStages.SafeNameIs | src/network_automation/api/workflows.py:356-358 | the names of unknown ones: at most 96 characters, never empty |
| FilledStages.CleanedIs | src/network_automation/api/workflows.py:356-358 | and which characters stay in them |
| FilledStages.AbsentIsFilledIn | src/network_automation/api/workflows.py:490-529 | a failing stage not recorded is put second, with the reported time and category, and the stages it kept from being reached after it |
| FilledStages.PresentIsMarked | src/network_automation/api/workflows.py:508-529 | one that is recorded stays in its place and has the reported category if it failed |
| StageFacts.HistoryConserves | src/network_automation/api/workflows.py:405-461 | over any history with distinct event IDs the open activities are those scheduled and not closed since, and nothing is shown twice or dropped |
| StageFacts.SecondGuardIsRedundant | src/network_automation/api/workflows.py:480-481 | the check for a stage already running never decides anything the first check does not |
| StageFacts.RecordedConserves | src/network_automation/api/workflows.py:393-488 | before fill-in: one workflow stage plus exactly one per scheduled activity, per unknown event and per pending-only entry |
| StageFacts.FailsExactlyWhen | src/network_automation/api/models.py:260-260 | no timeline exactly when these are more than 64 |
| StageShape.FillInKeepsOrder | src/network_automation/api/workflows.py:490-529 | filling in a failure drops and reorders nothing |
| StageShape.FillInCompletes | src/network_automation/api/workflows.py:490-521 | after it every stage from the failing one to validation is there |
| StageShape.TimelineIsWellFormed | src/network_automation/api/models.py:259-270 | at most 64 stages, numbered 1..n, attempts in 1..100, nothing running unless the execution is |
| StageShape.NothingIsLost | src/network_automation/api/workflows.py:386-542 | while 64 are enough, every recorded stage is on the timeline in the recorded order |
| Timeline.TimelineIsTrue | src/network_automation/api/workflows.py:386-542 | for every run and every history of it, the projection is the true timeline: completed, failed with the reported category, not reached, published |
| TimelineTimes.TimesAreTrue | src/network_automation/api/workflows.py:386-542 | the start and every activity are on it in order, with the times they were scheduled, started and closed, how long they took and their attempts |
| TimelineTimes.AttemptsAreTrue | src/network_automation/api/workflows.py:413-422 | the attempts shown of an activity are those the run made |
| TimelineStatus.CurrentStageIsTrue | src/network_automation/api/workflows.py:612-615 | the current stage is the failing one once its failure was published |
| TimelineStatus.CurrentIsTroubled | src/network_automation/api/workflows.py:612-615 | the current stage is the last one running, failed or unknown |
| TimelineStatus.CurrentIsLast | src/network_automation/api/workflows.py:612-615 | or, without any, the last other than the start |
| TimelineStatus.ReturnedFailureIsHidden | src/network_automation/api/workflows.py:522-529 | a validation that returned "failed" is shown as completed, and publishing as the current stage |
| TimelineStatus.TimelineIsTrueExactlyWhen | src/network_automation/workflows/render_device.py:315-337 | the timeline of a run that returned is true exactly when its validation did not return a failure |
| TimelineStatus.ReturnedFailuresExist | src/network_automation/workflows/render_device.py:315-337 | nothing in the workflow rules out a run whose validation returned a failure |
| RunningTimeline.OpenActivityRunsAlone | src/network_automation/api/workflows.py:462-488 | at a prefix with an open activity exactly that one runs, and it is last |
| RunningTimeline.BetweenActivities | src/network_automation/api/workflows.py:531-537 | with nothing open, only the closing of the workflow is shown as running, exactly while publishing is awaited |
| HistoryPrefixes.PrefixesOfRuns | src/network_automation/workflows/render_device.py:211-359 | every prefix of every history of a run, from its start on, is some closed activities and perhaps an open one |
| PendingTimeline.RunningExactlyWhen | src/network_automation/api/workflows.py:373-541 | for any pending activities, at most one stage is shown as running exactly when the open activity and the known pending ones are one activity at most |
| PendingTimeline.RunningOfRunsExactlyWhen | src/network_automation/api/workflows.py:584-620 | so at every prefix of every run's history, whenever the pending activities were described |
| PendingTimeline.AtMostOneStageRuns | src/network_automation/api/workflows.py:386-542 | at every prefix of a run's history with a consistent pending set at most one stage is running |
| PendingTimeline.StalePendingShowsTwo | src/network_automation/api/workflows.py:584-620 | pending activities described before an activity closed, and a history read after: two stages are running |
| GnmiPath.SplitPath | src/network_automation/devices/srlinux.py:378-406 | the bracket-aware scan computes the split |
| GnmiPath.SplitIsTheInverseOfJoin | src/network_automation/devices/srlinux.py:378-406 | a split is the one list of non-empty balanced pieces that joins to the path; failure means there is none |
| GnmiPath.ParseOneElement | src/network_automation/devices/srlinux.py:409-431 | the loop over an element's keys computes the element |
| GnmiPath.ParsePath | src/network_automation/devices/srlinux.py:364-375 | the whole parser, relative paths included |
| PathPrinting.ParseUndoesPrint | src/network_automation/devices/srlinux.py:364-438 | printing any element list, with any module qualifiers, and parsing it gives its local names and sorted keys; so does dropping the slash where relative paths are allowed |
| PathPrinting.ParseIsIdempotent | src/network_automation/devices/srlinux.py:364-438 | what was parsed is in normal form, and printing it parses to itself |
| PathReading.ParsesExactlyWhen | src/network_automation/devices/srlinux.py:364-438 | a text is taken for a path exactly when it is the printed form of well-formed elements, module qualifiers included, and the result is their local names and sorted keys |
| GetResponse.NormalizeGetResponse | src/network_automation/devices/srlinux.py:307-351 | the two loops with their guards and the three errors |
| GetResponse.NormalizeFindsTheLeaf | src/network_automation/devices/srlinux.py:307-351 | a value exactly when all updates are well formed with distinct paths and the requested one carries it; absence exactly when none does; errors otherwise |
| ResponsePositions.AnswersByPosition | src/network_automation/devices/srlinux.py:307-351 | over the JSON itself: which responses are taken, and that the answer is the value some position pairs with the requested path, absence when none does |
| ResponsePositions.SilentNotification | src/network_automation/devices/srlinux.py:319-326 | a notification without updates means absence |
| GetResponse.HitsAreTheMatches | src/network_automation/devices/srlinux.py:346-351 | with distinct paths at most one update matches, so the second multiple-values guard never fires |
| GetResponse.ReorderNotifications | src/network_automation/devices/srlinux.py:319-351 | the outcome is the same for any order of notifications |
| GetResponse.ReorderUpdates | src/network_automation/devices/srlinux.py:327-347 | and of the updates in one |
| Leaves.LeafPathParses | src/network_automation/devices/srlinux.py:266-304 | every path a builder makes parses to the elements it stands for |
| PathTexts.LeafPathIs | src/network_automation/devices/srlinux.py:266-304 | the texts of the nine paths, built exactly when their keys need no escaping |
| Leaves.LeafPathInjective | src/network_automation/devices/srlinux.py:266-304 | the builders are injective and pairwise disjoint |
| Leaves.CheckNameInjective | src/network_automation/devices/validation.py:70-139 | no two leaves share a check name, dots in interface names notwithstanding |
| ExpectedStates.PlanSizes | src/network_automation/events/models.py:414-431 | validation has 7 plus 5 or 3 per interface plus 2 per neighbour checks, the comparison one more per interface, and none exceeds 64 |
| ExpectedStates.AcceptedExactlyWhen | src/network_automation/events/models.py:399-431 | the expected states the model accepts: limits, distinct names and addresses, and a validation of at most 64 checks |
| ExpectedStates.ValidationIsSettingsAndStates | src/network_automation/devices/comparison.py:274-358 | the validation checks are the configuration settings and the operational states, disjointly |
| ExpectedStates.PresenceMatchesReadiness | src/network_automation/devices/comparison.py:303-341 | each address has a presence check exactly where it has a readiness check |
| CheckKeys.KeysAreUniqueExactlyWhen | src/network_automation/devices/comparison.py:157-206 | all keys are unique exactly when the loopback name is no routed name |
| Validation.ValidationPaths | src/network_automation/devices/srlinux.py:186-217 | the traversal that collects the paths yields those of the validation checks, in their order, or the first builder's error |
| Validation.ReadNativeState | src/network_automation/devices/srlinux.py:109-129 | reads the paths once each, in order, and stops at the first error |
| Validation.ValidateState | src/network_automation/devices/validation.py:63-146 | the loops over interfaces and neighbours with every check's own validators |
| ChecksMade.ValidationMakes | src/network_automation/devices/validation.py:63-146 | every check by name, path and expected value, as many as these and no name twice; passed exactly when all are |
| Validation.ReadCoversValidation | src/network_automation/devices/srlinux.py:186-217 | after a full read, validation never looks up a path that was not read |
| Validation.ConvergingNames | src/network_automation/activities/deployment.py:405-410 | a check name has a converging suffix exactly when its leaf is a state and not a setting, whatever interfaces are called |
| Validation.PermanentExactlyWhen | src/network_automation/activities/deployment.py:403-426 | passed exactly when every leaf is as expected; permanent exactly when some setting is present and differs |
| Comparison.CompareDeviceState | src/network_automation/devices/comparison.py:231-370 | the phases of the comparison: paths, values, both results |
| ChecksMade.ComparisonMakes | src/network_automation/devices/comparison.py:231-370 | every check by key, category, path, expected value, status and message, as many as these and no key twice |
| ComparisonReturns.ComparisonReturnsExactlyWhen | src/network_automation/devices/comparison.py:231-370 | it returns exactly when every path can be built, every value has its leaf's type, every key and the device name fit, and the loopback is no routed interface |
| Comparisons.CountsAddUp | src/network_automation/devices/comparison.py:185-206 | every operational check is counted exactly once |
| Comparisons.StatusesSayAll | src/network_automation/devices/comparison.py:146-206 | in sync and healthy mean that every single check agrees |
| Comparisons.UnavailableExactlyWhen | src/network_automation/devices/comparison.py:185-206 | operation is unavailable exactly when nothing was observed, degraded exactly when something was and some check disagrees |
| Agreement.ComparisonSaysAll | src/network_automation/devices/comparison.py:231-370 | the two statuses in terms of the readings of the leaves |
| Agreement.ValidationAgreesWithComparison | src/network_automation/devices/validation.py:63-146 | validation passes if and only if configuration is in sync and operation healthy |
| Agreement.PermanentMeansContradiction | src/network_automation/activities/deployment.py:403-426 | a failed validation is permanent if and only if some configuration check other than presence mismatches with something observed |
| Agreement.ValidationReturnsExactlyWhen | src/network_automation/events/models.py:467-505 | when the comparison returns, validation does exactly if every stored text is printable |
| Browser.AggregatesAgree | ui/src/api/client.ts:137-149 | the browser's and the server's aggregate health agree on valid checks |
| Browser.DetailAcceptedExactlyWhen | ui/src/api/client.ts:103-193 | a detail that satisfies the server's invariants is accepted exactly when each text of its checks is short enough in UTF-16 and not all white space to JavaScript, and each number a finite double that does not coincide with the one it differs from |
| AcceptedDetails.ValidExactlyWhenAccepted | ui/src/api/client.ts:103-193 | of any detail whose lists, texts and numbers fit both sides, valid or not, the browser accepts exactly those that satisfy the server's invariants and whose texts it can read |
| Browser.AsciiDetailIsAccepted | ui/src/api/client.ts:103-193 | so every valid detail whose checks hold ASCII and numbers below two to the 53 is accepted |
| Numbers.RoundedIsExact | ui/src/api/client.ts:22-23 | whole numbers up to two to the 53 reach the browser unchanged |
| Numbers.NeighborsCoincide | ui/src/api/client.ts:103-109 | the next one does not: two different numbers are equal there |
| Numbers.HugeIsInfinite | ui/src/api/client.ts:22-22 | large enough numbers are no numbers there |
| RefusedDetails.ComparisonRefusedExactlyWhen | ui/src/api/client.ts:103-193 | a comparison the server returns is refused by the browser exactly when some check of its plans cannot be read there |
| RefusedDetails.ValidDetailIsRefused | ui/src/api/client.ts:20-22 | an ordinary device whose host name reads as a byte-order mark: compared by the server, refused by the browser |
| RefusedDetails.HugeNumberIsRefused | ui/src/api/client.ts:22-22 | the same of a local ASN too large for a double |
| RpcErrors.SafeRpcError | src/network_automation/devices/srlinux.py:219-243 | the walk ends on every graph, cycles included, and names the first recognised exception of the chain, else the operation's own error |
| RpcErrors.ChainLoops | src/network_automation/devices/srlinux.py:222-239 | a chain that returns to an exception stays among those seen |
| RpcErrors.FirstIsUnique | src/network_automation/devices/srlinux.py:219-243 | that name is unique |
| RpcErrors.NamesExactlyWhen | src/network_automation/devices/srlinux.py:225-238 | which status codes and exceptions have which name |
| RpcErrors.CauseBeforeContext | src/network_automation/devices/srlinux.py:239-239 | an exception that says nothing is named by its cause, or else by its context |
| RpcErrors.ChainStops | src/network_automation/devices/srlinux.py:223-243 | without either the operation's own error is raised |
| Topology.CollectPhysical | src/network_automation/api/devices.py:537-571 | exactly the reciprocal pairs get a key |
| Topology.CollectOwners | src/network_automation/api/devices.py:572-575 | where each address is configured, once for each time it is |
| Topology.CollectSessions | src/network_automation/api/devices.py:576-586 | what each device's neighbours point to, over unique owners |
| Topology.CollectBgp | src/network_automation/api/devices.py:588-603 | exactly the mutual single sessions get a key |
| Topology.GetTopology | src/network_automation/api/devices.py:537-606 | all links in key order before the cut at 200, or a refusal because some link cannot be presented |
| Topology.NoneIsMissedExactlyWhen | src/network_automation/api/devices.py:537-605 | the emitted links are all the justified ones exactly when no two of those share a key |
| Topology.NoneIsMissed | src/network_automation/api/devices.py:537-605 | with names free of colons a link is emitted if and only if it is justified |
| Topology.OrderDoesNotMatter | src/network_automation/api/devices.py:537-606 | unless keys collide, any order of devices and interfaces gives the same links |
| Topology.PhysicalLinksStayInside | src/network_automation/api/devices.py:549-571 | a physical link joins two different inventory devices, and only in one direction |
| Links.LinkKeyInjective | src/network_automation/api/devices.py:566-566 | a key without colons in the names is read back to its link |
| Topology.KeysCollideWithColons | src/network_automation/api/devices.py:566-571 | three devices and two cables, with colons in interface names: only one of the two links is emitted |
| Links.SameLinks | src/network_automation/api/devices.py:537-605 | which links there are depends only on which devices and interfaces there are |
| Links.BgpLinkIsJustified | src/network_automation/api/devices.py:572-604 | each side of a BGP link has a neighbour address that belongs to the other side's interface and to no other |
| LinkPositions.PhysicalLinkExactlyWhen | src/network_automation/api/devices.py:537-571 | a physical link exists exactly when the two interfaces record each other, by positions in the inventory |
| LinkPositions.BgpLinkExactlyWhen | src/network_automation/api/devices.py:572-604 | a BGP link exists exactly when on either side one neighbour alone is an address that one interface of the other alone lists |
| LinkPositions.OwnedExactlyWhen | src/network_automation/api/devices.py:572-586 | an address has an owner exactly when it is listed once |
| LinkPositions.SessionExactlyWhen | src/network_automation/api/devices.py:576-603 | a device has one session to another exactly when one neighbour of its points there |
| LinkPositions.PresentableExactlyWhen | src/network_automation/api/devices.py:566-571 | a link can be presented exactly when its four names are ASCII, not empty and no longer than 128 |
| Rendering.NaturalComponents | src/network_automation/rendering/srlinux.py:33-37 | the loop that builds a name's components |
| Rendering.RunsRejoin | src/network_automation/rendering/srlinux.py:35-35 | splitting a name at its digit runs loses nothing |
| Rendering.RunsAlternate | src/network_automation/rendering/srlinux.py:35-36 | text and digits alternate, so a number is never compared with a text |
| Rendering.NaturalOrder | src/network_automation/rendering/srlinux.py:33-37 | natural order is a total order in which no two names tie |
| Rendering.NumbersOrderByValue | src/network_automation/rendering/srlinux.py:33-37 | names that differ first in a number are ordered by its value |
| Rendering.ValueOfDecimal | src/network_automation/rendering/srlinux.py:36-36 | a digit run counts as the number it is written for |
| Rendering.LeadingZero | src/network_automation/rendering/srlinux.py:36-36 | leading zeros do not count |
| Rendering.LowerIs | src/network_automation/rendering/srlinux.py:36-37 | upper-case letters, and nothing else, become the lower-case ones |
| Rendering.WordsOrderWithoutCase | src/network_automation/rendering/srlinux.py:33-37 | names without digits are ordered without regard to case, then by spelling |
| Rendering.TiesBreakBySpelling | src/network_automation/rendering/srlinux.py:37-37 | names with equal components are ordered by lower case, then by spelling |
| Rendering.ContextForgetsOrder | src/network_automation/rendering/srlinux.py:67-100 | any order of interfaces and neighbours gives the identical render context |
| Rendering.ContextIsTheIntent | src/network_automation/rendering/srlinux.py:67-100 | of every valid intent: the interfaces are its own, in natural order of name, the neighbours its own, in order of address, the peer groups ascend, and names, loopback and local ASN are its own |
| Rendering.PeerGroupsAreThoseUsed | src/network_automation/rendering/srlinux.py:87-90 | the peer groups are those some neighbour is in, once each |

## Left out

- Bridge.Consumer.ProcessMessage: validating a message body is a parameter (`Payload`); a process that dies half-way, or on an exception from `seek`, is covered by the protocol's restart step and not by the method.
- Bridge.Consumer.Run: the readiness and heartbeat files and the log lines.
- DeliverySafety.CommittedNeverDecreases: a commit the broker applies only after later commits of the partition; here it applies a commit at once or never.
- Artifacts.RenderingIsAccepted: that the template's output is well-formed commands is its hypothesis, since the template is not modelled.
- DeliverySafety.NothingIsSkipped: Kafka's own log retention and consumers that share a partition.
- Workflow.DeploymentRun.RunDeployment: time in the task queue, and cancellation; the render-only branch of the workflow, whose three stages add nothing harder.
- Deployments.StuckExactlyWhen: the texts of the messages; the workflow's own fixed sentences count as safe.
- Retry.ExecuteBounds: rounding of durations; how the Temporal server applies a policy is taken from what the policy's fields mean.
- Artifacts.VerifyArtifactShape: SHA-256 is a parameter, assumed free of collisions where that matters.
- ArtifactStore.Directory.WriteArtifact: creating the directory, permissions and symbolic links.
- Projection.ProjectStages: labels and failure messages, which are functions of the key and the category; floating-point rounding of durations.
- Topology.GetTopology: link IDs (truncated digests of the keys), nodes and their status, white space around names.
- Rendering.NaturalOrder: names beyond ASCII, whose digits and case folding differ.
- Rendering.ContextForgetsOrder: quoting of values and the template itself.
- Browser.DetailAcceptedExactlyWhen: the parts of a device detail other than the comparison.
- Validation.ReadNativeState: the gNMI calls, which are a parameter.
- HTTP, Kafka, gNMI and Temporal clients, settings, logging, redaction, health probes, command lines and containers.
- Reading Nautobot; a validated intent is the input.
- Summaries, correlation of payloads and the artifact envelopes of the read API, which are case analysis on values.
- React pages, components and polling.
