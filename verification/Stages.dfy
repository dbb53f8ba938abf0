/**
 The timeline of a workflow, rebuilt from its Temporal history: a fold over the events with
 book-keeping of open activities, then the pending ones, the stages a failure left out, and
 the numbering.
 */
module Stages {
  import opened Outcomes
  import opened DeploymentModels
  import OrderedMaps

  // ---------------------------------------------------------------- history and stages

  datatype CloseKind = CompletedClose | FailedClose | TimedOutClose | CanceledClose

  /** A history event; times are in microseconds, and `Other` is any event type the projection skips. */
  datatype Event =
    | WorkflowStarted(id: int, time: int)
    | Scheduled(id: int, time: int, activity: string)
    | Started(id: int, time: int, scheduledId: int, attempt: int)
    | Closed(id: int, time: int, scheduledId: int, close: CloseKind)
    | UnknownEvent(id: int, time: int, typeName: string)
    | Other(id: int, time: int)

  /** An activity the server describes as pending; the type name or the attempt may be missing. */
  datatype Pending = Pending(activity: Option<string>, attempt: Option<int>)

  datatype Key =
    | WorkflowKey | RenderKey | PrepareKey | DeployKey | ValidateKey | PublishKey | FinalizingKey
    | UnknownKey(text: string)

  datatype Status = StageCompleted | StageRunning | StageFailed | StageNotReached | StageUnknown

  datatype FailureCategory = ActivityFailed | ReportedKind(kind: Kind)

  /** Labels and failure messages, which are functions of the key and the category, are not kept. */
  datatype ExecutionStage = ExecutionStage(
    sequence: nat, key: Key, status: Status, scheduledAt: Option<int>, startedAt: Option<int>, completedAt: Option<int>,
    durationMs: Option<nat>, attempts: Option<int>, category: Option<FailureCategory>)

  /** A scheduled activity that has not closed. */
  datatype Activity = Activity(key: Key, scheduledAt: int, attempts: Option<int>, startedAt: Option<int>, known: bool)

  /** The failed deployment a workflow returned. */
  datatype FailedResult = FailedResult(stage: Stage, kind: Kind, failedAt: int)

  const MAX_STAGES := 64

  // ---------------------------------------------------------------- names

  predicate NameChar(c: char) {
    'A' <= c <= 'Z' || 'a' <= c <= 'z' || '0' <= c <= '9' || c == '_' || c == '.' || c == '-'
  }

  function Cleaned(s: string): (r: string)
    ensures |r| == |s|
  {
    if s == "" then "" else [if NameChar(s[0]) then s[0] else '_'] + Cleaned(s[1..])
  }

  function SafeActivityName(s: string): string {
    var cleaned := Cleaned(s);
    if cleaned == "" then "unknown" else if |cleaned| <= 96 then cleaned else cleaned[..96]
  }

  const PREPARE_NAME := "prepare_device_deployment"
  const RENDER_NAME := "render_device_artifact"
  const DEPLOY_NAME := "deploy_device_artifact"
  const VALIDATE_NAME := "validate_device_state"
  const PUBLISH_NAME := "publish_render_result"

  /** The stage of a known activity. */
  function KnownKey(name: string): Option<Key> {
    if name == PREPARE_NAME then Some(PrepareKey)
    else if name == RENDER_NAME then Some(RenderKey)
    else if name == DEPLOY_NAME then Some(DeployKey)
    else if name == VALIDATE_NAME then Some(ValidateKey)
    else if name == PUBLISH_NAME then Some(PublishKey)
    else None
  }

  function KeyOf(name: string): Key {
    if KnownKey(name).Some? then KnownKey(name).value else UnknownKey(SafeActivityName(name))
  }

  function StageKey(stage: Stage): Key {
    match stage
    case Prepare => PrepareKey
    case Deploy => DeployKey
    case Validate => ValidateKey
  }

  // ---------------------------------------------------------------- pending activities

  function Clamp(n: int): (r: int)
    ensures 1 <= r <= 100
  {
    if n < 1 then 1 else if n > 100 then 100 else n
  }

  type PendingMap = seq<(string, Option<int>)>

  function PendingEntry(m: PendingMap, p: Pending): PendingMap {
    if p.activity.None? then m
    else OrderedMaps.Put(m, p.activity.value, if p.attempt.Some? then Some(Clamp(p.attempt.value)) else None)
  }

  function PendingValues(pending: seq<Pending>): PendingMap {
    if pending == [] then [] else PendingEntry(PendingValues(pending[..|pending| - 1]), pending[|pending| - 1])
  }

  function PendingAttempts(m: PendingMap, activity: string): Option<int> {
    if OrderedMaps.Has(m, activity) then OrderedMaps.Get(m, activity) else None
  }

  // ---------------------------------------------------------------- the fold over the history

  /** The stages appended so far, and the activities still open by the ID of their scheduling event. */
  datatype Progress = Progress(stages: seq<ExecutionStage>, open: seq<(int, Activity)>)

  /** Stages are numbered as they are appended. */
  function Append(stages: seq<ExecutionStage>, stage: ExecutionStage): (r: seq<ExecutionStage>)
    ensures stages <= r
  {
    stages + [stage.(sequence := |stages| + 1)]
  }

  function FirstStart(events: seq<Event>): Option<int> {
    if events == [] then None
    else if events[0].WorkflowStarted? then Some(events[0].time)
    else FirstStart(events[1..])
  }

  function WorkflowStage(start: Option<int>): ExecutionStage {
    ExecutionStage(1, WorkflowKey, if start.Some? then StageCompleted else StageUnknown, None, start, None, None,
        None, None)
  }

  function ScheduledActivity(e: Event, pending: PendingMap): Activity
    requires e.Scheduled?
  {
    var name := SafeActivityName(e.activity);
    Activity(if KnownKey(name).Some? then KnownKey(name).value else UnknownKey(name), e.time,
             PendingAttempts(pending, name), None, KnownKey(name).Some?)
  }

  function StartedActivity(a: Activity, e: Event): Activity
    requires e.Started?
  {
    var before := if a.attempts.Some? && a.attempts.value != 0 then a.attempts.value else 1;
    var now := Clamp(e.attempt);
    a.(attempts := Some(if before >= now then before else now), startedAt := Some(e.time))
  }

  function Duration(start: Option<int>, end: int): Option<nat> {
    if start.None? then None else Some(if end < start.value then 0 else (end - start.value) / 1000)
  }

  function ClosedStage(a: Activity, e: Event): ExecutionStage
    requires e.Closed?
  {
    var failed := a.known && e.close != CompletedClose && e.close != CanceledClose;
    ExecutionStage(
      1, a.key, if !a.known || e.close == CanceledClose then StageUnknown
      else if e.close == CompletedClose then StageCompleted else StageFailed,
      Some(a.scheduledAt), a.startedAt, Some(e.time), Duration(a.startedAt, e.time), a.attempts,
      if failed then Some(ActivityFailed) else None)
  }

  function UnknownEventStage(e: Event): ExecutionStage
    requires e.UnknownEvent?
  {
    ExecutionStage(1, UnknownKey("event-" + SafeActivityName(e.typeName)), StageUnknown, Some(e.time), None, None,
        None, None, None)
  }

  function Observe(p: Progress, e: Event, pending: PendingMap): (r: Progress)
    ensures p.stages <= r.stages
  {
    match e
    case Scheduled(id, _, _) => p.(open := OrderedMaps.Put(p.open, id, ScheduledActivity(e, pending)))
    case Started(_, _, id, _) =>
      if OrderedMaps.Has(p.open, id)
      then p.(open := OrderedMaps.Put(p.open, id, StartedActivity(OrderedMaps.Get(p.open, id), e)))
      else p
    case Closed(_, _, id, _) =>
      if OrderedMaps.Has(p.open, id)
      then Progress(Append(p.stages, ClosedStage(OrderedMaps.Get(p.open, id), e)), OrderedMaps.Drop(p.open, id))
      else p
    case UnknownEvent(_, _, _) => p.(stages := Append(p.stages, UnknownEventStage(e)))
    case _ => p
  }

  function ObserveAll(p: Progress, events: seq<Event>, pending: PendingMap): (r: Progress)
    ensures p.stages <= r.stages
  {
    if events == [] then p
    else Observe(ObserveAll(p, events[..|events| - 1], pending), events[|events| - 1], pending)
  }

  // ---------------------------------------------------------------- what is still open or only pending

  function OpenStage(a: Activity, running: bool): ExecutionStage {
    ExecutionStage(1, a.key, if a.known && running then StageRunning else StageUnknown, Some(a.scheduledAt),
        a.startedAt, None, None, a.attempts, None)
  }

  function WithOpen(stages: seq<ExecutionStage>, open: seq<(int, Activity)>, running: bool): (r: seq<ExecutionStage>)
    ensures stages <= r
  {
    if open == [] then stages
    else Append(WithOpen(stages, open[..|open| - 1], running), OpenStage(open[|open| - 1].1, running))
  }

  predicate KeyIsOpen(open: seq<(int, Activity)>, key: Key) {
    exists i :: 0 <= i < |open| && open[i].1.key == key
  }

  predicate HasRunning(stages: seq<ExecutionStage>, key: Key) {
    exists i :: 0 <= i < |stages| && stages[i].key == key && stages[i].status == StageRunning
  }

  function PendingStage(activity: string, attempts: Option<int>, running: bool): ExecutionStage {
    ExecutionStage(
      1, KeyOf(activity), if KnownKey(activity).Some?
          && running then StageRunning else StageUnknown, None, None, None, None, attempts, None)
  }

  /** One pending activity; it is passed over when it is open, or already shown as running. */
  function AddPending(
    stages: seq<ExecutionStage>, open: seq<(int, Activity)>, entry: (string, Option<int>),
        running: bool): (r: seq<ExecutionStage>)
    ensures stages <= r
  {
    if KeyIsOpen(open, KeyOf(entry.0)) || HasRunning(stages, KeyOf(entry.0)) then stages
    else Append(stages, PendingStage(entry.0, entry.1, running))
  }

  function WithPending(
    stages: seq<ExecutionStage>, open: seq<(int, Activity)>, pending: PendingMap,
        running: bool): (r: seq<ExecutionStage>)
    ensures stages <= r
  {
    if pending == [] then stages
    else AddPending(WithPending(stages, open, pending[..|pending| - 1], running), open, pending[|pending| - 1], running)
  }

  // ---------------------------------------------------------------- what a failure leaves out

  function FirstWith(stages: seq<ExecutionStage>, key: Key): (i: nat)
    ensures i <= |stages|
    ensures i < |stages| ==> stages[i].key == key
    ensures forall j :: 0 <= j < i ==> stages[j].key != key
  {
    if stages == [] || stages[0].key == key then 0 else 1 + FirstWith(stages[1..], key)
  }

  predicate HasKey(stages: seq<ExecutionStage>, key: Key) {
    FirstWith(stages, key) < |stages|
  }

  /** The stages after the failing one and before publishing. */
  function Later(stage: Stage): seq<Key> {
    match stage
    case Prepare => [DeployKey, ValidateKey]
    case Deploy => [ValidateKey]
    case Validate => []
  }

  function Missing(keys: seq<Key>, stages: seq<ExecutionStage>): seq<ExecutionStage> {
    if keys == [] then []
    else
      (if HasKey(stages, keys[0]) then []
       else [ExecutionStage(1, keys[0], StageNotReached, None, None, None, None, None, None)])
      + Missing(keys[1..], stages)
  }

  function FailedStage(f: FailedResult): ExecutionStage {
    ExecutionStage(1, StageKey(f.stage), StageFailed, None, None, Some(f.failedAt), None, None,
        Some(ReportedKind(f.kind)))
  }

  function WithFailing(stages: seq<ExecutionStage>, f: FailedResult): seq<ExecutionStage>
    requires stages != []
  {
    if HasKey(stages, StageKey(f.stage)) then stages else stages[..1] + [FailedStage(f)] + stages[1..]
  }

  lemma FailingIsPresent(stages: seq<ExecutionStage>, f: FailedResult)
    requires stages != []
    ensures HasKey(WithFailing(stages, f), StageKey(f.stage))
  {
    if !HasKey(stages, StageKey(f.stage)) {
      assert WithFailing(stages, f)[1] == FailedStage(f);
    }
  }

  function WithMissing(stages: seq<ExecutionStage>, f: FailedResult): seq<ExecutionStage>
    requires HasKey(stages, StageKey(f.stage))
  {
    var at := FirstWith(stages, StageKey(f.stage)) + 1;
    stages[..at] + Missing(Later(f.stage), stages) + stages[at..]
  }

  function Marked(stage: ExecutionStage, f: FailedResult): ExecutionStage {
    if stage.key == StageKey(f.stage) && stage.status == StageFailed
        then stage.(category := Some(ReportedKind(f.kind))) else stage
  }

  function WithCategory(stages: seq<ExecutionStage>, f: FailedResult): (r: seq<ExecutionStage>)
    ensures |r| == |stages| && forall i :: 0 <= i < |r| ==> r[i] == Marked(stages[i], f)
  {
    if stages == [] then [] else WithCategory(stages[..|stages| - 1], f) + [Marked(stages[|stages| - 1], f)]
  }

  function FillIn(stages: seq<ExecutionStage>, result: Option<FailedResult>): seq<ExecutionStage>
    requires stages != []
  {
    if result.None? then stages
    else
      var f := result.value;
      var s := WithFailing(stages, f);
      FailingIsPresent(stages, f);
      WithCategory(WithMissing(s, f), f)
  }

  // ---------------------------------------------------------------- the end of the list

  predicate IsActive(stages: seq<ExecutionStage>) {
    exists i :: 0 <= i < |stages| && stages[i].status == StageRunning
  }

  predicate HasCompleted(stages: seq<ExecutionStage>, key: Key) {
    exists i :: 0 <= i < |stages| && stages[i].key == key && stages[i].status == StageCompleted
  }

  /** Between the last activity and the end of the workflow something still runs. */
  predicate IsFinalizing(stages: seq<ExecutionStage>, running: bool) {
    && running && !IsActive(stages) && !HasCompleted(stages, PublishKey)
    && (HasCompleted(stages, RenderKey) || HasCompleted(stages, PrepareKey) || HasCompleted(stages, DeployKey)
        || HasCompleted(stages, ValidateKey))
  }

  function WithFinalizing(stages: seq<ExecutionStage>, running: bool): seq<ExecutionStage> {
    if IsFinalizing(stages, running)
    then stages + [ExecutionStage(1, FinalizingKey, StageRunning, None, None, None, None, None, None)]
    else stages
  }

  function Renumbered(stages: seq<ExecutionStage>): (r: seq<ExecutionStage>)
    ensures |r| == |stages| && forall i :: 0 <= i < |r| ==> r[i] == stages[i].(sequence := i + 1)
  {
    if stages == [] then []
    else Renumbered(stages[..|stages| - 1]) + [stages[|stages| - 1].(sequence := |stages|)]
  }

  function FirstOf(stages: seq<ExecutionStage>, n: nat): seq<ExecutionStage> {
    if |stages| <= n then stages else stages[..n]
  }

  /** The stages of the history itself, before a failure is filled in. */
  function Recorded(events: seq<Event>, running: bool, pending: seq<Pending>): (r: seq<ExecutionStage>)
    ensures r != []
  {
    var values := PendingValues(pending);
    var p := ObserveAll(Progress([WorkflowStage(FirstStart(events))], []), events, values);
    WithPending(WithOpen(p.stages, p.open, running), p.open, values, running)
  }

  datatype Rejected = SequenceTooHigh

  /** A stage cannot be constructed with a sequence above 64, so a longer history has no timeline at all. */
  function Project(events: seq<Event>, running: bool, result: Option<FailedResult>, pending: seq<Pending>):
    Result<seq<ExecutionStage>, Rejected>
  {
    var recorded := Recorded(events, running, pending);
    if |recorded| > MAX_STAGES then Err(SequenceTooHigh)
    else Ok(Renumbered(FirstOf(WithFinalizing(FillIn(recorded, result), running), MAX_STAGES)))
  }
}
