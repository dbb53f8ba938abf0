/**
 The projection held against the workflow: the history of a deployment run, whatever other
 events it is mixed with, projects to the run's true timeline.
 */
module Timeline {
  import opened Outcomes
  import opened DeploymentModels
  import opened Stages
  import opened StageFacts
  import opened Plans
  import OrderedMaps
  import Retry
  import Workflow
  import Deployments

  // ---------------------------------------------------------------- the history of a run

  /** How the history records one activity: scheduled, started (unless it never was) and closed. */
  datatype Record = Record(
    name: string, close: CloseKind, attempts: nat,
    id: int, scheduledAt: int, started: Option<(int, int)>, closeId: int, closedAt: int)

  function Opening(r: Record): seq<Event> {
    [Scheduled(r.id, r.scheduledAt, r.name)]
    + (if r.started.Some? then [Started(r.started.value.0, r.started.value.1, r.id, r.attempts)] else [])
  }

  function EventsOf(r: Record): seq<Event> {
    Opening(r) + [Closed(r.closeId, r.closedAt, r.id, r.close)]
  }

  /** The events the projection looks at. */
  function Significant(events: seq<Event>): seq<Event> {
    if events == [] then []
    else
      Significant(events[..|events| - 1])
      + (if events[|events| - 1].Other? then [] else [events[|events| - 1]])
  }

  predicate KnownNames(records: seq<Record>) {
    forall r :: r in records ==> KnownKey(r.name).Some?
  }

  /** The workflow started, and then these activities, each closed before the next was scheduled. */
  predicate HistoryOf(events: seq<Event>, started: Event, records: seq<Record>) {
    started.WorkflowStarted? && Significant(events) == [started] + FlatMap(records, EventsOf)
  }

  // ---------------------------------------------------------------- what a stage shows

  datatype Shown = Shown(key: Key, status: Status, category: Option<FailureCategory>)

  function Show(s: ExecutionStage): Shown {
    Shown(s.key, s.status, s.category)
  }

  function Shows(stages: seq<ExecutionStage>): seq<Shown> {
    Map(stages, Show)
  }

  function ShowRecord(r: Record): Shown
  {
    Shown(
      KeyOf(r.name),
      match r.close
      case CompletedClose => StageCompleted
      case CanceledClose => StageUnknown
      case _ => StageFailed,
      if r.close.FailedClose? || r.close.TimedOutClose? then Some(ActivityFailed) else None)
  }

  const STARTED := Shown(WorkflowKey, StageCompleted, None)

  // ---------------------------------------------------------------- names are their own safe names

  predicate Fine(s: string) {
    forall k :: 0 <= k < |s| ==> NameChar(s[k])
  }

  lemma {:induction false} CleaningFine(s: string)
    requires Fine(s)
    ensures Cleaned(s) == s
  {
    if s != "" {
      CleaningFine(s[1..]);
    }
  }

  lemma PrepareNameIsFine()
    ensures Fine(PREPARE_NAME) && |PREPARE_NAME| <= 96
  {
  }

  lemma RenderNameIsFine()
    ensures Fine(RENDER_NAME) && |RENDER_NAME| <= 96
  {
  }

  lemma DeployNameIsFine()
    ensures Fine(DEPLOY_NAME) && |DEPLOY_NAME| <= 96
  {
  }

  lemma ValidateNameIsFine()
    ensures Fine(VALIDATE_NAME) && |VALIDATE_NAME| <= 96
  {
  }

  lemma PublishNameIsFine()
    ensures Fine(PUBLISH_NAME) && |PUBLISH_NAME| <= 96
  {
  }

  lemma KnownNamesAreSafe(name: string)
    requires KnownKey(name).Some?
    ensures SafeActivityName(name) == name
  {
    PrepareNameIsFine();
    RenderNameIsFine();
    DeployNameIsFine();
    ValidateNameIsFine();
    PublishNameIsFine();
    hide Fine, NameChar;
    CleaningFine(name);
  }

  // ---------------------------------------------------------------- the fold over a run's history

  lemma {:induction false} OthersDoNotMatter(p: Progress, events: seq<Event>, pending: PendingMap)
    ensures ObserveAll(p, events, pending) == ObserveAll(p, Significant(events), pending)
  {
    if events != [] {
      var init, last := events[..|events| - 1], events[|events| - 1];
      OthersDoNotMatter(p, init, pending);
      if last.Other? {
        assert Significant(events) == Significant(init);
      } else {
        assert Significant(events)[..|Significant(events)| - 1] == Significant(init);
      }
    }
  }

  lemma {:induction false} StartAmongSignificant(events: seq<Event>)
    ensures FirstStart(Significant(events)) == FirstStart(events)
  {
    if events != [] {
      var init, last := events[..|events| - 1], events[|events| - 1];
      StartAmongSignificant(init);
      assert events == init + [last];
      FirstStartConcat(init, [last]);
      FirstStartConcat(Significant(init), if last.Other? then [] else [last]);
    }
  }

  lemma {:induction false} FirstStartConcat(a: seq<Event>, b: seq<Event>)
    ensures FirstStart(a + b) == if FirstStart(a).Some? then FirstStart(a) else FirstStart(b)
  {
    if a == [] {
      assert a + b == b;
    } else {
      assert (a + b)[1..] == a[1..] + b;
      FirstStartConcat(a[1..], b);
    }
  }

  lemma {:induction false} ObserveConcat(p: Progress, a: seq<Event>, b: seq<Event>, pending: PendingMap)
    ensures ObserveAll(p, a + b, pending) == ObserveAll(ObserveAll(p, a, pending), b, pending)
  {
    if b == [] {
      assert a + b == a;
    } else {
      assert (a + b)[..|a + b| - 1] == a + b[..|b| - 1];
      ObserveConcat(p, a, b[..|b| - 1], pending);
    }
  }

  lemma ObserveOne(p: Progress, e: Event, pending: PendingMap)
    ensures ObserveAll(p, [e], pending) == Observe(p, e, pending)
  {
    assert [e][..0] == [];
  }

  /** Scheduling and starting an activity, when none is open. */
  lemma OpeningOpens(stages: seq<ExecutionStage>, r: Record, pending: PendingMap)
    requires KnownKey(r.name).Some?
    ensures var p := ObserveAll(Progress(stages, []), Opening(r), pending);
            && p.stages == stages && |p.open| == 1 && p.open[0].0 == r.id
            && p.open[0].1.key == KeyOf(r.name) && p.open[0].1.known
  {
    KnownNamesAreSafe(r.name);
    hide SafeActivityName, PendingAttempts, KnownKey;
    var scheduled := Scheduled(r.id, r.scheduledAt, r.name);
    var p := Observe(Progress(stages, []), scheduled, pending);
    ObserveOne(Progress(stages, []), scheduled, pending);
    if r.started.Some? {
      var started := Started(r.started.value.0, r.started.value.1, r.id, r.attempts);
      ObserveConcat(Progress(stages, []), [scheduled], [started], pending);
      ObserveOne(p, started, pending);
      assert p.open == [(r.id, ScheduledActivity(scheduled, pending))];
    } else {
      assert Opening(r) == [scheduled];
    }
  }

  lemma RecordAppends(stages: seq<ExecutionStage>, r: Record, pending: PendingMap)
    requires KnownKey(r.name).Some?
    ensures var p := ObserveAll(Progress(stages, []), EventsOf(r), pending);
            && p.open == [] && Shows(p.stages) == Shows(stages) + [ShowRecord(r)]
  {
    hide Opening, KeyOf;
    var closed := Closed(r.closeId, r.closedAt, r.id, r.close);
    OpeningOpens(stages, r, pending);
    var p := ObserveAll(Progress(stages, []), Opening(r), pending);
    ObserveConcat(Progress(stages, []), Opening(r), [closed], pending);
    ObserveOne(p, closed, pending);
    var stage := ClosedStage(p.open[0].1, closed);
    assert OrderedMaps.Drop(p.open, r.id) == [];
    MapConcat(stages, [stage.(sequence := |stages| + 1)], Show);
  }

  lemma {:induction false} RecordsAppend(stages: seq<ExecutionStage>, records: seq<Record>, pending: PendingMap)
    requires KnownNames(records)
    ensures var p := ObserveAll(Progress(stages, []), FlatMap(records, EventsOf), pending);
            && p.open == [] && Shows(p.stages) == Shows(stages) + Map(records, ShowRecord)
    decreases |records|
  {
    if records != [] {
      var r, rest := records[0], records[1..];
      assert KnownKey(r.name).Some? && KnownNames(rest);
      FirstAndRest(Shows(stages), records);
      hide *;
      RecordAppends(stages, r, pending);
      var p := ObserveAll(Progress(stages, []), EventsOf(r), pending);
      ObserveConcat(Progress(stages, []), EventsOf(r), FlatMap(rest, EventsOf), pending);
      RecordsAppend(p.stages, rest, pending);
    } else {
      assert Shows(stages) + [] == Shows(stages);
    }
  }

  lemma FirstAndRest(before: seq<Shown>, records: seq<Record>)
    requires records != []
    ensures FlatMap(records, EventsOf) == EventsOf(records[0]) + FlatMap(records[1..], EventsOf)
    ensures before + [ShowRecord(records[0])] + Map(records[1..], ShowRecord) == before + Map(records, ShowRecord)
  {
    hide EventsOf, ShowRecord;
  }

  /** The history of a run that has ended, or that waits between two activities. */
  lemma ClosedHistoryShows(events: seq<Event>, started: Event, records: seq<Record>, running: bool)
    requires HistoryOf(events, started, records) && KnownNames(records)
    ensures Shows(Recorded(events, running, [])) == [STARTED] + Map(records, ShowRecord)
  {
    hide EventsOf, ShowRecord, KnownNames;
    var begin := Progress([WorkflowStage(FirstStart(events))], []);
    OthersDoNotMatter(begin, events, []);
    StartAmongSignificant(events);
    FirstStartConcat([started], FlatMap(records, EventsOf));
    assert FirstStart([started]) == Some(started.time);
    ObserveConcat(begin, [started], FlatMap(records, EventsOf), []);
    ObserveOne(begin, started, []);
    RecordsAppend(begin.stages, records, []);
    assert Shows(begin.stages) == [STARTED];
  }

  // ---------------------------------------------------------------- filling in the failure of a run

  function NotReachedStages(keys: seq<Key>): (r: seq<Shown>)
    ensures |r| == |keys|
  {
    if keys == [] then [] else [Shown(keys[0], StageNotReached, None)] + NotReachedStages(keys[1..])
  }

  lemma {:induction false} NothingReached(keys: seq<Key>, stages: seq<ExecutionStage>)
    requires forall k, i :: k in keys && 0 <= i < |stages| ==> stages[i].key != k
    ensures Shows(Missing(keys, stages)) == NotReachedStages(keys)
    ensures forall i :: 0 <= i < |Missing(keys, stages)| ==> Missing(keys, stages)[i].status == StageNotReached
  {
    if keys != [] {
      assert keys[0] in keys && !HasKey(stages, keys[0]);
      assert forall k :: k in keys[1..] ==> k in keys;
      NothingReached(keys[1..], stages);
    }
  }

  lemma FirstIsOnly(stages: seq<ExecutionStage>, key: Key, at: nat)
    requires at < |stages| && stages[at].key == key && forall i :: 0 <= i < |stages| && i != at ==> stages[i].key != key
    ensures FirstWith(stages, key) == at && HasKey(stages, key)
  {
  }

  /** The failed stage is marked with what the result reported, and the stages after it follow as not reached. */
  lemma FillInShows(stages: seq<ExecutionStage>, f: FailedResult, at: nat)
    requires 0 < at < |stages| && stages[at].key == StageKey(f.stage) && stages[at].status == StageFailed
    requires forall i :: 0 <= i < |stages| && i != at ==> stages[i].key != StageKey(f.stage)
    requires forall k, i :: k in Later(f.stage) && 0 <= i < |stages| ==> stages[i].key != k
    ensures Shows(FillIn(stages, Some(f)))
            == Shows(stages[..at]) + [Shown(StageKey(f.stage), StageFailed, Some(ReportedKind(f.kind)))]
               + NotReachedStages(Later(f.stage)) + Shows(stages[at + 1..])
  {
    hide FirstWith, HasKey, Missing, StageKey, Later, WithCategory, Shows, NotReachedStages;
    NothingReached(Later(f.stage), stages);
    FirstIsOnly(stages, StageKey(f.stage), at);
    MarkedShows(stages, Missing(Later(f.stage), stages), f, at);
  }

  lemma MarkedShows(stages: seq<ExecutionStage>, missing: seq<ExecutionStage>, f: FailedResult, at: nat)
    requires at < |stages| && stages[at].key == StageKey(f.stage) && stages[at].status == StageFailed
    requires forall i :: 0 <= i < |stages| && i != at ==> stages[i].key != StageKey(f.stage)
    requires forall i :: 0 <= i < |missing| ==> missing[i].status == StageNotReached
    ensures Shows(WithCategory(stages[..at + 1] + missing + stages[at + 1..], f))
            == Shows(stages[..at]) + [Shown(StageKey(f.stage), StageFailed, Some(ReportedKind(f.kind)))]
               + Shows(missing) + Shows(stages[at + 1..])
  {
    hide StageKey;
  }

  // ---------------------------------------------------------------- the run's own timeline

  function CloseOf<T>(r: Result<T, Retry.Failure>): CloseKind {
    if r.Ok? then CompletedClose else if r.error.TimedOut? then TimedOutClose else FailedClose
  }

  /** The activities of a run, with how each closed and after how many attempts. */
  function Activities(request: DeployRequest, world: Workflow.World): seq<(string, CloseKind, nat)> {
    var prepared, deployed, validated, published :=
      Workflow.Prepares(world), Workflow.Deploys(world), Workflow.Validates(world), Workflow.Publishes(world);
    [(PREPARE_NAME, CloseOf(prepared.result), |prepared.outcomes|)]
    + (if prepared.result.Ok? then [(DEPLOY_NAME, CloseOf(deployed.result), |deployed.outcomes|)] else [])
    + (if prepared.result.Ok? && deployed.result.Ok?
       then [(VALIDATE_NAME, CloseOf(validated.result), |validated.outcomes|)] else [])
    + (if Workflow.Deployed(request, world).ending.Stuck?
       then [] else [(PUBLISH_NAME, CloseOf(published.result), |published.outcomes|)])
  }

  predicate RecordsRun(records: seq<Record>, request: DeployRequest, world: Workflow.World) {
    var activities := Activities(request, world);
    && |records| == |activities|
    && forall i :: 0 <= i < |records| ==> (records[i].name, records[i].close, records[i].attempts) == activities[i]
  }

  /** The validate activity, where the run gets to it, raises instead of returning a result that did not pass. */
  predicate RaisingValidation(world: Workflow.World) {
    Workflow.Prepares(world).result.Ok? && Workflow.Deploys(world).result.Ok?
        && Workflow.Validates(world).result.Ok? ==>
      Workflow.Validates(world).result.value
  }

  /** The failed deployment the workflow's result holds; a run that did not return has no result. */
  function ResultOf(ending: Workflow.Ending): Option<FailedResult> {
    if ending.Returned? && ending.outcome.Failed?
    then Some(FailedResult(ending.outcome.stage, ending.outcome.kind, ending.outcome.failedAt))
    else None
  }

  function StagesBefore(stage: Option<Stage>): seq<Shown> {
    match stage
    case None =>
      [STARTED, Shown(PrepareKey, StageCompleted, None), Shown(DeployKey, StageCompleted, None), Shown(ValidateKey,
          StageCompleted, None)]
    case Some(Prepare) => [STARTED]
    case Some(Deploy) => [STARTED, Shown(PrepareKey, StageCompleted, None)]
    case Some(Validate) => [STARTED, Shown(PrepareKey, StageCompleted, None), Shown(DeployKey, StageCompleted, None)]
  }

  /**
   What really happened: the stages before the failing one completed, that one failed with the
   reported category, the later ones were not reached, and then the outcome was published. A
   run that returned nothing reports no category and leaves nothing to fill in.
   */
  function TrueTimeline(world: Workflow.World, ending: Workflow.Ending): seq<Shown> {
    var failing := Deployments.FailingStage(world);
    StagesBefore(failing)
    + (if failing.None? then []
       else if ending.Returned? && ending.outcome.Failed?
       then [Shown(StageKey(failing.value), StageFailed, Some(ReportedKind(ending.outcome.kind)))]
            + NotReachedStages(Later(failing.value))
       else [Shown(StageKey(failing.value), StageFailed, Some(ActivityFailed))])
    + (match ending
       case Returned(_) => [Shown(PublishKey, StageCompleted, None)]
       case PublishFailed(_) => [Shown(PublishKey, StageFailed, Some(ActivityFailed))]
       case Stuck => [])
  }

  lemma PrepareIsKnown()
    ensures KnownKey(PREPARE_NAME) == Some(PrepareKey)
  {
  }

  lemma DeployIsKnown()
    ensures KnownKey(DEPLOY_NAME) == Some(DeployKey)
  {
    assert DEPLOY_NAME[0] != PREPARE_NAME[0] && DEPLOY_NAME[0] != RENDER_NAME[0];
  }

  lemma ValidateIsKnown()
    ensures KnownKey(VALIDATE_NAME) == Some(ValidateKey)
  {
    assert VALIDATE_NAME[0] != PREPARE_NAME[0] && VALIDATE_NAME[0] != RENDER_NAME[0]
        && VALIDATE_NAME[0] != DEPLOY_NAME[0];
  }

  lemma PublishIsKnown()
    ensures KnownKey(PUBLISH_NAME) == Some(PublishKey)
  {
    assert PUBLISH_NAME[1] != PREPARE_NAME[1] && PUBLISH_NAME[0] != RENDER_NAME[0] && PUBLISH_NAME[0] != DEPLOY_NAME[0]
        && PUBLISH_NAME[0] != VALIDATE_NAME[0];
  }

  lemma KnownActivities()
    ensures KnownKey(PREPARE_NAME) == Some(PrepareKey) && KnownKey(DEPLOY_NAME) == Some(DeployKey)
    ensures KnownKey(VALIDATE_NAME) == Some(ValidateKey) && KnownKey(PUBLISH_NAME) == Some(PublishKey)
  {
    hide KnownKey;
    PrepareIsKnown();
    DeployIsKnown();
    ValidateIsKnown();
    PublishIsKnown();
  }

  /** What the history of the run shows before a failure is filled in. */
  function RunShows(request: DeployRequest, world: Workflow.World): seq<Shown> {
    var failing := Deployments.FailingStage(world);
    StagesBefore(failing)
    + (if failing.None? then [] else [Shown(StageKey(failing.value), StageFailed, Some(ActivityFailed))])
    + (match Workflow.Deployed(request, world).ending
       case Returned(_) => [Shown(PublishKey, StageCompleted, None)]
       case PublishFailed(_) => [Shown(PublishKey, StageFailed, Some(ActivityFailed))]
       case Stuck => [])
  }

  /** What a list of closed activities shows. */
  function ShowActivity(a: (string, CloseKind, nat)): Shown {
    Shown(
      KeyOf(a.0), if a.1.CompletedClose? then StageCompleted else if a.1.CanceledClose? then StageUnknown
          else StageFailed,
      if a.1.FailedClose? || a.1.TimedOutClose? then Some(ActivityFailed) else None)
  }

  lemma RecordsShowActivities(records: seq<Record>, request: DeployRequest, world: Workflow.World)
    requires RecordsRun(records, request, world)
    ensures Map(records, ShowRecord) == Map(Activities(request, world), ShowActivity)
  {
    hide Activities, KeyOf;
    var activities := Activities(request, world);
    forall i | 0 <= i < |records| ensures ShowRecord(records[i]) == ShowActivity(activities[i]) {
      assert (records[i].name, records[i].close, records[i].attempts) == activities[i];
    }
  }

  lemma ActivitiesAreKnown(records: seq<Record>, request: DeployRequest, world: Workflow.World)
    requires RecordsRun(records, request, world)
    ensures KnownNames(records)
  {
    KnownActivities();
    hide Workflow.Prepares, Workflow.Deploys, Workflow.Validates, Workflow.Publishes, Workflow.Deployed, KnownKey;
    var activities := Activities(request, world);
    forall i | 0 <= i < |records| ensures KnownKey(records[i].name).Some? {
      assert (records[i].name, records[i].close, records[i].attempts) == activities[i];
    }
  }

  lemma ActivitiesShow(request: DeployRequest, world: Workflow.World)
    requires RaisingValidation(world)
    ensures [STARTED] + Map(Activities(request, world), ShowActivity) == RunShows(request, world)
  {
    KnownActivities();
    PublishingEnds(request, world);
    hide Workflow.Prepares, Workflow.Deploys, Workflow.Validates, Workflow.Publishes, Workflow.Deployed, KnownKey, Map;
    var activities := Activities(request, world);
    ShowFour(activities);
  }

  lemma ShowFour(a: seq<(string, CloseKind, nat)>)
    requires |a| <= 4
    ensures |a| == 1 ==> Map(a, ShowActivity) == [ShowActivity(a[0])]
    ensures |a| == 2 ==> Map(a, ShowActivity) == [ShowActivity(a[0]), ShowActivity(a[1])]
    ensures |a| == 3 ==> Map(a, ShowActivity) == [ShowActivity(a[0]), ShowActivity(a[1]), ShowActivity(a[2])]
    ensures |a| == 4 ==> Map(a, ShowActivity) == [ShowActivity(a[0]), ShowActivity(a[1]), ShowActivity(a[2]),
            ShowActivity(a[3])]
  {
    hide ShowActivity;
  }

  lemma PublishingEnds(request: DeployRequest, world: Workflow.World)
    ensures var ending := Workflow.Deployed(request, world).ending;
            && (ending.Returned? ==> Workflow.Publishes(world).result.Ok?)
            && (ending.PublishFailed? ==> Workflow.Publishes(world).result.Err?)
  {
    hide Workflow.Publishes, Workflow.Arrived, Workflow.Worked, Workflow.WorkedFor, ValidOutcome;
  }

  lemma {:induction false} SameShows(a: seq<ExecutionStage>, b: seq<ExecutionStage>)
    requires |a| == |b| && forall i :: 0 <= i < |a| ==> Show(a[i]) == Show(b[i])
    ensures Shows(a) == Shows(b)
  {
    hide Show;
  }

  lemma NumberingShows(stages: seq<ExecutionStage>)
    requires |stages| <= 64
    ensures Shows(Renumbered(FirstOf(stages, MAX_STAGES))) == Shows(stages)
  {
    SameShows(Renumbered(stages), stages);
  }

  /** The stages of a run that failed at `stage`, as its history shows them. */
  function FailedRunShows(stage: Stage): seq<Shown> {
    StagesBefore(Some(stage)) + [Shown(StageKey(stage), StageFailed, Some(ActivityFailed))] + [Shown(PublishKey,
        StageCompleted, None)]
  }

  lemma FailedRunKeys(stage: Stage, i: nat)
    requires i < |FailedRunShows(stage)|
    ensures FailedRunShows(stage)[i].key == StageKey(stage) <==> i == |StagesBefore(Some(stage))|
    ensures FailedRunShows(stage)[i].key !in Later(stage)
  {
  }

  lemma SplitFailedRun(recorded: seq<ExecutionStage>, stage: Stage)
    requires Shows(recorded) == FailedRunShows(stage)
    ensures var at := |StagesBefore(Some(stage))|;
            && 0 < at < |recorded| && Shows(recorded[..at]) == StagesBefore(Some(stage))
            && Shows(recorded[at + 1..]) == [Shown(PublishKey, StageCompleted, None)]
  {
    hide Shows;
    assert |StagesBefore(Some(stage))| > 0;
    hide StagesBefore;
    ShowsPointwise(recorded, FailedRunShows(stage));
    ShowsSplit(recorded, |StagesBefore(Some(stage))|);
  }

  lemma FailedRunIsFillable(recorded: seq<ExecutionStage>, stage: Stage)
    requires Shows(recorded) == FailedRunShows(stage)
    ensures var at := |StagesBefore(Some(stage))|;
            && at < |recorded| && recorded[at].key == StageKey(stage) && recorded[at].status == StageFailed
            && (forall i :: 0 <= i < |recorded| && i != at ==> recorded[i].key != StageKey(stage))
            && (forall k, i :: k in Later(stage) && 0 <= i < |recorded| ==> recorded[i].key != k)
  {
    var at := |StagesBefore(Some(stage))|;
    ShowsPointwise(recorded, FailedRunShows(stage));
    hide Shows, StagesBefore, StageKey, Later;
    forall i | 0 <= i < |recorded|
      ensures recorded[i].key == StageKey(stage) <==> i == at
      ensures recorded[i].key !in Later(stage)
    {
      FailedRunKeys(stage, i);
    }
  }

  /** What a failed run's timeline becomes. */
  function ReportedRunShows(f: FailedResult): seq<Shown> {
    StagesBefore(Some(f.stage)) + [Shown(StageKey(f.stage), StageFailed, Some(ReportedKind(f.kind)))]
    + NotReachedStages(Later(f.stage)) + [Shown(PublishKey, StageCompleted, None)]
  }

  lemma FillInFailedRun(recorded: seq<ExecutionStage>, f: FailedResult)
    requires Shows(recorded) == FailedRunShows(f.stage)
    ensures recorded != [] && Shows(FillIn(recorded, Some(f))) == ReportedRunShows(f)
  {
    SplitFailedRun(recorded, f.stage);
    FailedRunIsFillable(recorded, f.stage);
    hide FillIn, Shows, StagesBefore, StageKey, Later, FailedRunShows;
    FillInShows(recorded, f, |StagesBefore(Some(f.stage))|);
  }

  lemma ReportedRunIsTrue(request: DeployRequest, world: Workflow.World)
    requires ResultOf(Workflow.Deployed(request, world).ending).Some?
    ensures var ending := Workflow.Deployed(request, world).ending;
            && RunShows(request, world) == FailedRunShows(ending.outcome.stage)
            && TrueTimeline(world, ending) == ReportedRunShows(ResultOf(ending).value)
  {
    Deployments.OutcomeTellsWhatHappened(request, world);
    hide Workflow.Deployed, Deployments.FailingStage, StagesBefore, StageKey, Later, NotReachedStages;
    var s := Workflow.Deployed(request, world).ending.outcome.stage;
    assert StagesBefore(Some(s)) + [Shown(StageKey(s), StageFailed, Some(ActivityFailed))] +
           [Shown(PublishKey, StageCompleted, None)] == FailedRunShows(s);
    Associate(StagesBefore(Some(s)),
              [Shown(StageKey(s), StageFailed, Some(ReportedKind(Workflow.Deployed(request,
                  world).ending.outcome.kind)))],
              NotReachedStages(Later(s)));
  }

  lemma Associate(a: seq<Shown>, b: seq<Shown>, c: seq<Shown>)
    ensures a + (b + c) == a + b + c
  {
  }

  /** The fill-in turns what the history shows into what happened. */
  lemma FillInTellsTheTruth(recorded: seq<ExecutionStage>, request: DeployRequest, world: Workflow.World)
    requires var ending := Workflow.Deployed(request, world).ending;
             recorded != [] && Shows(recorded) == RunShows(request, world) && ResultOf(ending).Some?
    ensures var ending := Workflow.Deployed(request, world).ending;
            Shows(FillIn(recorded, ResultOf(ending))) == TrueTimeline(world, ending)
  {
    ReportedRunIsTrue(request, world);
    hide Workflow.Deployed, FillIn, Shows, RunShows, TrueTimeline, FailedRunShows, ReportedRunShows;
    FillInFailedRun(recorded, ResultOf(Workflow.Deployed(request, world).ending).value);
  }

  lemma ShowsPointwise(stages: seq<ExecutionStage>, shown: seq<Shown>)
    requires Shows(stages) == shown
    ensures |stages| == |shown| && forall i :: 0 <= i < |stages| ==>
            stages[i].key == shown[i].key && stages[i].status == shown[i].status
  {
  }

  lemma ShowsSplit(stages: seq<ExecutionStage>, at: nat)
    requires at < |stages|
    ensures Shows(stages[..at]) == Shows(stages)[..at] && Shows(stages[at + 1..]) == Shows(stages)[at + 1..]
  {
  }

  /** The timeline has room for every run. */
  lemma TrueTimelineIsShort(world: Workflow.World, ending: Workflow.Ending)
    ensures 1 <= |TrueTimeline(world, ending)| <= 6
  {
    hide Deployments.FailingStage;
  }

  /**
   For every run the workflow can produce, with a validate activity that raises, the
   projection of its history is its true timeline, whatever other events the history holds.
   */
  lemma TimelineIsTrue(
    events: seq<Event>, started: Event, records: seq<Record>, request: DeployRequest, world: Workflow.World)
    requires HistoryOf(events, started, records) && RecordsRun(records, request, world) && RaisingValidation(world)
    ensures var ending := Workflow.Deployed(request, world).ending;
            var timeline := Project(events, false, ResultOf(ending), []);
            timeline.Ok? && Shows(timeline.value) == TrueTimeline(world, ending)
  {
    var ending := Workflow.Deployed(request, world).ending;
    var recorded := Recorded(events, false, []);
    ActivitiesAreKnown(records, request, world);
    ClosedHistoryShows(events, started, records, false);
    RecordsShowActivities(records, request, world);
    ActivitiesShow(request, world);
    assert Shows(recorded) == RunShows(request, world);
    var filled := FillIn(recorded, ResultOf(ending));
    if ResultOf(ending).Some? {
      FillInTellsTheTruth(recorded, request, world);
    } else {
      NothingReported(request, world);
    }
    hide Recorded, RunShows, TrueTimeline, FillIn, IsFinalizing, Workflow.Deployed, ResultOf;
    assert Shows(filled) == TrueTimeline(world, ending);
    TrueTimelineIsShort(world, ending);
    RunShowsIsShort(request, world);
    NumberingShows(filled);
  }

  lemma NothingReported(request: DeployRequest, world: Workflow.World)
    requires ResultOf(Workflow.Deployed(request, world).ending).None?
    ensures RunShows(request, world) == TrueTimeline(world, Workflow.Deployed(request, world).ending)
  {
    if !Workflow.Deployed(request, world).ending.Stuck? {
      Deployments.OutcomeTellsWhatHappened(request, world);
    }
    hide Workflow.Deployed, Deployments.FailingStage;
  }

  lemma RunShowsIsShort(request: DeployRequest, world: Workflow.World)
    ensures 1 <= |RunShows(request, world)| <= 5
  {
    hide Deployments.FailingStage, Workflow.Deployed;
  }
}
