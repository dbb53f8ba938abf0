/** When the stages of a run were scheduled, started and closed, and after how many attempts. */
module TimelineTimes {
  import opened Outcomes
  import opened DeploymentModels
  import opened Stages
  import opened StageShape
  import opened Timeline
  import opened Plans
  import OrderedMaps
  import HistoryPrefixes
  import Deployments
  import Workflow

  /** The stage a closed activity should appear as, its number and failure category aside. */
  function RecordStage(r: Record): ExecutionStage {
    var started := if r.started.Some? then Some(r.started.value.1) else None;
    ExecutionStage(
      0, KeyOf(r.name), ShowRecord(r).status, Some(r.scheduledAt), started, Some(r.closedAt),
      Duration(started, r.closedAt), if r.started.Some? then Some(Clamp(r.attempts)) else None, None)
  }

  function StartStage(started: Event): ExecutionStage
    requires started.WorkflowStarted?
  {
    ExecutionStage(0, WorkflowKey, StageCompleted, None, Some(started.time), None, None, None, None)
  }

  /** The activity as it is open once it has been scheduled and, perhaps, started. */
  function OpenActivity(r: Record): Activity {
    Activity(
      KeyOf(r.name), r.scheduledAt, if r.started.Some? then Some(Clamp(r.attempts)) else None,
      if r.started.Some? then Some(r.started.value.1) else None, true)
  }

  lemma OpeningOpensExactly(stages: seq<ExecutionStage>, r: Record)
    requires KnownKey(r.name).Some?
    ensures ObserveAll(Progress(stages, []), Opening(r), []) == Progress(stages, [(r.id, OpenActivity(r))])
  {
    KnownNamesAreSafe(r.name);
    hide SafeActivityName, KnownKey;
    var scheduled := Scheduled(r.id, r.scheduledAt, r.name);
    var p := Observe(Progress(stages, []), scheduled, []);
    ObserveOne(Progress(stages, []), scheduled, []);
    assert PendingAttempts([], r.name) == None;
    if r.started.Some? {
      var started := Started(r.started.value.0, r.started.value.1, r.id, r.attempts);
      ObserveConcat(Progress(stages, []), [scheduled], [started], []);
      ObserveOne(p, started, []);
      assert p.open == [(r.id, ScheduledActivity(scheduled, []))];
    } else {
      assert Opening(r) == [scheduled];
    }
  }

  lemma ClosingKeepsTimes(r: Record)
    ensures Core(ClosedStage(OpenActivity(r), Closed(r.closeId, r.closedAt, r.id, r.close))) == RecordStage(r)
  {
    hide KeyOf, Clamp;
  }

  lemma RecordKeepsTimes(stages: seq<ExecutionStage>, r: Record)
    requires KnownKey(r.name).Some?
    ensures var p := ObserveAll(Progress(stages, []), EventsOf(r), []);
            p.open == [] && Cores(p.stages) == Cores(stages) + [RecordStage(r)]
  {
    OpeningOpensExactly(stages, r);
    ClosingKeepsTimes(r);
    hide Opening, KeyOf, OpenActivity, RecordStage, ClosedStage, KnownKey;
    var closed := Closed(r.closeId, r.closedAt, r.id, r.close);
    var p := ObserveAll(Progress(stages, []), Opening(r), []);
    ObserveConcat(Progress(stages, []), Opening(r), [closed], []);
    ObserveOne(p, closed, []);
    var stage := ClosedStage(OpenActivity(r), closed);
    assert OrderedMaps.Drop(p.open, r.id) == [];
    MapConcat(stages, [stage.(sequence := |stages| + 1)], Core);
  }

  lemma {:induction false} RecordsKeepTimes(stages: seq<ExecutionStage>, records: seq<Record>)
    requires KnownNames(records)
    ensures var p := ObserveAll(Progress(stages, []), FlatMap(records, EventsOf), []);
            p.open == [] && Cores(p.stages) == Cores(stages) + Map(records, RecordStage)
    decreases |records|
  {
    if records != [] {
      var r, rest := records[0], records[1..];
      assert KnownKey(r.name).Some? && KnownNames(rest);
      FirstStage(Cores(stages), records);
      hide *;
      RecordKeepsTimes(stages, r);
      var p := ObserveAll(Progress(stages, []), EventsOf(r), []);
      ObserveConcat(Progress(stages, []), EventsOf(r), FlatMap(rest, EventsOf), []);
      RecordsKeepTimes(p.stages, rest);
    } else {
      assert Cores(stages) + [] == Cores(stages);
    }
  }

  lemma FirstStage(before: seq<ExecutionStage>, records: seq<Record>)
    requires records != []
    ensures FlatMap(records, EventsOf) == EventsOf(records[0]) + FlatMap(records[1..], EventsOf)
    ensures before + [RecordStage(records[0])] + Map(records[1..], RecordStage) == before + Map(records, RecordStage)
  {
    hide EventsOf, RecordStage;
  }

  lemma HistoryKeepsTimes(events: seq<Event>, started: Event, records: seq<Record>)
    requires HistoryOf(events, started, records) && KnownNames(records)
    ensures Cores(Recorded(events, false, [])) == [StartStage(started)] + Map(records, RecordStage)
  {
    hide EventsOf, RecordStage, KnownNames;
    var begin := Progress([WorkflowStage(FirstStart(events))], []);
    OthersDoNotMatter(begin, events, []);
    StartAmongSignificant(events);
    FirstStartConcat([started], FlatMap(records, EventsOf));
    assert FirstStart([started]) == Some(started.time);
    ObserveConcat(begin, [started], FlatMap(records, EventsOf), []);
    ObserveOne(begin, started, []);
    RecordsKeepTimes(begin.stages, records);
    assert Cores(begin.stages) == [StartStage(started)];
  }

  lemma {:induction false} MissingIsShort(keys: seq<Key>, stages: seq<ExecutionStage>)
    ensures |Missing(keys, stages)| <= |keys|
  {
    if keys != [] {
      hide HasKey;
      MissingIsShort(keys[1..], stages);
    }
  }

  lemma FillInIsShort(stages: seq<ExecutionStage>, result: Option<FailedResult>)
    requires stages != []
    ensures |FillIn(stages, result)| <= |stages| + 3
  {
    hide HasKey, FirstWith, Missing, FailedStage, Marked, StageKey;
    if result.Some? {
      FailingIsPresent(stages, result.value);
      MissingIsShort(Later(result.value.stage), WithFailing(stages, result.value));
    }
  }

  /** What the timeline says of each activity's attempts is what the run made of them. */
  lemma AttemptsAreTrue(records: seq<Record>, request: DeployRequest, world: Workflow.World, i: nat)
    requires RecordsRun(records, request, world) && i < |records| && records[i].started.Some?
    ensures RecordStage(records[i]).attempts == Some(Activities(request, world)[i].2)
  {
    Deployments.ExecutionsAreBounded(world);
    hide Workflow.Prepares, Workflow.Deploys, Workflow.Validates, Workflow.Publishes, Workflow.Deployed, KeyOf;
    assert (records[i].name, records[i].close, records[i].attempts) == Activities(request, world)[i];
    assert 1 <= Activities(request, world)[i].2 <= 12;
  }

  lemma ShortProjects(events: seq<Event>, result: Option<FailedResult>)
    requires |Recorded(events, false, [])| <= 61
    ensures |WithFinalizing(FillIn(Recorded(events, false, []), result), false)| <= 64
    ensures Project(events, false, result, []).Ok?
  {
    var recorded := Recorded(events, false, []);
    FillInIsShort(recorded, result);
    hide Recorded, FillIn, HasCompleted, IsActive;
    assert !IsFinalizing(FillIn(recorded, result), false);
  }

  lemma ShortHistoryIsShown(events: seq<Event>, stages: seq<ExecutionStage>, result: Option<FailedResult>)
    requires Cores(Recorded(events, false, [])) == stages && |stages| <= 61
    ensures Project(events, false, result, []).Ok?
    ensures Subsequence(stages, Cores(Project(events, false, result, []).value))
  {
    assert |Cores(Recorded(events, false, []))| == |Recorded(events, false, [])|;
    hide *;
    ShortProjects(events, result);
    NothingIsLost(events, false, result, []);
  }

  /**
   The start and every activity of a run are on its timeline in the order they happened, with the
   times at which they were scheduled, started and closed, the milliseconds they took and the
   attempts the run made; filling in a failure changes none of it.
   */
  lemma TimesAreTrue(
    events: seq<Event>, started: Event, records: seq<Record>, request: DeployRequest, world: Workflow.World)
    requires HistoryOf(events, started, records) && RecordsRun(records, request, world)
    ensures var timeline := Project(events, false, ResultOf(Workflow.Deployed(request, world).ending), []);
            && timeline.Ok?
            && Subsequence([StartStage(started)] + Map(records, RecordStage), Cores(timeline.value))
  {
    var shown := [StartStage(started)] + Map(records, RecordStage);
    hide *;
    HistoryPrefixes.FewActivities(records, request, world);
    HistoryKeepsTimes(events, started, records);
    ShortHistoryIsShown(events, shown, ResultOf(Workflow.Deployed(request, world).ending));
  }
}
