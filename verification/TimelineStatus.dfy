/** The current stage of a timeline, the one history it misreads, and what runs while the workflow does. */
module TimelineStatus {
  import opened Outcomes
  import opened DeploymentModels
  import opened Stages
  import opened StageFacts
  import opened StageShape
  import opened Timeline
  import opened Plans
  import OrderedMaps
  import Retry
  import Workflow
  import Deployments

  // ---------------------------------------------------------------- the current stage

  predicate Troubled(s: Shown) {
    s.status in {StageRunning, StageFailed, StageUnknown}
  }

  function LastTroubled(shown: seq<Shown>): Option<Key> {
    if shown == [] then None
    else if Troubled(shown[|shown| - 1]) then Some(shown[|shown| - 1].key)
    else LastTroubled(shown[..|shown| - 1])
  }

  function LastActivity(shown: seq<Shown>): Option<Key> {
    if shown == [] then None
    else if shown[|shown| - 1].key != WorkflowKey then Some(shown[|shown| - 1].key)
    else LastActivity(shown[..|shown| - 1])
  }

  /** The last stage that runs, failed or is unknown; otherwise the last one after the start. */
  function CurrentStage(stages: seq<ExecutionStage>): Option<Key> {
    var shown := Shows(stages);
    if LastTroubled(shown).Some? then LastTroubled(shown) else LastActivity(shown)
  }

  lemma {:induction false} QuietSuffix(a: seq<Shown>, b: seq<Shown>)
    requires forall i :: 0 <= i < |b| ==> !Troubled(b[i])
    ensures LastTroubled(a + b) == LastTroubled(a)
  {
    if b == [] {
      assert a + b == a;
    } else {
      assert (a + b)[..|a + b| - 1] == a + b[..|b| - 1];
      QuietSuffix(a, b[..|b| - 1]);
    }
  }

  lemma TroubledLast(a: seq<Shown>, s: Shown)
    requires Troubled(s)
    ensures LastTroubled(a + [s]) == Some(s.key)
  {
  }

  /** The stage a run should be said to be at. */
  function TrueStage(world: Workflow.World, ending: Workflow.Ending): Key {
    var failing := Deployments.FailingStage(world);
    if ending.PublishFailed? then PublishKey
    else if failing.Some? then StageKey(failing.value)
    else if ending.Stuck? then ValidateKey
    else PublishKey
  }

  lemma NothingTroubles(stage: Option<Stage>, keys: seq<Key>)
    ensures forall i :: 0 <= i < |StagesBefore(stage)| ==> !Troubled(StagesBefore(stage)[i])
    ensures forall i :: 0 <= i < |NotReachedStages(keys)| ==> !Troubled(NotReachedStages(keys)[i])
  {
  }

  lemma {:induction false} QuietEnd(a: seq<Shown>)
    requires a != [] && a[|a| - 1].key != WorkflowKey && forall i :: 0 <= i < |a| ==> !Troubled(a[i])
    ensures LastTroubled(a).None? && LastActivity(a) == Some(a[|a| - 1].key)
  {
    QuietSuffix([], a);
    assert [] + a == a;
  }

  lemma CurrentAfterFailure(before: seq<Shown>, failed: Shown, later: seq<Key>, ending: seq<Shown>)
    requires failed.status == StageFailed
    requires |ending| <= 1
    ensures LastTroubled(before + ([failed] + NotReachedStages(later)) + ending)
            == if ending != [] && Troubled(ending[0]) then Some(ending[0].key) else Some(failed.key)
  {
    NothingTroubles(None, later);
    var stages := before + ([failed] + NotReachedStages(later));
    if ending != [] && Troubled(ending[0]) {
      assert ending == [ending[0]];
      TroubledLast(stages, ending[0]);
    } else {
      assert stages + ending == before + [failed] + (NotReachedStages(later) + ending);
      QuietSuffix(before + [failed], NotReachedStages(later) + ending);
      TroubledLast(before, failed);
    }
  }

  /** How a run's timeline ends. */
  function PublishShows(ending: Workflow.Ending): seq<Shown> {
    match ending
    case Returned(_) => [Shown(PublishKey, StageCompleted, None)]
    case PublishFailed(_) => [Shown(PublishKey, StageFailed, Some(ActivityFailed))]
    case Stuck => []
  }

  lemma CurrentOfTrueTimeline(world: Workflow.World, ending: Workflow.Ending)
    ensures var shown := TrueTimeline(world, ending);
            (if LastTroubled(shown).Some? then LastTroubled(shown) else LastActivity(shown))
                == Some(TrueStage(world, ending))
  {
    var failing := Deployments.FailingStage(world);
    var shown := TrueTimeline(world, ending);
    hide Deployments.FailingStage, LastTroubled, LastActivity;
    if failing.Some? {
      var reported := ending.Returned? && ending.outcome.Failed?;
      var failed := Shown(StageKey(failing.value), StageFailed,
          Some(if reported then ReportedKind(ending.outcome.kind) else ActivityFailed));
      var later := if reported then Later(failing.value) else [];
      hide StagesBefore, StageKey, Later;
      assert [failed] + NotReachedStages([]) == [failed];
      assert shown == StagesBefore(failing) + ([failed] + NotReachedStages(later)) + PublishShows(ending);
      CurrentAfterFailure(StagesBefore(failing), failed, later, PublishShows(ending));
    } else if ending.PublishFailed? {
      TroubledLast(StagesBefore(failing), Shown(PublishKey, StageFailed, Some(ActivityFailed)));
      assert shown == StagesBefore(failing) + [Shown(PublishKey, StageFailed, Some(ActivityFailed))];
    } else {
      NothingTroubles(failing, []);
      assert shown == StagesBefore(failing) + PublishShows(ending);
      QuietEnd(shown);
    }
  }

  /** The current stage of a finished run is the failing one once its failure was published. */
  lemma CurrentStageIsTrue(
    events: seq<Event>, started: Event, records: seq<Record>, request: DeployRequest, world: Workflow.World)
    requires HistoryOf(events, started, records) && RecordsRun(records, request, world) && RaisingValidation(world)
    ensures var ending := Workflow.Deployed(request, world).ending;
            var timeline := Project(events, false, ResultOf(ending), []);
            timeline.Ok? && CurrentStage(timeline.value) == Some(TrueStage(world, ending))
  {
    TimelineIsTrue(events, started, records, request, world);
    hide Project, TrueTimeline, HistoryOf, RecordsRun, RaisingValidation, Workflow.Deployed, TrueStage, LastTroubled;
    hide LastActivity;
    CurrentOfTrueTimeline(world, Workflow.Deployed(request, world).ending);
  }

  // ---------------------------------------------------------------- a validation that returns "failed"

  lemma ReturnedFailureActivities(request: DeployRequest, world: Workflow.World)
    requires !RaisingValidation(world) && Workflow.Deployed(request, world).ending.Returned?
    ensures [STARTED] + Map(Activities(request, world), ShowActivity) ==
            StagesBefore(None) + [Shown(PublishKey, StageCompleted, None)]
  {
    KnownActivities();
    PublishingEnds(request, world);
    hide Workflow.Prepares, Workflow.Deploys, Workflow.Validates, Workflow.Publishes, Workflow.Deployed, KnownKey, Map;
    ShowFour(Activities(request, world));
  }

  /** With validation's own stage there and completed, nothing is filled in and nothing is marked. */
  lemma CompletedIsNotMarked(stages: seq<ExecutionStage>, f: FailedResult)
    requires f.stage == Validate && Shows(stages) == StagesBefore(None) + [Shown(PublishKey, StageCompleted, None)]
    ensures stages != [] && Shows(FillIn(stages, Some(f))) == Shows(stages)
  {
    ShowsPointwise(stages, StagesBefore(None) + [Shown(PublishKey, StageCompleted, None)]);
    assert stages[3].key == ValidateKey;
    assert HasKey(stages, ValidateKey);
    var at := FirstWith(stages, ValidateKey) + 1;
    assert Missing(Later(f.stage), stages) == [];
    assert stages[..at] + [] + stages[at..] == stages;
    assert forall i :: 0 <= i < |stages| ==> stages[i].status == StageCompleted;
    hide Shows, FirstWith, HasKey, Missing, Later;
    SameShows(WithCategory(stages, f), stages);
  }

  /** Everything completed, publishing included. */
  function AllCompleted(): seq<Shown> {
    StagesBefore(None) + [Shown(PublishKey, StageCompleted, None)]
  }

  lemma HiddenFailureShows(
    events: seq<Event>, started: Event, records: seq<Record>, request: DeployRequest, world: Workflow.World)
    requires HistoryOf(events, started, records) && RecordsRun(records, request, world) && !RaisingValidation(world)
    requires Workflow.Deployed(request, world).ending.Returned?
    ensures Shows(Recorded(events, false, [])) == AllCompleted()
  {
    ReturnedFailureActivities(request, world);
    ActivitiesAreKnown(records, request, world);
    ClosedHistoryShows(events, started, records, false);
    RecordsShowActivities(records, request, world);
    hide *;
  }

  lemma CurrentOfAllCompleted()
    ensures LastTroubled(AllCompleted()).None? && LastActivity(AllCompleted()) == Some(PublishKey)
  {
    NothingTroubles(None, []);
    QuietEnd(AllCompleted());
  }

  /**
   A validate activity that returns "failed" instead of raising leaves no failed stage: the
   timeline shows validation as completed, and the current stage is publishing.
   */
  lemma ReturnedFailureIsHidden(
    events: seq<Event>, started: Event, records: seq<Record>, request: DeployRequest, world: Workflow.World)
    requires HistoryOf(events, started, records) && RecordsRun(records, request, world) && !RaisingValidation(world)
    requires Workflow.Deployed(request, world).ending.Returned?
    ensures var ending := Workflow.Deployed(request, world).ending;
            var timeline := Project(events, false, ResultOf(ending), []);
            && timeline.Ok? && Shows(timeline.value) == AllCompleted()
            && CurrentStage(timeline.value) == Some(PublishKey)
            && ending.outcome.Failed? && ending.outcome.stage == Validate
  {
    var ending := Workflow.Deployed(request, world).ending;
    Deployments.OutcomeTellsWhatHappened(request, world);
    assert ending.outcome.Failed? && ending.outcome.stage == Validate;
    HiddenFailureShows(events, started, records, request, world);
    hide Workflow.Deployed, Recorded, FillIn, Shows, LastTroubled, LastActivity, HistoryOf, RecordsRun;
    hide RaisingValidation;
    var recorded := Recorded(events, false, []);
    CompletedIsNotMarked(recorded, ResultOf(ending).value);
    var filled := FillIn(recorded, ResultOf(ending));
    assert |AllCompleted()| == 5;
    hide AllCompleted;
    ShowsPointwise(recorded, AllCompleted());
    ShowsPointwise(filled, AllCompleted());
    NumberingShows(filled);
    CurrentOfAllCompleted();
  }

  lemma HiddenIsNotTrue(request: DeployRequest, world: Workflow.World)
    requires Workflow.Deployed(request, world).ending.Returned?
             && Workflow.Deployed(request, world).ending.outcome.Failed?
    requires Workflow.Deployed(request, world).ending.outcome.stage == Validate
    ensures TrueTimeline(world, Workflow.Deployed(request, world).ending) != AllCompleted()
  {
    Deployments.OutcomeTellsWhatHappened(request, world);
    hide Workflow.Deployed, Deployments.FailingStage;
    assert TrueTimeline(world, Workflow.Deployed(request, world).ending)[3].status == StageFailed;
    assert AllCompleted()[3].status == StageCompleted;
  }

  /** Of a run that returned, the timeline is true exactly when its validation did not return a failure. */
  lemma TimelineIsTrueExactlyWhen(
    events: seq<Event>, started: Event, records: seq<Record>, request: DeployRequest, world: Workflow.World)
    requires HistoryOf(events, started, records) && RecordsRun(records, request, world)
    requires Workflow.Deployed(request, world).ending.Returned?
    ensures var ending := Workflow.Deployed(request, world).ending;
            var timeline := Project(events, false, ResultOf(ending), []);
            timeline.Ok? && (Shows(timeline.value) == TrueTimeline(world, ending) <==> RaisingValidation(world))
  {
    var ending := Workflow.Deployed(request, world).ending;
    if RaisingValidation(world) {
      TimelineIsTrue(events, started, records, request, world);
    } else {
      ReturnedFailureIsHidden(events, started, records, request, world);
      HiddenIsNotTrue(request, world);
      hide Project, Workflow.Deployed, TrueTimeline, AllCompleted, HistoryOf, RecordsRun, RaisingValidation, Shows;
      hide ResultOf;
    }
  }

  /**
   Nothing in the workflow rules such a run out: it takes a validate activity that returns a result
   that did not pass, which today's activity never does.
   */
  lemma ReturnedFailuresExist(
    request: DeployRequest, prepared: Prepared, deployment: Deployment, printable: char -> bool)
    requires CanonicalUuid(request.eventId)
    requires ValidPrepared(prepared) && prepared.artifact.deviceName == request.deviceName
    ensures exists world: Workflow.World ::
              !RaisingValidation(world) && Workflow.Deployed(request, world).ending.Returned?
  {
    var world := Workflow.World(
      _ => Retry.Attempt(0.0, Ok(prepared)), _ => Retry.Attempt(0.0, Ok(deployment)),
      _ => Retry.Attempt(0.0, Ok(false)), _ => Retry.Attempt(0.0, Ok(())), 0, printable);
    assert Workflow.Prepares(world).result == Ok(prepared) && Workflow.Deploys(world).result == Ok(deployment);
    assert Workflow.Validates(world).result == Ok(false) && Workflow.Publishes(world).result == Ok(());
    hide Workflow.Prepares, Workflow.Deploys, Workflow.Validates, Workflow.Publishes, CanonicalUuid;
    Deployments.NotMatchingIsValid(request, world, prepared, deployment.deployedAt);
    assert !RaisingValidation(world);
    hide ValidOutcome;
    assert Workflow.Deployed(request, world).ending.Returned?;
  }

  // ---------------------------------------------------------------- the current stage of any timeline

  predicate TroubledStage(s: ExecutionStage) {
    s.status == StageRunning || s.status == StageFailed || s.status == StageUnknown
  }

  lemma ShowsBefore(stages: seq<ExecutionStage>)
    requires stages != []
    ensures var shown := Shows(stages);
            && shown != [] && shown[|shown| - 1] == Show(stages[|stages| - 1])
            && shown[..|shown| - 1] == Shows(stages[..|stages| - 1])
            && (Troubled(shown[|shown| - 1]) <==> TroubledStage(stages[|stages| - 1]))
  {
    var init, last := stages[..|stages| - 1], stages[|stages| - 1];
    assert stages == init + [last];
    MapConcat(init, [last], Show);
    assert Shows(stages) == Shows(init) + [Show(last)];
  }

  lemma {:induction false} LastTroubledIs(stages: seq<ExecutionStage>, i: nat)
    requires i < |stages| && TroubledStage(stages[i])
    requires forall j :: i < j < |stages| ==> !TroubledStage(stages[j])
    ensures LastTroubled(Shows(stages)) == Some(stages[i].key)
  {
    ShowsBefore(stages);
    hide Shows, TroubledStage, Troubled;
    if i < |stages| - 1 {
      LastTroubledIs(stages[..|stages| - 1], i);
    }
  }

  lemma {:induction false} NoneTroubled(stages: seq<ExecutionStage>)
    requires forall j :: 0 <= j < |stages| ==> !TroubledStage(stages[j])
    ensures LastTroubled(Shows(stages)).None?
  {
    if stages != [] {
      ShowsBefore(stages);
      hide Shows, TroubledStage, Troubled;
      NoneTroubled(stages[..|stages| - 1]);
    }
  }

  lemma {:induction false} LastActivityIs(stages: seq<ExecutionStage>, i: nat)
    requires i < |stages| && stages[i].key != WorkflowKey
    requires forall j :: i < j < |stages| ==> stages[j].key == WorkflowKey
    ensures LastActivity(Shows(stages)) == Some(stages[i].key)
  {
    ShowsBefore(stages);
    hide Shows;
    if i < |stages| - 1 {
      LastActivityIs(stages[..|stages| - 1], i);
    }
  }

  /** The current stage is the last that runs, failed or is unknown. */
  lemma CurrentIsTroubled(stages: seq<ExecutionStage>, i: nat)
    requires i < |stages| && TroubledStage(stages[i])
    requires forall j :: i < j < |stages| ==> !TroubledStage(stages[j])
    ensures CurrentStage(stages) == Some(stages[i].key)
  {
    LastTroubledIs(stages, i);
    hide Shows, LastTroubled, LastActivity;
  }

  /** Without such a stage it is the last other than the start. */
  lemma CurrentIsLast(stages: seq<ExecutionStage>, i: nat)
    requires forall j :: 0 <= j < |stages| ==> !TroubledStage(stages[j])
    requires i < |stages| && stages[i].key != WorkflowKey
    requires forall j :: i < j < |stages| ==> stages[j].key == WorkflowKey
    ensures CurrentStage(stages) == Some(stages[i].key)
  {
    NoneTroubled(stages);
    LastActivityIs(stages, i);
    hide Shows, LastTroubled, LastActivity;
  }
}
