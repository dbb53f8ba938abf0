/**
 The timeline of a workflow that still runs: at every prefix of its history, with pending activities
 that agree with it.
 */
module RunningTimeline {
  import opened Outcomes
  import opened DeploymentModels
  import opened Stages
  import opened StageFacts
  import opened Timeline
  import opened Plans
  import OrderedMaps

  /** The history so far: these activities have closed, and perhaps one more is open. */
  predicate PrefixOf(events: seq<Event>, started: Event, records: seq<Record>, open: Option<Record>) {
    && started.WorkflowStarted? && KnownNames(records) && |records| <= 4
    && (open.Some? ==> KnownKey(open.value.name).Some?)
    && Significant(events)
       == [started] + FlatMap(records, EventsOf) + (if open.Some? then Opening(open.value) else [])
  }

  /** The server describes nothing as pending, or exactly the activity that is open. */
  predicate Consistent(pending: seq<Pending>, open: Option<Record>) {
    pending == [] || (|pending| == 1 && open.Some? && pending[0].activity == Some(open.value.name))
  }

  function RunningShown(r: Record): Shown {
    Shown(KeyOf(r.name), StageRunning, None)
  }

  const FINALIZING := Shown(FinalizingKey, StageRunning, None)

  /** What has closed, in order. */
  function ClosedShows(records: seq<Record>): seq<Shown> {
    [STARTED] + Map(records, ShowRecord)
  }

  lemma PrefixObserved(
    events: seq<Event>, started: Event, records: seq<Record>, open: Option<Record>, pending: PendingMap)
    requires PrefixOf(events, started, records, open)
    ensures var p := ObserveAll(Progress([WorkflowStage(FirstStart(events))], []), events, pending);
            && Shows(p.stages) == ClosedShows(records)
            && (open.None? ==> p.open == [])
            && (open.Some? ==> |p.open| == 1 && p.open[0].1.key == KeyOf(open.value.name) && p.open[0].1.known)
  {
    hide EventsOf, ShowRecord, Opening, KnownNames, KnownKey, KeyOf;
    var begin := Progress([WorkflowStage(FirstStart(events))], []);
    OthersDoNotMatter(begin, events, pending);
    StartAmongSignificant(events);
    var closed, tail := FlatMap(records, EventsOf), if open.Some? then Opening(open.value) else [];
    FirstStartConcat([started] + closed, tail);
    FirstStartConcat([started], closed);
    assert FirstStart([started]) == Some(started.time);
    ObserveConcat(begin, [started] + closed, tail, pending);
    ObserveConcat(begin, [started], closed, pending);
    ObserveOne(begin, started, pending);
    RecordsAppend(begin.stages, records, pending);
    assert Shows(begin.stages) == [STARTED];
    if open.Some? {
      OpeningOpens(ObserveAll(begin, [started] + closed, pending).stages, open.value, pending);
    }
  }

  lemma OneOpenShows(stages: seq<ExecutionStage>, open: seq<(int, Activity)>)
    requires |open| == 1 && open[0].1.known
    ensures Shows(WithOpen(stages, open, true)) == Shows(stages) + [Shown(open[0].1.key, StageRunning, None)]
  {
    assert open[..0] == [];
    assert WithOpen(stages, open, true) == Append(WithOpen(stages, open[..0], true), OpenStage(open[0].1, true));
    var stage := OpenStage(open[0].1, true).(sequence := |stages| + 1);
    MapConcat(stages, [stage], Show);
  }

  lemma OnePending(pending: seq<Pending>, name: string)
    requires |pending| == 1 && pending[0].activity == Some(name)
    ensures |PendingValues(pending)| == 1 && PendingValues(pending)[0].0 == name
  {
    assert pending[..0] == [];
  }

  /** What the history records, when the pending entry is the open activity's or there is none. */
  lemma OpenHistoryRecorded(
    events: seq<Event>, started: Event, records: seq<Record>, r: Record, pending: seq<Pending>)
    requires PrefixOf(events, started, records, Some(r)) && Consistent(pending, Some(r))
    ensures Shows(Recorded(events, true, pending)) == ClosedShows(records) + [RunningShown(r)]
  {
    var values := PendingValues(pending);
    PrefixObserved(events, started, records, Some(r), values);
    var p := ObserveAll(Progress([WorkflowStage(FirstStart(events))], []), events, values);
    hide ObserveAll, ClosedShows, KeyOf, PrefixOf, WithOpen, Shows;
    OneOpenShows(p.stages, p.open);
    if pending != [] {
      OnePending(pending, r.name);
      assert values[..0] == [];
      assert p.open[0].1.key == KeyOf(values[0].0);
      var shown := WithOpen(p.stages, p.open, true);
      assert WithPending(shown, p.open, values, true) == AddPending(shown, p.open, values[0], true) == shown;
    }
  }

  /**
   At a prefix with an open activity exactly that activity's stage is running, and it is the
   last one; what has closed is shown as it closed.
   */
  lemma OpenActivityRunsAlone(
    events: seq<Event>, started: Event, records: seq<Record>, r: Record, pending: seq<Pending>)
    requires PrefixOf(events, started, records, Some(r)) && Consistent(pending, Some(r))
    ensures var timeline := Project(events, true, None, pending);
            && timeline.Ok? && Shows(timeline.value) == ClosedShows(records) + [RunningShown(r)]
            && (forall i :: 0 <= i < |timeline.value| ==>
                  (timeline.value[i].status == StageRunning <==> i == |timeline.value| - 1))
  {
    var recorded := Recorded(events, true, pending);
    OpenHistoryRecorded(events, started, records, r, pending);
    ClosedNeverRuns(records);
    hide Recorded, Shows, ClosedShows, KeyOf;
    ShowsPointwise(recorded, ClosedShows(records) + [RunningShown(r)]);
    assert recorded[|recorded| - 1].status == StageRunning;
    assert WithFinalizing(recorded, true) == recorded;
    NumberingShows(recorded);
    ShowsPointwise(Project(events, true, None, pending).value, ClosedShows(records) + [RunningShown(r)]);
  }

  lemma ClosedNeverRuns(records: seq<Record>)
    ensures |ClosedShows(records)| == |records| + 1
    ensures forall i :: 0 <= i < |ClosedShows(records)| ==> ClosedShows(records)[i].status != StageRunning
  {
    hide KeyOf;
  }

  /** Some activity before publishing completed, and publishing has not. */
  predicate AwaitsPublishing(records: seq<Record>) {
    && (exists r ::
        r in records && r.close == CompletedClose && KeyOf(r.name) in {RenderKey, PrepareKey, DeployKey, ValidateKey})
    && (forall r :: r in records && r.close == CompletedClose ==> KeyOf(r.name) != PublishKey)
  }

  lemma FinalizesExactlyWhen(stages: seq<ExecutionStage>, records: seq<Record>)
    requires Shows(stages) == ClosedShows(records)
    ensures IsFinalizing(stages, true) <==> AwaitsPublishing(records)
  {
    hide KeyOf;
    ClosedNeverRuns(records);
    ShowsPointwise(stages, ClosedShows(records));
    forall i | 0 < i < |stages|
      ensures stages[i].key == KeyOf(records[i - 1].name)
      ensures stages[i].status == StageCompleted <==> records[i - 1].close == CompletedClose
    {
      assert ClosedShows(records)[i] == ShowRecord(records[i - 1]);
    }
    forall key | key != WorkflowKey
      ensures HasCompleted(stages, key) <==> exists r ::
          r in records && r.close == CompletedClose && KeyOf(r.name) == key
    {
      if HasCompleted(stages, key) {
        var i :| 0 <= i < |stages| && stages[i].key == key && stages[i].status == StageCompleted;
        assert records[i - 1] in records;
      }
      if r :| r in records && r.close == CompletedClose && KeyOf(r.name) == key {
        var i :| 0 <= i < |records| && records[i] == r;
        assert stages[i + 1].key == key && stages[i + 1].status == StageCompleted;
      }
    }
  }

  /** At a prefix with nothing open, only the closing of the workflow can be shown as running. */
  lemma BetweenActivities(events: seq<Event>, started: Event, records: seq<Record>)
    requires PrefixOf(events, started, records, None)
    ensures var timeline := Project(events, true, None, []);
            && timeline.Ok?
            && Shows(timeline.value) == ClosedShows(records) + (if AwaitsPublishing(records) then [FINALIZING] else [])
  {
    assert [started] + FlatMap(records, EventsOf) + [] == [started] + FlatMap(records, EventsOf);
    ClosedHistoryShows(events, started, records, true);
    var recorded := Recorded(events, true, []);
    FinalizesExactlyWhen(recorded, records);
    ClosedNeverRuns(records);
    hide Recorded, ClosedShows, IsFinalizing, AwaitsPublishing, PrefixOf;
    ShowsPointwise(recorded, ClosedShows(records));
    var all := WithFinalizing(recorded, true);
    if AwaitsPublishing(records) {
      MapConcat(recorded, all[|recorded|..], Show);
      assert Shows(all) == ClosedShows(records) + [FINALIZING];
    } else {
      assert ClosedShows(records) + [] == ClosedShows(records);
    }
    NumberingShows(all);
  }

  predicate AtMostOneRuns(stages: seq<ExecutionStage>) {
    forall i, j :: 0 <= i < j < |stages| ==> !(stages[i].status == StageRunning && stages[j].status == StageRunning)
  }
}
