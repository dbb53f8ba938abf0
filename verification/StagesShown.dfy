/**
 Everything a running workflow's stages say, for any pending activities the server described: what
 has closed, what is open and what is only pending, with times and attempts.
 */
module StagesShown {
  import opened Outcomes
  import opened DeploymentModels
  import opened Stages
  import opened StageFacts
  import opened StageShape
  import opened Descriptions
  import opened PendingOnly
  import opened Timeline
  import opened RunningTimeline
  import opened TimelineTimes
  import opened Plans
  import OrderedMaps

  /** The attempts of an activity: those of a recorded start, unless more were described. */
  function AttemptsShown(r: Record, pending: seq<Pending>): Option<int> {
    var described := DescribedAttempt(pending, r.name);
    if r.started.None? then described
    else
      var started := if r.attempts < 1 then 1 else if r.attempts > 100 then 100 else r.attempts;
      Some(if described.Some? && described.value > started then described.value else started)
  }

  /** The stages of closed activities. */
  function ClosedStages(pending: seq<Pending>): Record -> ExecutionStage {
    (r: Record) => RecordStage(r).(attempts := AttemptsShown(r, pending))
  }

  /** An open activity runs as long as the execution does; what became of it is unknown otherwise. */
  function OpenShown(r: Record, pending: seq<Pending>, running: bool): ExecutionStage {
    ExecutionStage(
      0, KeyOf(r.name), if running then StageRunning else StageUnknown, Some(r.scheduledAt),
      if r.started.Some? then Some(r.started.value.1) else None, None, None, AttemptsShown(r, pending), None)
  }

  function Except(names: seq<string>, open: Option<Record>): seq<string> {
    if names == [] then []
    else
      var last := names[|names| - 1];
      Except(names[..|names| - 1], open) + if open.Some? && open.value.name == last then [] else [last]
  }

  function AllShown(
    started: Event, records: seq<Record>, open: Option<Record>, pending: seq<Pending>, running: bool):
    seq<ExecutionStage>
    requires started.WorkflowStarted?
  {
    [StartStage(started)] + Map(records, ClosedStages(pending))
    + (if open.Some? then [OpenShown(open.value, pending, running)] else [])
    + Map(Except(DescribedNames(pending), open), PendingStages(pending, running))
  }

  // ---------------------------------------------------------------- closed and open activities

  function Opened(r: Record, pending: seq<Pending>): Activity {
    Activity(
      KeyOf(r.name), r.scheduledAt, AttemptsShown(r, pending),
      if r.started.Some? then Some(r.started.value.1) else None, true)
  }

  lemma OpeningIsShown(stages: seq<ExecutionStage>, r: Record, pending: seq<Pending>)
    requires KnownKey(r.name).Some?
    ensures ObserveAll(Progress(stages, []), Opening(r), PendingValues(pending)) ==
            Progress(stages, [(r.id, Opened(r, pending))])
  {
    KnownNamesAreSafe(r.name);
    DescribedIsKept(pending, r.name);
    hide SafeActivityName, KnownKey, PendingAttempts, LastDescribed, PendingValues;
    var values, scheduled := PendingValues(pending), Scheduled(r.id, r.scheduledAt, r.name);
    var p := Observe(Progress(stages, []), scheduled, values);
    ObserveOne(Progress(stages, []), scheduled, values);
    if r.started.Some? {
      var started := Started(r.started.value.0, r.started.value.1, r.id, r.attempts);
      ObserveConcat(Progress(stages, []), [scheduled], [started], values);
      ObserveOne(p, started, values);
      assert p.open == [(r.id, ScheduledActivity(scheduled, values))];
    } else {
      assert Opening(r) == [scheduled];
    }
  }

  lemma ClosingIsShown(r: Record, pending: seq<Pending>)
    ensures Core(ClosedStage(Opened(r, pending), Closed(r.closeId, r.closedAt, r.id, r.close))) ==
            ClosedStages(pending)(r)
  {
    hide KeyOf, AttemptsShown;
  }

  lemma RecordIsShown(stages: seq<ExecutionStage>, r: Record, pending: seq<Pending>)
    requires KnownKey(r.name).Some?
    ensures var p := ObserveAll(Progress(stages, []), EventsOf(r), PendingValues(pending));
            p.open == [] && Cores(p.stages) == Cores(stages) + [ClosedStages(pending)(r)]
  {
    OpeningIsShown(stages, r, pending);
    ClosingIsShown(r, pending);
    hide Opening, KeyOf, Opened, ClosedStages, ClosedStage, KnownKey, PendingValues;
    var closed, values := Closed(r.closeId, r.closedAt, r.id, r.close), PendingValues(pending);
    var p := ObserveAll(Progress(stages, []), Opening(r), values);
    ObserveConcat(Progress(stages, []), Opening(r), [closed], values);
    ObserveOne(p, closed, values);
    var stage := ClosedStage(Opened(r, pending), closed);
    assert OrderedMaps.Drop(p.open, r.id) == [];
    MapConcat(stages, [stage.(sequence := |stages| + 1)], Core);
  }

  lemma {:induction false} RecordsAreShown(stages: seq<ExecutionStage>, records: seq<Record>, pending: seq<Pending>)
    requires KnownNames(records)
    ensures var p := ObserveAll(Progress(stages, []), FlatMap(records, EventsOf), PendingValues(pending));
            p.open == [] && Cores(p.stages) == Cores(stages) + Map(records, ClosedStages(pending))
    decreases |records|
  {
    if records != [] {
      var r, rest := records[0], records[1..];
      assert KnownKey(r.name).Some? && KnownNames(rest);
      FirstShown(Cores(stages), records, pending);
      hide *;
      RecordIsShown(stages, r, pending);
      var p := ObserveAll(Progress(stages, []), EventsOf(r), PendingValues(pending));
      ObserveConcat(Progress(stages, []), EventsOf(r), FlatMap(rest, EventsOf), PendingValues(pending));
      RecordsAreShown(p.stages, rest, pending);
    } else {
      assert Cores(stages) + [] == Cores(stages);
    }
  }

  lemma FirstShown(before: seq<ExecutionStage>, records: seq<Record>, pending: seq<Pending>)
    requires records != []
    ensures FlatMap(records, EventsOf) == EventsOf(records[0]) + FlatMap(records[1..], EventsOf)
    ensures before + [ClosedStages(pending)(records[0])] + Map(records[1..], ClosedStages(pending)) ==
            before + Map(records, ClosedStages(pending))
  {
    hide EventsOf, ClosedStages;
  }

  lemma HistoryIsShown(
    events: seq<Event>, started: Event, records: seq<Record>, open: Option<Record>, pending: seq<Pending>)
    requires PrefixOf(events, started, records, open)
    ensures var p := ObserveAll(Progress([WorkflowStage(FirstStart(events))], []), events, PendingValues(pending));
            && Cores(p.stages) == [StartStage(started)] + Map(records, ClosedStages(pending))
            && p.open == if open.Some? then [(open.value.id, Opened(open.value, pending))] else []
  {
    hide EventsOf, Opening, KnownNames, KnownKey, KeyOf, PendingValues, ClosedStages, Opened;
    var values, begin := PendingValues(pending), Progress([WorkflowStage(FirstStart(events))], []);
    OthersDoNotMatter(begin, events, values);
    StartAmongSignificant(events);
    var closed, tail := FlatMap(records, EventsOf), if open.Some? then Opening(open.value) else [];
    FirstStartConcat([started] + closed, tail);
    FirstStartConcat([started], closed);
    assert FirstStart([started]) == Some(started.time);
    ObserveConcat(begin, [started] + closed, tail, values);
    ObserveConcat(begin, [started], closed, values);
    ObserveOne(begin, started, values);
    RecordsAreShown(begin.stages, records, pending);
    assert Cores(begin.stages) == [StartStage(started)];
    if open.Some? {
      OpeningIsShown(ObserveAll(begin, [started] + closed, values).stages, open.value, pending);
    }
  }

  // ---------------------------------------------------------------- pending activities

  /** Whether this name's stage is open already. */
  predicate OpenIs(open: seq<(int, Activity)>, name: Option<string>) {
    if name.None? then open == []
    else |open| == 1 && KnownKey(name.value).Some? && open[0].1.key == KeyOf(name.value)
  }

  lemma OpenKeyTellsName(open: seq<(int, Activity)>, current: Option<string>, name: string)
    requires OpenIs(open, current)
    ensures KeyIsOpen(open, KeyOf(name)) <==> current == Some(name)
  {
    if current.Some? {
      KnownKeysAreStages(current.value);
      KnownKeysAreStages(name);
      if KnownKey(name).Some? && KnownKey(name) == KnownKey(current.value) {
        KnownKeyInjective(name, current.value);
      }
      hide KnownKey, SafeActivityName;
      assert KeyIsOpen(open, KeyOf(name)) <==> open[0].1.key == KeyOf(name);
    }
  }

  lemma {:induction false} ExceptIsBeside(names: seq<string>, open: seq<(int, Activity)>, r: Option<Record>)
    requires OpenIs(open, if r.Some? then Some(r.value.name) else None)
    ensures NamesBeside(names, open) == Except(names, r)
  {
    hide OpenIs, KeyIsOpen, KeyOf;
    if names != [] {
      ExceptIsBeside(names[..|names| - 1], open, r);
      OpenKeyTellsName(open, if r.Some? then Some(r.value.name) else None, names[|names| - 1]);
    }
  }

  // ---------------------------------------------------------------- all stages

  /**
   At every prefix of a history and for any pending activities, these are the stages recorded:
   the start, what has closed, what is open and what is only pending, in this order.
   */
  lemma RecordedIsShown(
    events: seq<Event>, started: Event, records: seq<Record>, open: Option<Record>, pending: seq<Pending>,
    running: bool)
    requires PrefixOf(events, started, records, open)
    ensures Cores(Recorded(events, running, pending)) == AllShown(started, records, open, pending, running)
  {
    var values := PendingValues(pending);
    HistoryIsShown(events, started, records, open, pending);
    PrefixObserved(events, started, records, open, values);
    ClosedNeverRuns(records);
    var p := ObserveAll(Progress([WorkflowStage(FirstStart(events))], []), events, values);
    hide ObserveAll, ClosedShows, PrefixOf, KeyOf, KnownKey, Shows, PendingValues, WithPending, Cores, StartStage;
    hide ClosedStages, PendingStages, RunningIsAccounted, DescribedAttempt, DescribedNames, Except, NamesBeside, OpenIs;
    ShowsPointwise(p.stages, ClosedShows(records));
    OpenIsShown(p.stages, p.open, open, pending, running);
    PendingOnlyIsShown(WithOpen(p.stages, p.open, running), p.open, pending, running);
    ExceptIsBeside(DescribedNames(pending), p.open, open);
  }

  lemma OpenIsShown(
    stages: seq<ExecutionStage>, open: seq<(int, Activity)>, r: Option<Record>, pending: seq<Pending>,
    running: bool)
    requires NothingRuns(stages) && (r.Some? ==> KnownKey(r.value.name).Some?)
    requires open == if r.Some? then [(r.value.id, Opened(r.value, pending))] else []
    ensures Cores(WithOpen(stages, open, running)) ==
            Cores(stages) + if r.Some? then [OpenShown(r.value, pending, running)] else []
    ensures RunningIsAccounted(WithOpen(stages, open, running), open, [])
    ensures OpenIs(open, if r.Some? then Some(r.value.name) else None)
  {
    OpenRuns(stages, open, running);
    hide KeyOf, KnownKey, AttemptsShown, RunningIsAccounted;
    if r.Some? {
      assert open[..0] == [];
      assert WithOpen(stages, open, running) == Append(stages, OpenStage(open[0].1, running));
      MapConcat(stages, [OpenStage(open[0].1, running).(sequence := |stages| + 1)], Core);
    } else {
      assert Cores(stages) + [] == Cores(stages);
    }
  }

  /**
   The timeline of a workflow that has returned nothing yet shows these stages, numbered from 1;
   while it runs, nothing else but perhaps its finalizing.
   */
  lemma TimelineIsShown(
    events: seq<Event>, started: Event, records: seq<Record>, open: Option<Record>, pending: seq<Pending>,
    running: bool)
    requires PrefixOf(events, started, records, open)
    ensures var timeline := Project(events, running, None, pending);
            var shown := AllShown(started, records, open, pending, running);
            && (timeline.Ok? <==> |shown| <= 64)
            && (timeline.Ok? ==>
                  && |shown| <= |timeline.value| <= |shown| + (if running then 1 else 0)
                  && forall i :: 0 <= i < |shown| ==>
                       timeline.value[i].sequence == i + 1 && Core(timeline.value[i]) == shown[i])
  {
    RecordedIsShown(events, started, records, open, pending, running);
    ProjectedWithoutResult(events, running, pending);
    CoreAt(Recorded(events, running, pending));
    FinalizingIsLast(Recorded(events, running, pending), running);
    hide Recorded, PrefixOf, AllShown, WithFinalizing, Project, Cores, Renumbered;
  }

  lemma ProjectedWithoutResult(events: seq<Event>, running: bool, pending: seq<Pending>)
    ensures var recorded := Recorded(events, running, pending);
            Project(events, running, None, pending) ==
              if |recorded| > 64 then Err(SequenceTooHigh)
              else Ok(Renumbered(FirstOf(WithFinalizing(recorded, running), 64)))
  {
    hide Recorded, WithFinalizing, Renumbered;
  }

  lemma CoreAt(stages: seq<ExecutionStage>)
    ensures |Cores(stages)| == |stages| && forall i :: 0 <= i < |stages| ==> Cores(stages)[i] == Core(stages[i])
  {
  }

  lemma FinalizingIsLast(stages: seq<ExecutionStage>, running: bool)
    ensures stages <= WithFinalizing(stages, running)
    ensures |WithFinalizing(stages, running)| <= |stages| + if running then 1 else 0
  {
  }

  /**
   The stage of the open activity shows the attempt the server described last, or that of its
   recorded start if it is larger; with neither it shows none. Activities that are only pending show
   the attempt described last.
   */
  lemma AttemptsAreShown(
    events: seq<Event>, started: Event, records: seq<Record>, open: Option<Record>, pending: seq<Pending>,
    running: bool)
    requires PrefixOf(events, started, records, open) && Project(events, running, None, pending).Ok?
    ensures var stages := Project(events, running, None, pending).value;
            && (open.Some? ==>
                  && |records| + 1 < |stages| && stages[|records| + 1].key == KeyOf(open.value.name)
                  && stages[|records| + 1].attempts == AttemptsShown(open.value, pending))
            && forall name :: name in Except(DescribedNames(pending), open) ==>
                 exists i :: 0 <= i < |stages| && stages[i].key == KeyOf(name)
                             && stages[i].attempts == DescribedAttempt(pending, name)
  {
    TimelineIsShown(events, started, records, open, pending, running);
    ShownPlaces(started, records, open, pending, running);
    hide Project, PrefixOf, KeyOf, KnownKey, AttemptsShown, DescribedAttempt, DescribedNames, Except, AllShown;
    var stages := Project(events, running, None, pending).value;
    var names := Except(DescribedNames(pending), open);
    var before := 1 + |records| + if open.Some? then 1 else 0;
    forall name | name in names
      ensures exists i :: 0 <= i < |stages| && stages[i].key == KeyOf(name)
                          && stages[i].attempts == DescribedAttempt(pending, name)
    {
      var k :| 0 <= k < |names| && names[k] == name;
      assert Core(stages[before + k]) == AllShown(started, records, open, pending, running)[before + k];
    }
  }

  lemma ShownPlaces(
    started: Event, records: seq<Record>, open: Option<Record>, pending: seq<Pending>, running: bool)
    requires started.WorkflowStarted?
    ensures var shown := AllShown(started, records, open, pending, running);
            var names := Except(DescribedNames(pending), open);
            var before := 1 + |records| + if open.Some? then 1 else 0;
            && |shown| == before + |names|
            && (open.Some? ==> shown[|records| + 1] == OpenShown(open.value, pending, running))
            && forall k :: 0 <= k < |names| ==>
                 shown[before + k].key == KeyOf(names[k])
                 && shown[before + k].attempts == DescribedAttempt(pending, names[k])
  {
    hide KeyOf, KnownKey, AttemptsShown, DescribedAttempt, DescribedNames, Except, StartStage, ClosedStages;
  }
}
