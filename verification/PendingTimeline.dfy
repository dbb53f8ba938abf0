/**
 What a running workflow's timeline shows as running, for any pending activities the server
 described, however the history moved on since.
 */
module PendingTimeline {
  import opened Outcomes
  import opened DeploymentModels
  import opened Stages
  import opened StageFacts
  import opened Timeline
  import opened RunningTimeline
  import opened HistoryPrefixes
  import opened Plans
  import OrderedMaps
  import Workflow

  function RunningKeys(stages: seq<ExecutionStage>): set<Key> {
    set s | s in stages && s.status == StageRunning :: s.key
  }

  /** No two running stages have the same key. */
  predicate RunsApart(stages: seq<ExecutionStage>) {
    forall i, j :: 0 <= i < j < |stages| && stages[i].status == StageRunning && stages[j].status == StageRunning ==>
      stages[i].key != stages[j].key
  }

  /** The stages of the known activities among the described ones; those of other names never run. */
  function PendingKeys(pending: seq<Pending>): set<Key> {
    set p | p in pending && p.activity.Some? && KnownKey(p.activity.value).Some? :: KeyOf(p.activity.value)
  }

  function OpenKey(open: Option<Record>): set<Key> {
    if open.Some? then {KeyOf(open.value.name)} else {}
  }

  // ---------------------------------------------------------------- running stages and their keys

  lemma SmallSet<T>(s: set<T>, x: T, y: T)
    requires |s| <= 1 && x in s && y in s
    ensures x == y
  {
    var rest := s - {x};
    assert |rest| == 0;
    assert y !in rest;
  }

  lemma TwoElements<T>(s: set<T>) returns (x: T, y: T)
    requires |s| > 1
    ensures x in s && y in s && x != y
  {
    x :| x in s;
    assert |s - {x}| == |s| - 1 > 0;
    assert s - {x} != {};
    y :| y in s - {x};
  }

  lemma FewKeysFewStages(stages: seq<ExecutionStage>)
    requires RunsApart(stages)
    ensures AtMostOneRuns(stages) <==> |RunningKeys(stages)| <= 1
  {
    if |RunningKeys(stages)| <= 1 {
      forall i, j | 0 <= i < j < |stages| && stages[i].status == StageRunning && stages[j].status == StageRunning
        ensures false
      {
        SmallSet(RunningKeys(stages), stages[i].key, stages[j].key);
      }
    } else {
      var x, y := TwoElements(RunningKeys(stages));
      var i :| 0 <= i < |stages| && stages[i].status == StageRunning && stages[i].key == x;
      var j :| 0 <= j < |stages| && stages[j].status == StageRunning && stages[j].key == y;
      assert i < j || j < i;
    }
  }

  lemma NothingRunsNoKeys(stages: seq<ExecutionStage>)
    ensures NothingRuns(stages) <==> RunningKeys(stages) == {}
    ensures NothingRuns(stages) ==> RunsApart(stages) && AtMostOneRuns(stages)
  {
    forall i | 0 <= i < |stages| && stages[i].status == StageRunning ensures stages[i].key in RunningKeys(stages) {
    }
  }

  lemma AppendRuns(stages: seq<ExecutionStage>, stage: ExecutionStage)
    requires RunsApart(stages) && (stage.status == StageRunning ==> !HasRunning(stages, stage.key))
    ensures RunsApart(Append(stages, stage))
    ensures RunningKeys(Append(stages, stage)) ==
            RunningKeys(stages) + if stage.status == StageRunning then {stage.key} else {}
  {
    var last, all := stage.(sequence := |stages| + 1), Append(stages, stage);
    assert all == stages + [last];
    assert forall s :: s in all <==> s in stages || s == last;
    assert last.status == StageRunning ==> last.key in RunningKeys(all);
    assert RunningKeys(all) <= RunningKeys(stages) + if stage.status == StageRunning then {stage.key} else {};
  }

  lemma RunningHasKey(stages: seq<ExecutionStage>, key: Key)
    ensures HasRunning(stages, key) <==> key in RunningKeys(stages)
  {
    if key in RunningKeys(stages) {
      var s :| s in stages && s.status == StageRunning && s.key == key;
      var i :| 0 <= i < |stages| && stages[i] == s;
    }
  }

  // ---------------------------------------------------------------- the pending entries

  function KnownOf(name: string): set<Key> {
    if KnownKey(name).Some? then {KeyOf(name)} else {}
  }

  /** The stages of the known names among these entries. */
  function KnownAmong(values: PendingMap): set<Key> {
    if values == [] then {} else KnownAmong(values[..|values| - 1]) + KnownOf(values[|values| - 1].0)
  }

  /** A pending entry adds a running stage exactly when its activity is known and not shown as running already. */
  lemma OneMorePending(stages: seq<ExecutionStage>, open: seq<(int, Activity)>, entry: (string, Option<int>))
    requires RunsApart(stages)
    requires forall i :: 0 <= i < |open| ==> open[i].1.key in RunningKeys(stages)
    ensures var r := AddPending(stages, open, entry, true);
            && RunsApart(r) && RunningKeys(r) == RunningKeys(stages) + KnownOf(entry.0)
            && |r| <= |stages| + 1
  {
    hide KnownKey, RunsApart, RunningKeys, SafeActivityName;
    RunningHasKey(stages, KeyOf(entry.0));
    if KeyIsOpen(open, KeyOf(entry.0)) || HasRunning(stages, KeyOf(entry.0)) {
      assert KeyOf(entry.0) in RunningKeys(stages);
    } else {
      AppendRuns(stages, PendingStage(entry.0, entry.1, true));
    }
  }

  lemma {:induction false} PendingRun(stages: seq<ExecutionStage>, open: seq<(int, Activity)>, values: PendingMap)
    requires RunsApart(stages)
    requires forall i :: 0 <= i < |open| ==> open[i].1.key in RunningKeys(stages)
    ensures var r := WithPending(stages, open, values, true);
            && RunsApart(r) && RunningKeys(r) == RunningKeys(stages) + KnownAmong(values)
            && |r| <= |stages| + |values|
  {
    if values != [] {
      hide KnownOf, RunsApart, RunningKeys, AddPending;
      PendingRun(stages, open, values[..|values| - 1]);
      OneMorePending(WithPending(stages, open, values[..|values| - 1], true), open, values[|values| - 1]);
    }
  }

  lemma {:induction false} KnownAmongMember(values: PendingMap, key: Key)
    ensures key in KnownAmong(values) <==> exists i :: 0 <= i < |values| && key in KnownOf(values[i].0)
  {
    hide KnownOf;
    if values != [] {
      var init := values[..|values| - 1];
      KnownAmongMember(init, key);
      if i :| 0 <= i < |values| && key in KnownOf(values[i].0) {
        assert i < |init| ==> init[i] == values[i];
      }
    }
  }

  lemma PutNames(m: PendingMap, name: string, v: Option<int>)
    ensures KnownAmong(OrderedMaps.Put(m, name, v)) == KnownAmong(m) + KnownOf(name)
    ensures |OrderedMaps.Put(m, name, v)| <= |m| + 1
  {
    hide KnownOf;
    var p := OrderedMaps.Put(m, name, v);
    if OrderedMaps.Has(m, name) {
      var at := OrderedMaps.IndexOf(m, name);
      forall key ensures key in KnownAmong(p) <==> key in KnownAmong(m) + KnownOf(name) {
        KnownAmongMember(p, key);
        KnownAmongMember(m, key);
        assert forall i :: 0 <= i < |m| ==> p[i].0 == m[i].0;
        assert m[at].0 == name;
      }
    } else {
      assert p[..|p| - 1] == m;
    }
  }

  /** What counts of the described activities is which known ones are among them. */
  lemma {:induction false} PendingNames(pending: seq<Pending>)
    ensures KnownAmong(PendingValues(pending)) == PendingKeys(pending)
    ensures |PendingValues(pending)| <= |pending|
  {
    if pending != [] {
      var init, last := pending[..|pending| - 1], pending[|pending| - 1];
      PendingNames(init);
      if last.activity.Some? {
        PutNames(PendingValues(init), last.activity.value,
                 if last.attempt.Some? then Some(Clamp(last.attempt.value)) else None);
      }
      hide KnownKey, KeyOf, KnownAmong, PendingValues;
      LastOfPending(init, last);
      assert pending == init + [last];
    }
  }

  lemma LastOfPending(init: seq<Pending>, last: Pending)
    ensures PendingKeys(init + [last]) ==
            PendingKeys(init) + if last.activity.Some? then KnownOf(last.activity.value) else {}
  {
    hide KnownKey, KeyOf;
    assert forall p :: p in init + [last] <==> p in init || p == last;
  }

  // ---------------------------------------------------------------- the timeline

  lemma RecordedRuns(
    events: seq<Event>, started: Event, records: seq<Record>, open: Option<Record>, pending: seq<Pending>)
    requires PrefixOf(events, started, records, open)
    ensures var r := Recorded(events, true, pending);
            && RunsApart(r) && RunningKeys(r) == OpenKey(open) + PendingKeys(pending)
            && |r| <= 1 + |records| + 1 + |pending|
  {
    var values := PendingValues(pending);
    PrefixObserved(events, started, records, open, values);
    var p := ObserveAll(Progress([WorkflowStage(FirstStart(events))], []), events, values);
    ClosedNeverRuns(records);
    hide ObserveAll, ClosedShows, PrefixOf, KeyOf, RunsApart, RunningKeys, Shows, PendingValues, WithPending;
    hide PendingKeys, KnownAmong;
    ShowsPointwise(p.stages, ClosedShows(records));
    NothingRunsNoKeys(p.stages);
    PendingNames(pending);
    if open.Some? {
      RunningHasKey(p.stages, KeyOf(open.value.name));
      AppendRuns(p.stages, OpenStage(p.open[0].1, true));
      assert p.open[..0] == [];
      assert WithOpen(p.stages, p.open, true) == Append(p.stages, OpenStage(p.open[0].1, true));
    }
    PendingRun(WithOpen(p.stages, p.open, true), p.open, values);
  }

  lemma NumberingKeepsRunning(stages: seq<ExecutionStage>)
    ensures AtMostOneRuns(Renumbered(stages)) <==> AtMostOneRuns(stages)
  {
    var r := Renumbered(stages);
    assert forall i :: 0 <= i < |r| ==> r[i].status == stages[i].status;
  }

  lemma FinalizingAlone(stages: seq<ExecutionStage>)
    requires NothingRuns(stages)
    ensures AtMostOneRuns(FirstOf(WithFinalizing(stages, true), MAX_STAGES))
  {
    hide IsFinalizing;
  }

  /**
   Whatever the server described as pending, and whenever, at most one stage is shown as running
   exactly when the open activity and the known pending ones are at most one activity in all.
   */
  lemma RunningExactlyWhen(
    events: seq<Event>, started: Event, records: seq<Record>, open: Option<Record>, pending: seq<Pending>)
    requires PrefixOf(events, started, records, open)
    requires Project(events, true, None, pending).Ok?
    ensures AtMostOneRuns(Project(events, true, None, pending).value) <==>
              |OpenKey(open) + PendingKeys(pending)| <= 1
  {
    RecordedRuns(events, started, records, open, pending);
    var recorded := Recorded(events, true, pending);
    hide Recorded, PrefixOf, OpenKey, PendingKeys, RunsApart, RunningKeys, HasCompleted;
    NothingRunsNoKeys(recorded);
    FewKeysFewStages(recorded);
    if NothingRuns(recorded) {
      FinalizingAlone(recorded);
      NumberingKeepsRunning(FirstOf(WithFinalizing(recorded, true), MAX_STAGES));
    } else {
      assert IsActive(recorded);
      NumberingKeepsRunning(recorded);
    }
  }

  /** So too at every prefix of every run's history, from its start on. */
  lemma RunningOfRunsExactlyWhen(
    events: seq<Event>, started: Event, records: seq<Record>, request: DeployRequest, world: Workflow.World, k: nat,
    pending: seq<Pending>)
    requires HistoryOf(events, started, records) && RecordsRun(records, request, world)
    requires k <= |events| && started in events[..k]
    requires Project(events[..k], true, None, pending).Ok?
    ensures AtMostOneRuns(Project(events[..k], true, None, pending).value) <==>
              |OpenKey(OpenAt(events, records, k)) + PendingKeys(pending)| <= 1
  {
    PrefixesOfRuns(events, started, records, request, world, k);
    var (done, open) := ProgressAt(events, records, k);
    hide *;
    RunningExactlyWhen(events[..k], started, done, open, pending);
  }

  lemma ConsistentIsSmall(pending: seq<Pending>, open: Option<Record>)
    requires Consistent(pending, open)
    ensures |OpenKey(open) + PendingKeys(pending)| <= 1
  {
    hide KnownKey, KeyOf;
    assert PendingKeys(pending) <= OpenKey(open);
    assert OpenKey(open) + PendingKeys(pending) == OpenKey(open);
  }

  lemma ShortPendingProjects(
    events: seq<Event>, started: Event, records: seq<Record>, open: Option<Record>, pending: seq<Pending>)
    requires PrefixOf(events, started, records, open) && |pending| <= 58
    ensures Project(events, true, None, pending).Ok?
  {
    RecordedRuns(events, started, records, open, pending);
    hide Recorded;
  }

  /** At every prefix of a run's history, with a pending set described at that moment, at most one stage is running. */
  lemma AtMostOneStageRuns(
    events: seq<Event>, started: Event, records: seq<Record>, request: DeployRequest, world: Workflow.World, k: nat,
    pending: seq<Pending>)
    requires HistoryOf(events, started, records) && RecordsRun(records, request, world)
    requires k <= |events| && started in events[..k] && Consistent(pending, OpenAt(events, records, k))
    ensures Project(events[..k], true, None, pending).Ok?
    ensures AtMostOneRuns(Project(events[..k], true, None, pending).value)
  {
    PrefixesOfRuns(events, started, records, request, world, k);
    ConsistentIsSmall(pending, OpenAt(events, records, k));
    var (done, open) := ProgressAt(events, records, k);
    ShortPendingProjects(events[..k], started, done, open, pending);
    hide *;
    RunningExactlyWhen(events[..k], started, done, open, pending);
  }

  // ---------------------------------------------------------------- a description older than the history

  const PREPARED := Record(PREPARE_NAME, CompletedClose, 1, 5, 10, Some((6, 11)), 7, 12)
  const DEPLOYING := Record(DEPLOY_NAME, CompletedClose, 1, 11, 13, None, 0, 0)

  /** Prepare has closed and deploy is scheduled. */
  function HistoryBetween(): seq<Event> {
    [WorkflowStarted(1, 0), Scheduled(5, 10, PREPARE_NAME), Started(6, 11, 5, 1), Closed(7, 12, 5, CompletedClose),
     Scheduled(11, 13, DEPLOY_NAME)]
  }

  lemma {:induction false} AllSignificant(events: seq<Event>)
    requires forall e :: e in events ==> !e.Other?
    ensures Significant(events) == events
  {
    if events != [] {
      AllSignificant(events[..|events| - 1]);
    }
  }

  lemma BetweenIsAPrefix()
    ensures PrefixOf(HistoryBetween(), WorkflowStarted(1, 0), [PREPARED], Some(DEPLOYING))
  {
    KnownActivities();
    hide KnownKey;
    AllSignificant(HistoryBetween());
    assert FlatMap([PREPARED], EventsOf) == EventsOf(PREPARED) + FlatMap([], EventsOf);
    assert EventsOf(PREPARED) == HistoryBetween()[1..4];
    assert Opening(DEPLOYING) == HistoryBetween()[4..];
  }

  /**
   The server is asked what is pending while prepare runs, and for the history after deploy was
   scheduled: both are shown as running.
   */
  lemma StalePendingShowsTwo()
    ensures var pending := [Pending(Some(PREPARE_NAME), Some(1))];
            && PrefixOf(HistoryBetween(), WorkflowStarted(1, 0), [PREPARED], Some(DEPLOYING))
            && Project(HistoryBetween(), true, None, pending).Ok?
            && !AtMostOneRuns(Project(HistoryBetween(), true, None, pending).value)
  {
    var start, open, pending := WorkflowStarted(1, 0), Some(DEPLOYING), [Pending(Some(PREPARE_NAME), Some(1))];
    KnownActivities();
    BetweenIsAPrefix();
    hide PrefixOf, KnownKey, Project, HistoryBetween;
    ShortPendingProjects(HistoryBetween(), start, [PREPARED], open, pending);
    RunningExactlyWhen(HistoryBetween(), start, [PREPARED], open, pending);
    assert pending[0] in pending;
    var keys := OpenKey(open) + PendingKeys(pending);
    assert PrepareKey in keys && DeployKey in keys;
    if |keys| <= 1 {
      SmallSet(keys, PrepareKey, DeployKey);
    }
  }
}
