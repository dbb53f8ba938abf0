/** Every prefix of a run's history: activities that have closed, and perhaps one that is open. */
module HistoryPrefixes {
  import opened Outcomes
  import opened DeploymentModels
  import opened Stages
  import opened Timeline
  import opened RunningTimeline
  import opened Plans
  import Workflow

  /** What the first n events of these activities amount to: those that closed, and the one left open. */
  function Progressed(records: seq<Record>, n: nat): (seq<Record>, Option<Record>) {
    if n == 0 || records == [] then ([], None)
    else
      var r := records[0];
      if n < |EventsOf(r)| then ([], Some(if n == 1 then r.(started := None) else r))
      else
        var rest := Progressed(records[1..], n - |EventsOf(r)|);
        ([r] + rest.0, rest.1)
  }

  /** The activities the first k events of a history show as closed, and the one they show as open. */
  function ProgressAt(events: seq<Event>, records: seq<Record>, k: nat): (seq<Record>, Option<Record>)
    requires k <= |events|
  {
    var n := |Significant(events[..k])|;
    Progressed(records, if n == 0 then 0 else n - 1)
  }

  function OpenAt(events: seq<Event>, records: seq<Record>, k: nat): Option<Record>
    requires k <= |events|
  {
    ProgressAt(events, records, k).1
  }

  /** The events of the activities that closed, and the opening of the one that did not. */
  function EventsSoFar(done: seq<Record>, open: Option<Record>): seq<Event> {
    FlatMap(done, EventsOf) + (if open.Some? then Opening(open.value) else [])
  }

  lemma PartOfOne(r: Record, n: nat)
    requires 0 < n < |EventsOf(r)|
    ensures EventsOf(r)[..n] == Opening(if n == 1 then r.(started := None) else r)
  {
  }

  lemma FirstRecord(r: Record, done: seq<Record>, open: Option<Record>)
    ensures EventsSoFar([r] + done, open) == EventsOf(r) + EventsSoFar(done, open)
  {
    hide EventsOf, Opening;
    assert ([r] + done)[1..] == done;
  }

  lemma {:induction false} CutEvents(records: seq<Record>, n: nat)
    requires n <= |FlatMap(records, EventsOf)|
    ensures var (done, open) := Progressed(records, n);
            && FlatMap(records, EventsOf)[..n] == EventsSoFar(done, open)
            && done <= records
            && (open.Some? ==>
                  |done| < |records| && open.value.(started := None) == records[|done|].(started := None))
    decreases |records|
  {
    if n > 0 && records != [] {
      var r, rest := records[0], FlatMap(records[1..], EventsOf);
      hide EventsOf, Opening;
      if n < |EventsOf(r)| {
        PartOfOne(r, n);
        assert (EventsOf(r) + rest)[..n] == EventsOf(r)[..n];
      } else {
        CutEvents(records[1..], n - |EventsOf(r)|);
        var (done, open) := Progressed(records[1..], n - |EventsOf(r)|);
        hide Progressed;
        FirstRecord(r, done, open);
        assert (EventsOf(r) + rest)[..n] == EventsOf(r) + rest[..n - |EventsOf(r)|];
      }
    }
  }

  lemma {:induction false} SignificantGrows(events: seq<Event>, k: nat)
    requires k <= |events|
    ensures Significant(events[..k]) <= Significant(events)
  {
    if k < |events| {
      SignificantGrows(events[..|events| - 1], k);
      assert events[..|events| - 1][..k] == events[..k];
    } else {
      assert events[..k] == events;
    }
  }

  lemma {:induction false} SignificantEvents(events: seq<Event>, e: Event)
    requires e in events && !e.Other?
    ensures e in Significant(events)
  {
    var last := events[|events| - 1];
    if e != last {
      SignificantEvents(events[..|events| - 1], e);
    }
  }

  lemma KnownSoFar(records: seq<Record>, done: seq<Record>, open: Option<Record>)
    requires KnownNames(records) && done <= records
    requires open.Some? ==> |done| < |records| && open.value.(started := None) == records[|done|].(started := None)
    ensures KnownNames(done) && (open.Some? ==> KnownKey(open.value.name).Some?)
  {
    hide KnownKey;
    assert forall r :: r in done ==> r in records;
    assert open.Some? ==> records[|done|] in records;
  }

  lemma FewActivities(records: seq<Record>, request: DeployRequest, world: Workflow.World)
    requires RecordsRun(records, request, world)
    ensures |records| <= 4 && KnownNames(records)
  {
    ActivitiesAreKnown(records, request, world);
    hide Workflow.Prepares, Workflow.Deploys, Workflow.Validates, Workflow.Publishes, Workflow.Deployed, KnownNames;
  }

  lemma CutSignificant(events: seq<Event>, started: Event, all: seq<Event>, k: nat)
    requires k <= |events| && started in events[..k] && started.WorkflowStarted?
    requires Significant(events) == [started] + all
    ensures 0 < |Significant(events[..k])| <= 1 + |all|
    ensures Significant(events[..k]) == [started] + all[..|Significant(events[..k])| - 1]
  {
    SignificantGrows(events, k);
    SignificantEvents(events[..k], started);
    hide Significant;
    var n := |Significant(events[..k])|;
    assert Significant(events[..k]) == ([started] + all)[..n];
  }

  /** What is significant so far, event by event. */
  lemma SignificantSoFar(events: seq<Event>, started: Event, records: seq<Record>, k: nat)
    requires HistoryOf(events, started, records) && k <= |events| && started in events[..k]
    ensures var (done, open) := ProgressAt(events, records, k);
            && Significant(events[..k]) == [started] + EventsSoFar(done, open)
            && done <= records
            && (open.Some? ==>
                  |done| < |records| && open.value.(started := None) == records[|done|].(started := None))
  {
    hide EventsOf, Significant, FlatMap, Progressed, EventsSoFar;
    var all := FlatMap(records, EventsOf);
    CutSignificant(events, started, all, k);
    CutEvents(records, |Significant(events[..k])| - 1);
  }

  /** From its start on, every prefix of a run's history has this shape. */
  lemma PrefixesOfRuns(
    events: seq<Event>, started: Event, records: seq<Record>, request: DeployRequest, world: Workflow.World, k: nat)
    requires HistoryOf(events, started, records) && RecordsRun(records, request, world)
    requires k <= |events| && started in events[..k]
    ensures var (done, open) := ProgressAt(events, records, k);
            PrefixOf(events[..k], started, done, open) && done <= records
  {
    FewActivities(records, request, world);
    SignificantSoFar(events, started, records, k);
    var (done, open) := ProgressAt(events, records, k);
    hide RecordsRun, KnownNames, EventsOf, Opening, KnownKey, Significant, FlatMap, ProgressAt;
    KnownSoFar(records, done, open);
    var opening := if open.Some? then Opening(open.value) else [];
    assert [started] + (FlatMap(done, EventsOf) + opening) == [started] + FlatMap(done, EventsOf) + opening;
  }
}
