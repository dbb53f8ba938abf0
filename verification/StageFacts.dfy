/**
 What the timeline conserves: one stage per activity, unknown event and pending entry, in order,
 numbered and within bounds.
 */
module StageFacts {
  import opened Outcomes
  import opened DeploymentModels
  import opened Stages
  import opened Plans
  import OrderedMaps

  // ---------------------------------------------------------------- one stage for each thing that happened

  function KeyOfStage(s: ExecutionStage): Key {
    s.key
  }

  function KeyOfOpen(entry: (int, Activity)): Key {
    entry.1.key
  }

  function Keys(stages: seq<ExecutionStage>): seq<Key> {
    Map(stages, KeyOfStage)
  }

  function OpenKeys(open: seq<(int, Activity)>): seq<Key> {
    Map(open, KeyOfOpen)
  }

  /** The stage an activity is shown as when its scheduling is read. */
  function ScheduledKey(e: Event): Key
    requires e.Scheduled?
  {
    var name := SafeActivityName(e.activity);
    if KnownKey(name).Some? then KnownKey(name).value else UnknownKey(name)
  }

  /** What an event contributes to the timeline, whenever its activity closes. */
  function Contribution(e: Event): seq<Key> {
    if e.Scheduled? then [ScheduledKey(e)]
    else if e.UnknownEvent? then [UnknownKey("event-" + SafeActivityName(e.typeName))]
    else []
  }

  function Contributions(events: seq<Event>): seq<Key> {
    FlatMap(events, Contribution)
  }

  predicate DistinctScheduledIds(events: seq<Event>) {
    forall i, j :: 0 <= i < j < |events| && events[i].Scheduled? && events[j].Scheduled? ==>
        events[i].id != events[j].id
  }

  /** The activity scheduled at position i has not closed since. */
  predicate StillOpen(events: seq<Event>, i: nat)
    requires i < |events|
  {
    events[i].Scheduled? && forall j :: i < j < |events| && events[j].Closed? ==> events[j].scheduledId != events[i].id
  }

  /** Position i of the history accounts for an open entry. */
  predicate Accounts(events: seq<Event>, i: nat, entry: (int, Activity))
    requires i < |events|
  {
    StillOpen(events, i) && events[i].id == entry.0 && ScheduledKey(events[i]) == entry.1.key
  }

  predicate Accounted(events: seq<Event>, entry: (int, Activity)) {
    exists i :: 0 <= i < |events| && Accounts(events, i, entry)
  }

  predicate Covered(events: seq<Event>, i: nat, open: seq<(int, Activity)>)
    requires i < |events|
  {
    StillOpen(events, i) ==> OrderedMaps.Has(open, events[i].id)
  }

  /** The open activities are exactly those scheduled and not closed since, under their stage's key. */
  ghost predicate OpenIsAccurate(events: seq<Event>, open: seq<(int, Activity)>) {
    && OrderedMaps.DistinctKeys(open)
    && (forall k :: 0 <= k < |open| ==> Accounted(events, open[k]))
    && (forall i :: 0 <= i < |events| ==> Covered(events, i, open))
  }

  lemma MapPut(open: seq<(int, Activity)>, id: int, a: Activity)
    ensures !OrderedMaps.Has(open, id) ==> OpenKeys(OrderedMaps.Put(open, id, a)) == OpenKeys(open) + [a.key]
    ensures OrderedMaps.Has(open, id) && OrderedMaps.Get(open, id).key == a.key ==>
              OpenKeys(OrderedMaps.Put(open, id, a)) == OpenKeys(open)
  {
    if !OrderedMaps.Has(open, id) {
      MapConcat(open, [(id, a)], KeyOfOpen);
    }
  }

  lemma MapDrop(open: seq<(int, Activity)>, id: int)
    requires OrderedMaps.Has(open, id)
    ensures multiset(OpenKeys(open)) ==
            multiset(OpenKeys(OrderedMaps.Drop(open, id))) + multiset{OrderedMaps.Get(open, id).key}
  {
    var i := OrderedMaps.IndexOf(open, id);
    assert open == open[..i] + [open[i]] + open[i + 1..];
    MapConcat(open[..i] + [open[i]], open[i + 1..], KeyOfOpen);
    MapConcat(open[..i], [open[i]], KeyOfOpen);
    MapConcat(open[..i], open[i + 1..], KeyOfOpen);
    assert Map([open[i]], KeyOfOpen) == [open[i].1.key];
  }

  lemma MapAppend(stages: seq<ExecutionStage>, stage: ExecutionStage)
    ensures Keys(Append(stages, stage)) == Keys(stages) + [stage.key]
  {
    MapConcat(stages, [stage.(sequence := |stages| + 1)], KeyOfStage);
  }

  lemma KeysKept(a: Activity, e: Event, pending: PendingMap)
    ensures e.Scheduled? ==> ScheduledActivity(e, pending).key == ScheduledKey(e)
    ensures e.Started? ==> StartedActivity(a, e).key == a.key
    ensures e.Closed? ==> ClosedStage(a, e).key == a.key
    ensures e.UnknownEvent? ==> [UnknownEventStage(e).key] == Contribution(e)
  {
    hide PendingAttempts, SafeActivityName, KnownKey;
  }

  function Holdings(p: Progress): multiset<Key> {
    multiset(Keys(p.stages)) + multiset(OpenKeys(p.open))
  }

  lemma OpeningConserves(stages: seq<ExecutionStage>, open: seq<(int, Activity)>, id: int, a: Activity)
    requires !OrderedMaps.Has(open, id)
    ensures Holdings(Progress(stages, OrderedMaps.Put(open, id, a))) ==
            Holdings(Progress(stages, open)) + multiset{a.key}
  {
    hide Keys, OpenKeys, OrderedMaps.Put;
    MapPut(open, id, a);
  }

  lemma ClosingConserves(
    stages: seq<ExecutionStage>, open: seq<(int, Activity)>, id: int, stage: ExecutionStage
  )
    requires OrderedMaps.Has(open, id) && stage.key == OrderedMaps.Get(open, id).key
    ensures Holdings(Progress(Append(stages, stage), OrderedMaps.Drop(open, id))) == Holdings(Progress(stages, open))
  {
    hide Keys, OpenKeys, Append, OrderedMaps.Drop;
    MapAppend(stages, stage);
    MapDrop(open, id);
  }

  /** The stages and the open activities together hold one key per contribution. */
  lemma ObserveConserves(p: Progress, e: Event, pending: PendingMap)
    requires e.Scheduled? ==> !OrderedMaps.Has(p.open, e.id)
    ensures Holdings(Observe(p, e, pending)) == Holdings(p) + multiset(Contribution(e))
  {
    hide PendingAttempts, SafeActivityName, KnownKey, Append, OrderedMaps.Put, OrderedMaps.Drop, OrderedMaps.Get;
    hide OrderedMaps.Has;
    hide Keys, OpenKeys, ScheduledActivity, StartedActivity, ClosedStage, UnknownEventStage, ScheduledKey;
    match e
    case Scheduled(id, _, _) =>
      KeysKept(ScheduledActivity(e, pending), e, pending);
      OpeningConserves(p.stages, p.open, id, ScheduledActivity(e, pending));
    case Started(_, _, id, _) =>
      if OrderedMaps.Has(p.open, id) {
        KeysKept(OrderedMaps.Get(p.open, id), e, pending);
        MapPut(p.open, id, StartedActivity(OrderedMaps.Get(p.open, id), e));
      }
    case Closed(_, _, id, _) =>
      if OrderedMaps.Has(p.open, id) {
        KeysKept(OrderedMaps.Get(p.open, id), e, pending);
        ClosingConserves(p.stages, p.open, id, ClosedStage(OrderedMaps.Get(p.open, id), e));
      }
    case UnknownEvent(_, _, _) =>
      KeysKept(Activity(WorkflowKey, 0, None, None, true), e, pending);
      MapAppend(p.stages, UnknownEventStage(e));
    case _ =>
  }

  lemma StillOpenGrows(events: seq<Event>, e: Event, i: nat)
    requires i < |events|
    ensures StillOpen(events + [e], i) <==> StillOpen(events, i) && !(e.Closed? && e.scheduledId == events[i].id)
  {
    var more := events + [e];
    assert more[i] == events[i] && more[|events|] == e;
    if StillOpen(events, i) && !(e.Closed? && e.scheduledId == events[i].id) {
      assert forall j :: i < j < |events| ==> more[j] == events[j];
    }
    if StillOpen(more, i) {
      forall j | i < j < |events| && events[j].Closed? ensures events[j].scheduledId != events[i].id {
        assert more[j] == events[j];
      }
    }
  }

  lemma ScheduledOpens(events: seq<Event>, open: seq<(int, Activity)>, e: Event, a: Activity)
    requires OpenIsAccurate(events, open) && DistinctScheduledIds(events + [e]) && e.Scheduled?
             && a.key == ScheduledKey(e)
    ensures !OrderedMaps.Has(open, e.id)
    ensures OpenIsAccurate(events + [e], OrderedMaps.Put(open, e.id, a))
  {
    hide ScheduledKey;
    var more := events + [e];
    assert more[|events|] == e;
    forall i | 0 <= i < |events| && events[i].Scheduled? ensures events[i].id != e.id {
      assert more[i] == events[i];
    }
    if OrderedMaps.Has(open, e.id) {
      assert Accounted(events, open[OrderedMaps.IndexOf(open, e.id)]);
    }
    var open' := OrderedMaps.Put(open, e.id, a);
    OrderedMaps.PutKeepsDistinct(open, e.id, a);
    forall k | 0 <= k < |open'| ensures Accounted(more, open'[k]) {
      if k < |open| {
        assert Accounted(events, open[k]);
        var i :| 0 <= i < |events| && Accounts(events, i, open[k]);
        StillOpenGrows(events, e, i);
        assert Accounts(more, i, open'[k]);
      } else {
        assert Accounts(more, |events|, open'[k]);
      }
    }
    forall i | 0 <= i < |more| ensures Covered(more, i, open') {
      if i < |events| {
        StillOpenGrows(events, e, i);
        assert Covered(events, i, open);
      }
    }
  }

  /**
   An event that neither schedules nor closes an open activity leaves the open ones as they are, up
   to their details.
   */
  lemma OpenStays(events: seq<Event>, open: seq<(int, Activity)>, e: Event, open': seq<(int, Activity)>)
    requires OpenIsAccurate(events, open) && !e.Scheduled? && (e.Closed? ==> !OrderedMaps.Has(open, e.scheduledId))
    requires |open'| == |open| && forall k :: 0 <= k < |open| ==>
             open'[k].0 == open[k].0 && open'[k].1.key == open[k].1.key
    ensures OpenIsAccurate(events + [e], open')
  {
    hide ScheduledKey;
    var more := events + [e];
    assert more[|events|] == e;
    forall k | 0 <= k < |open'| ensures Accounted(more, open'[k]) {
      assert Accounted(events, open[k]);
      var i :| 0 <= i < |events| && Accounts(events, i, open[k]);
      StillOpenGrows(events, e, i);
      assert Accounts(more, i, open'[k]);
    }
    forall i | 0 <= i < |more| ensures Covered(more, i, open') {
      if i < |events| && StillOpen(more, i) {
        StillOpenGrows(events, e, i);
        assert Covered(events, i, open);
        var k := OrderedMaps.IndexOf(open, more[i].id);
        assert open'[k].0 == more[i].id;
      }
    }
  }

  lemma ClosingDrops(events: seq<Event>, open: seq<(int, Activity)>, e: Event)
    requires OpenIsAccurate(events, open) && e.Closed? && OrderedMaps.Has(open, e.scheduledId)
    ensures OpenIsAccurate(events + [e], OrderedMaps.Drop(open, e.scheduledId))
  {
    hide ScheduledKey;
    var more, at := events + [e], OrderedMaps.IndexOf(open, e.scheduledId);
    var open' := OrderedMaps.Drop(open, e.scheduledId);
    OrderedMaps.DropKeepsDistinct(open, e.scheduledId);
    forall k | 0 <= k < |open'| ensures Accounted(more, open'[k]) {
      var j := if k < at then k else k + 1;
      assert Accounted(events, open[j]);
      var i :| 0 <= i < |events| && Accounts(events, i, open[j]);
      StillOpenGrows(events, e, i);
      assert open[j].0 != e.scheduledId;
      assert Accounts(more, i, open'[k]);
    }
    assert more[|events|] == e;
    forall i | 0 <= i < |more| ensures Covered(more, i, open') {
      if i < |events| {
        StillOpenGrows(events, e, i);
        assert Covered(events, i, open);
      }
    }
  }

  lemma ObserveIsAccurate(events: seq<Event>, p: Progress, e: Event, pending: PendingMap)
    requires OpenIsAccurate(events, p.open) && DistinctScheduledIds(events + [e])
    ensures OpenIsAccurate(events + [e], Observe(p, e, pending).open)
    ensures e.Scheduled? ==> !OrderedMaps.Has(p.open, e.id)
  {
    hide PendingAttempts, ScheduledActivity, StartedActivity, ClosedStage, ScheduledKey, OpenIsAccurate;
    hide DistinctScheduledIds;
    match e
    case Scheduled(id, _, _) =>
      KeysKept(ScheduledActivity(e, pending), e, pending);
      ScheduledOpens(events, p.open, e, ScheduledActivity(e, pending));
    case Started(_, _, id, _) =>
      if OrderedMaps.Has(p.open, id) {
        KeysKept(OrderedMaps.Get(p.open, id), e, pending);
      }
      OpenStays(events, p.open, e, Observe(p, e, pending).open);
    case Closed(_, _, id, _) =>
      if OrderedMaps.Has(p.open, id) {
        ClosingDrops(events, p.open, e);
      } else {
        OpenStays(events, p.open, e, p.open);
      }
    case _ => OpenStays(events, p.open, e, p.open);
  }

  lemma ContributionsGrow(events: seq<Event>, e: Event)
    ensures Contributions(events + [e]) == Contributions(events) + Contribution(e)
  {
    hide Contribution;
    FlatMapConcat(events, [e], Contribution);
    assert FlatMap([e], Contribution) == Contribution(e) + [];
  }

  lemma NothingObserved(p: Progress)
    requires p.open == []
    ensures OpenIsAccurate([], p.open) && Holdings(p) == multiset(Keys(p.stages)) + multiset(Contributions([]))
  {
  }

  lemma ObserveOneMore(p: Progress, init: seq<Event>, last: Event, pending: PendingMap)
    requires DistinctScheduledIds(init + [last]) && OpenIsAccurate(init, p.open)
    ensures var q := Observe(p, last, pending);
            OpenIsAccurate(init + [last], q.open) && Holdings(q) == Holdings(p) + multiset(Contribution(last))
  {
    hide Observe, OpenIsAccurate, Holdings, Contribution;
    ObserveIsAccurate(init, p, last, pending);
    ObserveConserves(p, last, pending);
  }

  lemma DistinctBefore(init: seq<Event>, last: Event)
    requires DistinctScheduledIds(init + [last])
    ensures DistinctScheduledIds(init)
  {
    assert forall i :: 0 <= i < |init| ==> init[i] == (init + [last])[i];
  }

  /** Over a whole history: the open activities are accurate and every contribution is held once. */
  lemma {:induction false} HistoryConserves(p: Progress, events: seq<Event>, pending: PendingMap)
    requires p.open == [] && DistinctScheduledIds(events)
    ensures var q := ObserveAll(p, events, pending);
            OpenIsAccurate(events, q.open) && Holdings(q) == multiset(Keys(p.stages)) + multiset(Contributions(events))
  {
    hide Observe, OpenIsAccurate, Holdings, Contribution, Contributions, DistinctScheduledIds, Keys;
    if events == [] {
      NothingObserved(p);
    } else {
      var init, last := events[..|events| - 1], events[|events| - 1];
      assert events == init + [last];
      DistinctBefore(init, last);
      HistoryConserves(p, init, pending);
      ContributionsGrow(init, last);
      ObserveOneMore(ObserveAll(p, init, pending), init, last, pending);
    }
  }

  // ---------------------------------------------------------------- entries that are only pending

  /** Some activity of this stage is scheduled and has not closed since. */
  ghost predicate IsOpen(events: seq<Event>, key: Key) {
    exists i :: 0 <= i < |events| && StillOpen(events, i) && ScheduledKey(events[i]) == key
  }

  /** The stages of the pending activities the history does not hold open. */
  ghost function PendingOnly(events: seq<Event>, pending: PendingMap): seq<Key> {
    if pending == [] then []
    else
      var key := KeyOf(pending[|pending| - 1].0);
      PendingOnly(events, pending[..|pending| - 1]) + (if IsOpen(events, key) then [] else [key])
  }

  lemma OpenExactlyWhen(events: seq<Event>, open: seq<(int, Activity)>, key: Key)
    requires OpenIsAccurate(events, open) && DistinctScheduledIds(events)
    ensures KeyIsOpen(open, key) <==> IsOpen(events, key)
  {
    hide ScheduledKey;
    if k :| 0 <= k < |open| && open[k].1.key == key {
      assert Accounted(events, open[k]);
    }
    if i :| 0 <= i < |events| && StillOpen(events, i) && ScheduledKey(events[i]) == key {
      assert Covered(events, i, open);
      var k := OrderedMaps.IndexOf(open, events[i].id);
      assert Accounted(events, open[k]);
    }
  }

  lemma KnownKeyInjective(a: string, b: string)
    requires KnownKey(a).Some? && KnownKey(a) == KnownKey(b)
    ensures a == b
  {
  }

  lemma KnownKeysAreStages(name: string)
    ensures KnownKey(name).Some? ==> !KnownKey(name).value.UnknownKey? && KnownKey(name).value != WorkflowKey
  {
  }

  /** Every running stage is that of an open activity, or of a known one among these pending entries. */
  predicate RunningIsAccounted(stages: seq<ExecutionStage>, open: seq<(int, Activity)>, pending: PendingMap) {
    forall i :: 0 <= i < |stages| && stages[i].status == StageRunning ==>
      KeyIsOpen(open, stages[i].key) || (exists j ::
          0 <= j < |pending| && KnownKey(pending[j].0) == Some(stages[i].key))
  }

  predicate NothingRuns(stages: seq<ExecutionStage>) {
    forall i :: 0 <= i < |stages| ==> stages[i].status != StageRunning
  }

  lemma {:induction false} HistoryDoesNotRun(p: Progress, events: seq<Event>, pending: PendingMap)
    requires NothingRuns(p.stages)
    ensures NothingRuns(ObserveAll(p, events, pending).stages)
  {
    if events != [] {
      hide ScheduledActivity, StartedActivity, SafeActivityName;
      HistoryDoesNotRun(p, events[..|events| - 1], pending);
    }
  }

  lemma {:induction false} OpenRuns(stages: seq<ExecutionStage>, open: seq<(int, Activity)>, running: bool)
    requires NothingRuns(stages)
    ensures RunningIsAccounted(WithOpen(stages, open, running), open, [])
    ensures Keys(WithOpen(stages, open, running)) == Keys(stages) + OpenKeys(open)
    ensures !running ==> NothingRuns(WithOpen(stages, open, running))
  {
    if open != [] {
      var init, last := open[..|open| - 1], open[|open| - 1];
      assert open == init + [last];
      OpenRuns(stages, init, running);
      MapConcat(init, [last], KeyOfOpen);
      MapAppend(WithOpen(stages, init, running), OpenStage(last.1, running));
      OpenStageRuns(stages, open, running);
    }
  }

  lemma OpenStageRuns(stages: seq<ExecutionStage>, open: seq<(int, Activity)>, running: bool)
    requires open != [] && RunningIsAccounted(WithOpen(stages, open[..|open| - 1], running), open[..|open| - 1], [])
    ensures RunningIsAccounted(WithOpen(stages, open, running), open, [])
  {
    var before, after := WithOpen(stages, open[..|open| - 1], running), WithOpen(stages, open, running);
    forall i | 0 <= i < |after| && after[i].status == StageRunning ensures KeyIsOpen(open, after[i].key) {
      if i < |before| {
        assert after[i] == before[i];
        assert KeyIsOpen(open[..|open| - 1], before[i].key);
        var k :| 0 <= k < |open| - 1 && open[..|open| - 1][k].1.key == before[i].key;
        assert open[k].1.key == after[i].key;
      } else {
        assert open[|open| - 1].1.key == after[i].key;
      }
    }
  }

  /**
   A pending entry is passed over exactly when its activity is open: the check for a stage
   already running never decides anything on its own.
   */
  lemma SecondGuardIsRedundant(
    stages: seq<ExecutionStage>, open: seq<(int, Activity)>, pending: PendingMap, entry: (string, Option<int>))
    requires RunningIsAccounted(stages, open, pending) && OrderedMaps.DistinctKeys(pending + [entry])
    ensures HasRunning(stages, KeyOf(entry.0)) ==> KeyIsOpen(open, KeyOf(entry.0))
  {
    hide KeyIsOpen, SafeActivityName, KnownKey;
    forall j | 0 <= j < |pending| ensures pending[j].0 != entry.0 {
      assert (pending + [entry])[j] == pending[j] && (pending + [entry])[|pending|] == entry;
    }
    if HasRunning(stages, KeyOf(entry.0)) && !KeyIsOpen(open, KeyOf(entry.0)) {
      var i :| 0 <= i < |stages| && stages[i].key == KeyOf(entry.0) && stages[i].status == StageRunning;
      var j :| 0 <= j < |pending| && KnownKey(pending[j].0) == Some(stages[i].key);
      KnownKeysAreStages(pending[j].0);
      KnownKeyInjective(pending[j].0, entry.0);
    }
  }

  lemma {:induction false} PendingAdds(
    events: seq<Event>, stages: seq<ExecutionStage>, open: seq<(int, Activity)>, pending: PendingMap, running: bool)
    requires OpenIsAccurate(events, open) && DistinctScheduledIds(events)
    requires RunningIsAccounted(stages, open, []) && OrderedMaps.DistinctKeys(pending)
    ensures RunningIsAccounted(WithPending(stages, open, pending, running), open, pending)
    ensures Keys(WithPending(stages, open, pending, running)) == Keys(stages) + PendingOnly(events, pending)
    ensures !running && NothingRuns(stages) ==> NothingRuns(WithPending(stages, open, pending, running))
  {
    if pending != [] {
      hide OpenIsAccurate, DistinctScheduledIds, KeyIsOpen, IsOpen, SafeActivityName, KnownKey, HasRunning;
      var init, entry := pending[..|pending| - 1], pending[|pending| - 1];
      assert pending == init + [entry];
      PendingAdds(events, stages, open, init, running);
      var before := WithPending(stages, open, init, running);
      SecondGuardIsRedundant(before, open, init, entry);
      OpenExactlyWhen(events, open, KeyOf(entry.0));
      if !KeyIsOpen(open, KeyOf(entry.0)) {
        MapAppend(before, PendingStage(entry.0, entry.1, running));
      }
      PendingRuns(before, open, init, entry, running);
    }
  }

  lemma PendingRuns(
    stages: seq<ExecutionStage>, open: seq<(int, Activity)>, pending: PendingMap, entry: (string, Option<int>),
        running: bool)
    requires RunningIsAccounted(stages, open, pending)
    ensures RunningIsAccounted(AddPending(stages, open, entry, running), open, pending + [entry])
  {
    hide KeyIsOpen, SafeActivityName, KnownKey, HasRunning;
    var after, all := AddPending(stages, open, entry, running), pending + [entry];
    forall i | 0 <= i < |after| && after[i].status == StageRunning
      ensures KeyIsOpen(open, after[i].key) || exists j :: 0 <= j < |all| && KnownKey(all[j].0) == Some(after[i].key)
    {
      if i < |stages| {
        assert after[i] == stages[i];
        if !KeyIsOpen(open, stages[i].key) {
          var j :| 0 <= j < |pending| && KnownKey(pending[j].0) == Some(stages[i].key);
          assert all[j] == pending[j];
        }
      } else {
        assert all[|pending|] == entry;
      }
    }
  }

  lemma {:induction false} PendingNamesAreDistinct(pending: seq<Pending>)
    ensures OrderedMaps.DistinctKeys(PendingValues(pending))
  {
    if pending != [] {
      PendingNamesAreDistinct(pending[..|pending| - 1]);
      var last := pending[|pending| - 1];
      if last.activity.Some? {
        OrderedMaps.PutKeepsDistinct(PendingValues(pending[..|pending| - 1]), last.activity.value,
                                     if last.attempt.Some? then Some(Clamp(last.attempt.value)) else None);
      }
    }
  }

  /**
   One stage for the workflow and exactly one for each scheduled activity, each unknown event
   and each entry that is only pending, whatever closes, and in whatever order.
   */
  lemma RecordedConserves(events: seq<Event>, running: bool, pending: seq<Pending>)
    requires DistinctScheduledIds(events)
    ensures multiset(Keys(Recorded(events, running, pending)))
            == multiset{WorkflowKey} + multiset(Contributions(events)) + multiset(PendingOnly(events,
                PendingValues(pending)))
    ensures !running ==> NothingRuns(Recorded(events, running, pending))
  {
    hide ObserveAll, WithOpen, WithPending, PendingOnly, PendingValues, Contributions, OpenIsAccurate;
    hide RunningIsAccounted;
    var values, start := PendingValues(pending), [WorkflowStage(FirstStart(events))];
    var p := ObserveAll(Progress(start, []), events, values);
    HistoryConserves(Progress(start, []), events, values);
    assert Keys(start) == [WorkflowKey];
    assert NothingRuns(start);
    HistoryDoesNotRun(Progress(start, []), events, values);
    OpenRuns(p.stages, p.open, running);
    PendingNamesAreDistinct(pending);
    PendingAdds(events, WithOpen(p.stages, p.open, running), p.open, values, running);
  }

  /** Without a timeline exactly when there are more than 64 things to show. */
  lemma FailsExactlyWhen(events: seq<Event>, running: bool, result: Option<FailedResult>, pending: seq<Pending>)
    requires DistinctScheduledIds(events)
    ensures Project(events, running, result, pending).Err? <==>
              1 + |Contributions(events)| + |PendingOnly(events, PendingValues(pending))| > 64
  {
    RecordedConserves(events, running, pending);
    hide Recorded, Contributions, PendingOnly, PendingValues, FillIn, WithFinalizing;
    assert |multiset(Keys(Recorded(events, running, pending)))| == |Recorded(events, running, pending)|;
  }
}
