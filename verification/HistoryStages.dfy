/**
 The fold over a history held against the history itself: which event shows which stage, whatever
 activities overlap and whatever their names are.
 */
module HistoryStages {
  import opened Outcomes
  import opened DeploymentModels
  import opened Stages
  import opened StageFacts
  import opened StageShape
  import opened Descriptions
  import opened PendingOnly
  import opened Plans
  import OrderedMaps

  // ---------------------------------------------------------------- an activity, read off the history

  /** The time of the last start recorded for the activity scheduled at position i. */
  function LastStart(events: seq<Event>, i: nat): Option<int>
    requires i < |events|
    decreases |events|
  {
    var last := events[|events| - 1];
    if i == |events| - 1 then None
    else if last.Started? && last.scheduledId == events[i].id then Some(last.time)
    else LastStart(events[..|events| - 1], i)
  }

  /** The largest attempt number among those starts, none less than 1 or more than 100; 0 without a start. */
  function StartedAttempts(events: seq<Event>, i: nat): nat
    requires i < |events|
    decreases |events|
  {
    var last := events[|events| - 1];
    if i == |events| - 1 then 0
    else
      var before := StartedAttempts(events[..|events| - 1], i);
      if last.Started? && last.scheduledId == events[i].id then
        var attempt := if last.attempt < 1 then 1 else if last.attempt > 100 then 100 else last.attempt;
        if attempt > before then attempt else before
      else before
  }

  /** The attempts to show: those described as pending, unless more were started. */
  function AttemptsSoFar(events: seq<Event>, i: nat, pending: seq<Pending>): Option<int>
    requires i < |events| && events[i].Scheduled?
  {
    var described := DescribedAttempt(pending, SafeActivityName(events[i].activity));
    var started := StartedAttempts(events, i);
    if started == 0 then described
    else if described.Some? && described.value > started then described
    else Some(started)
  }

  function ActivityAt(events: seq<Event>, i: nat, pending: seq<Pending>): Activity
    requires i < |events| && events[i].Scheduled?
  {
    Activity(
      ScheduledKey(events[i]), events[i].time, AttemptsSoFar(events, i, pending), LastStart(events, i),
      KnownKey(SafeActivityName(events[i].activity)).Some?)
  }

  /** The activities scheduled before position n and not closed in the whole history, as they were scheduled. */
  function OpenBefore(events: seq<Event>, n: nat, pending: seq<Pending>): seq<(int, Activity)>
    requires n <= |events|
  {
    if n == 0 then []
    else
      OpenBefore(events, n - 1, pending)
      + if StillOpen(events, n - 1) then [(events[n - 1].id, ActivityAt(events, n - 1, pending))] else []
  }

  function OpenNow(events: seq<Event>, pending: seq<Pending>): seq<(int, Activity)> {
    OpenBefore(events, |events|, pending)
  }

  // ---------------------------------------------------------------- one more event

  lemma ReadOn(events: seq<Event>, e: Event, i: nat, pending: seq<Pending>)
    requires i < |events| && events[i].Scheduled?
    ensures !(e.Started? && e.scheduledId == events[i].id) ==>
              ActivityAt(events + [e], i, pending) == ActivityAt(events, i, pending)
  {
    hide DescribedAttempt, SafeActivityName, KnownKey, ScheduledKey;
    assert (events + [e])[..|events|] == events && (events + [e])[i] == events[i];
  }

  lemma AttemptsInOrder(events: seq<Event>, i: nat)
    requires i < |events|
    ensures 0 <= StartedAttempts(events, i) <= 100
  {
  }

  lemma StartRead(events: seq<Event>, e: Event, i: nat, pending: seq<Pending>)
    requires i < |events| && events[i].Scheduled? && e.Started? && e.scheduledId == events[i].id
    ensures ActivityAt(events + [e], i, pending) == StartedActivity(ActivityAt(events, i, pending), e)
  {
    var name := SafeActivityName(events[i].activity);
    AttemptsInOrder(events, i);
    assert DescribedAttempt(pending, name).Some? ==> 1 <= DescribedAttempt(pending, name).value <= 100;
    hide DescribedAttempt, SafeActivityName, KnownKey, ScheduledKey;
    assert (events + [e])[..|events|] == events && (events + [e])[i] == events[i];
  }

  lemma ScheduleRead(events: seq<Event>, e: Event, pending: seq<Pending>)
    requires e.Scheduled?
    ensures StillOpen(events + [e], |events|)
    ensures ActivityAt(events + [e], |events|, pending) == ScheduledActivity(e, PendingValues(pending))
  {
    DescribedIsKept(pending, SafeActivityName(e.activity));
    hide PendingAttempts, SafeActivityName, KnownKey, DescribedAttempt, PendingValues;
    assert (events + [e])[|events|] == e;
  }

  /** Without a start or a close of one of them, the open activities stay as they are. */
  lemma {:induction false} OpenUnmoved(events: seq<Event>, e: Event, n: nat, pending: seq<Pending>)
    requires n <= |events| && !e.Started? && !e.Closed?
    ensures OpenBefore(events + [e], n, pending) == OpenBefore(events, n, pending)
  {
    if n > 0 {
      OpenUnmoved(events, e, n - 1, pending);
      StillOpenGrows(events, e, n - 1);
      assert (events + [e])[n - 1] == events[n - 1];
      hide StillOpen, ActivityAt;
      if events[n - 1].Scheduled? {
        ReadOn(events, e, n - 1, pending);
      }
      ScheduledIfOpen(events, n - 1);
    }
  }

  lemma ScheduledIfOpen(events: seq<Event>, i: nat)
    requires i < |events|
    ensures StillOpen(events, i) ==> events[i].Scheduled?
  {
  }

  function Restarted(open: seq<(int, Activity)>, e: Event): seq<(int, Activity)>
    requires e.Started?
  {
    if open == [] then []
    else
      var last := open[|open| - 1];
      Restarted(open[..|open| - 1], e)
      + [if last.0 == e.scheduledId then (last.0, StartedActivity(last.1, e)) else last]
  }

  function Except(open: seq<(int, Activity)>, id: int): seq<(int, Activity)> {
    if open == [] then []
    else Except(open[..|open| - 1], id) + if open[|open| - 1].0 == id then [] else [open[|open| - 1]]
  }

  lemma RestartedGrows(open: seq<(int, Activity)>, more: seq<(int, Activity)>, e: Event)
    requires e.Started? && |more| <= 1
    ensures Restarted(open + more, e) == Restarted(open, e) + Restarted(more, e)
  {
    hide StartedActivity;
    if more == [] {
      assert open + more == open;
    } else {
      assert (open + more)[..|open + more| - 1] == open && more[..0] == [];
    }
  }

  lemma ExceptGrows(open: seq<(int, Activity)>, more: seq<(int, Activity)>, id: int)
    requires |more| <= 1
    ensures Except(open + more, id) == Except(open, id) + Except(more, id)
  {
    if more == [] {
      assert open + more == open;
    } else {
      assert (open + more)[..|open + more| - 1] == open && more[..0] == [];
    }
  }

  /** What position i adds to the open activities. */
  function OpenAt(events: seq<Event>, i: nat, pending: seq<Pending>): seq<(int, Activity)>
    requires i < |events|
  {
    if StillOpen(events, i) then [(events[i].id, ActivityAt(events, i, pending))] else []
  }

  lemma OneStarted(events: seq<Event>, e: Event, i: nat, pending: seq<Pending>)
    requires i < |events| && e.Started?
    ensures OpenAt(events + [e], i, pending) == Restarted(OpenAt(events, i, pending), e)
  {
    StillOpenGrows(events, e, i);
    ScheduledIfOpen(events, i);
    assert (events + [e])[i] == events[i];
    hide ActivityAt, StartedActivity, StillOpen;
    if StillOpen(events, i) {
      assert OpenAt(events, i, pending)[..0] == [];
      if e.scheduledId == events[i].id {
        StartRead(events, e, i, pending);
      } else {
        ReadOn(events, e, i, pending);
      }
    }
  }

  lemma OneClosed(events: seq<Event>, e: Event, i: nat, pending: seq<Pending>)
    requires i < |events| && e.Closed?
    ensures OpenAt(events + [e], i, pending) == Except(OpenAt(events, i, pending), e.scheduledId)
  {
    StillOpenGrows(events, e, i);
    ScheduledIfOpen(events, i);
    assert (events + [e])[i] == events[i];
    hide ActivityAt, StillOpen;
    if StillOpen(events, i) {
      assert OpenAt(events, i, pending)[..0] == [];
      ReadOn(events, e, i, pending);
    }
  }

  lemma OpenBeforeStep(events: seq<Event>, n: nat, pending: seq<Pending>)
    requires 0 < n <= |events|
    ensures OpenBefore(events, n, pending) == OpenBefore(events, n - 1, pending) + OpenAt(events, n - 1, pending)
  {
    hide StillOpen, ActivityAt;
    ScheduledIfOpen(events, n - 1);
  }

  lemma {:induction false} OpenStarted(events: seq<Event>, e: Event, n: nat, pending: seq<Pending>)
    requires n <= |events| && e.Started?
    ensures OpenBefore(events + [e], n, pending) == Restarted(OpenBefore(events, n, pending), e)
  {
    hide OpenAt, StartedActivity;
    if n > 0 {
      OpenStarted(events, e, n - 1, pending);
      OneStarted(events, e, n - 1, pending);
      OpenBeforeStep(events, n, pending);
      OpenBeforeStep(events + [e], n, pending);
      assert |OpenAt(events, n - 1, pending)| <= 1 by { AtMostOneOpen(events, n - 1, pending); }
      RestartedGrows(OpenBefore(events, n - 1, pending), OpenAt(events, n - 1, pending), e);
    }
  }

  lemma AtMostOneOpen(events: seq<Event>, i: nat, pending: seq<Pending>)
    requires i < |events|
    ensures |OpenAt(events, i, pending)| <= 1
  {
  }

  lemma {:induction false} OpenClosed(events: seq<Event>, e: Event, n: nat, pending: seq<Pending>)
    requires n <= |events| && e.Closed?
    ensures OpenBefore(events + [e], n, pending) == Except(OpenBefore(events, n, pending), e.scheduledId)
  {
    hide OpenAt;
    if n > 0 {
      OpenClosed(events, e, n - 1, pending);
      OneClosed(events, e, n - 1, pending);
      OpenBeforeStep(events, n, pending);
      OpenBeforeStep(events + [e], n, pending);
      AtMostOneOpen(events, n - 1, pending);
      ExceptGrows(OpenBefore(events, n - 1, pending), OpenAt(events, n - 1, pending), e.scheduledId);
    }
  }

  // ---------------------------------------------------------------- the dictionary of open activities

  /** Every open entry is of an activity scheduled before position n. */
  lemma {:induction false} OpenIds(events: seq<Event>, n: nat, pending: seq<Pending>)
    requires n <= |events| && DistinctScheduledIds(events)
    ensures OrderedMaps.DistinctKeys(OpenBefore(events, n, pending))
    ensures forall entry :: entry in OpenBefore(events, n, pending) ==>
              exists i :: 0 <= i < n && events[i].Scheduled? && events[i].id == entry.0
  {
    if n > 0 {
      OpenIds(events, n - 1, pending);
      ScheduledIfOpen(events, n - 1);
      hide StillOpen, ActivityAt;
      var before := OpenBefore(events, n - 1, pending);
      if StillOpen(events, n - 1) {
        forall k | 0 <= k < |before| ensures before[k].0 != events[n - 1].id {
          assert before[k] in before;
        }
      }
    }
  }

  lemma ExceptAbsent(open: seq<(int, Activity)>, id: int)
    requires forall k :: 0 <= k < |open| ==> open[k].0 != id
    ensures Except(open, id) == open
  {
    if open != [] {
      ExceptAbsent(open[..|open| - 1], id);
    }
  }

  lemma {:induction false} ExceptIsDrop(open: seq<(int, Activity)>, id: int)
    requires OrderedMaps.DistinctKeys(open)
    ensures Except(open, id) == OrderedMaps.Drop(open, id)
  {
    if open != [] {
      var init, last := open[..|open| - 1], open[|open| - 1];
      assert open == init + [last];
      ExceptIsDrop(init, id);
      IndexInMore(init, last, id);
      if last.0 == id {
        ExceptAbsent(init, id);
        assert OrderedMaps.Drop(open, id) == init + [];
      }
    }
  }

  lemma {:induction false} IndexInMore(m: seq<(int, Activity)>, e: (int, Activity), x: int)
    ensures OrderedMaps.IndexOf(m + [e], x) ==
            if OrderedMaps.Has(m, x) then OrderedMaps.IndexOf(m, x) else if e.0 == x then |m| else |m| + 1
  {
    if m != [] {
      assert (m + [e])[1..] == m[1..] + [e];
      IndexInMore(m[1..], e, x);
    } else {
      assert [] + [e] == [e];
    }
  }

  lemma {:induction false} RestartedAt(open: seq<(int, Activity)>, e: Event)
    requires e.Started?
    ensures |Restarted(open, e)| == |open|
    ensures forall k :: 0 <= k < |open| ==>
              Restarted(open, e)[k] ==
                if open[k].0 == e.scheduledId then (open[k].0, StartedActivity(open[k].1, e)) else open[k]
  {
    if open != [] {
      hide StartedActivity;
      RestartedAt(open[..|open| - 1], e);
    }
  }

  lemma RestartedIsPut(open: seq<(int, Activity)>, e: Event)
    requires e.Started? && OrderedMaps.DistinctKeys(open)
    ensures Restarted(open, e) ==
            if OrderedMaps.Has(open, e.scheduledId)
            then OrderedMaps.Put(open, e.scheduledId, StartedActivity(OrderedMaps.Get(open, e.scheduledId), e))
            else open
  {
    RestartedAt(open, e);
    hide StartedActivity, Restarted;
  }

  lemma PutAbsent(open: seq<(int, Activity)>, id: int, a: Activity)
    requires forall k :: 0 <= k < |open| ==> open[k].0 != id
    ensures OrderedMaps.Put(open, id, a) == open + [(id, a)]
  {
  }

  // ---------------------------------------------------------------- which event shows which stage

  /** The position at which the activity of this ID was scheduled, unless it has closed since. */
  function OpenedAt(events: seq<Event>, id: int): Option<nat> {
    if events == [] then None
    else
      var last := events[|events| - 1];
      if last.Scheduled? && last.id == id then Some(|events| - 1)
      else if last.Closed? && last.scheduledId == id then None
      else OpenedAt(events[..|events| - 1], id)
  }

  lemma {:induction false} OpenedIsScheduled(events: seq<Event>, id: int)
    ensures OpenedAt(events, id).Some? ==>
              && OpenedAt(events, id).value < |events|
              && events[OpenedAt(events, id).value].Scheduled? && events[OpenedAt(events, id).value].id == id
  {
    if events != [] {
      OpenedIsScheduled(events[..|events| - 1], id);
    }
  }

  /** The stage of an activity that closes. */
  function ClosedShown(events: seq<Event>, i: nat, e: Event, pending: seq<Pending>): ExecutionStage
    requires i < |events| && events[i].Scheduled? && e.Closed?
  {
    var known := KnownKey(SafeActivityName(events[i].activity)).Some?;
    var started := LastStart(events, i);
    ExecutionStage(
      0, ScheduledKey(events[i]),
      match e.close
      case CanceledClose => StageUnknown
      case CompletedClose => if known then StageCompleted else StageUnknown
      case FailedClose => if known then StageFailed else StageUnknown
      case TimedOutClose => if known then StageFailed else StageUnknown,
      Some(events[i].time), started, Some(e.time),
      if started.None? then None
      else if e.time <= started.value then Some(0) else Some((e.time - started.value) / 1000),
      AttemptsSoFar(events, i, pending), None)
  }

  /** What one more event shows: an activity that closes, or an event of unknown type. */
  function Shown(events: seq<Event>, e: Event, pending: seq<Pending>): seq<ExecutionStage> {
    if e.UnknownEvent? then
      [ExecutionStage(0, UnknownKey("event-" + SafeActivityName(e.typeName)), StageUnknown, Some(e.time), None, None,
          None, None, None)]
    else if e.Closed? && OpenedAt(events, e.scheduledId).Some? then
      OpenedIsScheduled(events, e.scheduledId);
      [ClosedShown(events, OpenedAt(events, e.scheduledId).value, e, pending)]
    else []
  }

  function ShownBy(events: seq<Event>, pending: seq<Pending>): seq<ExecutionStage> {
    if events == [] then []
    else
      var init := events[..|events| - 1];
      ShownBy(init, pending) + Shown(init, events[|events| - 1], pending)
  }

  /** Failed and timed out activities of known name are marked as failed, and no other stage is. */
  predicate Categorised(stages: seq<ExecutionStage>) {
    forall k :: 0 <= k < |stages| ==>
      stages[k].category == if stages[k].status == StageFailed then Some(ActivityFailed) else None
  }

  lemma {:induction false} OpenMember(events: seq<Event>, n: nat, i: nat, pending: seq<Pending>)
    requires i < n <= |events| && StillOpen(events, i)
    ensures (events[i].id, ActivityAt(events, i, pending)) in OpenBefore(events, n, pending)
  {
    hide StillOpen, ActivityAt;
    ScheduledIfOpen(events, i);
    OpenBeforeStep(events, n, pending);
    if i < n - 1 {
      OpenMember(events, n - 1, i, pending);
    } else {
      assert OpenAt(events, i, pending) == [(events[i].id, ActivityAt(events, i, pending))];
    }
  }

  lemma {:induction false} OpenIsOf(events: seq<Event>, n: nat, k: nat, pending: seq<Pending>) returns (i: nat)
    requires n <= |events| && k < |OpenBefore(events, n, pending)|
    ensures i < n && StillOpen(events, i) && events[i].Scheduled?
    ensures OpenBefore(events, n, pending)[k] == (events[i].id, ActivityAt(events, i, pending))
  {
    hide StillOpen, ActivityAt;
    ScheduledIfOpen(events, n - 1);
    if k < |OpenBefore(events, n - 1, pending)| {
      i := OpenIsOf(events, n - 1, k, pending);
    } else {
      i := n - 1;
    }
  }

  lemma {:induction false} OpenedIsOpen(events: seq<Event>, id: int, i: nat)
    requires DistinctScheduledIds(events)
    ensures OpenedAt(events, id) == Some(i) <==> i < |events| && StillOpen(events, i) && events[i].id == id
  {
    if events != [] {
      var init, last := events[..|events| - 1], events[|events| - 1];
      assert events == init + [last];
      DistinctBefore(init, last);
      OpenedIsOpen(init, id, i);
      OpenedIsScheduled(events, id);
      if i < |init| {
        StillOpenGrows(init, last, i);
      }
      hide OpenedAt;
    }
  }

  /** What the dictionary of open activities has under an ID is the activity that is open under it. */
  lemma OpenLookup(events: seq<Event>, id: int, pending: seq<Pending>)
    requires DistinctScheduledIds(events)
    ensures OrderedMaps.Has(OpenNow(events, pending), id) <==> OpenedAt(events, id).Some?
    ensures OpenedAt(events, id).Some? ==>
              && OpenedAt(events, id).value < |events| && events[OpenedAt(events, id).value].Scheduled?
              && OrderedMaps.Get(OpenNow(events, pending), id) ==
                   ActivityAt(events, OpenedAt(events, id).value, pending)
  {
    var open := OpenNow(events, pending);
    OpenIds(events, |events|, pending);
    OpenedIsScheduled(events, id);
    hide ActivityAt, StillOpen, OpenBefore, DistinctScheduledIds, OpenedAt;
    if OrderedMaps.Has(open, id) {
      var i := OpenIsOf(events, |events|, OrderedMaps.IndexOf(open, id), pending);
      OpenedIsOpen(events, id, i);
    }
    if OpenedAt(events, id).Some? {
      var i := OpenedAt(events, id).value;
      OpenedIsOpen(events, id, i);
      OpenMember(events, |events|, i, pending);
      var k :| 0 <= k < |open| && open[k] == (id, ActivityAt(events, i, pending));
      assert open[OrderedMaps.IndexOf(open, id)].0 == id;
      assert OrderedMaps.IndexOf(open, id) == k;
    }
  }

  lemma ClosingShows(events: seq<Event>, i: nat, e: Event, pending: seq<Pending>)
    requires i < |events| && events[i].Scheduled? && e.Closed?
    ensures Core(ClosedStage(ActivityAt(events, i, pending), e)) == ClosedShown(events, i, e, pending)
    ensures Categorised([ClosedStage(ActivityAt(events, i, pending), e)])
  {
    hide ScheduledKey, LastStart, AttemptsSoFar, SafeActivityName, KnownKey;
  }

  lemma AppendShows(stages: seq<ExecutionStage>, stage: ExecutionStage)
    ensures Cores(Append(stages, stage)) == Cores(stages) + [Core(stage)]
    ensures Categorised(stages) && Categorised([stage]) ==> Categorised(Append(stages, stage))
  {
    MapConcat(stages, [stage.(sequence := |stages| + 1)], Core);
    if Categorised(stages) && Categorised([stage]) {
      assert [stage][0] == stage;
    }
  }

  lemma ObserveShows(p: Progress, events: seq<Event>, e: Event, pending: seq<Pending>)
    requires DistinctScheduledIds(events + [e]) && p.open == OpenNow(events, pending)
    ensures var q := Observe(p, e, PendingValues(pending));
            && Cores(q.stages) == Cores(p.stages) + Shown(events, e, pending)
            && (Categorised(p.stages) ==> Categorised(q.stages))
  {
    DistinctBefore(events, e);
    assert Cores(p.stages) + [] == Cores(p.stages);
    hide Cores, Categorised, ActivityAt, ClosedStage, ClosedShown, OpenedAt, DistinctScheduledIds, OpenNow;
    hide OrderedMaps.Has, OrderedMaps.Get, OrderedMaps.Put, OrderedMaps.Drop, ScheduledActivity, StartedActivity;
    hide PendingValues, SafeActivityName, Append;
    if e.Closed? {
      OpenLookup(events, e.scheduledId, pending);
      if OpenedAt(events, e.scheduledId).Some? {
        var i := OpenedAt(events, e.scheduledId).value;
        ClosingShows(events, i, e, pending);
        AppendShows(p.stages, ClosedStage(ActivityAt(events, i, pending), e));
      }
    } else if e.UnknownEvent? {
      assert Categorised([UnknownEventStage(e)]) by { UnknownIsNotFailed(e); }
      AppendShows(p.stages, UnknownEventStage(e));
    }
  }

  lemma UnknownIsNotFailed(e: Event)
    requires e.UnknownEvent?
    ensures Categorised([UnknownEventStage(e)])
  {
    hide SafeActivityName;
  }

  lemma ObserveOpens(p: Progress, events: seq<Event>, e: Event, pending: seq<Pending>)
    requires DistinctScheduledIds(events + [e]) && p.open == OpenNow(events, pending)
    ensures Observe(p, e, PendingValues(pending)).open == OpenNow(events + [e], pending)
  {
    DistinctBefore(events, e);
    OpenIds(events, |events|, pending);
    var open := OpenNow(events, pending);
    var more := events + [e];
    assert more[|events|] == e;
    OpenBeforeStep(more, |more|, pending);
    NotOpenedNow(events, e, pending);
    hide ActivityAt, StillOpen, OpenBefore, ScheduledActivity, StartedActivity, ClosedStage, UnknownEventStage;
    hide PendingValues, OrderedMaps.Drop, OrderedMaps.Put, OrderedMaps.Has;
    match e
    case Scheduled(id, time, activity) =>
      OpenUnmoved(events, e, |events|, pending);
      ScheduleRead(events, e, pending);
      NewId(events, e, pending);
      PutAbsent(open, id, ScheduledActivity(e, PendingValues(pending)));
    case Started(_, _, id, _) =>
      OpenStarted(events, e, |events|, pending);
      RestartedIsPut(open, e);
    case Closed(_, _, id, _) =>
      OpenClosed(events, e, |events|, pending);
      ExceptIsDrop(open, id);
      DropAbsent(open, id);
    case UnknownEvent(_, _, _) => OpenUnmoved(events, e, |events|, pending);
    case _ => OpenUnmoved(events, e, |events|, pending);
  }

  lemma DropAbsent(open: seq<(int, Activity)>, id: int)
    ensures !OrderedMaps.Has(open, id) ==> OrderedMaps.Drop(open, id) == open
  {
  }

  lemma NotOpenedNow(events: seq<Event>, e: Event, pending: seq<Pending>)
    ensures !e.Scheduled? ==> OpenAt(events + [e], |events|, pending) == []
    ensures e.Scheduled? ==>
              OpenAt(events + [e], |events|, pending) == [(e.id, ActivityAt(events + [e], |events|, pending))]
  {
    assert (events + [e])[|events|] == e;
    hide ActivityAt;
  }

  lemma NewId(events: seq<Event>, e: Event, pending: seq<Pending>)
    requires DistinctScheduledIds(events + [e]) && e.Scheduled?
    ensures var open := OpenNow(events, pending); forall k :: 0 <= k < |open| ==> open[k].0 != e.id
  {
    DistinctBefore(events, e);
    OpenIds(events, |events|, pending);
    var open, more := OpenNow(events, pending), events + [e];
    hide OpenBefore;
    forall k | 0 <= k < |open| ensures open[k].0 != e.id {
      assert open[k] in open;
      var i :| 0 <= i < |events| && events[i].Scheduled? && events[i].id == open[k].0;
      assert more[i] == events[i] && more[|events|] == e;
    }
  }

  /** The fold, event by event: stages in the order in which they close, open activities as they were scheduled. */
  lemma {:induction false} FoldShows(begin: Progress, events: seq<Event>, pending: seq<Pending>)
    requires begin.open == [] && DistinctScheduledIds(events)
    ensures var p := ObserveAll(begin, events, PendingValues(pending));
            && Cores(p.stages) == Cores(begin.stages) + ShownBy(events, pending)
            && p.open == OpenNow(events, pending)
            && (Categorised(begin.stages) ==> Categorised(p.stages))
  {
    if events == [] {
      assert Cores(begin.stages) + [] == Cores(begin.stages);
    } else {
      hide Cores, Categorised, OpenNow, Observe, Shown, DistinctScheduledIds, PendingValues;
      var init, last := events[..|events| - 1], events[|events| - 1];
      assert events == init + [last];
      DistinctBefore(init, last);
      FoldShows(begin, init, pending);
      var p := ObserveAll(begin, init, PendingValues(pending));
      ObserveShows(p, init, last, pending);
      ObserveOpens(p, init, last, pending);
      StagesAssociate(Cores(begin.stages), ShownBy(init, pending), Shown(init, last, pending));
    }
  }

  lemma StagesAssociate(a: seq<ExecutionStage>, b: seq<ExecutionStage>, c: seq<ExecutionStage>)
    ensures a + b + c == a + (b + c)
  {
  }

  // ---------------------------------------------------------------- the whole timeline

  function StartShown(events: seq<Event>): ExecutionStage {
    var start := FirstStart(events);
    ExecutionStage(0, WorkflowKey, if start.Some? then StageCompleted else StageUnknown, None, start, None, None, None,
        None)
  }

  /** An activity that has not closed: running if its name is known and the execution runs. */
  function StillShown(running: bool): ((int, Activity)) -> ExecutionStage {
    (entry: (int, Activity)) =>
      ExecutionStage(
        0, entry.1.key, if entry.1.known && running then StageRunning else StageUnknown, Some(entry.1.scheduledAt),
        entry.1.startedAt, None, None, entry.1.attempts, None)
  }

  lemma {:induction false} OpenAppended(stages: seq<ExecutionStage>, open: seq<(int, Activity)>, running: bool)
    ensures Cores(WithOpen(stages, open, running)) == Cores(stages) + Map(open, StillShown(running))
    ensures Categorised(stages) ==> Categorised(WithOpen(stages, open, running))
  {
    if open == [] {
      assert Cores(stages) + [] == Cores(stages);
    } else {
      hide Cores, Categorised, Append, Map, OpenStage;
      var init, last := open[..|open| - 1], open[|open| - 1];
      assert open == init + [last];
      OpenAppended(stages, init, running);
      OpenIsNotFailed(last.1, running);
      AppendShows(WithOpen(stages, init, running), OpenStage(last.1, running));
      MapConcat(init, [last], StillShown(running));
      StillIsOpen(last, running);
    }
  }

  lemma StillIsOpen(entry: (int, Activity), running: bool)
    ensures Map([entry], StillShown(running)) == [Core(OpenStage(entry.1, running))]
  {
    assert [entry][1..] == [];
  }

  lemma OpenIsNotFailed(a: Activity, running: bool)
    ensures Categorised([OpenStage(a, running)])
  {
  }

  lemma NotFailed(stage: ExecutionStage)
    requires stage.status != StageFailed && stage.category.None?
    ensures Categorised([stage])
  {
  }

  lemma {:induction false} PendingCategorised(
    stages: seq<ExecutionStage>, open: seq<(int, Activity)>, values: PendingMap, running: bool)
    requires Categorised(stages)
    ensures Categorised(WithPending(stages, open, values, running))
  {
    hide Categorised, Append, KeyIsOpen, HasRunning;
    if values != [] {
      var init, entry := values[..|values| - 1], values[|values| - 1];
      PendingCategorised(stages, open, init, running);
      NotFailed(PendingStage(entry.0, entry.1, running));
      AppendShows(WithPending(stages, open, init, running), PendingStage(entry.0, entry.1, running));
    }
  }

  /** The stages of a history, each with what it says. */
  function AllShown(events: seq<Event>, running: bool, pending: seq<Pending>): seq<ExecutionStage> {
    [StartShown(events)] + ShownBy(events, pending) + Map(OpenNow(events, pending), StillShown(running))
    + Map(NamesBeside(DescribedNames(pending), OpenNow(events, pending)), PendingStages(pending, running))
  }

  /**
   Of any history with distinct event IDs the projection records: the start, a stage for each activity
   that closes and each event of unknown type, in the order of those events, the activities not
   closed, in the order they were scheduled, and those only pending, in the order described. Times and
   attempts are those read off the history, and exactly the failed stages have a category.
   */
  lemma RecordedIsRead(events: seq<Event>, running: bool, pending: seq<Pending>)
    requires DistinctScheduledIds(events)
    ensures Cores(Recorded(events, running, pending)) == AllShown(events, running, pending)
    ensures Categorised(Recorded(events, running, pending))
  {
    var values, begin := PendingValues(pending), Progress([WorkflowStage(FirstStart(events))], []);
    FoldShows(begin, events, pending);
    assert Cores(begin.stages) == [StartShown(events)];
    assert Categorised(begin.stages);
    HistoryDoesNotRun(begin, events, values);
    hide ObserveAll, Cores, OpenNow, StartShown, ShownBy, WithOpen, WithPending, PendingValues, Categorised;
    hide RunningIsAccounted, WorkflowStage, NamesBeside;
    var p := ObserveAll(begin, events, values);
    OpenAppended(p.stages, p.open, running);
    OpenRuns(p.stages, p.open, running);
    PendingCategorised(WithOpen(p.stages, p.open, running), p.open, values, running);
    PendingOnlyIsShown(WithOpen(p.stages, p.open, running), p.open, pending, running);
  }
}
