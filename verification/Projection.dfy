/**
 The projection as the service runs it: lists and dicts grown and popped in loops, failing as soon
 as a stage is numbered past 64.
 */
module Projection {
  import opened Outcomes
  import opened DeploymentModels
  import opened Stages
  import OrderedMaps

  lemma {:induction false} ObserveExtends(p: Progress, events: seq<Event>, pending: PendingMap, i: nat)
    requires i <= |events|
    ensures ObserveAll(p, events[..i], pending).stages <= ObserveAll(p, events, pending).stages
  {
    if i == |events| {
      assert events[..i] == events;
    } else {
      assert events[..|events| - 1][..i] == events[..i];
      ObserveExtends(p, events[..|events| - 1], pending, i);
    }
  }

  lemma {:induction false} OpenExtends(stages: seq<ExecutionStage>, open: seq<(int, Activity)>, running: bool, i: nat)
    requires i <= |open|
    ensures WithOpen(stages, open[..i], running) <= WithOpen(stages, open, running)
  {
    if i == |open| {
      assert open[..i] == open;
    } else {
      assert open[..|open| - 1][..i] == open[..i];
      OpenExtends(stages, open[..|open| - 1], running, i);
    }
  }

  lemma {:induction false} PendingExtends(
    stages: seq<ExecutionStage>, open: seq<(int, Activity)>, pending: PendingMap, running: bool, i: nat)
    requires i <= |pending|
    ensures WithPending(stages, open, pending[..i], running) <= WithPending(stages, open, pending, running)
  {
    if i == |pending| {
      assert pending[..i] == pending;
    } else {
      assert pending[..|pending| - 1][..i] == pending[..i];
      PendingExtends(stages, open, pending[..|pending| - 1], running, i);
    }
  }

  method CollectPending(pending: seq<Pending>) returns (values: PendingMap)
    ensures values == PendingValues(pending)
  {
    values := [];
    for i := 0 to |pending|
      invariant values == PendingValues(pending[..i])
    {
      assert pending[..i + 1][..i] == pending[..i];
      var item := pending[i];
      if item.activity.Some? {
        values := OrderedMaps.Put(values, item.activity.value,
            if item.attempt.Some? then Some(Clamp(item.attempt.value)) else None);
      }
    }
    assert pending[..|pending|] == pending;
  }

  /** Constructs the next stage, whose number may not exceed 64. */
  method Construct(
    stages: seq<ExecutionStage>, stage: ExecutionStage) returns (r: Result<seq<ExecutionStage>, Rejected>)
    ensures r == if |stages| + 1 > MAX_STAGES then Err(SequenceTooHigh) else Ok(Append(stages, stage))
  {
    if |stages| + 1 > MAX_STAGES {
      return Err(SequenceTooHigh);
    }
    return Ok(stages + [stage.(sequence := |stages| + 1)]);
  }

  function Bounded(p: Progress): Result<Progress, Rejected> {
    if |p.stages| > MAX_STAGES then Err(SequenceTooHigh) else Ok(p)
  }

  method CollectEvents(events: seq<Event>, pending: PendingMap) returns (r: Result<Progress, Rejected>)
    ensures r == Bounded(ObserveAll(Progress([WorkflowStage(FirstStart(events))], []), events, pending))
  {
    hide ScheduledActivity, StartedActivity, ClosedStage, UnknownEventStage, WorkflowStage, FirstStart;
    ghost var begin := Progress([WorkflowStage(FirstStart(events))], []);
    var p := Progress([WorkflowStage(FirstStart(events))], []);
    for i := 0 to |events|
      invariant p == ObserveAll(begin, events[..i], pending) && |p.stages| <= MAX_STAGES
    {
      assert events[..i + 1][..i] == events[..i];
      var step := CollectEvent(p, events[i], pending);
      if step.Err? {
        ObserveExtends(begin, events, pending, i + 1);
        return Err(SequenceTooHigh);
      }
      p := step.value;
    }
    assert events[..|events|] == events;
    return Ok(p);
  }

  method CollectEvent(p: Progress, e: Event, pending: PendingMap) returns (r: Result<Progress, Rejected>)
    requires |p.stages| <= MAX_STAGES
    ensures r == Bounded(Observe(p, e, pending))
  {
    hide ScheduledActivity, StartedActivity, ClosedStage, UnknownEventStage;
    match e
    case Scheduled(id, _, _) => return Ok(p.(open := OrderedMaps.Put(p.open, id, ScheduledActivity(e, pending))));
    case Started(_, _, id, _) =>
      if OrderedMaps.Has(p.open, id) {
        return Ok(p.(open := OrderedMaps.Put(p.open, id, StartedActivity(OrderedMaps.Get(p.open, id), e))));
      }
      return Ok(p);
    case Closed(_, _, id, _) =>
      if OrderedMaps.Has(p.open, id) {
        var stages :- Construct(p.stages, ClosedStage(OrderedMaps.Get(p.open, id), e));
        return Ok(Progress(stages, OrderedMaps.Drop(p.open, id)));
      }
      return Ok(p);
    case UnknownEvent(_, _, _) =>
      var stages :- Construct(p.stages, UnknownEventStage(e));
      return Ok(p.(stages := stages));
    case _ => return Ok(p);
  }

  method AppendOpen(
    stages: seq<ExecutionStage>, open: seq<(int, Activity)>, running: bool) returns (r: Result<seq<ExecutionStage>,
    Rejected>)
    requires |stages| <= MAX_STAGES
    ensures var all := WithOpen(stages, open, running); r == if |all| > MAX_STAGES then Err(SequenceTooHigh)
            else Ok(all)
  {
    hide OpenStage;
    var all := stages;
    for i := 0 to |open|
      invariant all == WithOpen(stages, open[..i], running) && |all| <= MAX_STAGES
    {
      assert open[..i + 1][..i] == open[..i];
      OpenExtends(stages, open, running, i + 1);
      all :- Construct(all, OpenStage(open[i].1, running));
    }
    assert open[..|open|] == open;
    return Ok(all);
  }

  method AppendPending(stages: seq<ExecutionStage>, open: seq<(int, Activity)>, pending: PendingMap, running: bool)
    returns (r: Result<seq<ExecutionStage>, Rejected>)
    requires |stages| <= MAX_STAGES
    ensures var all := WithPending(stages, open, pending, running);
            r == if |all| > MAX_STAGES then Err(SequenceTooHigh) else Ok(all)
  {
    hide PendingStage, KeyOf, KeyIsOpen, HasRunning;
    var all := stages;
    for i := 0 to |pending|
      invariant all == WithPending(stages, open, pending[..i], running) && |all| <= MAX_STAGES
    {
      assert pending[..i + 1][..i] == pending[..i];
      PendingExtends(stages, open, pending, running, i + 1);
      var key := KeyOf(pending[i].0);
      if !KeyIsOpen(open, key) && !HasRunning(all, key) {
        all :- Construct(all, PendingStage(pending[i].0, pending[i].1, running));
      }
    }
    assert pending[..|pending|] == pending;
    return Ok(all);
  }

  method InsertAfter(
    stages: seq<ExecutionStage>, at: nat, missing: seq<ExecutionStage>) returns (r: seq<ExecutionStage>)
    requires at <= |stages|
    ensures r == stages[..at] + missing + stages[at..]
  {
    r := stages;
    for offset := 0 to |missing|
      invariant r == stages[..at] + missing[..offset] + stages[at..]
    {
      r := r[..at + offset] + [missing[offset]] + r[at + offset..];
    }
    assert missing[..|missing|] == missing;
  }

  method MarkCategory(stages: seq<ExecutionStage>, f: FailedResult) returns (r: seq<ExecutionStage>)
    ensures r == WithCategory(stages, f)
  {
    hide Marked;
    r := stages;
    for i := 0 to |r|
      invariant |r| == |stages|
      invariant forall j :: 0 <= j < i ==> r[j] == Marked(stages[j], f)
      invariant forall j :: i <= j < |r| ==> r[j] == stages[j]
    {
      r := r[i := Marked(r[i], f)];
    }
    assert r == WithCategory(stages, f);
  }

  /** Fills in the failing stage, the stages it kept from being reached, and its category. */
  method FillInFailure(recorded: seq<ExecutionStage>, f: FailedResult) returns (stages: seq<ExecutionStage>)
    requires recorded != []
    ensures stages == FillIn(recorded, Some(f))
  {
    hide FailedStage, StageKey, Marked, Missing, FirstWith, Later, WithCategory;
    stages := recorded;
    var key := StageKey(f.stage);
    if !HasKey(stages, key) {
      stages := stages[..1] + [FailedStage(f)] + stages[1..];
    }
    FailingIsPresent(recorded, f);
    var at := FirstWith(stages, key);
    stages := InsertAfter(stages, at + 1, Missing(Later(f.stage), stages));
    stages := MarkCategory(stages, f);
  }

  /** The timeline of a history. */
  method ProjectStages(events: seq<Event>, running: bool, result: Option<FailedResult>, pending: seq<Pending>)
    returns (r: Result<seq<ExecutionStage>, Rejected>)
    ensures r == Project(events, running, result, pending)
  {
    hide ObserveAll, WithOpen, WithPending, PendingValues, FillIn, WithFinalizing, WorkflowStage, FirstStart;
    hide IsFinalizing;
    ghost var recorded := Recorded(events, running, pending);
    var values := CollectPending(pending);
    var collected := CollectEvents(events, values);
    if collected.Err? {
      return Err(SequenceTooHigh);
    }
    var p := collected.value;
    var withOpen := AppendOpen(p.stages, p.open, running);
    if withOpen.Err? {
      return Err(SequenceTooHigh);
    }
    var withPending := AppendPending(withOpen.value, p.open, values, running);
    if withPending.Err? {
      return Err(SequenceTooHigh);
    }
    var stages := withPending.value;
    if result.Some? {
      stages := FillInFailure(stages, result.value);
    } else {
      NothingToFillIn(stages);
    }
    stages := WithFinalizing(stages, running);
    var numbered := FirstOf(stages, MAX_STAGES);
    ghost var cut := numbered;
    for i := 0 to |numbered|
      invariant |numbered| == |cut|
      invariant forall j :: 0 <= j < i ==> numbered[j] == cut[j].(sequence := j + 1)
      invariant forall j :: i <= j < |numbered| ==> numbered[j] == cut[j]
    {
      numbered := numbered[i := numbered[i].(sequence := i + 1)];
    }
    assert numbered == Renumbered(cut);
    return Ok(numbered);
  }

  lemma NothingToFillIn(stages: seq<ExecutionStage>)
    requires stages != []
    ensures FillIn(stages, None) == stages
  {
  }
}
