/** The finished timeline: numbering and bounds, and what filling in a failure keeps and adds. */
module StageShape {
  import opened Outcomes
  import opened DeploymentModels
  import opened Stages
  import opened StageFacts
  import opened Plans
  import OrderedMaps

  // ---------------------------------------------------------------- subsequences

  predicate Subsequence<T(==)>(a: seq<T>, b: seq<T>)
    decreases |b|
  {
    a == [] || (b != [] && ((a[0] == b[0] && Subsequence(a[1..], b[1..])) || Subsequence(a, b[1..])))
  }

  lemma {:induction false} InsertedIsSuper<T>(a: seq<T>, inserted: seq<T>, c: seq<T>)
    ensures Subsequence(a + c, a + inserted + c)
  {
    if a != [] {
      assert (a + c)[1..] == a[1..] + c && (a + inserted + c)[1..] == a[1..] + inserted + c;
      InsertedIsSuper(a[1..], inserted, c);
    } else if inserted != [] {
      assert [] + c == c && ([] + inserted + c)[1..] == [] + inserted[1..] + c;
      InsertedIsSuper([], inserted[1..], c);
    } else {
      assert [] + c == c && [] + inserted + c == c;
      Reflexive(c);
    }
  }

  lemma {:induction false} Reflexive<T>(a: seq<T>)
    ensures Subsequence(a, a)
  {
    if a != [] {
      Reflexive(a[1..]);
    }
  }

  lemma {:induction false} Transitive<T>(a: seq<T>, b: seq<T>, c: seq<T>)
    requires Subsequence(a, b) && Subsequence(b, c)
    ensures Subsequence(a, c)
    decreases |c|
  {
    if a != [] {
      if b[0] == c[0] && Subsequence(b[1..], c[1..]) {
        if a[0] == b[0] && Subsequence(a[1..], b[1..]) {
          Transitive(a[1..], b[1..], c[1..]);
        } else {
          Transitive(a, b[1..], c[1..]);
        }
      } else {
        Transitive(a, b, c[1..]);
      }
    }
  }

  // ---------------------------------------------------------------- filling in a failure

  /** A stage but for its number and its failure category. */
  function Core(s: ExecutionStage): ExecutionStage {
    s.(sequence := 0, category := None)
  }

  function Cores(stages: seq<ExecutionStage>): seq<ExecutionStage> {
    Map(stages, Core)
  }

  lemma MarkingKeepsCores(stages: seq<ExecutionStage>, f: FailedResult)
    ensures Cores(WithCategory(stages, f)) == Cores(stages)
  {
  }

  lemma InsertionKeepsOrder(stages: seq<ExecutionStage>, at: nat, inserted: seq<ExecutionStage>)
    requires at <= |stages|
    ensures Subsequence(Cores(stages), Cores(stages[..at] + inserted + stages[at..]))
  {
    assert stages == stages[..at] + stages[at..];
    MapConcat(stages[..at], stages[at..], Core);
    MapConcat(stages[..at] + inserted, stages[at..], Core);
    MapConcat(stages[..at], inserted, Core);
    InsertedIsSuper(Cores(stages[..at]), Cores(inserted), Cores(stages[at..]));
  }

  /** Filling in inserts stages and marks the failed one; it neither drops nor reorders any. */
  lemma FillInKeepsOrder(stages: seq<ExecutionStage>, result: Option<FailedResult>)
    requires stages != []
    ensures Subsequence(Cores(stages), Cores(FillIn(stages, result)))
  {
    hide Cores, HasKey, Missing, FailedStage, Marked;
    if result.Some? {
      var f := result.value;
      var s := WithFailing(stages, f);
      FailingIsPresent(stages, f);
      if HasKey(stages, StageKey(f.stage)) {
        Reflexive(Cores(stages));
      } else {
        InsertionKeepsOrder(stages, 1, [FailedStage(f)]);
      }
      InsertionKeepsOrder(s, FirstWith(s, StageKey(f.stage)) + 1, Missing(Later(f.stage), s));
      Transitive(Cores(stages), Cores(s), Cores(WithMissing(s, f)));
      MarkingKeepsCores(WithMissing(s, f), f);
    } else {
      Reflexive(Cores(stages));
    }
  }

  lemma HasKeyExactlyWhen(stages: seq<ExecutionStage>, key: Key)
    ensures HasKey(stages, key) <==> exists i :: 0 <= i < |stages| && stages[i].key == key
  {
  }

  lemma {:induction false} MissingAdds(keys: seq<Key>, stages: seq<ExecutionStage>)
    ensures forall m :: m in Missing(keys, stages) ==>
            m.key in keys && m.status == StageNotReached && !HasKey(stages, m.key)
    ensures forall k :: k in keys && !HasKey(stages, k) ==> exists m :: m in Missing(keys, stages) && m.key == k
  {
    if keys != [] {
      MissingAdds(keys[1..], stages);
      forall k | k in keys && !HasKey(stages, k) ensures exists m :: m in Missing(keys, stages) && m.key == k {
        if k == keys[0] {
          assert Missing(keys, stages)[0].key == k;
        } else {
          assert k in keys[1..];
          var m :| m in Missing(keys[1..], stages) && m.key == k;
          assert m in Missing(keys, stages);
        }
      }
    }
  }

  lemma InsertedKeys(stages: seq<ExecutionStage>, at: nat, inserted: seq<ExecutionStage>, key: Key)
    requires at <= |stages|
    ensures HasKey(stages[..at] + inserted + stages[at..], key) <==>
            HasKey(stages, key) || exists m :: m in inserted && m.key == key
  {
    var all := stages[..at] + inserted + stages[at..];
    HasKeyExactlyWhen(all, key);
    HasKeyExactlyWhen(stages, key);
    hide HasKey, FirstWith;
    assert forall i :: 0 <= i < at ==> all[i] == stages[i];
    assert forall j :: 0 <= j < |inserted| ==> all[at + j] == inserted[j];
    assert forall i :: at <= i < |stages| ==> all[i + |inserted|] == stages[i];
  }

  lemma MarkingKeepsKeys(stages: seq<ExecutionStage>, f: FailedResult, key: Key)
    ensures HasKey(WithCategory(stages, f), key) <==> HasKey(stages, key)
  {
    var marked := WithCategory(stages, f);
    if HasKey(stages, key) {
      assert marked[FirstWith(stages, key)].key == key;
    }
    if HasKey(marked, key) {
      assert stages[FirstWith(marked, key)].key == key;
    }
  }

  /** After a failure every stage from the failing one to validation is on the timeline. */
  lemma FillInCompletes(stages: seq<ExecutionStage>, f: FailedResult)
    requires stages != []
    ensures HasKey(FillIn(stages, Some(f)), StageKey(f.stage))
    ensures forall k :: k in Later(f.stage) ==> HasKey(FillIn(stages, Some(f)), k)
  {
    var s := WithFailing(stages, f);
    FailingIsPresent(stages, f);
    MissingAdds(Later(f.stage), s);
    assert FillIn(stages, Some(f)) == WithCategory(WithMissing(s, f), f);
    hide HasKey, FirstWith, Missing, WithFailing, WithCategory, Later, StageKey, FillIn;
    forall key | key == StageKey(f.stage) || key in Later(f.stage) ensures HasKey(FillIn(stages, Some(f)), key) {
      InsertedKeys(s, FirstWith(s, StageKey(f.stage)) + 1, Missing(Later(f.stage), s), key);
      MarkingKeepsKeys(WithMissing(s, f), f, key);
    }
  }

  // ---------------------------------------------------------------- bounds

  predicate InRange(attempts: Option<int>) {
    attempts.Some? ==> 1 <= attempts.value <= 100
  }

  predicate AttemptsInRange(stages: seq<ExecutionStage>) {
    forall i :: 0 <= i < |stages| ==> InRange(stages[i].attempts)
  }

  predicate ActivitiesInRange(open: seq<(int, Activity)>) {
    forall i :: 0 <= i < |open| ==> InRange(open[i].1.attempts)
  }

  predicate PendingInRange(pending: PendingMap) {
    forall i :: 0 <= i < |pending| ==> InRange(pending[i].1)
  }

  lemma {:induction false} PendingValuesInRange(pending: seq<Pending>)
    ensures PendingInRange(PendingValues(pending))
  {
    if pending != [] {
      PendingValuesInRange(pending[..|pending| - 1]);
    }
  }

  lemma {:induction false} HistoryInRange(p: Progress, events: seq<Event>, pending: PendingMap)
    requires AttemptsInRange(p.stages) && ActivitiesInRange(p.open) && PendingInRange(pending)
    ensures AttemptsInRange(ObserveAll(p, events, pending).stages)
            && ActivitiesInRange(ObserveAll(p, events, pending).open)
  {
    if events != [] {
      hide SafeActivityName, KnownKey;
      HistoryInRange(p, events[..|events| - 1], pending);
    }
  }

  lemma {:induction false} OpenInRange(stages: seq<ExecutionStage>, open: seq<(int, Activity)>, running: bool)
    requires AttemptsInRange(stages) && ActivitiesInRange(open)
    ensures AttemptsInRange(WithOpen(stages, open, running))
  {
    if open != [] {
      OpenInRange(stages, open[..|open| - 1], running);
    }
  }

  lemma {:induction false} StillPendingInRange(
    stages: seq<ExecutionStage>, open: seq<(int, Activity)>, pending: PendingMap, running: bool)
    requires AttemptsInRange(stages) && PendingInRange(pending)
    ensures AttemptsInRange(WithPending(stages, open, pending, running))
  {
    if pending != [] {
      hide KeyIsOpen, HasRunning, SafeActivityName, KnownKey;
      StillPendingInRange(stages, open, pending[..|pending| - 1], running);
    }
  }

  lemma RecordedInRange(events: seq<Event>, running: bool, pending: seq<Pending>)
    ensures AttemptsInRange(Recorded(events, running, pending))
  {
    hide ObserveAll, WithOpen, WithPending, PendingValues;
    var values, start := PendingValues(pending), [WorkflowStage(FirstStart(events))];
    PendingValuesInRange(pending);
    HistoryInRange(Progress(start, []), events, values);
    var p := ObserveAll(Progress(start, []), events, values);
    OpenInRange(p.stages, p.open, running);
    StillPendingInRange(WithOpen(p.stages, p.open, running), p.open, values, running);
  }

  lemma InsertedInRange(stages: seq<ExecutionStage>, at: nat, inserted: seq<ExecutionStage>)
    requires at <= |stages| && AttemptsInRange(stages) && AttemptsInRange(inserted)
    ensures AttemptsInRange(stages[..at] + inserted + stages[at..])
    ensures NothingRuns(stages) && NothingRuns(inserted) ==> NothingRuns(stages[..at] + inserted + stages[at..])
  {
  }

  lemma MarkedInRange(stages: seq<ExecutionStage>, f: FailedResult)
    requires AttemptsInRange(stages)
    ensures AttemptsInRange(WithCategory(stages, f))
    ensures NothingRuns(stages) ==> NothingRuns(WithCategory(stages, f))
  {
    hide StageKey;
  }

  lemma FillInAddsNothingRunning(stages: seq<ExecutionStage>, result: Option<FailedResult>)
    requires stages != [] && AttemptsInRange(stages)
    ensures AttemptsInRange(FillIn(stages, result))
    ensures NothingRuns(stages) ==> NothingRuns(FillIn(stages, result))
  {
    if result.Some? {
      var f := result.value;
      InsertedInRange(stages, 1, [FailedStage(f)]);
      var s := WithFailing(stages, f);
      FailingIsPresent(stages, f);
      MissingHasNoAttempts(Later(f.stage), s);
      hide Missing, HasKey, FirstWith, AttemptsInRange, NothingRuns, WithCategory, StageKey, Later;
      InsertedInRange(s, FirstWith(s, StageKey(f.stage)) + 1, Missing(Later(f.stage), s));
      MarkedInRange(WithMissing(s, f), f);
    }
  }

  lemma {:induction false} MissingHasNoAttempts(keys: seq<Key>, stages: seq<ExecutionStage>)
    ensures AttemptsInRange(Missing(keys, stages)) && NothingRuns(Missing(keys, stages))
  {
    if keys != [] {
      MissingHasNoAttempts(keys[1..], stages);
    }
  }

  /**
   A timeline holds at most 64 stages, numbered 1..n in order, attempts between 1 and 100,
   and nothing running unless the execution is.
   */
  lemma TimelineIsWellFormed(events: seq<Event>, running: bool, result: Option<FailedResult>, pending: seq<Pending>)
    requires DistinctScheduledIds(events) && Project(events, running, result, pending).Ok?
    ensures var stages := Project(events, running, result, pending).value;
            && 1 <= |stages| <= 64 && (forall i :: 0 <= i < |stages| ==> stages[i].sequence == i + 1)
            && AttemptsInRange(stages) && (!running ==> NothingRuns(stages))
  {
    RecordedInRange(events, running, pending);
    RecordedConserves(events, running, pending);
    var recorded := Recorded(events, running, pending);
    hide Recorded, Contributions, PendingOnly, Keys, IsFinalizing;
    FillInAddsNothingRunning(recorded, result);
    FillInKeepsLength(recorded, result);
    hide FillIn, WithFinalizing;
    FinalizingRuns(FillIn(recorded, result), running);
  }

  lemma FinalizingRuns(stages: seq<ExecutionStage>, running: bool)
    requires AttemptsInRange(stages)
    ensures AttemptsInRange(WithFinalizing(stages, running))
    ensures !running ==> WithFinalizing(stages, running) == stages
    ensures stages <= WithFinalizing(stages, running)
  {
  }

  lemma FillInKeepsLength(stages: seq<ExecutionStage>, result: Option<FailedResult>)
    requires stages != []
    ensures |FillIn(stages, result)| >= |stages|
  {
    hide HasKey, FirstWith, Missing, FailedStage, Marked, StageKey, Later;
    if result.Some? {
      FailingIsPresent(stages, result.value);
    }
  }

  /** As long as 64 entries are enough, every recorded stage is on the timeline, in the recorded order. */
  lemma NothingIsLost(events: seq<Event>, running: bool, result: Option<FailedResult>, pending: seq<Pending>)
    requires Project(events, running, result, pending).Ok?
    requires |WithFinalizing(FillIn(Recorded(events, running, pending), result), running)| <= 64
    ensures Subsequence(
              Cores(Recorded(events, running, pending)), Cores(Project(events, running, result, pending).value))
  {
    hide Recorded, FillIn, IsFinalizing;
    var recorded := Recorded(events, running, pending);
    var filled := FillIn(recorded, result);
    var all := WithFinalizing(filled, running);
    FillInKeepsOrder(recorded, result);
    InsertionKeepsOrder(filled, |filled|, all[|filled|..]);
    assert filled[..|filled|] + all[|filled|..] + filled[|filled|..] == all;
    Transitive(Cores(recorded), Cores(filled), Cores(all));
    assert Cores(Renumbered(all)) == Cores(all);
  }
}
