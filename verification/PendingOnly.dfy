/** Activities the server describes as pending and the history does not hold open. */
module PendingOnly {
  import opened Outcomes
  import opened Stages
  import opened StageFacts
  import opened StageShape
  import opened Descriptions
  import opened Plans
  import OrderedMaps

  /** The stages of activities that are only pending: running, if the execution is and their name is known. */
  function PendingStages(pending: seq<Pending>, running: bool): string -> ExecutionStage {
    (name: string) =>
      ExecutionStage(
        0, KeyOf(name), if KnownKey(name).Some? && running then StageRunning else StageUnknown, None, None, None, None,
        DescribedAttempt(pending, name), None)
  }

  /** The names whose stage is not open. */
  function NamesBeside(names: seq<string>, open: seq<(int, Activity)>): seq<string> {
    if names == [] then []
    else
      NamesBeside(names[..|names| - 1], open)
      + if KeyIsOpen(open, KeyOf(names[|names| - 1])) then [] else [names[|names| - 1]]
  }

  /** The pending entries whose stage is not open. */
  function Beside(values: PendingMap, open: seq<(int, Activity)>): PendingMap {
    if values == [] then []
    else
      Beside(values[..|values| - 1], open)
      + if KeyIsOpen(open, KeyOf(values[|values| - 1].0)) then [] else [values[|values| - 1]]
  }

  function EntryShown(running: bool): ((string, Option<int>)) -> ExecutionStage {
    (entry: (string, Option<int>)) => PendingStage(entry.0, entry.1, running).(sequence := 0)
  }

  /** What an entry adds to the stages. */
  function Addition(entry: (string, Option<int>), open: seq<(int, Activity)>, running: bool): seq<ExecutionStage> {
    if KeyIsOpen(open, KeyOf(entry.0)) then [] else [EntryShown(running)(entry)]
  }

  lemma OneMoreShown(
    stages: seq<ExecutionStage>, open: seq<(int, Activity)>, before: PendingMap, entry: (string, Option<int>),
    running: bool)
    requires OrderedMaps.DistinctKeys(before + [entry]) && RunningIsAccounted(stages, open, before)
    ensures RunningIsAccounted(AddPending(stages, open, entry, running), open, before + [entry])
    ensures Cores(AddPending(stages, open, entry, running)) == Cores(stages) + Addition(entry, open, running)
  {
    hide KeyIsOpen, SafeActivityName, KnownKey, HasRunning, EntryShown, RunningIsAccounted, Cores;
    SecondGuardIsRedundant(stages, open, before, entry);
    PendingRuns(stages, open, before, entry, running);
    OneEntryShown(stages, entry, running);
    assert Map([entry], EntryShown(running)) == [EntryShown(running)(entry)];
    assert Cores(stages) + [] == Cores(stages);
  }

  lemma BesideGrows(init: PendingMap, entry: (string, Option<int>), open: seq<(int, Activity)>, running: bool)
    ensures Map(Beside(init + [entry], open), EntryShown(running)) ==
            Map(Beside(init, open), EntryShown(running)) + Addition(entry, open, running)
  {
    hide EntryShown;
    assert (init + [entry])[..|init|] == init;
    var added := if KeyIsOpen(open, KeyOf(entry.0)) then [] else [entry];
    MapConcat(Beside(init, open), added, EntryShown(running));
    assert Map(added, EntryShown(running)) == Addition(entry, open, running);
  }

  lemma ShownAssociate(a: seq<ExecutionStage>, b: seq<ExecutionStage>, c: seq<ExecutionStage>)
    ensures a + b + c == a + (b + c) && a + [] == a
  {
  }

  lemma DistinctNamesBefore(init: PendingMap, entry: (string, Option<int>))
    requires OrderedMaps.DistinctKeys(init + [entry])
    ensures OrderedMaps.DistinctKeys(init)
  {
    assert forall i :: 0 <= i < |init| ==> (init + [entry])[i] == init[i];
  }

  lemma {:induction false} PendingIsShown(
    stages: seq<ExecutionStage>, open: seq<(int, Activity)>, values: PendingMap, running: bool)
    requires OrderedMaps.DistinctKeys(values) && RunningIsAccounted(stages, open, [])
    ensures var r := WithPending(stages, open, values, running);
            && RunningIsAccounted(r, open, values)
            && Cores(r) == Cores(stages) + Map(Beside(values, open), EntryShown(running))
  {
    hide RunningIsAccounted, Cores, AddPending, EntryShown, Addition, OrderedMaps.DistinctKeys;
    if values == [] {
      ShownAssociate(Cores(stages), [], []);
    } else {
      var init, entry := values[..|values| - 1], values[|values| - 1];
      assert values == init + [entry];
      hide Beside, Map;
      DistinctNamesBefore(init, entry);
      PendingIsShown(stages, open, init, running);
      OneMoreShown(WithPending(stages, open, init, running), open, init, entry, running);
      BesideGrows(init, entry, open, running);
      ShownAssociate(Cores(stages), Map(Beside(init, open), EntryShown(running)), Addition(entry, open, running));
    }
  }

  lemma OneEntryShown(stages: seq<ExecutionStage>, entry: (string, Option<int>), running: bool)
    ensures Cores(Append(stages, PendingStage(entry.0, entry.1, running))) ==
            Cores(stages) + Map([entry], EntryShown(running))
  {
    hide KeyOf, KnownKey;
    MapConcat(stages, [PendingStage(entry.0, entry.1, running).(sequence := |stages| + 1)], Core);
  }

  lemma {:induction false} BesideAreNamed(
    values: PendingMap, pending: seq<Pending>, open: seq<(int, Activity)>, running: bool)
    requires forall i :: 0 <= i < |values| ==> values[i].1 == DescribedAttempt(pending, values[i].0)
    ensures Map(Beside(values, open), EntryShown(running)) ==
            Map(NamesBeside(Map(values, NameOf), open), PendingStages(pending, running))
  {
    if values != [] {
      var init, entry := values[..|values| - 1], values[|values| - 1];
      BesideAreNamed(init, pending, open, running);
      NamesGrow(init, entry, open);
      assert values == init + [entry];
      BesideGrows(init, entry, open, running);
      hide DescribedAttempt, KeyOf, KnownKey, KeyIsOpen, Beside;
      var names := if KeyIsOpen(open, KeyOf(entry.0)) then [] else [entry.0];
      MapConcat(NamesBeside(Map(init, NameOf), open), names, PendingStages(pending, running));
      assert Map([entry.0], PendingStages(pending, running)) == [PendingStages(pending, running)(entry.0)];
    }
  }

  lemma NamesGrow(init: PendingMap, entry: (string, Option<int>), open: seq<(int, Activity)>)
    ensures NamesBeside(Map(init + [entry], NameOf), open) ==
            NamesBeside(Map(init, NameOf), open) + if KeyIsOpen(open, KeyOf(entry.0)) then [] else [entry.0]
  {
    MapConcat(init, [entry], NameOf);
    var names := Map(init + [entry], NameOf);
    assert names == Map(init, NameOf) + [entry.0];
    assert names[..|names| - 1] == Map(init, NameOf);
  }

  /** Each described name that is not open is shown once, with the attempt described last. */
  lemma PendingOnlyIsShown(
    stages: seq<ExecutionStage>, open: seq<(int, Activity)>, pending: seq<Pending>, running: bool)
    requires RunningIsAccounted(stages, open, [])
    ensures Cores(WithPending(stages, open, PendingValues(pending), running)) ==
            Cores(stages) + Map(NamesBeside(DescribedNames(pending), open), PendingStages(pending, running))
  {
    var values := PendingValues(pending);
    hide PendingValues, Cores, WithPending, Beside, NamesBeside, DescribedAttempt, DescribedNames, RunningIsAccounted;
    PendingNamesAreDistinct(pending);
    PendingIsShown(stages, open, values, running);
    forall i | 0 <= i < |values| ensures values[i].1 == DescribedAttempt(pending, values[i].0) {
      ValuesAreDescribed(pending, i);
    }
    BesideAreNamed(values, pending, open, running);
    NamesAreKept(pending);
  }
}
