/** A restart and an undisturbed stretch make up for any run. */
module DeliveryRecovery {
  import opened Outcomes
  import opened Delivery
  import opened DeliverySafety

  /** Reading, handling and committing one message, when nothing fails. */
  function HandleOne(topics: Topics, s: State, p: Partition): seq<Step>
    requires p in s.position
  {
    [Poll(p), if RequestAt(topics, s, p, s.position[p]).None? then Skip else StartAccepted, CommitAccepted]
  }

  lemma MessageAccepted(topics: Topics, s: State, step: Step)
    requires s.phase.Polled?
    requires step == if RequestAt(topics, s, s.phase.partition, s.phase.offset).None? then Skip else StartAccepted
    ensures var t := Next(topics, s, step);
            && t.phase == Ready(s.phase.partition, s.phase.offset)
            && t.log == s.log && t.position == s.position && t.committed == s.committed
  {
    hide RequestAt;
  }

  lemma PollThenAccept(topics: Topics, s: State, p: Partition)
    requires s.phase.Idle? && p in s.log && p in s.position && s.position[p] < |s.log[p]|
    ensures var t := Next(topics, Next(topics, s, Poll(p)), HandleOne(topics, s, p)[1]);
            && t.phase == Ready(p, s.position[p]) && t.log == s.log && t.committed == s.committed
            && t.position == s.position[p := s.position[p] + 1]
  {
    var s1 := Next(topics, s, Poll(p));
    assert s1 == s.(position := s.position[p := s.position[p] + 1], phase := Polled(p, s.position[p]));
    hide Next, Requested;
    MessageAccepted(topics, s1, HandleOne(topics, s, p)[1]);
  }

  lemma CommitGives(topics: Topics, s: State)
    requires s.phase.Ready?
    ensures Next(topics, s, CommitAccepted) == s.(committed := s.committed[s.phase.partition := s.phase.offset + 1],
            phase := Idle)
  {
    hide RequestAt;
  }

  lemma {:induction false} PlacementStays(topics: Topics, s: State, run: seq<Step>)
    requires WellPlaced(s)
    ensures WellPlaced(After(topics, s, run))
  {
    if run != [] {
      hide Next, WellPlaced;
      PlacementStays(topics, s, run[..|run| - 1]);
      PlacementKept(topics, After(topics, s, run[..|run| - 1]), run[|run| - 1]);
    }
  }

  lemma HandleOneCommits(topics: Topics, s: State, p: Partition)
    requires WellPlaced(s) && s.phase.Idle? && p in s.log && s.position[p] < |s.log[p]|
    ensures var t := After(topics, s, HandleOne(topics, s, p));
            && WellPlaced(t) && t.phase.Idle? && t.log == s.log
            && t.position == s.position[p := s.position[p] + 1] && t.committed == s.committed[p := s.position[p] + 1]
  {
    var steps := HandleOne(topics, s, p);
    var s1 := Next(topics, s, steps[0]);
    var s2 := Next(topics, s1, steps[1]);
    assert steps[2] == CommitAccepted && steps == [steps[0], steps[1], steps[2]];
    hide HandleOne, Requested, WellPlaced;
    hide Next, Enabled, RequestAt, Placed, After;
    PollThenAccept(topics, s, p);
    CommitGives(topics, s2);
    PlacementStays(topics, s, steps);
    ThreeSteps(topics, s, steps[0], steps[1], steps[2]);
  }

  lemma ThreeSteps(topics: Topics, s: State, a: Step, b: Step, c: Step)
    ensures After(topics, s, [a, b, c]) == Next(topics, Next(topics, Next(topics, s, a), b), c)
  {
    hide Next;
    AfterOne(topics, s, a);
    assert [a, b][..1] == [a] && [a, b, c][..2] == [a, b];
    assert After(topics, s, [a, b]) == Next(topics, After(topics, s, [a]), b);
    assert After(topics, s, [a, b, c]) == Next(topics, After(topics, s, [a, b]), c);
  }

  function Drain(topics: Topics, s: State, p: Partition): seq<Step>
    requires WellPlaced(s) && s.phase.Idle? && p in s.log
    decreases if s.position[p] < |s.log[p]| then |s.log[p]| - s.position[p] else 0
  {
    if s.position[p] >= |s.log[p]| then []
    else
      HandleOneCommits(topics, s, p);
      HandleOne(topics, s, p) + Drain(topics, After(topics, s, HandleOne(topics, s, p)), p)
  }

  /** From wherever faults left it, a restart and an undisturbed stretch commit the whole partition. */
  lemma {:induction false} DrainCommitsEverything(topics: Topics, s: State, p: Partition)
    requires WellPlaced(s) && s.phase.Idle? && p in s.log
    ensures var t := After(topics, s, Drain(topics, s, p));
            t.phase.Idle? && t.log == s.log && p in t.committed && t.committed[p] == |s.log[p]|
            && forall q :: q in s.log && q != p ==> q in t.committed && t.committed[q] == s.committed[q]
    decreases if s.position[p] < |s.log[p]| then |s.log[p]| - s.position[p] else 0
  {
    if s.position[p] < |s.log[p]| {
      HandleOneCommits(topics, s, p);
      var next := After(topics, s, HandleOne(topics, s, p));
      DrainCommitsEverything(topics, next, p);
      AfterConcat(topics, s, HandleOne(topics, s, p), Drain(topics, next, p));
      hide After, HandleOne, Next;
    } else {
      assert Drain(topics, s, p) == [];
    }
  }

  lemma RecoversFromAnyRun(topics: Topics, s: State, run: seq<Step>, p: Partition)
    requires Initial(s) && p in s.log
    ensures var faulty := After(topics, s, run + [Restart]);
            && WellPlaced(faulty) && faulty.phase.Idle? && p in faulty.log
            && var t := After(topics, faulty, Drain(topics, faulty, p));
               p in t.committed && t.committed[p] == |faulty.log[p]|
  {
    InvariantHolds(topics, s, run + [Restart]);
    PartitionsStay(topics, s, run + [Restart], p);
    assert (run + [Restart])[..|run|] == run;
    var faulty := After(topics, s, run + [Restart]);
    DrainCommitsEverything(topics, faulty, p);
  }
}
