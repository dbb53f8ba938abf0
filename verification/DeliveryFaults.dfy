/** What single faults do to a request, and how the loop catches up once they stop. */
module DeliveryFaults {
  import opened Outcomes
  import opened Delivery
  import opened DeliverySafety
  import opened DeliveryRecovery
  import opened Bridge

  /**
   A start whose answer was lost may still take effect. The message is read again from the same
   offset, and its second start finds the workflow: it has begun once.
   */
  lemma LateStartIsFound(topics: Topics, s: State, id: string)
    requires s.phase.Polled? && s.phase.partition in s.log && s.phase.offset < |s.log[s.phase.partition]|
    requires RequestAt(topics, s, s.phase.partition, s.phase.offset) == Some(id) && id !in s.store
    ensures var p, offset := s.phase.partition, s.phase.offset;
            var t := After(topics, s, [StartFailed, LateStart(id), Poll(p), StartAccepted]);
            && t.phase == Ready(p, offset) && t.committed == s.committed && t.log == s.log
            && t.starts == s.starts + multiset{id} && t.store == s.store[id := Running] && id in t.inFlight
  {
    var p, offset := s.phase.partition, s.phase.offset;
    var a, b := Next(topics, s, StartFailed), s.(inFlight := s.inFlight + {id}, position := s.position[p := offset]);
    assert a == b.(phase := Idle);
    var c := Next(topics, a, LateStart(id));
    assert c == b.(phase := Idle, store := s.store[id := Running], starts := s.starts + multiset{id});
    var d := Next(topics, c, Poll(p));
    assert d.phase == Polled(p, offset) && RequestAt(topics, d, p, offset) == Some(id) by {
      hide Requested;
    }
    hide Requested;
    FourSteps(topics, s, StartFailed, LateStart(id), Poll(p), StartAccepted);
  }

  /**
   The one way to a second execution: Temporal forgets the closed workflow while its message is
   still to be read again. So the condition of `ExactlyOnce` cannot be dropped.
   */
  lemma ForgottenIsStartedAgain(topics: Topics, s: State, id: string)
    requires s.phase.Polled? && RequestAt(topics, s, s.phase.partition, s.phase.offset) == Some(id)
    requires id in s.store && s.store[id] == Running
    ensures var t := After(topics, s, [Close(id), Expire(id), StartAccepted]);
            && t.phase == Ready(s.phase.partition, s.phase.offset)
            && t.starts == s.starts + multiset{id} && t.expirations == s.expirations + multiset{id}
            && id in t.store && t.store[id] == Running
  {
    hide Requested;
    var a := Next(topics, s, Close(id));
    assert a == s.(store := s.store[id := Closed]);
    var b := Next(topics, a, Expire(id));
    assert b == s.(store := a.store - {id}, expirations := s.expirations + multiset{id});
    ThreeSteps(topics, s, Close(id), Expire(id), StartAccepted);
  }

  /** While it is retained, open or closed, neither a duplicate nor a repeated message starts it again. */
  lemma RetainedIsNotStartedAgain(topics: Topics, s: State, id: string)
    requires s.phase.Polled? && RequestAt(topics, s, s.phase.partition, s.phase.offset) == Some(id) && id in s.store
    ensures After(topics, s, [StartAccepted]) == s.(phase := Ready(s.phase.partition, s.phase.offset))
  {
    hide Requested;
    AfterOne(topics, s, StartAccepted);
  }

  lemma FourSteps(topics: Topics, s: State, a: Step, b: Step, c: Step, d: Step)
    ensures After(topics, s, [a, b, c, d]) ==
            Next(topics, Next(topics, Next(topics, Next(topics, s, a), b), c), d)
  {
    hide Next;
    ThreeSteps(topics, s, a, b, c);
    assert [a, b, c, d][..3] == [a, b, c];
  }

  // ---------------------------------------------------------------- catching up

  /** A turn in which the broker answers, a message of this partition arrives, and nothing fails. */
  predicate Undisturbed(turn: Turn, p: Partition) {
    turn.environment == [] && turn.probeSucceeds && turn.poll == Message(p, Answered, [], Acknowledged)
  }

  lemma UndisturbedTurn(topics: Topics, s: State, turn: Turn, nextProbe: int, p: Partition)
    requires Undisturbed(turn, p) && s.phase.Idle? && p in s.log && p in s.position && s.position[p] < |s.log[p]|
    ensures TurnSteps(topics, s, turn, nextProbe) == HandleOne(topics, s, p)
  {
    hide RequestAt;
    assert After(topics, s, []) == s;
  }

  /** As many undisturbed turns as messages are left take the loop through the whole partition. */
  lemma {:induction false} LoopCatchesUp(
    topics: Topics, s: State, turns: seq<Turn>, nextProbe: int, p: Partition)
    requires WellPlaced(s) && s.phase.Idle? && p in s.log && s.position[p] + |turns| == |s.log[p]|
    requires forall turn :: turn in turns ==> Undisturbed(turn, p)
    ensures var t := After(topics, s, LoopSteps(topics, s, turns, nextProbe));
            t.phase.Idle? && t.log == s.log && p in t.committed && t.committed[p] == |s.log[p]|
    decreases |turns|
  {
    if turns == [] {
      assert LoopSteps(topics, s, turns, nextProbe) == [];
      DrainCommitsEverything(topics, s, p);
      assert Drain(topics, s, p) == [];
    } else {
      UndisturbedTurn(topics, s, turns[0], nextProbe, p);
      HandleOneCommits(topics, s, p);
      var steps := HandleOne(topics, s, p);
      var next := After(topics, s, steps);
      hide After, HandleOne, TurnSteps, Undisturbed, WellPlaced;
      LoopCatchesUp(topics, next, turns[1..], NextProbe(turns[0], nextProbe), p);
      AfterConcat(topics, s, steps, LoopSteps(topics, next, turns[1..], NextProbe(turns[0], nextProbe)));
    }
  }
}
