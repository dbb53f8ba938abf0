/**
 The consumer itself: the methods that process one message and the polling loop, changing the
 partitions' positions and Temporal's store in place. Each is proved to take exactly the steps
 of the delivery protocol, so what every run of the protocol keeps, the loop keeps.
 */
module Bridge {
  import opened Outcomes
  import opened Delivery
  import opened DeliverySafety

  datatype StartOutcome = Answered | Lost

  datatype StartResult = Started | UsedExisting | AlreadyStarted | RpcError

  /** A commit is applied and acknowledged, applied although the call failed, or not applied. */
  datatype CommitOutcome = Acknowledged | AppliedUnseen | Rejected

  datatype Poll =
    | NoMessage
    | PollError
    | Message(partition: Partition, start: StartOutcome, between: seq<Step>, commit: CommitOutcome)

  /** One round of the loop as the environment decides it. */
  datatype Turn = Turn(environment: seq<Step>, now: int, probeSucceeds: bool, poll: Poll)

  const HEARTBEAT_INTERVAL := 10

  // ---------------------------------------------------------------- the steps of a turn

  function CommitStep(outcome: CommitOutcome): Step {
    if outcome == Acknowledged then CommitAccepted else CommitFailed(outcome == AppliedUnseen)
  }

  lemma CommitStepGives(topics: Topics, s: State, outcome: CommitOutcome)
    requires s.phase.Ready?
    ensures Next(topics, s, CommitStep(outcome)) ==
              s.(committed := if outcome == Rejected then s.committed
                  else s.committed[s.phase.partition := s.phase.offset + 1],
                 position := if outcome == Acknowledged then s.position
                     else s.position[s.phase.partition := s.phase.offset],
                 phase := Idle)
  {
    hide RequestAt;
  }

  function MessageSteps(
    request: Option<string>, start: StartOutcome, between: seq<Step>, commit: CommitOutcome): seq<Step> {
    if request.Some? && start == Lost then [StartFailed]
    else [if request.None? then Skip else StartAccepted] + between + [CommitStep(commit)]
  }

  function PollSteps(topics: Topics, s: State, poll: Poll): seq<Step> {
    if poll.Message? && Enabled(topics, s, Step.Poll(poll.partition)) then
      [Step.Poll(poll.partition)]
      + MessageSteps(RequestAt(topics, s, poll.partition, s.position[poll.partition]), poll.start, poll.between,
          poll.commit)
    else []
  }

  predicate ProbeFails(turn: Turn, nextProbe: int) {
    turn.now >= nextProbe && !turn.probeSucceeds
  }

  /** When the next probe is due: ten seconds after the last that succeeded. */
  function NextProbe(turn: Turn, nextProbe: int): int {
    if turn.now >= nextProbe && turn.probeSucceeds then turn.now + HEARTBEAT_INTERVAL else nextProbe
  }

  /** The steps of one turn; nothing is polled while a broker probe is due and failing. */
  function TurnSteps(topics: Topics, s: State, turn: Turn, nextProbe: int): seq<Step> {
    if ProbeFails(turn, nextProbe) then turn.environment
    else turn.environment + PollSteps(topics, After(topics, s, turn.environment), turn.poll)
  }

  function LoopSteps(topics: Topics, s: State, turns: seq<Turn>, nextProbe: int): seq<Step>
    decreases |turns|
  {
    if turns == [] then []
    else
      var steps := TurnSteps(topics, s, turns[0], nextProbe);
      steps + LoopSteps(topics, After(topics, s, steps), turns[1..], NextProbe(turns[0], nextProbe))
  }

  lemma LoopStepsFirst(topics: Topics, s: State, turns: seq<Turn>, i: nat, nextProbe: int)
    requires i < |turns|
    ensures var steps := TurnSteps(topics, s, turns[i], nextProbe);
            LoopSteps(topics, s, turns[i..], nextProbe)
            == steps + LoopSteps(topics, After(topics, s, steps), turns[i + 1..], NextProbe(turns[i], nextProbe))
  {
    hide TurnSteps, After;
    assert turns[i..][0] == turns[i] && turns[i..][1..] == turns[i + 1..];
  }

  lemma LoopStepsEnd(topics: Topics, s: State, turns: seq<Turn>, nextProbe: int)
    requires turns == []
    ensures LoopSteps(topics, s, turns, nextProbe) == []
  {
  }

  lemma Associate(a: seq<Step>, b: seq<Step>, c: seq<Step>)
    ensures a + (b + c) == a + b + c
  {
  }

  /** Only what the environment may do, at any point of a turn. */
  predicate FairTurn(t: Turn) {
    && (forall e :: e in t.environment ==> Environmental(e) || e == Restart)
    && (t.poll.Message? ==> forall e :: e in t.poll.between ==> Environmental(e))
  }

  predicate FairTurns(turns: seq<Turn>) {
    forall t :: t in turns ==> FairTurn(t)
  }

  /**
   The consumer with the broker and the store it talks to. `starts`, `expirations` and
   `inFlight` only record history, and `phase` stands for the program counter.
   */
  class Consumer {
    lemma NoSteps(s: State)
      ensures After(topics, s, []) == s
    {
    }

    lemma KeepsInvariant(s: State, steps: seq<Step>)
      ensures Initial(s) || Inv(topics, s) ==> Inv(topics, After(topics, s, steps))
    {
      hide After, Inv;
      if Inv(topics, s) {
        InvariantKept(topics, s, steps);
      } else if Initial(s) {
        InvariantHolds(topics, s, steps);
      }
    }

    const topics: Topics
    var log: map<Partition, seq<Payload>>
    var committed: map<Partition, nat>
    var position: map<Partition, nat>
    var store: map<string, Execution>
    var starts: multiset<string>
    var expirations: multiset<string>
    var inFlight: set<string>
    var phase: Phase

    function View(): State
      reads this
    {
      State(log, committed, position, store, starts, expirations, inFlight, phase)
    }

    constructor (topics: Topics, log: map<Partition, seq<Payload>>)
      ensures this.topics == topics && this.log == log && Initial(View())
    {
      this.topics := topics;
      this.log := log;
      committed := map p | p in log :: 0;
      position := map p | p in log :: 0;
      store := map[];
      starts := multiset{};
      expirations := multiset{};
      inFlight := {};
      phase := Idle;
    }

    /** What happens elsewhere while the consumer waits. */
    method Environment(steps: seq<Step>)
      modifies this
      ensures View() == After(topics, old(View()), steps)
    {
      for i := 0 to |steps|
        invariant View() == After(topics, old(View()), steps[..i])
      {
        assert steps[..i + 1][..i] == steps[..i];
        EnvironmentStep(steps[i]);
      }
      assert steps[..|steps|] == steps;
    }

    method EnvironmentStep(step: Step)
      modifies this
      ensures View() == Next(topics, old(View()), step)
    {
      hide Next, Enabled, RequestAt;
      var next := Next(topics, View(), step);
      log := next.log;
      committed := next.committed;
      position := next.position;
      store := next.store;
      starts := next.starts;
      expirations := next.expirations;
      inFlight := next.inFlight;
      phase := next.phase;
    }

    /** Commits the message's offset, or goes back to it. */
    method CommitOrSeek(p: Partition, offset: nat, outcome: CommitOutcome) returns (ok: bool)
      requires phase == Ready(p, offset)
      modifies this`committed, this`position, this`phase
      ensures View() == Next(topics, old(View()), CommitStep(outcome))
      ensures ok <==> outcome == Acknowledged
      ensures ok ==> p in committed && committed[p] == offset + 1 && position == old(position)
      ensures !ok ==> p in position && position[p] == offset
      ensures phase == Idle
    {
      CommitStepGives(topics, View(), outcome);
      hide Next;
      if outcome != Rejected {
        committed := committed[p := offset + 1];
      }
      if outcome != Acknowledged {
        position := position[p := offset];
      }
      phase := Idle;
      return outcome == Acknowledged;
    }

    /** Temporal's answer to a start under use-existing and reject-duplicate. */
    method StartWorkflow(id: string, outcome: StartOutcome) returns (r: StartResult)
      requires phase.Polled? && RequestAt(topics, View(), phase.partition, phase.offset) == Some(id)
      modifies this`store, this`starts, this`inFlight
      ensures r == RpcError <==> outcome == Lost
      ensures r == Started <==> outcome == Answered && id !in old(store)
      ensures r == UsedExisting <==> outcome == Answered && id in old(store) && old(store)[id] == Running
      ensures outcome == Lost ==> store == old(store) && starts == old(starts) && inFlight == old(inFlight) + {id}
      ensures outcome == Answered ==> View() == Start(old(View()), id)
    {
      if outcome == Lost {
        inFlight := inFlight + {id};
        return RpcError;
      }
      if id in store {
        return if store[id] == Running then UsedExisting else AlreadyStarted;
      }
      store := store[id := Running];
      starts := starts + multiset{id};
      return Started;
    }

    /** Takes the message just polled to acceptance and commit, or back to its offset. */
    method ProcessMessage(p: Partition, offset: nat, start: StartOutcome, between: seq<Step>, commit: CommitOutcome)
      returns (ok: bool)
      requires phase == Polled(p, offset)
      requires forall e :: e in between ==> Environmental(e)
      modifies this
      ensures var request := RequestAt(topics, old(View()), p, offset);
              && View() == After(topics, old(View()), MessageSteps(request, start, between, commit))
              && (ok <==> (request.None? || start == Answered) && commit == Acknowledged)
      ensures phase == Idle
      ensures ok ==> p in committed && committed[p] == offset + 1
      ensures !ok ==> p in position && position[p] == offset
      ensures Inv(topics, old(View())) ==> Inv(topics, View()) && (ok ==> Handled(topics, View(), p, offset))
    {
      ghost var before := View();
      var request := RequestAt(topics, View(), p, offset);
      if request.Some? {
        var answer := StartWorkflow(request.value, start);
        if answer == RpcError {
          position := position[p := offset];
          phase := Idle;
          AfterOne(topics, before, StartFailed);
          KeepsInvariant(before, [StartFailed]);
          return false;
        }
      }
      phase := Ready(p, offset);
      ghost var first := if request.None? then Skip else StartAccepted;
      assert View() == Next(topics, before, first);
      AfterOne(topics, before, first);
      WaitingKeepsPhase(topics, View(), between);
      Environment(between);
      AfterConcat(topics, before, [first], between);
      AfterConcat(topics, before, [first] + between, [CommitStep(commit)]);
      AfterOne(topics, View(), CommitStep(commit));
      ok := CommitOrSeek(p, offset, commit);
      KeepsInvariant(before, [first] + between + [CommitStep(commit)]);
      assert ok && Inv(topics, before) ==> CommittedIsHandled(topics, View());
    }

    /** The polling loop, one turn after another, until the turns run out. */
    method Run(turns: seq<Turn>)
      requires phase == Idle && FairTurns(turns)
      modifies this
      ensures View() == After(topics, old(View()), LoopSteps(topics, old(View()), turns, 0))
      ensures Initial(old(View())) || Inv(topics, old(View())) ==> Inv(topics, View())
    {
      NoSteps(View());
      hide After, TurnSteps, FairTurn, LoopSteps, Inv, Initial;
      var nextProbe := 0;
      ghost var whole := LoopSteps(topics, View(), turns, 0);
      ghost var begin := View();
      ghost var done: seq<Step> := [];
      assert turns[0..] == turns;
      for i := 0 to |turns|
        invariant phase == Idle
        invariant View() == After(topics, begin, done)
        invariant done + LoopSteps(topics, View(), turns[i..], nextProbe) == whole
      {
        ghost var steps := TurnSteps(topics, View(), turns[i], nextProbe);
        LoopStepsFirst(topics, View(), turns, i, nextProbe);
        AfterConcat(topics, begin, done, steps);
        Associate(done, steps, LoopSteps(topics, After(topics, View(), steps), turns[i + 1..], NextProbe(turns[i],
            nextProbe)));
        nextProbe := TakeTurn(turns[i], nextProbe);
        done := done + steps;
      }
      LoopStepsEnd(topics, View(), turns[|turns|..], nextProbe);
      assert done + [] == done;
      KeepsInvariant(begin, whole);
    }

    /** One turn: what happened meanwhile, the broker probe if it is due, and one poll. */
    method TakeTurn(turn: Turn, nextProbe: int) returns (next: int)
      requires phase == Idle && FairTurn(turn)
      modifies this
      ensures phase == Idle && next == NextProbe(turn, nextProbe)
      ensures View() == After(topics, old(View()), TurnSteps(topics, old(View()), turn, nextProbe))
      ensures turn.now >= nextProbe && turn.probeSucceeds ==> next == turn.now + 10
      ensures turn.now >= nextProbe && !turn.probeSucceeds ==>
                next == nextProbe && View() == After(topics, old(View()), turn.environment)
      ensures turn.now < nextProbe ==> next == nextProbe
      ensures Inv(topics, old(View())) ==> Inv(topics, View())
    {
      hide After, PollSteps, Inv;
      ghost var before := View();
      IdleStaysIdle(topics, View(), turn.environment);
      Environment(turn.environment);
      KeepsInvariant(before, turn.environment);
      next := nextProbe;
      if turn.now >= nextProbe {
        if !turn.probeSucceeds {
          return;
        }
        next := turn.now + HEARTBEAT_INTERVAL;
      }
      AfterConcat(topics, before, turn.environment, PollSteps(topics, View(), turn.poll));
      PollOnce(turn.poll);
    }

    /** One poll and what follows from it. */
    method PollOnce(poll: Poll)
      requires phase == Idle
      requires poll.Message? ==> forall e :: e in poll.between ==> Environmental(e)
      modifies this
      ensures phase == Idle
      ensures View() == After(topics, old(View()), PollSteps(topics, old(View()), poll))
      ensures Inv(topics, old(View())) ==> Inv(topics, View())
    {
      ghost var before := View();
      hide Requested, MessageSteps, After, Inv;
      KeepsInvariant(before, PollSteps(topics, before, poll));
      match poll
      case NoMessage => NoSteps(before);
      case PollError => NoSteps(before);
      case Message(p, start, between, commit) =>
        if p in log && p in position && position[p] < |log[p]| {
          var offset := position[p];
          position := position[p := offset + 1];
          phase := Polled(p, offset);
          assert View() == Next(topics, before, Step.Poll(p));
          AfterOne(topics, before, Step.Poll(p));
          AfterConcat(topics, before, [Step.Poll(p)], MessageSteps(RequestAt(topics, before, p, offset), start,
              between, commit));
          assert RequestAt(topics, View(), p, offset) == RequestAt(topics, before, p, offset);
          var _ := ProcessMessage(p, offset, start, between, commit);
        } else {
          NoSteps(before);
        }
    }
  }

  // ---------------------------------------------------------------- what waiting leaves alone

  lemma {:induction false} WaitingKeepsPhase(topics: Topics, s: State, steps: seq<Step>)
    requires forall e :: e in steps ==> Environmental(e)
    ensures After(topics, s, steps).phase == s.phase
  {
    if steps != [] {
      hide Requested;
      WaitingKeepsPhase(topics, s, steps[..|steps| - 1]);
      assert steps[|steps| - 1] in steps;
    }
  }

  lemma {:induction false} IdleStaysIdle(topics: Topics, s: State, steps: seq<Step>)
    requires s.phase.Idle? && forall e :: e in steps ==> Environmental(e) || e == Restart
    ensures After(topics, s, steps).phase.Idle?
  {
    if steps != [] {
      hide Requested;
      IdleStaysIdle(topics, s, steps[..|steps| - 1]);
      assert steps[|steps| - 1] in steps;
    }
  }
}
