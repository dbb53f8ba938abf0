/** What every run of the delivery protocol keeps, faults and restarts included. */
module DeliverySafety {
  import opened Outcomes
  import opened WorkflowIds
  import opened Delivery

  /** The message is poison, or Temporal has started its workflow. */
  predicate Handled(topics: Topics, s: State, p: Partition, offset: nat) {
    var request := RequestAt(topics, s, p, offset);
    request.None? || request.value in s.starts
  }

  /** Some message of the log asks for this workflow. */
  ghost predicate Asked(topics: Topics, s: State, id: string) {
    exists p, o :: p in s.log && 0 <= o < |s.log[p]| && RequestAt(topics, s, p, o) == Some(id)
  }

  /** The partition whose message the consumer holds is one ahead of where it would resume. */
  function Resume(s: State, p: Partition): nat
    requires p in s.position
  {
    if !s.phase.Idle? && s.phase.partition == p then s.phase.offset else s.position[p]
  }

  /** The committed offset of a partition is where the consumer would resume, or one further. */
  predicate Placed(s: State, p: Partition) {
    && p in s.log && p in s.committed && p in s.position
    && Resume(s, p) <= s.committed[p] <= Resume(s, p) + 1 && s.committed[p] <= |s.log[p]|
    && (!s.phase.Idle? && s.phase.partition == p ==> s.phase.offset < |s.log[p]| && s.position[p] == s.phase.offset + 1)
  }

  predicate WellPlaced(s: State) {
    && s.committed.Keys == s.log.Keys && s.position.Keys == s.log.Keys
    && (forall p :: p in s.log ==> Placed(s, p))
    && (!s.phase.Idle? ==> s.phase.partition in s.log)
  }

  predicate CommittedIsHandled(topics: Topics, s: State) {
    && (forall p, o :: p in s.committed && 0 <= o < s.committed[p] ==> Handled(topics, s, p, o))
    && (s.phase.Ready? ==> Handled(topics, s, s.phase.partition, s.phase.offset))
  }

  ghost predicate StartsAccounted(s: State) {
    forall id: string :: s.starts[id] == s.expirations[id] + (if id in s.store then 1 else 0)
  }

  ghost predicate NothingUnasked(topics: Topics, s: State) {
    forall id: string :: id in s.starts || id in s.inFlight ==> Asked(topics, s, id)
  }

  ghost predicate Inv(topics: Topics, s: State) {
    WellPlaced(s) && CommittedIsHandled(topics, s) && StartsAccounted(s) && NothingUnasked(topics, s)
  }

  /** The log only grows, so an offset keeps its message. */
  lemma RequestStays(topics: Topics, s: State, step: Step, p: Partition, offset: nat)
    requires p in s.log && offset < |s.log[p]|
    ensures RequestAt(topics, Next(topics, s, step), p, offset) == RequestAt(topics, s, p, offset)
  {
    hide Requested;
  }

  lemma HandledStays(topics: Topics, s: State, step: Step, p: Partition, offset: nat)
    requires p in s.log && offset < |s.log[p]|
    requires Handled(topics, s, p, offset)
    ensures Handled(topics, Next(topics, s, step), p, offset)
  {
    hide Requested;
  }

  lemma PlacedKept(topics: Topics, s: State, step: Step, p: Partition)
    requires Placed(s, p) && (!s.phase.Idle? ==> Placed(s, s.phase.partition))
    ensures Placed(Next(topics, s, step), p)
  {
    hide RequestAt;
  }

  lemma PartitionsKept(topics: Topics, s: State, step: Step)
    requires s.committed.Keys == s.log.Keys && s.position.Keys == s.log.Keys
    requires !s.phase.Idle? ==> s.phase.partition in s.log
    ensures var t := Next(topics, s, step);
            && t.committed.Keys == t.log.Keys == t.position.Keys == s.log.Keys
            && (!t.phase.Idle? ==> t.phase.partition in t.log)
  {
    hide RequestAt;
  }

  lemma PlacementKept(topics: Topics, s: State, step: Step)
    requires WellPlaced(s)
    ensures WellPlaced(Next(topics, s, step))
  {
    PartitionsKept(topics, s, step);
    hide Next, Placed;
    forall p | p in s.log ensures Placed(Next(topics, s, step), p) {
      PlacedKept(topics, s, step, p);
    }
  }

  lemma NewlyCommitted(topics: Topics, s: State, step: Step, p: Partition, offset: nat)
    requires Placed(s, p) && p in Next(topics, s, step).committed
    requires s.committed[p] <= offset < Next(topics, s, step).committed[p]
    ensures s.phase == Ready(p, offset)
  {
    hide RequestAt;
  }

  lemma NewlyReady(topics: Topics, s: State, step: Step)
    requires s.phase.Polled? && Next(topics, s, step).phase.Ready?
    requires StartsAccounted(s)
    ensures Handled(topics, Next(topics, s, step), s.phase.partition, s.phase.offset)
    ensures Next(topics, s, step).phase == Ready(s.phase.partition, s.phase.offset)
  {
    hide Requested;
  }

  lemma PhaseMoves(topics: Topics, s: State, step: Step)
    ensures var t := Next(topics, s, step);
            t.phase.Ready? ==> t.phase == s.phase || s.phase.Polled?
  {
    hide RequestAt;
  }

  lemma CommittedIsHandledKept(topics: Topics, s: State, step: Step)
    requires WellPlaced(s) && CommittedIsHandled(topics, s) && StartsAccounted(s)
    ensures CommittedIsHandled(topics, Next(topics, s, step))
  {
    var t := Next(topics, s, step);
    PartitionsKept(topics, s, step);
    hide Next, Handled;
    forall p, o | p in t.committed && 0 <= o < t.committed[p] ensures Handled(topics, t, p, o) {
      assert Placed(s, p);
      if o >= s.committed[p] {
        NewlyCommitted(topics, s, step, p, o);
      }
      HandledStays(topics, s, step, p, o);
    }
    if t.phase.Ready? {
      PhaseMoves(topics, s, step);
      if s.phase.Polled? {
        NewlyReady(topics, s, step);
      } else {
        HandledStays(topics, s, step, s.phase.partition, s.phase.offset);
      }
    }
  }

  lemma StartsAccountedKept(topics: Topics, s: State, step: Step)
    requires StartsAccounted(s)
    ensures StartsAccounted(Next(topics, s, step))
  {
    hide Requested;
  }

  lemma NothingUnaskedKept(topics: Topics, s: State, step: Step)
    requires WellPlaced(s) && NothingUnasked(topics, s)
    ensures NothingUnasked(topics, Next(topics, s, step))
  {
    var t := Next(topics, s, step);
    hide Requested;
    forall id: string | id in t.starts || id in t.inFlight ensures Asked(topics, t, id) {
      var p, o :| p in s.log && 0 <= o < |s.log[p]| && RequestAt(topics, s, p, o) == Some(id);
      RequestStays(topics, s, step, p, o);
      assert RequestAt(topics, t, p, o) == Some(id);
    }
  }

  /** The invariant is kept by every step, so by any number of them. */
  lemma {:induction false} InvariantKept(topics: Topics, s: State, run: seq<Step>)
    requires Inv(topics, s)
    ensures Inv(topics, After(topics, s, run))
  {
    if run != [] {
      var before, step := After(topics, s, run[..|run| - 1]), run[|run| - 1];
      InvariantKept(topics, s, run[..|run| - 1]);
      PlacementKept(topics, before, step);
      CommittedIsHandledKept(topics, before, step);
      StartsAccountedKept(topics, before, step);
      NothingUnaskedKept(topics, before, step);
      hide Next, Requested;
    }
  }

  lemma InvariantHolds(topics: Topics, s: State, run: seq<Step>)
    requires Initial(s)
    ensures Inv(topics, After(topics, s, run))
  {
    hide After;
    assert Inv(topics, s);
    InvariantKept(topics, s, run);
  }

  // ---------------------------------------------------------------- what every run keeps

  /**
   Whatever happens, every offset below the committed one, and every offset the consumer has
   read past, is poison or has had its workflow started.
   */
  lemma NothingIsSkipped(topics: Topics, s: State, run: seq<Step>, p: Partition, offset: nat)
    requires Initial(s)
    ensures var t := After(topics, s, run);
            p in t.log && p in t.position && p in t.committed
            && (offset < t.committed[p] || offset < Resume(t, p) ==>
               offset < |t.log[p]| && Handled(topics, t, p, offset))
    requires p in s.log
  {
    InvariantHolds(topics, s, run);
    PartitionsStay(topics, s, run, p);
  }

  lemma StepMovesForward(topics: Topics, s: State, step: Step, p: Partition)
    requires WellPlaced(s) && p in s.log
    ensures var t := Next(topics, s, step);
            p in t.log && p in s.committed && p in t.committed && s.committed[p] <= t.committed[p]
  {
    hide Requested;
  }

  lemma {:induction false} PartitionsStay(topics: Topics, s: State, run: seq<Step>, p: Partition)
    requires Initial(s) && p in s.log
    ensures var t := After(topics, s, run); p in t.log && p in t.committed && p in t.position
  {
    InvariantHolds(topics, s, run);
    if run != [] {
      var init := run[..|run| - 1];
      PartitionsStay(topics, s, init, p);
      InvariantHolds(topics, s, init);
      StepMovesForward(topics, After(topics, s, init), run[|run| - 1], p);
      hide Next, Requested, CommittedIsHandled, StartsAccounted, NothingUnasked;
    }
  }

  /** Commits only move forward, although a commit that took effect unseen is repeated. */
  lemma {:induction false} CommittedNeverDecreases(
    topics: Topics, s: State, run: seq<Step>, more: seq<Step>, p: Partition)
    requires Initial(s) && p in s.log
    ensures var t, u := After(topics, s, run), After(topics, s, run + more);
            p in t.committed && p in u.committed && t.committed[p] <= u.committed[p]
  {
    InvariantHolds(topics, s, run);
    PartitionsStay(topics, s, run, p);
    if more == [] {
      assert run + more == run;
    } else {
      var init := more[..|more| - 1];
      assert (run + more)[..|run + more| - 1] == run + init;
      CommittedNeverDecreases(topics, s, run, init, p);
      InvariantHolds(topics, s, run + init);
      PartitionsStay(topics, s, run + init, p);
      StepMovesForward(topics, After(topics, s, run + init), more[|more| - 1], p);
      hide Next, Requested, CommittedIsHandled, StartsAccounted, NothingUnasked, WellPlaced;
    }
  }

  /** At most one message of a partition is handled but not committed, so a restart repeats at most one. */
  lemma RestartRepeatsAtMostOne(topics: Topics, s: State, run: seq<Step>, p: Partition)
    requires Initial(s) && p in s.log
    ensures var t := After(topics, s, run);
            p in t.position && p in t.committed && t.committed[p] <= t.position[p] + 1
                && t.position[p] <= t.committed[p] + 1
  {
    InvariantHolds(topics, s, run);
    PartitionsStay(topics, s, run, p);
  }

  /**
   Redelivery and duplicate publication never start a retained workflow again: the executions
   begun are the ones forgotten plus the one retained, if any.
   */
  lemma StartedOnceWhileRetained(topics: Topics, s: State, run: seq<Step>, id: string)
    requires Initial(s)
    ensures var t := After(topics, s, run); t.starts[id] == t.expirations[id] + (if id in t.store then 1 else 0)
  {
    InvariantHolds(topics, s, run);
  }

  lemma OnlyExpireForgets(topics: Topics, s: State, step: Step, id: string)
    requires step != Expire(id)
    ensures Next(topics, s, step).expirations[id] == s.expirations[id]
  {
    hide RequestAt;
  }

  lemma {:induction false} NeverForgotten(topics: Topics, s: State, run: seq<Step>, id: string)
    requires Expire(id) !in run
    ensures After(topics, s, run).expirations[id] == s.expirations[id]
  {
    if run != [] {
      assert run[|run| - 1] in run && forall step :: step in run[..|run| - 1] ==> step in run;
      NeverForgotten(topics, s, run[..|run| - 1], id);
      OnlyExpireForgets(topics, After(topics, s, run[..|run| - 1]), run[|run| - 1], id);
      hide Next;
    }
  }

  /** While Temporal forgets nothing of it, a committed request has been started exactly once. */
  lemma ExactlyOnce(topics: Topics, s: State, run: seq<Step>, p: Partition, offset: nat)
    requires Initial(s) && p in s.log
    requires var t := After(topics, s, run);
             p in t.committed && offset < t.committed[p] && RequestAt(topics, t, p, offset).Some?
             && Expire(RequestAt(topics, t, p, offset).value) !in run
    ensures var t := After(topics, s, run); t.starts[RequestAt(topics, t, p, offset).value] == 1
  {
    var t := After(topics, s, run);
    var id := RequestAt(topics, t, p, offset).value;
    InvariantHolds(topics, s, run);
    NeverForgotten(topics, s, run, id);
    assert Handled(topics, t, p, offset);
  }

  /** No workflow runs that no message asked for. */
  lemma NothingStartedUnasked(topics: Topics, s: State, run: seq<Step>, id: string)
    requires Initial(s) && id in After(topics, s, run).starts
    ensures exists p, o :: RequestAt(topics, After(topics, s, run), p, o) == Some(id)
  {
    InvariantHolds(topics, s, run);
    assert Asked(topics, After(topics, s, run), id);
  }

  // ---------------------------------------------------------------- which workflows these are

  /** The message at this offset is a valid request, and this is the ID of the workflow it is to start. */
  predicate Asks(topics: Topics, log: map<Partition, seq<Payload>>, p: Partition, offset: nat, id: string) {
    && p in log && offset < |log[p]|
    && match log[p][offset]
       case RenderEvent(event) => p.topic == topics.render && id == WorkflowIdFor(event)
       case DeploymentEvent(event) => p.topic == topics.deployment && id == DeploymentWorkflowIdFor(event)
       case Malformed => false
  }

  lemma AsksIsRequest(topics: Topics, s: State, p: Partition, offset: nat, id: string)
    requires topics.render != topics.deployment
    ensures Asks(topics, s.log, p, offset, id) <==> RequestAt(topics, s, p, offset) == Some(id)
  {
    hide WorkflowIdFor, DeploymentWorkflowIdFor;
  }

  /**
   A render event on the render topic and a deployment event on the deployment topic are requests:
   once committed, or read past, their workflows have been started. And whatever has been started is
   the workflow of such a message in the log.
   */
  lemma RequestsAreStarted(topics: Topics, s: State, run: seq<Step>)
    requires Initial(s) && topics.render != topics.deployment
    ensures var t := After(topics, s, run);
            && (forall p, o: nat, id ::
                  Asks(topics, t.log, p, o, id) && p in t.committed && p in t.position
                  && (o < t.committed[p] || o < Resume(t, p)) ==>
                    id in t.starts)
            && (forall id :: id in t.starts ==> exists p, o: nat :: Asks(topics, t.log, p, o, id))
  {
    InvariantHolds(topics, s, run);
    var t := After(topics, s, run);
    hide Initial, After, WorkflowIdFor, DeploymentWorkflowIdFor, Requested, Asks;
    forall p, o: nat, id | Asks(topics, t.log, p, o, id) && p in t.committed && p in t.position
                           && (o < t.committed[p] || o < Resume(t, p))
      ensures id in t.starts
    {
      AsksIsRequest(topics, t, p, o, id);
      assert Placed(t, p);
      assert Handled(topics, t, p, o);
    }
    forall id | id in t.starts ensures exists p, o: nat :: Asks(topics, t.log, p, o, id) {
      assert Asked(topics, t, id);
      var p, o :| p in t.log && 0 <= o < |t.log[p]| && RequestAt(topics, t, p, o) == Some(id);
      AsksIsRequest(topics, t, p, o, id);
    }
  }
}
