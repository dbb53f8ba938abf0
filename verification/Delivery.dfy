/**
 Delivery of automation requests from Kafka to Temporal, as a protocol: the consumer polls a
 message, starts its workflow and commits, or seeks back. The environment appends and
 duplicates messages, lets uncertain starts and commits take effect, closes and forgets
 workflows, and may stop the process anywhere.
 */
module Delivery {
  import opened Outcomes
  import opened WorkflowIds

  // ---------------------------------------------------------------- requests

  /** What validating a message body yields; the event type decides which model accepts it. */
  datatype Payload =
    | Malformed
    | RenderEvent(eventId: string)
    | DeploymentEvent(eventId: string)

  datatype Partition = Partition(topic: string, index: nat)

  datatype Topics = Topics(render: string, deployment: string)

  /** The workflow a message asks for; None is a poison message. */
  function Requested(topics: Topics, topic: string, payload: Payload): Option<string> {
    if topic == topics.render then
      if payload.RenderEvent? then Some(WorkflowIdFor(payload.eventId)) else None
    else if topic == topics.deployment then
      if payload.DeploymentEvent? then Some(DeploymentWorkflowIdFor(payload.eventId)) else None
    else None
  }

  /** Two messages ask for the same workflow exactly when they carry the same event under the same topic. */
  lemma SameWorkflowExactlyWhen(topics: Topics, t: string, u: string, a: Payload, b: Payload)
    requires Requested(topics, t, a).Some? && Requested(topics, u, b).Some?
    ensures Requested(topics, t, a) == Requested(topics, u, b) <==> t == u && a == b
  {
    WorkflowIdsDiffer(a.eventId, b.eventId);
    WorkflowIdsDiffer(b.eventId, a.eventId);
    hide WorkflowIdFor, DeploymentWorkflowIdFor;
  }

  // ---------------------------------------------------------------- the protocol

  /** A workflow Temporal still retains. */
  datatype Execution = Running | Closed

  /** Where the consumer is: between messages, holding one, or about to commit one. */
  datatype Phase = Idle | Polled(partition: Partition, offset: nat) | Ready(partition: Partition, offset: nat)

  /**
   `starts` and `expirations` count, per workflow ID, how often Temporal began an execution
   and how often it forgot one; `inFlight` holds starts whose outcome the consumer never learned.
   */
  datatype State = State(
    log: map<Partition, seq<Payload>>,
    committed: map<Partition, nat>,
    position: map<Partition, nat>,
    store: map<string, Execution>,
    starts: multiset<string>,
    expirations: multiset<string>,
    inFlight: set<string>,
    phase: Phase
  )

  datatype Step =
    | Poll(partition: Partition)
    | Skip
    | StartAccepted
    | StartFailed
    | CommitAccepted
    | CommitFailed(applied: bool)
    | Restart
    | Append(partition: Partition, payload: Payload)
    | LateStart(id: string)
    | Close(id: string)
    | Expire(id: string)

  predicate Environmental(step: Step) {
    step.Append? || step.LateStart? || step.Close? || step.Expire?
  }

  /** The workflow asked for at an offset. */
  function RequestAt(topics: Topics, s: State, p: Partition, offset: nat): Option<string> {
    if p in s.log && offset < |s.log[p]| then Requested(topics, p.topic, s.log[p][offset]) else None
  }

  predicate Enabled(topics: Topics, s: State, step: Step) {
    match step
    case Poll(p) => s.phase.Idle? && p in s.log && p in s.position && s.position[p] < |s.log[p]|
    case Skip => s.phase.Polled? && RequestAt(topics, s, s.phase.partition, s.phase.offset).None?
    case StartAccepted => s.phase.Polled? && RequestAt(topics, s, s.phase.partition, s.phase.offset).Some?
    case StartFailed => s.phase.Polled? && RequestAt(topics, s, s.phase.partition, s.phase.offset).Some?
    case CommitAccepted => s.phase.Ready?
    case CommitFailed(_) => s.phase.Ready?
    case Restart => true
    case Append(p, _) => p in s.log
    case LateStart(id) => id in s.inFlight
    case Close(id) => id in s.store && s.store[id] == Running
    case Expire(id) => id in s.store && s.store[id] == Closed
  }

  /**
   Temporal's start under the policies use-existing and reject-duplicate: a retained
   workflow, open or closed, is not started again.
   */
  function Start(s: State, id: string): State {
    if id in s.store then s else s.(store := s.store[id := Running], starts := s.starts + multiset{id})
  }

  function Seek(s: State, p: Partition, offset: nat): State {
    s.(position := s.position[p := offset], phase := Idle)
  }

  /** One step; a step that is not enabled changes nothing. */
  function Next(topics: Topics, s: State, step: Step): State {
    if !Enabled(topics, s, step) then s
    else
      match step
      case Poll(p) => s.(position := s.position[p := s.position[p] + 1], phase := Polled(p, s.position[p]))
      case Skip => s.(phase := Ready(s.phase.partition, s.phase.offset))
      case StartAccepted =>
        Start(s, RequestAt(topics, s, s.phase.partition, s.phase.offset).value)
        .(phase := Ready(s.phase.partition, s.phase.offset))
      case StartFailed =>
        Seek(s.(inFlight := s.inFlight + {RequestAt(topics, s, s.phase.partition, s.phase.offset).value}),
             s.phase.partition, s.phase.offset)
      case CommitAccepted => s.(committed := s.committed[s.phase.partition := s.phase.offset + 1], phase := Idle)
      case CommitFailed(applied) =>
        Seek(if applied then s.(committed := s.committed[s.phase.partition := s.phase.offset + 1]) else s,
             s.phase.partition, s.phase.offset)
      case Restart => s.(position := s.committed, phase := Idle)
      case Append(p, payload) => s.(log := s.log[p := s.log[p] + [payload]])
      case LateStart(id) => Start(s, id)
      case Close(id) => s.(store := s.store[id := Closed])
      case Expire(id) => s.(store := s.store - {id}, expirations := s.expirations + multiset{id})
  }

  function After(topics: Topics, s: State, run: seq<Step>): State {
    if run == [] then s else Next(topics, After(topics, s, run[..|run| - 1]), run[|run| - 1])
  }

  lemma {:induction false} AfterConcat(topics: Topics, s: State, a: seq<Step>, b: seq<Step>)
    ensures After(topics, s, a + b) == After(topics, After(topics, s, a), b)
  {
    if b == [] {
      assert a + b == a;
    } else {
      assert (a + b)[..|a + b| - 1] == a + b[..|b| - 1];
      AfterConcat(topics, s, a, b[..|b| - 1]);
    }
  }

  lemma AfterOne(topics: Topics, s: State, step: Step)
    ensures After(topics, s, [step]) == Next(topics, s, step)
  {
    assert [step][..0] == [];
  }

  /** A fresh deployment: nothing committed, so every partition is read from its start. */
  predicate Initial(s: State) {
    && s.committed.Keys == s.log.Keys && s.position == s.committed
    && (forall p :: p in s.committed ==> s.committed[p] == 0)
    && s.store == map[] && s.starts == multiset{} && s.expirations == multiset{} && s.inFlight == {} && s.phase.Idle?
  }
}
