/** What holds of every deployment run, whatever the activities, the clocks and the network do. */
module Deployments {
  import opened Outcomes
  import opened Text
  import opened WorkflowIds
  import opened DeploymentModels
  import opened Retry
  import opened Workflow

  // ---------------------------------------------------------------- order and number of attempts

  function Rank(a: Activity): nat {
    match a
    case PrepareActivity => 0
    case DeployActivity => 1
    case ValidateActivity => 2
    case PublishActivity => 3
  }

  function MaxAttempts(a: Activity): nat {
    match a
    case PrepareActivity => 3
    case DeployActivity => 3
    case ValidateActivity => 12
    case PublishActivity => 5
  }

  /** The next attempt repeats the activity on the same input, or a later activity begins. */
  predicate Follows(e: Entry, next: Entry) {
    || (next.activity == e.activity && next.input == e.input && next.attempt == e.attempt + 1)
    || (Rank(next.activity) > Rank(e.activity) && next.attempt == 1)
  }

  predicate Orderly(log: seq<Entry>) {
    && (log != [] ==> log[0].attempt == 1)
    && (forall i :: 0 < i < |log| ==> Follows(log[i - 1], log[i]))
    && (forall e :: e in log ==> 1 <= e.attempt <= MaxAttempts(e.activity))
  }

  lemma AppendAttempts(log: seq<Entry>, a: Activity, input: Input, n: nat)
    requires Orderly(log) && 1 <= n <= MaxAttempts(a)
    requires log != [] ==> Rank(log[|log| - 1].activity) < Rank(a)
    ensures Orderly(log + Attempts(a, input, n))
    ensures (log + Attempts(a, input, n))[|log| + n - 1].activity == a
  {
    var more := Attempts(a, input, n);
    forall i | 0 < i < |log + more| ensures Follows((log + more)[i - 1], (log + more)[i]) {
      if i > |log| {
        assert (log + more)[i - 1] == Entry(a, input, i - |log|);
        assert (log + more)[i] == Entry(a, input, i - |log| + 1);
      }
    }
  }

  /**
   In an orderly log an activity is scheduled once: its attempts stand together, numbered
   from 1 without a gap, and all have the same input.
   */
  lemma {:induction false} ScheduledOnce(log: seq<Entry>, i: nat, j: nat)
    requires Orderly(log) && i <= j < |log|
    ensures Rank(log[i].activity) <= Rank(log[j].activity)
    ensures log[i].activity == log[j].activity ==>
              log[i].input == log[j].input && log[j].attempt == log[i].attempt + (j - i)
  {
    if i < j {
      ScheduledOnce(log, i, j - 1);
      assert Follows(log[j - 1], log[j]);
    }
  }

  lemma ExecutionsAreBounded(world: World)
    ensures 1 <= |Prepares(world).outcomes| <= 3 && Prepares(world).elapsed <= WorstCase(PREPARE_POLICY, PREPARE_LIMITS)
    ensures 1 <= |Deploys(world).outcomes| <= 3 && Deploys(world).elapsed <= WorstCase(DEPLOY_POLICY, DEPLOY_LIMITS)
    ensures 1 <= |Validates(world).outcomes| <= 12
            && Validates(world).elapsed <= WorstCase(VALIDATE_POLICY, VALIDATE_LIMITS)
    ensures 1 <= |Publishes(world).outcomes| <= 5 && Publishes(world).elapsed <= WorstCase(PUBLISH_POLICY,
            PUBLISH_LIMITS)
  {
    PoliciesAreValid();
    hide Execute, WorstCase, ValidPolicy, ValidLimits;
    ExecuteBounds(PREPARE_POLICY, PREPARE_LIMITS, world.prepare);
    ExecuteBounds(DEPLOY_POLICY, DEPLOY_LIMITS, world.deploy);
    ExecuteBounds(VALIDATE_POLICY, VALIDATE_LIMITS, world.validate);
    ExecuteBounds(PUBLISH_POLICY, PUBLISH_LIMITS, world.publish);
  }

  /** Every attempt works on what the run says it should. */
  predicate InputsFit(request: DeployRequest, world: World, run: Run) {
    forall e :: e in run.log ==>
      match e.activity
      case PrepareActivity => e.input == RequestInput(request)
      case DeployActivity => Prepares(world).result.Ok? && e.input == PreparedInput(Prepares(world).result.value)
      case ValidateActivity =>
        && Prepares(world).result.Ok? && Deploys(world).result.Ok?
        && e.input == PreparedInput(Prepares(world).result.value)
      case PublishActivity => !run.ending.Stuck? && e.input == OutcomeInput(run.ending.outcome)
  }

  lemma FinishIsOrderly(request: DeployRequest, world: World, outcome: Outcome, log: seq<Entry>, elapsed: real)
    requires Orderly(log) && log != [] && Rank(log[|log| - 1].activity) < 3
    requires forall e :: e in log ==> e.activity != PublishActivity
    requires InputsFit(request, world, Run(Stuck, log, elapsed))
    ensures var run := Finish(world, outcome, log, elapsed);
            && Orderly(run.log) && InputsFit(request, world, run) && log <= run.log
            && (run.ending.Stuck? ==> run.log == log)
            && (!run.ending.Stuck? ==> run.log[|run.log| - 1].activity == PublishActivity)
            && (forall e :: e in run.log ==> e.activity == PublishActivity || e in log)
            && (if run.ending.Stuck? then run.elapsed == EXECUTION_TIMEOUT
                else run.elapsed <= elapsed + WorstCase(PUBLISH_POLICY, PUBLISH_LIMITS))
  {
    ExecutionsAreBounded(world);
    PoliciesAreValid();
    ActivityWorstCases();
    hide Publishes, Prepares, Deploys, Validates, WorstCase, ValidOutcome;
    if ValidOutcome(outcome, world.printable) {
      AppendAttempts(log, PublishActivity, OutcomeInput(outcome), |Publishes(world).outcomes|);
    }
  }

  /** Where each policy's waits reach its maximum. */
  lemma CapsAreReached()
    ensures Wait(PREPARE_POLICY, 2) <= 5.0 <= Wait(PREPARE_POLICY, 3)
    ensures Wait(DEPLOY_POLICY, 2) <= 10.0 <= Wait(DEPLOY_POLICY, 3)
    ensures Wait(PUBLISH_POLICY, 3) <= 10.0 <= Wait(PUBLISH_POLICY, 4)
    ensures Wait(VALIDATE_POLICY, 2) <= 5.0 <= Wait(VALIDATE_POLICY, 3)
  {
    assert Power(2.0, 2) == 4.0 && Power(2.0, 3) == 8.0 && Power(2.0, 4) == 16.0;
    assert Power(1.5, 2) == 2.25 && Power(1.5, 3) == 3.375;
  }

  lemma WaitsOf(p: Policy)
    ensures Wait(p, 0) == p.initial && Wait(p, 1) == p.initial * p.coefficient
    ensures Wait(p, 2) == p.initial * (p.coefficient * p.coefficient)
    ensures Wait(p, 3) == p.initial * (p.coefficient * (p.coefficient * p.coefficient))
  {
    assert Power(p.coefficient, 1) == p.coefficient;
    assert Power(p.coefficient, 2) == p.coefficient * p.coefficient;
    assert Power(p.coefficient, 3) == p.coefficient * (p.coefficient * p.coefficient);
  }

  /** The first waits of each policy. */
  lemma FirstWaits()
    ensures Backoff(PREPARE_POLICY, 0) == 1.0 && Backoff(PREPARE_POLICY, 1) == 2.0 && Backoff(PREPARE_POLICY, 2) == 4.0
    ensures Backoff(DEPLOY_POLICY, 0) == 2.0 && Backoff(DEPLOY_POLICY, 1) == 4.0 && Backoff(DEPLOY_POLICY, 2) == 8.0
    ensures Backoff(VALIDATE_POLICY, 0) == 2.0 && Backoff(VALIDATE_POLICY, 1) == 3.0
            && Backoff(VALIDATE_POLICY, 2) == 4.5
    ensures Backoff(PUBLISH_POLICY, 0) == 1.0 && Backoff(PUBLISH_POLICY, 1) == 2.0 && Backoff(PUBLISH_POLICY, 2) == 4.0
            && Backoff(PUBLISH_POLICY, 3) == 8.0
  {
    WaitsOf(PREPARE_POLICY);
    WaitsOf(DEPLOY_POLICY);
    WaitsOf(VALIDATE_POLICY);
    WaitsOf(PUBLISH_POLICY);
    hide Wait;
  }

  /** From then on every wait is the longest. */
  lemma LaterWaits(k: nat)
    requires k >= 3
    ensures Backoff(PREPARE_POLICY, k) == 5.0 && Backoff(DEPLOY_POLICY, k) == 10.0
    ensures Backoff(VALIDATE_POLICY, k) == 5.0 && Backoff(PUBLISH_POLICY, k + 1) == 10.0
  {
    PoliciesAreValid();
    CapsAreReached();
    hide Wait, Power, ValidPolicy;
    WaitGrows(PREPARE_POLICY, 3, k);
    WaitGrows(DEPLOY_POLICY, 3, k);
    WaitGrows(VALIDATE_POLICY, 3, k);
    WaitGrows(PUBLISH_POLICY, 4, k + 1);
  }

  /** Before the cap the waits are a geometric sum. */
  lemma DoublingWaits(p: Policy, n: nat)
    requires p.coefficient == 2.0
    ensures Uncapped(p, n) == p.initial * (Power(2.0, n) - 1.0)
  {
    UncappedIsGeometric(p, n);
  }

  /** Three, three, twelve and five attempts with their waits; of validation, no more than its deadline. */
  lemma ActivityWorstCases()
    ensures WorstCase(PREPARE_POLICY, PREPARE_LIMITS) == 183.0
    ensures WorstCase(DEPLOY_POLICY, DEPLOY_LIMITS) == 96.0
    ensures WorstCase(VALIDATE_POLICY, VALIDATE_LIMITS) == 90.0
    ensures WorstCase(PUBLISH_POLICY, PUBLISH_LIMITS) == 165.0
  {
    PoliciesAreValid();
    CapsAreReached();
    assert Power(2.0, 2) == 4.0 && Power(2.0, 4) == 16.0;
    hide Wait, Power, TotalBackoff, Uncapped, ValidPolicy, Multiple;
    TotalBackoffExact(PREPARE_POLICY, 3, 2);
    TotalBackoffExact(DEPLOY_POLICY, 3, 2);
    TotalBackoffExact(PUBLISH_POLICY, 4, 4);
    DoublingWaits(PREPARE_POLICY, 2);
    DoublingWaits(DEPLOY_POLICY, 2);
    DoublingWaits(PUBLISH_POLICY, 4);
    TotalBackoffBound(VALIDATE_POLICY, 11);
    MultipleIsProduct(2, 60.0);
    MultipleIsProduct(2, 30.0);
    MultipleIsProduct(4, 30.0);
    MultipleIsProduct(11, 15.0);
    MultipleIsProduct(11, 2.0);
  }

  lemma WorkIsOrderly(request: DeployRequest, world: World)
    ensures var log := Worked(request, world);
            && Orderly(log) && log != [] && Rank(log[|log| - 1].activity) < 3
  {
    ExecutionsAreBounded(world);
    hide Prepares, Deploys, Validates, WorstCase, Orderly;
    var prepared, deployed, validated := Prepares(world), Deploys(world), Validates(world);
    var log1 := Attempts(PrepareActivity, RequestInput(request), |prepared.outcomes|);
    FirstLog(request, |prepared.outcomes|);
    if prepared.result.Ok? {
      var input := PreparedInput(prepared.result.value);
      NextLog(log1, DeployActivity, input, |deployed.outcomes|);
      if deployed.result.Ok? {
        NextLog(log1 + Attempts(DeployActivity, input, |deployed.outcomes|), ValidateActivity, input,
            |validated.outcomes|);
      }
    }
  }

  lemma WorkFits(request: DeployRequest, world: World)
    ensures forall e :: e in Worked(request, world) ==> e.activity != PublishActivity
    ensures InputsFit(request, world, Run(Stuck, Worked(request, world), WorkedFor(world)))
  {
    hide Prepares, Deploys, Validates, WorkedFor;
  }

  lemma WorkIsBounded(world: World)
    ensures WorkedFor(world) <= 369.0
  {
    ExecutionsAreBounded(world);
    ActivityWorstCases();
    hide Prepares, Deploys, Validates, WorstCase;
    assert Validates(world).elapsed <= 90.0;
    assert Prepares(world).elapsed <= 183.0;
    assert Deploys(world).elapsed <= 96.0;
  }

  /**
   In every run prepare, deploy and validate are scheduled at most once each and in order,
   within their attempts and on the inputs they should have; publish is scheduled exactly
   once and last, unless the outcome record cannot be built. A run that publishes has ended after
   534 seconds; one that cannot lasts until its execution times out.
   */
  lemma RunIsOrderly(request: DeployRequest, world: World)
    ensures var run := Deployed(request, world);
            && Orderly(run.log) && InputsFit(request, world, run)
            && (forall e :: e in run.log && e.activity == PublishActivity ==> !run.ending.Stuck?)
            && run.log != [] && (!run.ending.Stuck? ==> run.log[|run.log| - 1].activity == PublishActivity)
            && (if run.ending.Stuck? then run.elapsed == EXECUTION_TIMEOUT
                else run.elapsed <= 534.0 < EXECUTION_TIMEOUT)
  {
    WorkIsOrderly(request, world);
    WorkFits(request, world);
    WorkIsBounded(world);
    ActivityWorstCases();
    hide Worked, WorkedFor, Arrived, Orderly, Finish, WorstCase;
    FinishIsOrderly(request, world, Arrived(request, world), Worked(request, world), WorkedFor(world));
  }

  lemma FirstLog(request: DeployRequest, n: nat)
    requires 1 <= n <= 3
    ensures var log := Attempts(PrepareActivity, RequestInput(request), n);
            Orderly(log) && log[n - 1].activity == PrepareActivity && Rank(log[n - 1].activity) == 0
  {
    AppendAttempts([], PrepareActivity, RequestInput(request), n);
    assert [] + Attempts(PrepareActivity, RequestInput(request), n) ==
           Attempts(PrepareActivity, RequestInput(request), n);
  }

  lemma NextLog(log: seq<Entry>, a: Activity, input: Input, n: nat)
    requires Orderly(log) && log != [] && 1 <= n <= MaxAttempts(a) && Rank(log[|log| - 1].activity) < Rank(a)
    ensures var more := log + Attempts(a, input, n);
            Orderly(more) && more[|more| - 1].activity == a && Rank(more[|more| - 1].activity) == Rank(a)
  {
    AppendAttempts(log, a, input, n);
  }

  // ---------------------------------------------------------------- the outcome

  /** What the prepare activity promises of a value it returns. */
  predicate HonestPrepare(request: DeployRequest, world: World) {
    Prepares(world).result.Ok? ==>
      ValidPrepared(Prepares(world).result.value) && Prepares(world).result.value.artifact.deviceName
          == request.deviceName
  }

  /** The stage at which a run fails, if it does. */
  function FailingStage(world: World): Option<Stage> {
    if Prepares(world).result.Err? then Some(Prepare)
    else if Deploys(world).result.Err? then Some(Deploy)
    else if Validates(world).result.Err? || !Validates(world).result.value then Some(Validate)
    else None
  }

  /** The failure the failing stage ended with; a validation that only returned "failed" has none. */
  function FinalFailure(world: World): Option<Failure> {
    match FailingStage(world)
    case None => None
    case Some(Prepare) => Some(Prepares(world).result.error)
    case Some(Deploy) => Some(Deploys(world).result.error)
    case Some(Validate) => if Validates(world).result.Err? then Some(Validates(world).result.error) else None
  }

  predicate Recognised(f: Failure, stage: Stage) {
    f.Application? && f.kind in KindsOf(stage)
  }

  /** A failure whose record the validators refuse. */
  predicate Unpublishable(f: Failure, stage: Stage, printable: char -> bool) {
    if Recognised(f, stage) then !SafeMessage(Reported(f.message), printable) else stage == Prepare
  }

  lemma FailedIsValidExactlyWhen(
    request: DeployRequest, world: World, stage: Stage, f: Failure, prepared: Option<Prepared>, deployedAt: Option<int>)
    requires CanonicalUuid(request.eventId)
    requires prepared.Some? ==> ValidIdentity(prepared.value.artifact)
    requires (prepared.Some? <==> stage != Prepare) && (deployedAt.Some? <==> stage == Validate)
    ensures ValidOutcome(FailedOutcome(request, world, stage, DeploymentError(f, stage), prepared, deployedAt),
            world.printable)
            <==> !Unpublishable(f, stage, world.printable)
  {
    WorkflowIdIsValid(request.eventId);
    hide DeploymentWorkflowIdFor, ValidWorkflowId, CanonicalUuid, SafeMessage, Sha256Text, ArtifactPath;
  }

  lemma NotMatchingIsValid(request: DeployRequest, world: World, prepared: Prepared, deployedAt: int)
    requires CanonicalUuid(request.eventId) && ValidIdentity(prepared.artifact)
    ensures ValidOutcome(FailedOutcome(request, world, Validate, NOT_MATCHING, Some(prepared), Some(deployedAt)),
            world.printable)
  {
    WorkflowIdIsValid(request.eventId);
    hide DeploymentWorkflowIdFor, ValidWorkflowId, CanonicalUuid, Sha256Text, ArtifactPath;
  }

  lemma CompletedIsValid(request: DeployRequest, world: World, prepared: Prepared, deployment: Deployment)
    requires CanonicalUuid(request.eventId) && ValidIdentity(prepared.artifact)
    requires prepared.artifact.deviceName == request.deviceName
    ensures ValidOutcome(CompletedOutcome(request, world, prepared, deployment), world.printable)
  {
    WorkflowIdIsValid(request.eventId);
    hide DeploymentWorkflowIdFor, ValidWorkflowId, CanonicalUuid, Sha256Text, ArtifactPath;
  }

  /**
   The record a run arrives at satisfies every validator, times included, exactly when the
   failure it reports, if any, is one its stage may report: a prepare that failed for a reason
   none of its nine categories covers has no valid record.
   */
  lemma ArrivedIsValidExactlyWhen(request: DeployRequest, world: World)
    requires CanonicalUuid(request.eventId) && HonestPrepare(request, world)
    ensures ValidOutcome(Arrived(request, world), world.printable) <==>
              (FinalFailure(world).Some? ==> !Unpublishable(FinalFailure(world).value, FailingStage(world).value,
                  world.printable))
  {
    var prepared, deployment, validation := Prepares(world).result, Deploys(world).result, Validates(world).result;
    hide Prepares, Deploys, Validates, ValidOutcome, Unpublishable, FailedOutcome, CompletedOutcome, DeploymentError;
    hide CanonicalUuid;
    if prepared.Err? {
      FailedIsValidExactlyWhen(request, world, Prepare, prepared.error, None, None);
    } else if deployment.Err? {
      FailedIsValidExactlyWhen(request, world, Deploy, deployment.error, Some(prepared.value), None);
    } else if validation.Err? {
      FailedIsValidExactlyWhen(request, world, Validate, validation.error, Some(prepared.value),
          Some(deployment.value.deployedAt));
    } else if !validation.value {
      NotMatchingIsValid(request, world, prepared.value, deployment.value.deployedAt);
    } else {
      CompletedIsValid(request, world, prepared.value, deployment.value);
    }
  }

  /** Recognised failures come with messages fit to publish, as every activity's do. */
  predicate HonestMessages(world: World) {
    FinalFailure(world).Some? && Recognised(FinalFailure(world).value, FailingStage(world).value) ==>
      SafeMessage(Reported(FinalFailure(world).value.message), world.printable)
  }

  /**
   A run is stuck, publishing nothing until its execution times out, exactly when prepare
   ended in a timeout or in an error type it does not know; every other run publishes a record
   that satisfies its validators.
   */
  lemma StuckExactlyWhen(request: DeployRequest, world: World)
    requires CanonicalUuid(request.eventId) && HonestPrepare(request, world) && HonestMessages(world)
    ensures var run := Deployed(request, world);
            && (run.ending.Stuck? <==>
                Prepares(world).result.Err? && !Recognised(Prepares(world).result.error, Prepare))
            && (!run.ending.Stuck? ==> ValidOutcome(run.ending.outcome, world.printable))
  {
    ArrivedIsValidExactlyWhen(request, world);
    hide Prepares, Deploys, Validates, ValidOutcome, Arrived, Worked, WorkedFor, SafeMessage, CanonicalUuid;
  }

  lemma StuckRunsExist(request: DeployRequest, printable: char -> bool)
    ensures exists world: World ::
        HonestPrepare(request, world) && HonestMessages(world) && Deployed(request, world).ending.Stuck?
  {
    var hang: Attempt<Prepared> := Attempt(61.0, Err(TimedOut));
    var world := World(_ => hang, _ => Attempt(0.0, Err(TimedOut)), _ => Attempt(0.0, Ok(true)), _ => Attempt(0.0,
        Ok(())), 0, printable);
    OnlyTransientFailuresAreRetried(PREPARE_POLICY, PREPARE_LIMITS, world.prepare);
    var c := Prepares(world);
    assert c.result == c.outcomes[|c.outcomes| - 1] == Err(TimedOut);
    hide Prepares;
    assert Arrived(request, world).Failed? && Arrived(request, world).kind == InternalError;
    hide Arrived;
    assert !ValidOutcome(Arrived(request, world), printable);
    assert HonestPrepare(request, world) && HonestMessages(world);
  }

  /**
   The published record says what happened: whether all went well, else where and why it failed, and
   to which bytes.
   */
  lemma OutcomeTellsWhatHappened(request: DeployRequest, world: World)
    requires !Deployed(request, world).ending.Stuck?
    ensures var o := Deployed(request, world).ending.outcome;
            && (o.Completed? <==> FailingStage(world).None?)
            && o.deviceName == request.deviceName && o.workflowId == DeploymentWorkflowIdFor(request.eventId)
            && (o.Failed? ==>
                  && FailingStage(world) == Some(o.stage)
                  && (FinalFailure(world).Some? && Recognised(FinalFailure(world).value, o.stage) ==>
                        o.kind == FinalFailure(world).value.kind
                            && o.message == Reported(FinalFailure(world).value.message))
                  && (o.hash.Some? ==>
                      Prepares(world).result.Ok? && o.hash.value == Prepares(world).result.value.artifact.sha256)
                  && (o.deployedAt.Some? ==>
                      Deploys(world).result.Ok? && o.deployedAt.value == Deploys(world).result.value.deployedAt))
            && (o.Completed? ==> Prepares(world).result.Ok? && o.sha256 == Prepares(world).result.value.artifact.sha256)
  {
    hide Prepares, Deploys, Validates, ValidOutcome, Worked, WorkedFor, SafeMessage;
  }
}
