/**
 The deployment workflow: prepare, deploy, validate and publish, each under its retry policy,
 and the one outcome record a run leaves behind.
 */
module Workflow {
  import opened Outcomes
  import opened Text
  import opened WorkflowIds
  import opened DeploymentModels
  import opened Retry

  // ---------------------------------------------------------------- policies

  const PREPARE_POLICY := Policy(1.0, 2.0, 5.0, 3, {
    IntentInvalid, NautobotRejected, PlatformUnsupported, ManagementAddressInvalid, ArtifactInvalid, ArtifactMismatch,
    DeviceSettingsMissing, InternalError})
  const DEPLOY_POLICY := Policy(2.0, 2.0, 10.0, 3, {
    DeviceAuthenticationFailed, DeviceIdentityMismatch, DevicePlatformMismatch, ConfigurationRejected, ArtifactMismatch,
    InternalError})
  const VALIDATE_POLICY := Policy(2.0, 1.5, 5.0, 12, {
    DeviceAuthenticationFailed, DeviceStateInvalid, ValidationFailed, InternalError})
  const PUBLISH_POLICY := Policy(1.0, 2.0, 10.0, 5, {})

  const PREPARE_LIMITS := Limits(60.0, None)
  const DEPLOY_LIMITS := Limits(30.0, None)
  const VALIDATE_LIMITS := Limits(15.0, Some(90.0))
  const PUBLISH_LIMITS := Limits(30.0, None)

  /** The bound the consumer puts on a whole execution. */
  const EXECUTION_TIMEOUT := 600.0

  // ---------------------------------------------------------------- a run

  datatype Activity = PrepareActivity | DeployActivity | ValidateActivity | PublishActivity

  datatype Input =
    | RequestInput(request: DeployRequest)
    | PreparedInput(prepared: Prepared)
    | OutcomeInput(outcome: Outcome)

  /** One attempt of one activity, with what it was given. */
  datatype Entry = Entry(activity: Activity, input: Input, attempt: nat)

  datatype Ending =
    | Returned(outcome: Outcome)
    | PublishFailed(outcome: Outcome)
    | Stuck

  datatype Run = Run(ending: Ending, log: seq<Entry>, elapsed: real)

  /**
   What the outside decides: how the attempts of each activity go, and the workflow's clock
   when it writes its outcome. A validation is represented by whether it passed.
   */
  datatype World = World(
    prepare: nat -> Attempt<Prepared>,
    deploy: nat -> Attempt<Deployment>,
    validate: nat -> Attempt<bool>,
    publish: nat -> Attempt<()>,
    now: int,
    printable: char -> bool
  )

  /** The attempts 1..n of an activity, all given the same input. */
  function Attempts(activity: Activity, input: Input, n: nat): (log: seq<Entry>)
    ensures |log| == n && forall i :: 0 <= i < n ==> log[i] == Entry(activity, input, i + 1)
  {
    if n == 0 then [] else Attempts(activity, input, n - 1) + [Entry(activity, input, n)]
  }

  /** The category and message of a failed activity; what is not recognised becomes InternalError, at every stage. */
  function DeploymentError(f: Failure, stage: Stage): (Kind, Message) {
    if f.Application? && f.kind in KindsOf(stage) then (f.kind, Reported(f.message)) else (InternalError, Fixed)
  }

  function OutcomeTimestamp(now: int, deployedAt: int): int {
    if now >= deployedAt then now else deployedAt
  }

  function FailedOutcome(
    request: DeployRequest, world: World, stage: Stage, error: (Kind, Message), prepared: Option<Prepared>,
        deployedAt: Option<int>
  ): Outcome
  {
    Failed(
      request.deviceName, DeploymentWorkflowIdFor(request.eventId), stage, error.0, error.1,
      if deployedAt.Some? then OutcomeTimestamp(world.now, deployedAt.value) else world.now,
      if prepared.Some? then Some(prepared.value.artifact.sha256) else None,
      if prepared.Some? then Some(prepared.value.artifact.byteCount) else None,
      deployedAt)
  }

  function CompletedOutcome(request: DeployRequest, world: World, prepared: Prepared, deployment: Deployment): Outcome {
    Completed(
      request.deviceName, DeploymentWorkflowIdFor(request.eventId), prepared.artifact.path, prepared.artifact.sha256,
      prepared.artifact.byteCount, deployment.deployedAt, OutcomeTimestamp(world.now, deployment.deployedAt))
  }

  const NOT_MATCHING := (ValidationFailed, Fixed)

  function Prepares(world: World): Course<Prepared> {
    Execute(PREPARE_POLICY, PREPARE_LIMITS, world.prepare)
  }

  function Deploys(world: World): Course<Deployment> {
    Execute(DEPLOY_POLICY, DEPLOY_LIMITS, world.deploy)
  }

  function Validates(world: World): Course<bool> {
    Execute(VALIDATE_POLICY, VALIDATE_LIMITS, world.validate)
  }

  function Publishes(world: World): Course<()> {
    Execute(PUBLISH_POLICY, PUBLISH_LIMITS, world.publish)
  }

  /** The outcome the run arrives at, before its validators have seen it. */
  function Arrived(request: DeployRequest, world: World): Outcome {
    var prepared, deployment, validation := Prepares(world).result, Deploys(world).result, Validates(world).result;
    if prepared.Err? then
      FailedOutcome(request, world, Prepare, DeploymentError(prepared.error, Prepare), None, None)
    else if deployment.Err? then
      FailedOutcome(request, world, Deploy, DeploymentError(deployment.error, Deploy), Some(prepared.value), None)
    else if validation.Err? then
      FailedOutcome(
        request, world, Validate, DeploymentError(validation.error, Validate), Some(prepared.value),
            Some(deployment.value.deployedAt))
    else if !validation.value then
      FailedOutcome(request, world, Validate, NOT_MATCHING, Some(prepared.value), Some(deployment.value.deployedAt))
    else CompletedOutcome(request, world, prepared.value, deployment.value)
  }

  /** The attempts made before publishing: no stage is begun after one that failed. */
  function Worked(request: DeployRequest, world: World): seq<Entry> {
    var prepared, deployed, validated := Prepares(world), Deploys(world), Validates(world);
    var log := Attempts(PrepareActivity, RequestInput(request), |prepared.outcomes|);
    if prepared.result.Err? then log
    else
      var input := PreparedInput(prepared.result.value);
      var log' := log + Attempts(DeployActivity, input, |deployed.outcomes|);
      if deployed.result.Err? then log' else log' + Attempts(ValidateActivity, input, |validated.outcomes|)
  }

  /** The time spent before publishing. */
  function WorkedFor(world: World): real {
    var prepared, deployed, validated := Prepares(world), Deploys(world), Validates(world);
    if prepared.result.Err? then prepared.elapsed
    else if deployed.result.Err? then prepared.elapsed + deployed.elapsed
    else prepared.elapsed + deployed.elapsed + validated.elapsed
  }

  /** Publishing is the last activity; with a record its validators refuse, the run waits for its timeout instead. */
  function Finish(world: World, outcome: Outcome, log: seq<Entry>, elapsed: real): Run {
    if !ValidOutcome(outcome, world.printable) then Run(Stuck, log, EXECUTION_TIMEOUT)
    else
      var published := Publishes(world);
      Run(if published.result.Ok? then Returned(outcome) else PublishFailed(outcome),
          log + Attempts(PublishActivity, OutcomeInput(outcome), |published.outcomes|), elapsed + published.elapsed)
  }

  /** The whole run as a function of what the outside decides. */
  function Deployed(request: DeployRequest, world: World): Run {
    Finish(world, Arrived(request, world), Worked(request, world), WorkedFor(world))
  }

  lemma PoliciesAreValid()
    ensures ValidPolicy(PREPARE_POLICY) && ValidPolicy(DEPLOY_POLICY) && ValidPolicy(VALIDATE_POLICY)
            && ValidPolicy(PUBLISH_POLICY)
    ensures ValidLimits(PREPARE_LIMITS) && ValidLimits(DEPLOY_LIMITS) && ValidLimits(VALIDATE_LIMITS)
            && ValidLimits(PUBLISH_LIMITS)
  {
  }

  class DeploymentRun {
    const request: DeployRequest
    const world: World
    var log: seq<Entry>
    var elapsed: real

    constructor (request: DeployRequest, world: World)
      ensures this.request == request && this.world == world && log == [] && elapsed == 0.0
    {
      this.request := request;
      this.world := world;
      log := [];
      elapsed := 0.0;
    }

    /** Attempts one activity until it succeeds, fails for good, or runs out of attempts or time. */
    method ExecuteActivity<T>(activity: Activity, input: Input, p: Policy, l: Limits, script: nat -> Attempt<T>)
      returns (result: Result<T, Failure>)
      requires ValidPolicy(p)
      modifies this
      ensures var c := Execute(p, l, script);
              && result == c.result && log == old(log) + Attempts(activity, input, |c.outcomes|)
              && elapsed == old(elapsed) + c.elapsed
    {
      var spent := 0.0;
      ghost var outcomes: seq<Result<T, Failure>> := [];
      var attempt := 0;
      while true
        invariant attempt == |outcomes| < p.attempts
        invariant log == old(log) + Attempts(activity, input, attempt)
        invariant ExecuteFrom(p, l, script, outcomes, spent) == Execute(p, l, script)
        invariant elapsed == old(elapsed)
        decreases p.attempts - attempt
      {
        var tried := Cut(script(attempt), Allowance(l, spent));
        spent := spent + tried.seconds;
        log := log + [Entry(activity, input, attempt + 1)];
        outcomes := outcomes + [tried.result];
        if IsLast(p, l, attempt, tried.result, spent) {
          elapsed := elapsed + spent;
          return tried.result;
        }
        spent := spent + Backoff(p, attempt);
        attempt := attempt + 1;
      }
    }

    /** Publishes the outcome and returns it; a record that cannot be built blocks the run until it times out. */
    method PublishOutcome(outcome: Outcome) returns (ending: Ending)
      modifies this
      ensures Run(ending, log, elapsed) == Finish(world, outcome, old(log), old(elapsed))
    {
      if !ValidOutcome(outcome, world.printable) {
        elapsed := EXECUTION_TIMEOUT;
        return Stuck;
      }
      PoliciesAreValid();
      hide Execute, ValidOutcome, ValidPolicy, Attempts;
      var published := ExecuteActivity(PublishActivity, OutcomeInput(outcome), PUBLISH_POLICY, PUBLISH_LIMITS,
          world.publish);
      return if published.Ok? then Returned(outcome) else PublishFailed(outcome);
    }

    method RunDeployment() returns (ending: Ending)
      requires log == [] && elapsed == 0.0
      modifies this
      ensures Run(ending, log, elapsed) == Deployed(request, world)
    {
      PoliciesAreValid();
      hide Execute, Finish, ValidOutcome, FailedOutcome, CompletedOutcome, DeploymentError, ValidPolicy, Attempts;
      var prepared := ExecuteActivity(PrepareActivity, RequestInput(request), PREPARE_POLICY, PREPARE_LIMITS,
          world.prepare);
      assert log == Attempts(PrepareActivity, RequestInput(request), |Prepares(world).outcomes|);
      assert elapsed == Prepares(world).elapsed;
      if prepared.Err? {
        ending := PublishOutcome(
          FailedOutcome(request, world, Prepare, DeploymentError(prepared.error, Prepare), None, None));
        return;
      }
      var input := PreparedInput(prepared.value);
      var deployment := ExecuteActivity(DeployActivity, input, DEPLOY_POLICY, DEPLOY_LIMITS, world.deploy);
      if deployment.Err? {
        ending := PublishOutcome(
          FailedOutcome(request, world, Deploy, DeploymentError(deployment.error, Deploy), Some(prepared.value), None));
        return;
      }
      var deployedAt := deployment.value.deployedAt;
      var validation := ExecuteActivity(ValidateActivity, input, VALIDATE_POLICY, VALIDATE_LIMITS, world.validate);
      if validation.Err? {
        ending := PublishOutcome(
          FailedOutcome(
            request, world, Validate, DeploymentError(validation.error, Validate), Some(prepared.value),
                Some(deployedAt)));
        return;
      }
      if !validation.value {
        ending := PublishOutcome(
          FailedOutcome(request, world, Validate, NOT_MATCHING, Some(prepared.value), Some(deployedAt)));
        return;
      }
      ending := PublishOutcome(CompletedOutcome(request, world, prepared.value, deployment.value));
    }
  }
}
