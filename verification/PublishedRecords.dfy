/** What a run publishes, field by field, and what it did before that: attempts, inputs and time. */
module PublishedRecords {
  import opened Outcomes
  import opened Text
  import opened DeploymentModels
  import opened Retry
  import opened Workflow
  import Deployments

  function Later(a: int, b: int): int {
    if a >= b then a else b
  }

  /** What a failed stage reports: the failure's own category and message if the stage may have it. */
  predicate Reports(kinds: set<Kind>, f: Failure, kind: Kind, message: Message) {
    if f.Application? && f.kind in kinds then kind == f.kind && message == Reported(f.message)
    else kind == InternalError && message == Fixed
  }

  /** The record of a run that went well. */
  predicate CompletedRecord(request: DeployRequest, world: World, o: Outcome) {
    var prepared, deployed, validated := Prepares(world).result, Deploys(world).result, Validates(world).result;
    && prepared.Ok? && deployed.Ok? && validated == Ok(true)
    && o == Completed(
         request.deviceName, "deploy-device-config:" + request.eventId, prepared.value.artifact.path,
         prepared.value.artifact.sha256, prepared.value.artifact.byteCount, deployed.value.deployedAt,
         Later(world.now, deployed.value.deployedAt))
  }

  /** Nothing is known of an artifact when prepare failed. */
  predicate PrepareFailedRecord(request: DeployRequest, world: World, o: Outcome) {
    var prepared := Prepares(world).result;
    && prepared.Err? && o.Failed?
    && o == Failed(
         request.deviceName, "deploy-device-config:" + request.eventId, Prepare, o.kind, o.message, world.now, None,
         None, None)
    && Reports({NautobotUnavailable, NautobotRejected, IntentInvalid, PlatformUnsupported, ManagementAddressInvalid,
                ArtifactUnavailable, ArtifactInvalid, ArtifactMismatch, DeviceSettingsMissing},
               prepared.error, o.kind, o.message)
  }

  predicate DeployFailedRecord(request: DeployRequest, world: World, o: Outcome) {
    var prepared, deployed := Prepares(world).result, Deploys(world).result;
    && prepared.Ok? && deployed.Err? && o.Failed?
    && o == Failed(
         request.deviceName, "deploy-device-config:" + request.eventId, Deploy, o.kind, o.message, world.now,
         Some(prepared.value.artifact.sha256), Some(prepared.value.artifact.byteCount), None)
    && Reports({DeviceUnavailable, DeviceAuthenticationFailed, DeviceIdentityMismatch, DevicePlatformMismatch,
                ConfigurationRejected, ArtifactMismatch, InternalError},
               deployed.error, o.kind, o.message)
  }

  /** A validation that failed, by raising or by what it returned, after a deployment at a known time. */
  predicate ValidateFailedRecord(request: DeployRequest, world: World, o: Outcome) {
    var prepared, deployed, validated := Prepares(world).result, Deploys(world).result, Validates(world).result;
    && prepared.Ok? && deployed.Ok? && validated != Ok(true) && o.Failed?
    && o == Failed(
         request.deviceName, "deploy-device-config:" + request.eventId, Validate, o.kind, o.message,
         Later(world.now, deployed.value.deployedAt), Some(prepared.value.artifact.sha256),
         Some(prepared.value.artifact.byteCount), Some(deployed.value.deployedAt))
    && if validated.Ok? then o.kind == ValidationFailed && o.message == Fixed
       else
         Reports({DeviceUnavailable, DeviceAuthenticationFailed, DeviceStateInvalid, ValidationNotConverged,
                  ValidationFailed, InternalError},
                 validated.error, o.kind, o.message)
  }

  /** The published record, whichever way the run went. */
  lemma RecordIsExact(request: DeployRequest, world: World)
    requires !Deployed(request, world).ending.Stuck?
    ensures var o := Deployed(request, world).ending.outcome;
            || CompletedRecord(request, world, o) || PrepareFailedRecord(request, world, o)
            || DeployFailedRecord(request, world, o) || ValidateFailedRecord(request, world, o)
    ensures Deployed(request, world).ending.Returned? <==> Publishes(world).result.Ok?
  {
    ArrivedIsExact(request, world);
    hide Prepares, Deploys, Validates, Publishes, ValidOutcome, Arrived, Worked, WorkedFor;
    hide CompletedRecord, PrepareFailedRecord, DeployFailedRecord, ValidateFailedRecord;
  }

  lemma ArrivedIsExact(request: DeployRequest, world: World)
    ensures var o := Arrived(request, world);
            || CompletedRecord(request, world, o) || PrepareFailedRecord(request, world, o)
            || DeployFailedRecord(request, world, o) || ValidateFailedRecord(request, world, o)
  {
    hide Prepares, Deploys, Validates;
  }

  // ---------------------------------------------------------------- attempts and time

  /** Whether an activity is begun. */
  predicate Begun(request: DeployRequest, world: World, a: Activity) {
    match a
    case PrepareActivity => true
    case DeployActivity => Prepares(world).result.Ok?
    case ValidateActivity => Prepares(world).result.Ok? && Deploys(world).result.Ok?
    case PublishActivity => !Deployed(request, world).ending.Stuck?
  }

  /** How many attempts its course has. */
  function Tries(world: World, a: Activity): nat {
    match a
    case PrepareActivity => |Prepares(world).outcomes|
    case DeployActivity => |Deploys(world).outcomes|
    case ValidateActivity => |Validates(world).outcomes|
    case PublishActivity => |Publishes(world).outcomes|
  }

  lemma InAttempts(a: Activity, input: Input, n: nat, e: Entry)
    ensures e in Attempts(a, input, n) <==> e.activity == a && e.input == input && 1 <= e.attempt <= n
  {
    var log := Attempts(a, input, n);
    if e.activity == a && e.input == input && 1 <= e.attempt <= n {
      assert log[e.attempt - 1] == e;
    }
  }

  lemma WorkedIsLogged(request: DeployRequest, world: World, e: Entry)
    ensures e in Worked(request, world) <==>
              && e.activity != PublishActivity && Begun(request, world, e.activity)
              && 1 <= e.attempt <= Tries(world, e.activity)
              && e.input == (if e.activity == PrepareActivity then RequestInput(request)
                             else if Prepares(world).result.Ok? then PreparedInput(Prepares(world).result.value)
                             else e.input)
  {
    hide Prepares, Deploys, Validates, Publishes, Deployed, Attempts;
    var prepared, deployed, validated := Prepares(world), Deploys(world), Validates(world);
    InAttempts(PrepareActivity, RequestInput(request), |prepared.outcomes|, e);
    if prepared.result.Ok? {
      InAttempts(DeployActivity, PreparedInput(prepared.result.value), |deployed.outcomes|, e);
      InAttempts(ValidateActivity, PreparedInput(prepared.result.value), |validated.outcomes|, e);
    }
  }

  /** The log holds every attempt of every activity that was begun, and nothing else. */
  lemma EveryAttemptIsLogged(request: DeployRequest, world: World, e: Entry)
    ensures var run := Deployed(request, world);
            e in run.log <==>
              && Begun(request, world, e.activity) && 1 <= e.attempt <= Tries(world, e.activity)
              && match e.activity
                 case PrepareActivity => e.input == RequestInput(request)
                 case DeployActivity => e.input == PreparedInput(Prepares(world).result.value)
                 case ValidateActivity => e.input == PreparedInput(Prepares(world).result.value)
                 case PublishActivity => e.input == OutcomeInput(run.ending.outcome)
  {
    hide Prepares, Deploys, Validates, Publishes, Worked, WorkedFor, ValidOutcome, Attempts, Arrived;
    WorkedIsLogged(request, world, e);
    var run := Deployed(request, world);
    if !run.ending.Stuck? {
      InAttempts(PublishActivity, OutcomeInput(run.ending.outcome), |Publishes(world).outcomes|, e);
    }
  }

  /** A run that publishes takes as long as the activities it begins. */
  lemma TimeIsSpent(request: DeployRequest, world: World)
    requires !Deployed(request, world).ending.Stuck?
    ensures Deployed(request, world).elapsed ==
            Prepares(world).elapsed
            + (if Prepares(world).result.Ok? then Deploys(world).elapsed else 0.0)
            + (if Prepares(world).result.Ok? && Deploys(world).result.Ok? then Validates(world).elapsed else 0.0)
            + Publishes(world).elapsed
  {
    hide Prepares, Deploys, Validates, Publishes, Worked, ValidOutcome, Arrived;
  }

  // ---------------------------------------------------------------- what the validators demand

  /** Every record the validators let through has the form its readers rely on. */
  lemma ValidatorsDemand(o: Outcome, printable: char -> bool)
    requires ValidOutcome(o, printable)
    ensures |o.workflowId| == 57 && o.workflowId[..21] == "deploy-device-config:" && CanonicalUuid(o.workflowId[21..])
    ensures o.Completed? ==>
              && o.path == "artifacts/configs/" + o.deviceName + ".cfg" && |o.sha256| == 64
              && 1 <= o.byteCount <= 1048576 && o.deployed <= o.completedAt
    ensures o.Failed? ==>
              && (o.stage == Prepare ==> o.hash.None? && o.bytes.None? && o.deployedAt.None? && o.kind != InternalError)
              && (o.stage == Deploy ==> o.hash.Some? && o.bytes.Some? && o.deployedAt.None?)
              && (o.stage == Validate ==>
                    o.hash.Some? && o.bytes.Some? && o.deployedAt.Some? && o.deployedAt.value <= o.failedAt)
              && (o.hash.Some? ==> |o.hash.value| == 64) && (o.bytes.Some? ==> 1 <= o.bytes.value <= 1048576)
              && (o.message.Reported? ==> All(Trim(o.message.text), printable))
  {
    hide Trim, All, CanonicalUuid;
    assert CanonicalUuid(o.workflowId[21..]);
    UuidLength(o.workflowId[21..]);
    assert o.Completed? ==> Sha256Text(o.sha256);
  }

  lemma UuidLength(s: string)
    requires CanonicalUuid(s)
    ensures |s| == 36
  {
  }

  /** And nothing else is demanded of it. */
  lemma AcceptedExactlyWhen(o: Outcome, printable: char -> bool)
    ensures ValidOutcome(o, printable) <==>
              && Uuid(o.workflowId, "deploy-device-config:")
              && match o
                 case Completed(device, _, path, sha256, byteCount, deployed, completedAt) =>
                   && path == "artifacts/configs/" + device + ".cfg" && HexText(sha256)
                   && 1 <= byteCount <= 1048576 && deployed <= completedAt
                 case Failed(_, _, stage, kind, message, failedAt, hash, bytes, deployedAt) =>
                   && kind in KindsOf(stage)
                   && (message.Reported? ==>
                         1 <= |Trim(message.text)| <= 256
                         && forall k :: 0 <= k < |Trim(message.text)| ==> printable(Trim(message.text)[k]))
                   && (stage == Prepare ==> hash.None? && bytes.None? && deployedAt.None?)
                   && (stage != Prepare ==>
                         hash.Some? && HexText(hash.value) && bytes.Some? && 1 <= bytes.value <= 1048576)
                   && (stage == Deploy ==> deployedAt.None?)
                   && (stage == Validate ==> deployedAt.Some? && deployedAt.value <= failedAt)
  {
    UuidIsCanonical(o.workflowId);
    match o
    case Completed(device, _, path, sha256, _, _, _) =>
      HexIsSha256(sha256);
      hide CanonicalUuid, Uuid, ValidWorkflowId, Sha256Text, HexText;
    case Failed(_, _, _, _, message, _, hash, _, _) =>
      if hash.Some? {
        HexIsSha256(hash.value);
      }
      hide Trim, CanonicalUuid, KindsOf, Uuid, ValidWorkflowId, Sha256Text, HexText;
  }

  lemma HexIsSha256(s: string)
    ensures Sha256Text(s) <==> HexText(s)
  {
    HexDigits();
    hide HexDigit;
  }

  /** 64 lower-case hexadecimal digits. */
  predicate HexText(s: string) {
    |s| == 64 && forall k :: 0 <= k < 64 ==> s[k] in "0123456789abcdef"
  }

  /** This prefix, and 32 such digits in groups of eight, four, four, four and twelve. */
  predicate Uuid(s: string, prefix: string) {
    && |s| == |prefix| + 36 && s[..|prefix|] == prefix
    && var rest := s[|prefix|..];
       forall k :: 0 <= k < 36 ==>
         if k in {8, 13, 18, 23} then rest[k] == '-' else rest[k] in "0123456789abcdef"
  }

  lemma UuidIsCanonical(s: string)
    ensures ValidWorkflowId(s) <==> Uuid(s, "deploy-device-config:")
  {
    var prefix := "deploy-device-config:";
    assert |prefix| == 21;
    HexDigits();
    hide HexDigit;
    if |s| == 57 {
      assert s[|prefix|..] == s[21..];
    }
  }

  lemma HexDigits()
    ensures forall c: char :: HexDigit(c) <==> c in "0123456789abcdef"
  {
    var digits := "0123456789abcdef";
    forall c: char | HexDigit(c) ensures c in digits {
      var k := if c <= '9' then (c - '0') as int else 10 + (c - 'a') as int;
      assert digits[k] == c;
    }
  }
}
