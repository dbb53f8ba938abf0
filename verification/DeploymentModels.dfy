/** The records a deployment passes between its activities and publishes, with their validators. */
module DeploymentModels {
  import opened Outcomes
  import opened Text
  import opened WorkflowIds

  datatype Stage = Prepare | Deploy | Validate

  /** The category of a failure; `OtherKind` is any type no model knows. */
  datatype Kind =
    | NautobotUnavailable | NautobotRejected | IntentInvalid | PlatformUnsupported | ManagementAddressInvalid
    | ArtifactUnavailable | ArtifactInvalid | ArtifactMismatch | DeviceSettingsMissing
    | DeviceUnavailable | DeviceAuthenticationFailed | DeviceIdentityMismatch | DevicePlatformMismatch
    | ConfigurationRejected | DeviceStateInvalid | ValidationNotConverged | ValidationFailed | InternalError
    | OtherKind(name: string)

  /** One of the workflow's own fixed sentences, or the text an activity reported. */
  datatype Message = Fixed | Reported(text: string)

  datatype DeployRequest = DeployRequest(eventId: string, correlationId: string, deviceName: string)

  datatype ArtifactIdentity = ArtifactIdentity(deviceName: string, path: string, sha256: string, byteCount: nat)

  /** What the deploy and validate activities work from; `state` is the device named in the expected state. */
  datatype Prepared = Prepared(artifact: ArtifactIdentity, targetDevice: string, stateDevice: string)

  datatype Deployment = Deployment(artifact: ArtifactIdentity, deviceName: string, deployedAt: int)

  /** What a run publishes. Times are in any unit, all on one clock or on several. */
  datatype Outcome =
    | Completed(
        deviceName: string, workflowId: string, path: string, sha256: string, byteCount: nat,
        deployed: int, completedAt: int)
    | Failed(
        deviceName: string, workflowId: string, stage: Stage, kind: Kind, message: Message, failedAt: int,
        hash: Option<string>, bytes: Option<nat>, deployedAt: Option<int>)

  function ArtifactPath(deviceName: string): string {
    "artifacts/configs/" + deviceName + ".cfg"
  }

  predicate HexDigit(c: char) {
    '0' <= c <= '9' || 'a' <= c <= 'f'
  }

  predicate Sha256Text(s: string) {
    |s| == 64 && All(s, HexDigit)
  }

  /** A UUID as Python prints it. */
  predicate CanonicalUuid(s: string) {
    && |s| == 36
    && forall k :: 0 <= k < 36 ==> if k in {8, 13, 18, 23} then s[k] == '-' else HexDigit(s[k])
  }

  const MAX_ARTIFACT_BYTES := 1024 * 1024

  predicate ValidIdentity(a: ArtifactIdentity) {
    a.path == ArtifactPath(a.deviceName) && Sha256Text(a.sha256) && 1 <= a.byteCount <= MAX_ARTIFACT_BYTES
  }

  predicate ValidPrepared(p: Prepared) {
    ValidIdentity(p.artifact) && p.artifact.deviceName == p.targetDevice == p.stateDevice
  }

  const PREPARE_KINDS := {
    NautobotUnavailable, NautobotRejected, IntentInvalid, PlatformUnsupported, ManagementAddressInvalid,
    ArtifactUnavailable, ArtifactInvalid, ArtifactMismatch, DeviceSettingsMissing}
  const DEPLOY_KINDS := {
    DeviceUnavailable, DeviceAuthenticationFailed, DeviceIdentityMismatch, DevicePlatformMismatch,
    ConfigurationRejected, ArtifactMismatch, InternalError}
  const VALIDATE_KINDS := {
    DeviceUnavailable, DeviceAuthenticationFailed, DeviceStateInvalid, ValidationNotConverged, ValidationFailed,
        InternalError}

  /** The categories a stage may fail with; `InternalError` is not one of prepare's. */
  function KindsOf(stage: Stage): set<Kind> {
    match stage
    case Prepare => PREPARE_KINDS
    case Deploy => DEPLOY_KINDS
    case Validate => VALIDATE_KINDS
  }

  /** An error message is stripped, bounded and printable, as the fixed sentences are. */
  predicate SafeMessage(m: Message, printable: char -> bool) {
    m.Fixed? || (1 <= |Trim(m.text)| <= 256 && All(Trim(m.text), printable))
  }

  predicate ValidWorkflowId(id: string) {
    && |id| <= 128 && id[..if |id| < 21 then |id| else 21] == "deploy-device-config:"
    && CanonicalUuid(id[21..])
  }

  predicate ValidOutcome(o: Outcome, printable: char -> bool) {
    && ValidWorkflowId(o.workflowId)
    && match o
       case Completed(device, _, path, sha256, byteCount, deployed, completedAt) =>
         && path == ArtifactPath(device) && Sha256Text(sha256) && 1 <= byteCount <= MAX_ARTIFACT_BYTES
         && deployed <= completedAt
       case Failed(_, _, stage, kind, message, failedAt, hash, bytes, deployedAt) =>
         && kind in KindsOf(stage) && SafeMessage(message, printable)
         && (hash.Some? ==> Sha256Text(hash.value)) && (bytes.Some? ==> 1 <= bytes.value <= MAX_ARTIFACT_BYTES)
         && (hash.Some? <==> stage != Prepare) && (bytes.Some? <==> stage != Prepare)
         && (deployedAt.Some? <==> stage == Validate)
         && (deployedAt.Some? ==> deployedAt.value <= failedAt)
  }

  lemma WorkflowIdIsValid(eventId: string)
    requires CanonicalUuid(eventId)
    ensures ValidWorkflowId(DeploymentWorkflowIdFor(eventId))
  {
    var id := DeploymentWorkflowIdFor(eventId);
    assert id[..21] == "deploy-device-config:" && id[21..] == eventId;
  }
}
