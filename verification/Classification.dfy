/** How the activities name their failures: the category, and whether a retry is pointless. */
module Classification {
  import opened Outcomes
  import opened Text
  import opened Retry
  import opened DeploymentModels
  import opened DeviceErrors
  import opened Workflow
  import Deployments

  /** What preparing can raise; a Nautobot error carries its cause or its text. */
  datatype PrepareError =
    | NautobotTransport
    | NautobotStatus(code: int)
    | NautobotText(text: string)
    | StorageError
    | InvalidModel
    | InvalidValue
    | UnsupportedPlatform
    | TemplateError
    | Unforeseen
    | Refused(check: PrepareCheck)

  /** The refusals preparing raises itself, already classified. */
  datatype PrepareCheck =
    | SettingsMissing | WrongIntent | WrongPlatform | WrongPath | WrongSize
    | Unreadable | NotAscii | WrongTarget | WrongShape

  /** What a device activity can raise: an error of the device boundary, anything else, or its own missing settings. */
  datatype DeviceRaise = Raised(error: DeviceError) | UnforeseenError | NoSettings

  /** The two ways validation refuses a result that did not pass. */
  datatype ValidationRefusal = NotConverged | Contradicted

  datatype Named = Named(kind: Kind, permanent: bool)

  /** UnsupportedPlatform derives from ValueError, so its own branch is never taken. */
  predicate IsValueError(e: PrepareError) {
    e.InvalidModel? || e.InvalidValue? || e.UnsupportedPlatform?
  }

  function CheckFailure(c: PrepareCheck): Named {
    match c
    case SettingsMissing => Named(DeviceSettingsMissing, true)
    case WrongIntent => Named(IntentInvalid, true)
    case WrongPlatform => Named(PlatformUnsupported, true)
    case WrongPath => Named(Kind.ArtifactMismatch, true)
    case WrongSize => Named(ArtifactInvalid, true)
    case Unreadable => Named(ArtifactUnavailable, false)
    case NotAscii => Named(ArtifactInvalid, true)
    case WrongTarget => Named(Kind.ArtifactMismatch, true)
    case WrongShape => Named(ArtifactInvalid, true)
  }

  function PrepareFailure(e: PrepareError): Named {
    if e.Refused? then CheckFailure(e.check)
    else if e.NautobotTransport? then Named(NautobotUnavailable, false)
    else if e.NautobotStatus? then
      if e.code == 408 || e.code == 429 || e.code >= 500
      then Named(NautobotUnavailable, false)
      else Named(NautobotRejected, true)
    else if e.NautobotText? then
      if StartsWith(e.text, "primary_ip4") || StartsWith(e.text, "device primary_ip4")
      then Named(ManagementAddressInvalid, true)
      else Named(IntentInvalid, true)
    else if e.StorageError? then Named(ArtifactUnavailable, false)
    else if IsValueError(e) then Named(IntentInvalid, true)
    else if e.UnsupportedPlatform? then Named(PlatformUnsupported, true)
    else if e.TemplateError? then Named(ArtifactInvalid, true)
    else Named(IntentInvalid, true)
  }

  function DeviceFailure(e: DeviceRaise, validating: bool): Named {
    if e.NoSettings? then Named(DeviceSettingsMissing, true)
    else if e == Raised(ConnectionError) then Named(DeviceUnavailable, false)
    else if e == Raised(AuthenticationError) then Named(DeviceAuthenticationFailed, true)
    else if validating then
      if e in {Raised(PathError), Raised(ResponseError)}
      then Named(DeviceStateInvalid, true)
      else Named(InternalError, true)
    else if e == Raised(DeviceError.ArtifactMismatch) then
      Named(Kind.ArtifactMismatch, true)
    else if e == Raised(IdentityError) then
      Named(DeviceIdentityMismatch, true)
    else if e == Raised(PlatformError) then Named(DevicePlatformMismatch, true)
    else if e == Raised(ConfigurationError) then Named(ConfigurationRejected, true)
    else Named(InternalError, true)
  }

  function RefusalFailure(r: ValidationRefusal): Named {
    match r
    case NotConverged => Named(ValidationNotConverged, false)
    case Contradicted => Named(ValidationFailed, true)
  }

  // ---------------------------------------------------------------- what the workflow makes of them

  /**
   Every failure preparing raises has one of prepare's nine categories, and the policy
   retries it exactly when it is transient.
   */
  lemma PrepareFailureIsClassified(e: PrepareError)
    ensures var f := PrepareFailure(e);
            f.kind in PREPARE_KINDS
            && (f.permanent <==> f.kind in PREPARE_POLICY.nonRetryable)
  {
  }

  lemma DeployFailureIsClassified(e: DeviceRaise)
    ensures var f := DeviceFailure(e, false);
            (f.kind in DEPLOY_KINDS <==> !e.NoSettings?)
            && (!e.NoSettings? ==> (f.permanent <==> f.kind in DEPLOY_POLICY.nonRetryable))
  {
  }

  lemma ValidateFailureIsClassified(e: DeviceRaise)
    ensures var f := DeviceFailure(e, true);
            (f.kind in VALIDATE_KINDS <==> !e.NoSettings?)
            && (!e.NoSettings? ==> (f.permanent <==> f.kind in VALIDATE_POLICY.nonRetryable))
  {
  }

  lemma RefusalIsClassified(r: ValidationRefusal)
    ensures var f := RefusalFailure(r);
            f.kind in VALIDATE_KINDS
            && (f.permanent <==> f.kind in VALIDATE_POLICY.nonRetryable) && (f.permanent <==> r == Contradicted)
  {
  }

  // ---------------------------------------------------------------- what each category stands for

  /** Each of prepare's categories, and the failures that have it. */
  lemma PrepareCategories(e: PrepareError)
    ensures var kind := PrepareFailure(e).kind;
            && (kind == NautobotUnavailable <==>
                  e.NautobotTransport? || (e.NautobotStatus? && (e.code in {408, 429} || e.code >= 500)))
            && (kind == NautobotRejected <==> e.NautobotStatus? && e.code !in {408, 429} && e.code < 500)
            && (kind == ManagementAddressInvalid <==>
                  e.NautobotText? && (StartsWith(e.text, "primary_ip4") || StartsWith(e.text, "device primary_ip4")))
            && (kind == ArtifactUnavailable <==> e.StorageError? || e == Refused(Unreadable))
            && (kind == ArtifactInvalid <==>
                  e.TemplateError? || e in {Refused(WrongSize), Refused(NotAscii), Refused(WrongShape)})
            && (kind == Kind.ArtifactMismatch <==> e in {Refused(WrongPath), Refused(WrongTarget)})
            && (kind == DeviceSettingsMissing <==> e == Refused(SettingsMissing))
            && (kind == PlatformUnsupported <==> e == Refused(WrongPlatform))
  {
    hide StartsWith;
  }

  /** A failure of the device boundary, and what deploying and validating call it. */
  lemma DeviceCategories(e: DeviceRaise)
    ensures var deploy, validate := DeviceFailure(e, false).kind, DeviceFailure(e, true).kind;
            && (deploy == DeviceUnavailable <==> e == Raised(ConnectionError))
            && (validate == DeviceUnavailable <==> e == Raised(ConnectionError))
            && (deploy == DeviceAuthenticationFailed <==> e == Raised(AuthenticationError))
            && (validate == DeviceAuthenticationFailed <==> e == Raised(AuthenticationError))
            && (deploy == Kind.ArtifactMismatch <==> e == Raised(DeviceError.ArtifactMismatch))
            && (deploy == DeviceIdentityMismatch <==> e == Raised(IdentityError))
            && (deploy == DevicePlatformMismatch <==> e == Raised(PlatformError))
            && (deploy == ConfigurationRejected <==> e == Raised(ConfigurationError))
            && (validate == DeviceStateInvalid <==> e in {Raised(PathError), Raised(ResponseError)})
            && (deploy == InternalError <==> e in {UnforeseenError, Raised(PathError), Raised(ResponseError)})
            && (deploy == DeviceSettingsMissing <==> e.NoSettings?)
            && (validate == DeviceSettingsMissing <==> e.NoSettings?)
            && (DeviceFailure(e, false).permanent <==> e != Raised(ConnectionError))
            && (DeviceFailure(e, true).permanent <==> e != Raised(ConnectionError))
  {
    match e
    case Raised(error) =>
      match error {
        case ConnectionError | AuthenticationError | IdentityError | PlatformError =>
        case ConfigurationError | ArtifactMismatch | PathError | ResponseError =>
      }
    case UnforeseenError | NoSettings =>
  }

  // ---------------------------------------------------------------- which runs are stuck

  /** What the attempts of prepare fail with is a timeout or a failure it raised. */
  ghost predicate RaisesItsOwn(world: World) {
    forall k :: world.prepare(k).result.Err? ==>
      var f := world.prepare(k).result.error;
      f.TimedOut? || exists e :: PrepareFailure(e) == Named(f.kind, f.permanent)
  }

  /**
   With prepare's own failures, the runs that publish nothing are exactly those whose last
   attempt at preparing, the third, timed out.
   */
  lemma StuckExactlyOnTimeout(request: DeployRequest, world: World)
    requires CanonicalUuid(request.eventId) && RaisesItsOwn(world)
    requires Deployments.HonestPrepare(request, world) && Deployments.HonestMessages(world)
    ensures var outcomes := Prepares(world).outcomes;
            && outcomes != []
            && (Deployed(request, world).ending.Stuck? <==> outcomes[|outcomes| - 1] == Err(TimedOut))
            && (Deployed(request, world).ending.Stuck? ==> |outcomes| == 3)
  {
    Deployments.StuckExactlyWhen(request, world);
    OnlyTransientFailuresAreRetried(PREPARE_POLICY, PREPARE_LIMITS, world.prepare);
    TransientEndsExhausted(PREPARE_POLICY, PREPARE_LIMITS, world.prepare);
    hide Deployed, Execute, PrepareFailure, Deployments.HonestPrepare, Deployments.HonestMessages, CanonicalUuid;
    var c := Prepares(world);
    if c.result.Err? && c.result.error.Application? {
      var k := |c.outcomes| - 1;
      assert c.outcomes[k] == world.prepare(k).result;
      var e :| PrepareFailure(e) == Named(c.result.error.kind, c.result.error.permanent);
      PrepareFailureIsClassified(e);
    }
  }
}
