/** What the browser's acceptance of a device detail proves about it: the server's own invariants. */
module AcceptedDetails {
  import opened Outcomes
  import opened Text
  import V = GetResponse
  import opened Comparisons
  import opened Numbers
  import opened Browser

  // ---------------------------------------------------------------- one check

  lemma CategoriesBelong(c: Category)
    ensures CategoryText(c) in CONFIGURATION_CATEGORIES ==> ConfigurationCategory(c)
    ensures CategoryText(c) in OPERATIONAL_CATEGORIES ==> OperationalCategory(c)
  {
    var text := CategoryText(c);
    if OperationalCategory(c) {
      OperationalTexts(c);
    } else {
      ConfigurationTexts(c);
    }
  }

  lemma OperationalTexts(c: Category)
    requires OperationalCategory(c)
    ensures CategoryText(c) !in CONFIGURATION_CATEGORIES
  {
    var all := CONFIGURATION_CATEGORIES;
    match c
    case InterfaceOperCategory => assert CategoryText(c)[10] == 'o' && |CategoryText(c)| == 14;
    case SubinterfaceOperCategory => assert CategoryText(c)[13] == 'o' && |CategoryText(c)| == 17;
    case AddressReadiness => assert CategoryText(c)[8] == 'r' && |CategoryText(c)| == 17;
    case BgpSession => assert CategoryText(c)[0] == 'b' && |CategoryText(c)| == 11;
  }

  lemma ConfigurationTexts(c: Category)
    requires ConfigurationCategory(c)
    ensures CategoryText(c) !in OPERATIONAL_CATEGORIES
  {
    match c
    case HostnameCategory => assert |CategoryText(c)| == 8;
    case InterfaceAdminCategory => assert |CategoryText(c)| == 15;
    case SubinterfaceAdminCategory => assert |CategoryText(c)| == 18;
    case AddressPresence => assert |CategoryText(c)| == 16;
    case BgpLocalAsn => assert |CategoryText(c)| == 13;
    case BgpPeerAs => assert |CategoryText(c)| == 11 && CategoryText(c)[4] == 'p';
  }

  lemma StatusesBelong(s: CheckStatus)
    ensures CheckStatusText(s) in ["match", "mismatch"] ==> s in {StatusMatch, StatusMismatch}
    ensures CheckStatusText(s) == "match" <==> s == StatusMatch
    ensures CheckStatusText(s) == "healthy" <==> s == StatusHealthy
    ensures CheckStatusText(s) == "unhealthy" <==> s == StatusUnhealthy
    ensures CheckStatusText(s) == "unavailable" <==> s == StatusUnavailable
  {
    StatusTextsDiffer(s, StatusMatch);
    StatusTextsDiffer(s, StatusMismatch);
    StatusTextsDiffer(s, StatusHealthy);
    StatusTextsDiffer(s, StatusUnhealthy);
    StatusTextsDiffer(s, StatusUnavailable);
  }

  /** A check whose texts the server takes, with numbers a double holds. */
  predicate Fits(c: ComparisonCheck) {
    CheckFields(c) && SafeNumber(c.expected) && SafeNumber(c.observed)
  }

  lemma AcceptedConfigurationCheck(c: ComparisonCheck)
    requires Fits(c) && IsConfigurationCheck(CheckJson(c))
    ensures ValidConfigurationCheck(c)
  {
    CategoriesBelong(c.category);
    StatusesBelong(c.status);
    SafeNumbersAreReadable(c.expected, c.observed);
    ScalarsAgree(c.observed, c.expected);
    CheckFieldsWritten(c);
    hide CategoryText, CheckJson, Get, Has, HasFields, BoundedText, ScalarJson, Rounded, IsSafeText, IsScalar;
    hide BrowserNumbers, CheckStatusText;
  }

  lemma AcceptedOperationalCheck(c: ComparisonCheck)
    requires Fits(c) && IsOperationalCheck(CheckJson(c))
    ensures ValidOperationalCheck(c)
  {
    CategoriesBelong(c.category);
    StatusesBelong(c.status);
    SafeNumbersAreReadable(c.expected, c.observed);
    ScalarsAgree(c.observed, c.expected);
    CheckFieldsWritten(c);
    hide CategoryText, CheckJson, Get, Has, HasFields, BoundedText, ScalarJson, Rounded, IsSafeText, IsScalar;
    hide BrowserNumbers, CheckStatusText;
  }

  // ---------------------------------------------------------------- a list of checks and its counts

  predicate AllFit(checks: seq<ComparisonCheck>) {
    1 <= |checks| <= 64 && forall c :: c in checks ==> Fits(c)
  }

  lemma AcceptedConfigurationChecks(checks: seq<ComparisonCheck>)
    requires AllFit(checks) && AreConfigurationChecks(JList(ChecksJson(checks)))
    ensures UniqueKeys(checks) && forall c :: c in checks ==> ValidConfigurationCheck(c)
  {
    UniqueKeysAgree(checks);
    hide CheckJson, IsConfigurationCheck, ValidConfigurationCheck, Fits, UniqueKeys, UniqueJsonKeys;
    var all := ChecksJson(checks);
    forall c | c in checks ensures ValidConfigurationCheck(c) {
      var i :| 0 <= i < |checks| && checks[i] == c;
      assert all[i] in all;
      AcceptedConfigurationCheck(c);
    }
  }

  lemma AcceptedOperationalChecks(checks: seq<ComparisonCheck>)
    requires AllFit(checks) && AreOperationalChecks(JList(ChecksJson(checks)))
    ensures UniqueKeys(checks) && forall c :: c in checks ==> ValidOperationalCheck(c)
  {
    UniqueKeysAgree(checks);
    hide CheckJson, IsOperationalCheck, ValidOperationalCheck, Fits, UniqueKeys, UniqueJsonKeys;
    var all := ChecksJson(checks);
    forall c | c in checks ensures ValidOperationalCheck(c) {
      var i :| 0 <= i < |checks| && checks[i] == c;
      assert all[i] in all;
      AcceptedOperationalCheck(c);
    }
  }

  /** Only a small number is read as a small number. */
  lemma SmallIsExact(n: int, k: nat)
    requires k <= 64 && NumberJson(n) == JNumber(Some(k))
    ensures n == k
  {
    if -EXACT_LIMIT <= n <= EXACT_LIMIT {
      RoundedIsExact(n);
    } else {
      RoundingIsNear(if n < 0 then -n else n, 1);
      hide FirstInfinite, RoundedFrom;
    }
  }

  lemma AcceptedConfigurationResult(r: ConfigurationResult)
    requires AllFit(r.checks) && IsConfigurationResult(ConfigurationJson(r))
    ensures ValidConfigurationResult(r)
  {
    ConfigurationFields(r);
    ChecksJsonLength(r.checks);
    CountsAgree(r.checks, StatusMatch);
    CountIsAll(r.checks, StatusMatch);
    DriftTextKnown(r.status);
    var matches := CountStatus(r.checks, StatusMatch);
    hide ConfigurationJson, HasFields, Get, Has, ChecksJson, ConfigurationStatusText, NumberJson, Fits, CountJson;
    hide IsConfigurationCheck, ValidConfigurationCheck, CountStatus, CheckStatusText, AreConfigurationChecks;
    hide UniqueKeys;
    SmallIsExact(r.matches, matches);
    SmallIsExact(r.mismatches, |r.checks| - matches);
    AcceptedConfigurationChecks(r.checks);
  }

  lemma HealthTextsDiffer(a: HealthStatus, b: HealthStatus)
    ensures HealthText(a) == HealthText(b) <==> a == b
  {
    assert |HealthText(a)| == |HealthText(b)| <==> a == b;
  }

  lemma AcceptedOperationalResult(r: OperationalResult)
    requires AllFit(r.checks) && IsOperationalResult(OperationalJson(r))
    ensures ValidOperationalResult(r)
  {
    OperationalFields(r);
    CountsAgree(r.checks, StatusHealthy);
    CountsAgree(r.checks, StatusUnhealthy);
    CountsAgree(r.checks, StatusUnavailable);
    CountIsAll(r.checks, StatusHealthy);
    CountIsAll(r.checks, StatusUnhealthy);
    CountIsAll(r.checks, StatusUnavailable);
    hide OperationalJson, HasFields, Get, Has, ChecksJson, HealthText, NumberJson, Fits, CountJson;
    hide IsOperationalCheck, ValidOperationalCheck, CountStatus, AreOperationalChecks, UniqueKeys, BrowserHealth;
    hide ServerHealth;
    SmallIsExact(r.healthy, CountStatus(r.checks, StatusHealthy));
    SmallIsExact(r.unhealthy, CountStatus(r.checks, StatusUnhealthy));
    SmallIsExact(r.unavailable, CountStatus(r.checks, StatusUnavailable));
    AcceptedOperationalChecks(r.checks);
    AggregatesAgree(r.checks);
    HealthTextsDiffer(r.status, ServerHealth(r.checks));
  }

  // ---------------------------------------------------------------- the observations and the detail

  lemma AcceptedSources(s: ObservationSources)
    requires IsSources(SourcesJson(s))
    ensures OwnedSources(s) && (SourcesHealthy(SourcesJson(s)) <==> BothHealthy(s))
  {
    AvailabilityAccepted(s.intent);
    AvailabilityAccepted(s.device);
    hide IsAvailability, SourceStatusText;
  }

  lemma DriftTextsDiffer(a: Option<ConfigurationStatus>, b: Option<ConfigurationStatus>)
    ensures ConfigurationStatusText(a) == ConfigurationStatusText(b) <==> a == b
  {
    assert "in_sync"[0] == 'i' && "drifted"[0] == 'd' && |"drifted"| == |"in_sync"| == 7 && |"unavailable"| == 11;
  }

  lemma AcceptedConfigurationObservation(o: ConfigurationObservation)
    requires o.result.Some? ==> AllFit(o.result.value.checks)
    requires IsConfigurationObservation(ConfigurationObservationJson(o))
    ensures ValidConfigurationObservation(o)
  {
    ConfigurationObservationFields(o);
    ConfigurationStatusKnown(o.status);
    hide IsConfigurationResult, IsSources, SourcesJson, SourcesHealthy, BothHealthy, ValidConfigurationResult, AllFit;
    hide HasFields, Get, ConfigurationJson, OwnedSources, ConfigurationObservationJson, ConfigurationStatusText;
    AcceptedSources(o.sources);
    if o.result.Some? {
      ConfigurationFields(o.result.value);
      if o.status.Some? {
        DriftTextsDiffer(Some(o.result.value.status), o.status);
        AcceptedConfigurationResult(o.result.value);
      } else {
        ConfigurationResultIsObject(o.result.value);
      }
    } else {
      NullIsNoResult();
    }
  }

  lemma NullIsNoResult()
    ensures !IsConfigurationResult(JNull) && !IsOperationalResult(JNull)
  {
    assert !Has(JNull, [DeviceName][0]);
  }

  lemma ConfigurationResultIsObject(r: ConfigurationResult)
    ensures Has(ConfigurationJson(r), Status)
  {
  }

  lemma AcceptedOperationalObservation(o: OperationalObservation)
    requires o.result.Some? ==> AllFit(o.result.value.checks)
    requires IsOperationalObservation(OperationalObservationJson(o))
    ensures ValidOperationalObservation(o)
  {
    OperationalObservationFields(o);
    HealthKnown(o.status);
    hide IsOperationalResult, IsSources, SourcesJson, SourcesHealthy, BothHealthy, ValidOperationalResult, AllFit;
    hide HasFields, Get, OperationalJson, OwnedSources, OperationalObservationJson, HealthText;
    AcceptedSources(o.sources);
    if o.result.Some? {
      OperationalFields(o.result.value);
      HealthTextsDiffer(o.result.value.status, o.status);
      AcceptedOperationalResult(o.result.value);
    }
  }

  /** Lists of a size, with texts and numbers, that both sides can hold. */
  predicate FitsDetail(d: ComparedDetail) {
    && (d.configuration.result.Some? ==> AllFit(d.configuration.result.value.checks))
    && (d.operational.result.Some? ==> AllFit(d.operational.result.value.checks))
  }

  lemma AcceptedIsValid(d: ComparedDetail)
    requires FitsDetail(d) && IsComparedDetail(DetailJson(d))
    ensures ValidDetail(d)
  {
    DetailFields(d);
    ConfigurationObservationFields(d.configuration);
    OperationalObservationFields(d.operational);
    if d.configuration.result.Some? {
      ConfigurationFields(d.configuration.result.value);
      ConfigurationResultIsObject(d.configuration.result.value);
    }
    if d.operational.result.Some? {
      OperationalFields(d.operational.result.value);
    }
    hide IsConfigurationObservation, IsOperationalObservation, ValidConfigurationObservation, AllFit, Has, HasFields;
    hide ValidOperationalObservation, DetailJson, ConfigurationObservationJson, OperationalObservationJson;
    hide Get, ConfigurationJson, OperationalJson;
    AcceptedConfigurationObservation(d.configuration);
    AcceptedOperationalObservation(d.operational);
  }

  /**
   The two validators, written apart from each other, ask for the same: of details whose lists, texts
   and numbers fit both, the browser accepts exactly those that satisfy the server's invariants and
   whose texts it can read.
   */
  lemma ValidExactlyWhenAccepted(d: ComparedDetail)
    requires FitsDetail(d)
    ensures IsComparedDetail(DetailJson(d)) <==> ValidDetail(d) && forall c :: c in ChecksOf(d) ==> TextsReadable(c)
  {
    forall c | c in ChecksOf(d) ensures BrowserNumbers(c.expected, c.observed) {
      SafeNumbersAreReadable(c.expected, c.observed);
      hide BrowserNumbers, SafeNumber, CheckFields;
      assert Fits(c);
    }
    hide BrowserNumbers, TextsReadable, FitsDetail, IsComparedDetail, ValidDetail, DetailJson, ChecksOf;
    if IsComparedDetail(DetailJson(d)) {
      AcceptedIsValid(d);
    }
    if ValidDetail(d) {
      DetailAcceptedExactlyWhen(d);
    }
  }
}
