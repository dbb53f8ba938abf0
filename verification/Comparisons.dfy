/** The comparison models the read API returns, with the validators that guard them. */
module Comparisons {
  import opened Text
  import opened GetResponse

  datatype ConfigurationStatus = InSync | Drifted

  datatype HealthStatus = Healthy | Degraded | Unavailable

  datatype CheckStatus = StatusMatch | StatusMismatch | StatusHealthy | StatusUnhealthy | StatusUnavailable

  datatype Category =
    | HostnameCategory | InterfaceAdminCategory | SubinterfaceAdminCategory | AddressPresence | BgpLocalAsn | BgpPeerAs
    | InterfaceOperCategory | SubinterfaceOperCategory | AddressReadiness | BgpSession

  /** `message` is "" where the source has none. */
  datatype ComparisonCheck = ComparisonCheck(
    key: string,
    category: Category,
    status: CheckStatus,
    expected: Value,
    observed: Value,
    message: string
  )

  datatype ConfigurationResult = ConfigurationResult(
    deviceName: string,
    status: ConfigurationStatus,
    checks: seq<ComparisonCheck>,
    matches: int,
    mismatches: int,
    observedAt: string
  )

  datatype OperationalResult = OperationalResult(
    deviceName: string,
    status: HealthStatus,
    checks: seq<ComparisonCheck>,
    healthy: int,
    unhealthy: int,
    unavailable: int,
    observedAt: string
  )

  datatype DeviceComparison = DeviceComparison(
    deviceName: string,
    configuration: ConfigurationResult,
    operational: OperationalResult,
    observedAt: string
  )

  predicate ConfigurationCategory(c: Category) {
    c in {HostnameCategory, InterfaceAdminCategory, SubinterfaceAdminCategory, AddressPresence, BgpLocalAsn, BgpPeerAs}
  }

  predicate OperationalCategory(c: Category) {
    c in {InterfaceOperCategory, SubinterfaceOperCategory, AddressReadiness, BgpSession}
  }

  /** Python's text rule: at most `limit` code points, not only white space. */
  predicate BoundedText(t: string, limit: nat) {
    |t| <= limit && !All(t, PythonSpace)
  }

  predicate BoundedScalar(v: Value) {
    IsLeaf(v) && (v.Text? ==> BoundedText(v.text, 128))
  }

  /** What every check must satisfy, whatever it checks. */
  predicate CheckFields(c: ComparisonCheck) {
    && BoundedText(c.key, 128)
    && BoundedScalar(c.expected)
    && (c.observed == Null || BoundedScalar(c.observed))
    && (c.message == "" || BoundedText(c.message, 256))
  }

  predicate ValidConfigurationCheck(c: ComparisonCheck) {
    && CheckFields(c) && ConfigurationCategory(c.category)
    && c.status in {StatusMatch, StatusMismatch}
    && (c.status == StatusMatch <==> c.observed == c.expected)
    && (c.status == StatusMatch <==> c.message == "")
  }

  predicate ValidOperationalCheck(c: ComparisonCheck) {
    && CheckFields(c) && OperationalCategory(c.category)
    && c.status == (if c.observed == Null then StatusUnavailable
                    else if c.observed == c.expected then StatusHealthy
                    else StatusUnhealthy)
    && (c.status == StatusHealthy <==> c.message == "")
  }

  predicate UniqueKeys(checks: seq<ComparisonCheck>) {
    forall i, j :: 0 <= i < j < |checks| ==> checks[i].key != checks[j].key
  }

  function CountStatus(checks: seq<ComparisonCheck>, status: CheckStatus): nat {
    if checks == [] then 0
    else CountStatus(checks[..|checks| - 1], status) + (if checks[|checks| - 1].status == status then 1 else 0)
  }

  /** The server's aggregate: every check unavailable, else any trouble, else healthy. */
  function ServerHealth(checks: seq<ComparisonCheck>): HealthStatus {
    if CountStatus(checks, StatusUnavailable) == |checks| then Unavailable
    else if CountStatus(checks, StatusUnhealthy) > 0 || CountStatus(checks, StatusUnavailable) > 0 then Degraded
    else Healthy
  }

  predicate ValidConfigurationResult(r: ConfigurationResult) {
    && 1 <= |r.checks| <= 64
    && (forall c :: c in r.checks ==> ValidConfigurationCheck(c))
    && UniqueKeys(r.checks)
    && r.matches == CountStatus(r.checks, StatusMatch)
    && r.mismatches == |r.checks| - r.matches
    && r.status == if r.mismatches == 0 then InSync else Drifted
  }

  predicate ValidOperationalResult(r: OperationalResult) {
    && 1 <= |r.checks| <= 64
    && (forall c :: c in r.checks ==> ValidOperationalCheck(c))
    && UniqueKeys(r.checks)
    && r.healthy == CountStatus(r.checks, StatusHealthy)
    && r.unhealthy == CountStatus(r.checks, StatusUnhealthy)
    && r.unavailable == CountStatus(r.checks, StatusUnavailable)
    && r.status == ServerHealth(r.checks)
  }

  lemma {:induction false} CountIsAll(checks: seq<ComparisonCheck>, status: CheckStatus)
    ensures CountStatus(checks, status) <= |checks|
    ensures CountStatus(checks, status) == |checks| <==> forall c :: c in checks ==> c.status == status
    ensures CountStatus(checks, status) == 0 <==> forall c :: c in checks ==> c.status != status
  {
    if checks != [] {
      var init, last := checks[..|checks| - 1], checks[|checks| - 1];
      assert forall c :: c in checks <==> c in init || c == last;
      CountIsAll(init, status);
    }
  }

  /** Every operational check is counted exactly once. */
  lemma {:induction false} CountsAddUp(checks: seq<ComparisonCheck>)
    requires forall c :: c in checks ==> ValidOperationalCheck(c)
    ensures CountStatus(checks, StatusHealthy) + CountStatus(checks, StatusUnhealthy)
            + CountStatus(checks, StatusUnavailable) == |checks|
  {
    if checks != [] {
      assert checks[|checks| - 1] in checks;
      CountsAddUp(checks[..|checks| - 1]);
    }
  }

  /** Drift is absent exactly when every check matches, health is full exactly when every check is healthy. */
  lemma StatusesSayAll(c: ConfigurationResult, o: OperationalResult)
    requires ValidConfigurationResult(c) && ValidOperationalResult(o)
    ensures c.status == InSync <==> forall k :: k in c.checks ==> k.observed == k.expected
    ensures o.status == Healthy <==> forall k :: k in o.checks ==> k.observed == k.expected
  {
    InSyncSaysAll(c);
    HealthySaysAll(o);
    hide ValidConfigurationResult, ValidOperationalResult;
  }

  lemma InSyncSaysAll(c: ConfigurationResult)
    requires ValidConfigurationResult(c)
    ensures c.status == InSync <==> forall k :: k in c.checks ==> k.observed == k.expected
  {
    CountIsAll(c.checks, StatusMatch);
    hide CheckFields, UniqueKeys, CountStatus;
    assert forall k :: k in c.checks ==> (k.status == StatusMatch <==> k.observed == k.expected);
  }

  lemma HealthySaysAll(o: OperationalResult)
    requires ValidOperationalResult(o)
    ensures o.status == Healthy <==> forall k :: k in o.checks ==> k.observed == k.expected
  {
    CountIsAll(o.checks, StatusHealthy);
    CountsAddUp(o.checks);
    HealthyIsObserved(o);
    hide CheckFields, UniqueKeys, CountStatus, ValidOperationalCheck;
  }

  lemma HealthyIsObserved(o: OperationalResult)
    requires ValidOperationalResult(o)
    ensures forall k :: k in o.checks ==> (k.status == StatusHealthy <==> k.observed == k.expected)
  {
    hide UniqueKeys, CountStatus, ServerHealth;
  }

  /** Operation is unavailable exactly when nothing at all was observed, and degraded otherwise unless all is well. */
  lemma UnavailableExactlyWhen(o: OperationalResult)
    requires ValidOperationalResult(o)
    ensures o.status == Unavailable <==> forall k :: k in o.checks ==> k.observed == Null
    ensures o.status == Degraded <==>
              && (exists k :: k in o.checks && k.observed != Null)
              && (exists k :: k in o.checks && k.observed != k.expected)
  {
    CountIsAll(o.checks, StatusUnavailable);
    CountIsAll(o.checks, StatusUnhealthy);
    hide UniqueKeys, CountStatus;
    assert forall k :: k in o.checks ==> ValidOperationalCheck(k) && IsLeaf(k.expected);
    hide CheckFields;
  }
}
