/**
 The browser refuses a device detail whose comparison part it cannot make sense of. Its
 validators are written anew over untyped JSON; here they are held against the server's.
 */
module Browser {
  import opened Outcomes
  import opened Text
  import V = GetResponse
  import opened Comparisons
  import opened Numbers

  datatype Field =
    | Key | CategoryField | Status | Expected | Observed | Message
    | DeviceName | Checks | Matches | Mismatches | HealthyCount | UnhealthyCount | UnavailableCount | ObservedAt
    | Sources | ResultField | Intent | Device | SourceField | DurationMs | Code
    | Summary | Name | ConfigurationDrift | OperationalHealth

  /** What the browser has parsed; a number is a double, None when it is not finite. */
  datatype Json =
    | JNull
    | JBool(flag: bool)
    | JNumber(number: Option<int>)
    | JText(text: string)
    | JList(items: seq<Json>)
    | JObject(fields: map<Field, Json>)

  // ---------------------------------------------------------------- what the server sends

  datatype SourceStatus = SourceHealthy | SourceDegraded | SourceUnavailable | SourceUnknown

  /** The availability of one source; `code` and `message` are "" where absent. */
  datatype Availability = Availability(source: string, status: SourceStatus, observedAt: string,
      durationMs: Option<nat>, code: string, message: string)

  datatype ObservationSources = ObservationSources(intent: Availability, device: Availability)

  datatype ConfigurationObservation = ConfigurationObservation(
    status: Option<ConfigurationStatus>, sources: ObservationSources, result: Option<ConfigurationResult>,
        observedAt: string)

  datatype OperationalObservation = OperationalObservation(
    status: HealthStatus, sources: ObservationSources, result: Option<OperationalResult>, observedAt: string)

  datatype ComparedDetail = ComparedDetail(
    name: string, configuration: ConfigurationObservation, operational: OperationalObservation)

  predicate BothHealthy(s: ObservationSources) {
    s.intent.status == SourceHealthy && s.device.status == SourceHealthy
  }

  predicate OwnedSources(s: ObservationSources) {
    s.intent.source == "nautobot" && s.device.source == "device"
  }

  /** A configuration observation; no status stands for "unavailable". */
  predicate ValidConfigurationObservation(o: ConfigurationObservation) {
    && OwnedSources(o.sources)
    && if o.status.None? then o.result.None? && !BothHealthy(o.sources)
       else
         && o.result.Some? && ValidConfigurationResult(o.result.value)
         && o.result.value.status == o.status.value
         && o.result.value.observedAt == o.observedAt
         && BothHealthy(o.sources)
  }

  predicate ValidOperationalObservation(o: OperationalObservation) {
    && OwnedSources(o.sources)
    && if o.result.None? then o.status == Unavailable && !BothHealthy(o.sources)
       else
         && ValidOperationalResult(o.result.value)
         && o.result.value.status == o.status
         && o.result.value.observedAt == o.observedAt
         && BothHealthy(o.sources)
  }

  predicate ValidDetail(d: ComparedDetail) {
    && ValidConfigurationObservation(d.configuration)
    && ValidOperationalObservation(d.operational)
    && d.configuration.observedAt == d.operational.observedAt
    && (d.configuration.result.Some? ==> d.configuration.result.value.deviceName == d.name)
    && (d.operational.result.Some? ==> d.operational.result.value.deviceName == d.name)
  }

  // ---------------------------------------------------------------- how it is written as JSON

  function CategoryText(c: Category): string {
    match c
    case HostnameCategory => "hostname"
    case InterfaceAdminCategory => "interface_admin"
    case SubinterfaceAdminCategory => "subinterface_admin"
    case AddressPresence => "address_presence"
    case BgpLocalAsn => "bgp_local_asn"
    case BgpPeerAs => "bgp_peer_as"
    case InterfaceOperCategory => "interface_oper"
    case SubinterfaceOperCategory => "subinterface_oper"
    case AddressReadiness => "address_readiness"
    case BgpSession => "bgp_session"
  }

  function CheckStatusText(s: CheckStatus): string {
    match s
    case StatusMatch => "match"
    case StatusMismatch => "mismatch"
    case StatusHealthy => "healthy"
    case StatusUnhealthy => "unhealthy"
    case StatusUnavailable => "unavailable"
  }

  function ConfigurationStatusText(s: Option<ConfigurationStatus>): string {
    match s
    case None => "unavailable"
    case Some(InSync) => "in_sync"
    case Some(Drifted) => "drifted"
  }

  function HealthText(s: HealthStatus): string {
    match s
    case Healthy => "healthy"
    case Degraded => "degraded"
    case Unavailable => "unavailable"
  }

  function SourceStatusText(s: SourceStatus): string {
    match s
    case SourceHealthy => "healthy"
    case SourceDegraded => "degraded"
    case SourceUnavailable => "unavailable"
    case SourceUnknown => "unknown"
  }

  function OptionalText(s: string): Json {
    if s == "" then JNull else JText(s)
  }

  function NumberJson(n: int): Json {
    JNumber(Rounded(n))
  }

  function ScalarJson(v: V.Value): Json {
    match v
    case Flag(b) => JBool(b)
    case Whole(n) => NumberJson(n)
    case Text(t) => JText(t)
    case _ => JNull
  }

  function CheckJson(c: ComparisonCheck): Json {
    JObject(map[
      Key := JText(c.key), CategoryField := JText(CategoryText(c.category)), Status := JText(CheckStatusText(c.status)),
      Expected := ScalarJson(c.expected), Observed := ScalarJson(c.observed), Message := OptionalText(c.message)])
  }

  function ChecksJson(checks: seq<ComparisonCheck>): (r: seq<Json>)
    ensures |r| == |checks| && forall i :: 0 <= i < |r| ==> r[i] == CheckJson(checks[i])
  {
    if checks == [] then [] else ChecksJson(checks[..|checks| - 1]) + [CheckJson(checks[|checks| - 1])]
  }

  function ConfigurationJson(r: ConfigurationResult): Json {
    JObject(map[
      DeviceName := JText(r.deviceName), Status := JText(ConfigurationStatusText(Some(r.status))),
      Checks := JList(ChecksJson(r.checks)), Matches := NumberJson(r.matches), Mismatches := NumberJson(r.mismatches),
      ObservedAt := JText(r.observedAt)])
  }

  function OperationalJson(r: OperationalResult): Json {
    JObject(map[
      DeviceName := JText(r.deviceName), Status := JText(HealthText(r.status)), Checks := JList(ChecksJson(r.checks)),
      HealthyCount := NumberJson(r.healthy), UnhealthyCount := NumberJson(r.unhealthy),
      UnavailableCount := NumberJson(r.unavailable), ObservedAt := JText(r.observedAt)])
  }

  function AvailabilityJson(a: Availability): Json {
    JObject(map[
      SourceField := JText(a.source), Status := JText(SourceStatusText(a.status)), ObservedAt := JText(a.observedAt),
      DurationMs := if a.durationMs.None? then JNull else NumberJson(a.durationMs.value),
      Code := OptionalText(a.code), Message := OptionalText(a.message)])
  }

  function SourcesJson(s: ObservationSources): Json {
    JObject(map[Intent := AvailabilityJson(s.intent), Device := AvailabilityJson(s.device)])
  }

  function ConfigurationObservationJson(o: ConfigurationObservation): Json {
    JObject(map[
      Status := JText(ConfigurationStatusText(o.status)), Sources := SourcesJson(o.sources),
      ResultField := if o.result.None? then JNull else ConfigurationJson(o.result.value),
      ObservedAt := JText(o.observedAt)])
  }

  function OperationalObservationJson(o: OperationalObservation): Json {
    JObject(map[
      Status := JText(HealthText(o.status)), Sources := SourcesJson(o.sources),
      ResultField := if o.result.None? then JNull else OperationalJson(o.result.value),
      ObservedAt := JText(o.observedAt)])
  }

  function DetailJson(d: ComparedDetail): Json {
    JObject(map[
      Summary := JObject(map[Name := JText(d.name)]),
      ConfigurationDrift := ConfigurationObservationJson(d.configuration),
      OperationalHealth := OperationalObservationJson(d.operational)])
  }

  // ---------------------------------------------------------------- what the browser accepts

  predicate Has(v: Json, field: Field) {
    v.JObject? && field in v.fields
  }

  predicate HasFields(v: Json, fields: seq<Field>) {
    forall i :: 0 <= i < |fields| ==> Has(v, fields[i])
  }

  /** A property access; an absent property is taken for null, and only looked up where it was found present. */
  function Get(v: Json, field: Field): Json {
    if Has(v, field) then v.fields[field] else JNull
  }

  predicate IsSafeText(v: Json, limit: nat) {
    v.JText? && Utf16Length(v.text) <= limit && !All(v.text, BrowserSpace)
  }

  predicate IsScalar(v: Json) {
    IsSafeText(v, 128) || v.JBool? || (v.JNumber? && v.number.Some?)
  }

  predicate IsCount(v: Json) {
    v.JNumber? && v.number.Some? && v.number.value >= 0
  }

  predicate IsOneOf(v: Json, options: seq<string>) {
    v.JText? && v.text in options
  }

  const CONFIGURATION_CATEGORIES :=
    ["hostname", "interface_admin", "subinterface_admin", "address_presence", "bgp_local_asn", "bgp_peer_as"]
  const OPERATIONAL_CATEGORIES := ["interface_oper", "subinterface_oper", "address_readiness", "bgp_session"]

  /** The fields every check needs, before its status is held against its evidence. */
  predicate CheckShape(v: Json, categories: seq<string>, statuses: seq<string>) {
    && HasFields(v, [Key, CategoryField, Status, Expected, Observed, Message])
    && IsSafeText(Get(v, Key), 128)
    && IsOneOf(Get(v, CategoryField), categories)
    && IsOneOf(Get(v, Status), statuses)
    && IsScalar(Get(v, Expected))
    && (Get(v, Observed) == JNull || IsScalar(Get(v, Observed)))
    && (Get(v, Message) == JNull || IsSafeText(Get(v, Message), 256))
  }

  predicate IsConfigurationCheck(v: Json) {
    && CheckShape(v, CONFIGURATION_CATEGORIES, ["match", "mismatch"])
    && var matches := Get(v, Observed) != JNull && Get(v, Observed) == Get(v, Expected);
       && ((Get(v, Status) == JText("match")) == matches)
       && ((Get(v, Status) == JText("match")) == (Get(v, Message) == JNull))
  }

  predicate IsOperationalCheck(v: Json) {
    && CheckShape(v, OPERATIONAL_CATEGORIES, ["healthy", "unhealthy", "unavailable"])
    && var matches := Get(v, Observed) != JNull && Get(v, Observed) == Get(v, Expected);
       && Get(v, Status) ==
            JText(if Get(v, Observed) == JNull then "unavailable" else if matches then "healthy" else "unhealthy")
       && ((Get(v, Status) == JText("healthy")) == (Get(v, Message) == JNull))
  }

  predicate UniqueJsonKeys(checks: seq<Json>) {
    forall i, j :: 0 <= i < j < |checks| ==> Get(checks[i], Key) != Get(checks[j], Key)
  }

  function CountJson(checks: seq<Json>, status: string): nat {
    if checks == [] then 0
    else
      CountJson(checks[..|checks| - 1], status)
      + (if Get(checks[|checks| - 1], Status) == JText(status) then 1 else 0)
  }

  predicate AreConfigurationChecks(v: Json) {
    v.JList? && (forall c :: c in v.items ==> IsConfigurationCheck(c)) && UniqueJsonKeys(v.items)
  }

  predicate AreOperationalChecks(v: Json) {
    v.JList? && (forall c :: c in v.items ==> IsOperationalCheck(c)) && UniqueJsonKeys(v.items)
  }

  /** The counts and the status are those of the checks. */
  predicate DriftIsCounted(v: Json, checks: seq<Json>) {
    var matches := CountJson(checks, "match");
    && Get(v, Matches) == JNumber(Some(matches))
    && Get(v, Mismatches) == JNumber(Some(|checks| - matches))
    && Get(v, Status) == JText(if |checks| - matches == 0 then "in_sync" else "drifted")
  }

  predicate IsConfigurationResult(v: Json) {
    && HasFields(v, [DeviceName, Status, Checks, Matches, Mismatches, ObservedAt])
    && Get(v, DeviceName).JText? && IsOneOf(Get(v, Status), ["in_sync", "drifted"]) && Get(v, ObservedAt).JText?
    && AreConfigurationChecks(Get(v, Checks)) && IsCount(Get(v, Matches)) && IsCount(Get(v, Mismatches))
    && DriftIsCounted(v, Get(v, Checks).items)
  }

  /** The browser's aggregate: nothing observed, else any trouble, else healthy. */
  function BrowserHealth(healthy: nat, unhealthy: nat, unavailable: nat): HealthStatus {
    if healthy + unhealthy == 0 then Unavailable
    else if unhealthy + unavailable > 0 then Degraded
    else Healthy
  }

  predicate IsOperationalResult(v: Json) {
    && HasFields(v, [DeviceName, Status, Checks, HealthyCount, UnhealthyCount, UnavailableCount, ObservedAt])
    && Get(v, DeviceName).JText? && IsOneOf(Get(v, Status), ["healthy", "degraded", "unavailable"])
    && Get(v, ObservedAt).JText?
    && AreOperationalChecks(Get(v, Checks))
    && IsCount(Get(v, HealthyCount)) && IsCount(Get(v, UnhealthyCount)) && IsCount(Get(v, UnavailableCount))
    && var checks := Get(v, Checks).items;
       var healthy, unhealthy, unavailable :=
         CountJson(checks, "healthy"), CountJson(checks, "unhealthy"), CountJson(checks, "unavailable");
       && Get(v, HealthyCount) == JNumber(Some(healthy))
       && Get(v, UnhealthyCount) == JNumber(Some(unhealthy))
       && Get(v, UnavailableCount) == JNumber(Some(unavailable))
       && Get(v, Status) == JText(HealthText(BrowserHealth(healthy, unhealthy, unavailable)))
  }

  predicate IsNullableText(v: Json) {
    v == JNull || v.JText?
  }

  predicate IsAvailability(v: Json) {
    && HasFields(v, [SourceField, Status, ObservedAt, DurationMs, Code, Message])
    && Get(v, SourceField).JText? && IsOneOf(Get(v, Status), ["healthy", "degraded", "unavailable", "unknown"])
    && Get(v, ObservedAt).JText? && (Get(v, DurationMs) == JNull || Get(v, DurationMs).JNumber?)
    && IsNullableText(Get(v, Code)) && IsNullableText(Get(v, Message))
  }

  predicate IsSources(v: Json) {
    && HasFields(v, [Intent, Device]) && IsAvailability(Get(v, Intent)) && IsAvailability(Get(v, Device))
    && Get(Get(v, Intent), SourceField) == JText("nautobot")
    && Get(Get(v, Device), SourceField) == JText("device")
  }

  predicate SourcesHealthy(v: Json) {
    Get(Get(v, Intent), Status) == JText("healthy") && Get(Get(v, Device), Status) == JText("healthy")
  }

  predicate IsConfigurationObservation(v: Json) {
    && HasFields(v, [Status, Sources, ResultField, ObservedAt])
    && IsOneOf(Get(v, Status), ["in_sync", "drifted", "unavailable"])
    && IsSources(Get(v, Sources)) && Get(v, ObservedAt).JText?
    && if Get(v, Status) == JText("unavailable")
       then Get(v, ResultField) == JNull && !SourcesHealthy(Get(v, Sources))
       else
         && IsConfigurationResult(Get(v, ResultField))
         && Get(Get(v, ResultField), Status) == Get(v, Status)
         && Get(Get(v, ResultField), ObservedAt) == Get(v, ObservedAt)
         && SourcesHealthy(Get(v, Sources))
  }

  predicate IsOperationalObservation(v: Json) {
    && HasFields(v, [Status, Sources, ResultField, ObservedAt])
    && IsOneOf(Get(v, Status), ["healthy", "degraded", "unavailable"])
    && IsSources(Get(v, Sources)) && Get(v, ObservedAt).JText?
    && if Get(v, ResultField) == JNull
       then Get(v, Status) == JText("unavailable") && !SourcesHealthy(Get(v, Sources))
       else
         && IsOperationalResult(Get(v, ResultField))
         && Get(Get(v, ResultField), Status) == Get(v, Status)
         && Get(Get(v, ResultField), ObservedAt) == Get(v, ObservedAt)
         && SourcesHealthy(Get(v, Sources))
  }

  /** The comparison part of the device-detail validator. */
  predicate IsComparedDetail(v: Json) {
    && HasFields(v, [Summary, ConfigurationDrift, OperationalHealth])
    && HasFields(Get(v, Summary), [Name])
    && IsConfigurationObservation(Get(v, ConfigurationDrift))
    && IsOperationalObservation(Get(v, OperationalHealth))
    && var name := Get(Get(v, Summary), Name);
       var c, o := Get(v, ConfigurationDrift), Get(v, OperationalHealth);
       && Get(c, ObservedAt) == Get(o, ObservedAt)
       && (Get(c, ResultField) == JNull || Get(Get(c, ResultField), DeviceName) == name)
       && (Get(o, ResultField) == JNull || Get(Get(o, ResultField), DeviceName) == name)
  }

  // ---------------------------------------------------------------- where the two agree

  /** Text the browser takes: short enough in UTF-16, and not all white space as JavaScript sees it. */
  predicate BrowserText(t: string, limit: nat) {
    Utf16Length(t) <= limit && !All(t, BrowserSpace)
  }

  /** Numbers the browser takes: finite, and told apart where they differ. */
  predicate BrowserNumbers(expected: V.Value, observed: V.Value) {
    && (expected.Whole? ==> Rounded(expected.whole).Some?)
    && (observed.Whole? ==> Rounded(observed.whole).Some?)
    && (expected.Whole? && observed.Whole? && expected != observed ==>
        Rounded(expected.whole) != Rounded(observed.whole))
  }

  predicate TextsReadable(c: ComparisonCheck) {
    && BrowserText(c.key, 128)
    && (c.expected.Text? ==> BrowserText(c.expected.text, 128))
    && (c.observed.Text? ==> BrowserText(c.observed.text, 128))
    && (c.message != "" ==> BrowserText(c.message, 256))
  }

  predicate Readable(c: ComparisonCheck) {
    TextsReadable(c) && BrowserNumbers(c.expected, c.observed)
  }

  predicate AllReadable(checks: seq<ComparisonCheck>) {
    forall c :: c in checks ==> Readable(c)
  }

  lemma ScalarsAgree(a: V.Value, b: V.Value)
    requires (a == V.Null || V.IsLeaf(a)) && V.IsLeaf(b)
    ensures BrowserNumbers(b, a) ==> (ScalarJson(a) == ScalarJson(b) <==> a == b)
    ensures !BrowserNumbers(b, a) && Finite(a) && Finite(b) ==> ScalarJson(a) == ScalarJson(b) && a != b
    ensures ScalarJson(a) == JNull <==> a == V.Null
  {
    hide Rounded;
  }

  predicate Finite(v: V.Value) {
    v.Whole? ==> Rounded(v.whole).Some?
  }

  lemma CategoriesAreKnown(c: Category)
    ensures ConfigurationCategory(c) ==> CategoryText(c) in CONFIGURATION_CATEGORIES
    ensures OperationalCategory(c) ==> CategoryText(c) in OPERATIONAL_CATEGORIES
  {
    var configuration, operational := CONFIGURATION_CATEGORIES, OPERATIONAL_CATEGORIES;
    match c
    case HostnameCategory => assert configuration[0] == CategoryText(c);
    case InterfaceAdminCategory => assert configuration[1] == CategoryText(c);
    case SubinterfaceAdminCategory => assert configuration[2] == CategoryText(c);
    case AddressPresence => assert configuration[3] == CategoryText(c);
    case BgpLocalAsn => assert configuration[4] == CategoryText(c);
    case BgpPeerAs => assert configuration[5] == CategoryText(c);
    case InterfaceOperCategory => assert operational[0] == CategoryText(c);
    case SubinterfaceOperCategory => assert operational[1] == CategoryText(c);
    case AddressReadiness => assert operational[2] == CategoryText(c);
    case BgpSession => assert operational[3] == CategoryText(c);
  }

  lemma StatusTextsDiffer(a: CheckStatus, b: CheckStatus)
    ensures CheckStatusText(a) == CheckStatusText(b) <==> a == b
  {
    assert |CheckStatusText(a)| == |CheckStatusText(b)| <==> a == b;
  }

  lemma CheckFieldsWritten(c: ComparisonCheck)
    ensures var v := CheckJson(c);
            && HasFields(v, [Key, CategoryField, Status, Expected, Observed, Message])
            && Get(v, Key) == JText(c.key) && Get(v, CategoryField) == JText(CategoryText(c.category))
            && Get(v, Status) == JText(CheckStatusText(c.status)) && Get(v, Expected) == ScalarJson(c.expected)
            && Get(v, Observed) == ScalarJson(c.observed) && Get(v, Message) == OptionalText(c.message)
  {
    hide CategoryText, CheckStatusText, ScalarJson, OptionalText;
  }

  lemma ShapeAccepted(c: ComparisonCheck, categories: seq<string>, statuses: seq<string>)
    requires CheckFields(c) && CategoryText(c.category) in categories && CheckStatusText(c.status) in statuses
    ensures CheckShape(CheckJson(c), categories, statuses) <==>
              TextsReadable(c) && Finite(c.expected) && Finite(c.observed)
  {
    CheckFieldsWritten(c);
    hide Rounded, CategoryText, CheckStatusText, CheckJson, Get, Has, HasFields, BoundedText, Utf16Length, All;
  }

  lemma StatusesAreKnown(c: ComparisonCheck)
    ensures ValidConfigurationCheck(c) ==> CheckStatusText(c.status) in ["match", "mismatch"]
    ensures ValidOperationalCheck(c) ==> CheckStatusText(c.status) in ["healthy", "unhealthy", "unavailable"]
  {
    hide CheckFields;
    assert ["match", "mismatch"][0] == "match" && ["match", "mismatch"][1] == "mismatch";
    var operational := ["healthy", "unhealthy", "unavailable"];
    assert operational[0] == "healthy" && operational[1] == "unhealthy" && operational[2] == "unavailable";
  }

  lemma ConfigurationCheckAccepted(c: ComparisonCheck)
    requires ValidConfigurationCheck(c)
    ensures IsConfigurationCheck(CheckJson(c)) <==> Readable(c)
  {
    CategoriesAreKnown(c.category);
    StatusesAreKnown(c);
    StatusTextsDiffer(c.status, StatusMatch);
    ScalarsAgree(c.observed, c.expected);
    ShapeAccepted(c, CONFIGURATION_CATEGORIES, ["match", "mismatch"]);
    CheckFieldsWritten(c);
    hide CheckShape, CategoryText, CheckJson, Get, Has, HasFields, BoundedText, TextsReadable, ScalarJson, Rounded;
  }

  lemma OperationalCheckAccepted(c: ComparisonCheck)
    requires ValidOperationalCheck(c)
    ensures IsOperationalCheck(CheckJson(c)) <==> Readable(c)
  {
    CategoriesAreKnown(c.category);
    StatusesAreKnown(c);
    StatusTextsDiffer(c.status, StatusHealthy);
    ScalarsAgree(c.observed, c.expected);
    ShapeAccepted(c, OPERATIONAL_CATEGORIES, ["healthy", "unhealthy", "unavailable"]);
    CheckFieldsWritten(c);
    hide CheckShape, CategoryText, CheckJson, Get, Has, HasFields, BoundedText, TextsReadable, ScalarJson, Rounded;
  }

  lemma {:induction false} CountsAgree(checks: seq<ComparisonCheck>, status: CheckStatus)
    ensures CountJson(ChecksJson(checks), CheckStatusText(status)) == CountStatus(checks, status)
  {
    if checks != [] {
      CountsAgree(checks[..|checks| - 1], status);
      StatusTextsDiffer(checks[|checks| - 1].status, status);
      CheckFieldsWritten(checks[|checks| - 1]);
      hide CheckStatusText, CheckJson, Get, HasFields;
      var all := ChecksJson(checks);
      assert all[..|all| - 1] == ChecksJson(checks[..|checks| - 1]);
    }
  }

  /** The two aggregates differ in form; on valid checks, of which there is at least one, they agree. */
  lemma AggregatesAgree(checks: seq<ComparisonCheck>)
    requires checks != [] && forall c :: c in checks ==> ValidOperationalCheck(c)
    ensures BrowserHealth(CountStatus(checks, StatusHealthy), CountStatus(checks, StatusUnhealthy),
                          CountStatus(checks, StatusUnavailable)) == ServerHealth(checks)
  {
    CountsAddUp(checks);
  }

  lemma UniqueKeysAgree(checks: seq<ComparisonCheck>)
    ensures UniqueKeys(checks) <==> UniqueJsonKeys(ChecksJson(checks))
  {
    var all := ChecksJson(checks);
    forall i | 0 <= i < |checks| ensures Get(all[i], Key) == JText(checks[i].key) {
    }
  }

  lemma ConfigurationChecksAccepted(checks: seq<ComparisonCheck>)
    requires UniqueKeys(checks) && forall c :: c in checks ==> ValidConfigurationCheck(c)
    ensures AreConfigurationChecks(JList(ChecksJson(checks))) <==> AllReadable(checks)
  {
    hide CheckJson, IsConfigurationCheck, ValidConfigurationCheck, Readable;
    UniqueKeysAgree(checks);
    var all := ChecksJson(checks);
    forall i | 0 <= i < |all| ensures IsConfigurationCheck(all[i]) <==> Readable(checks[i]) {
      ConfigurationCheckAccepted(checks[i]);
    }
    forall c | c in checks && AreConfigurationChecks(JList(all)) ensures Readable(c) {
      var i :| 0 <= i < |all| && checks[i] == c;
      assert all[i] in all;
    }
  }

  lemma OperationalChecksAccepted(checks: seq<ComparisonCheck>)
    requires UniqueKeys(checks) && forall c :: c in checks ==> ValidOperationalCheck(c)
    ensures AreOperationalChecks(JList(ChecksJson(checks))) <==> AllReadable(checks)
  {
    hide CheckJson, IsOperationalCheck, ValidOperationalCheck, Readable;
    UniqueKeysAgree(checks);
    var all := ChecksJson(checks);
    forall i | 0 <= i < |all| ensures IsOperationalCheck(all[i]) <==> Readable(checks[i]) {
      OperationalCheckAccepted(checks[i]);
    }
    forall c | c in checks && AreOperationalChecks(JList(all)) ensures Readable(c) {
      var i :| 0 <= i < |all| && checks[i] == c;
      assert all[i] in all;
    }
  }

  lemma ConfigurationFields(r: ConfigurationResult)
    ensures var v := ConfigurationJson(r);
            && HasFields(v, [DeviceName, Status, Checks, Matches, Mismatches, ObservedAt])
            && Get(v, DeviceName) == JText(r.deviceName)
               && Get(v, Status) == JText(ConfigurationStatusText(Some(r.status)))
            && Get(v, Checks) == JList(ChecksJson(r.checks)) && Get(v, Matches) == NumberJson(r.matches)
            && Get(v, Mismatches) == NumberJson(r.mismatches) && Get(v, ObservedAt) == JText(r.observedAt)
  {
    hide ChecksJson, ConfigurationStatusText;
  }

  lemma OperationalFields(r: OperationalResult)
    ensures var v := OperationalJson(r);
            && v.JObject? && HasFields(v, [DeviceName, Status, Checks, HealthyCount, UnhealthyCount,
               UnavailableCount, ObservedAt])
            && Get(v, DeviceName) == JText(r.deviceName) && Get(v, Status) == JText(HealthText(r.status))
            && Get(v, Checks) == JList(ChecksJson(r.checks)) && Get(v, HealthyCount) == NumberJson(r.healthy)
            && Get(v, UnhealthyCount) == NumberJson(r.unhealthy)
            && Get(v, UnavailableCount) == NumberJson(r.unavailable)
            && Get(v, ObservedAt) == JText(r.observedAt)
  {
    hide ChecksJson, HealthText;
  }

  lemma CountIsExact(n: nat)
    requires n <= 64
    ensures NumberJson(n) == JNumber(Some(n))
  {
    RoundedIsExact(n);
    hide Rounded;
  }

  lemma DriftIsExact(r: ConfigurationResult)
    requires ValidConfigurationResult(r)
    ensures NumberJson(r.matches) == JNumber(Some(r.matches))
    ensures NumberJson(r.mismatches) == JNumber(Some(r.mismatches))
    ensures r.matches == CountStatus(r.checks, StatusMatch) && r.mismatches == |r.checks| - r.matches >= 0
    ensures r.status == if |r.checks| - r.matches == 0 then InSync else Drifted
  {
    CountIsAll(r.checks, StatusMatch);
    CountIsExact(r.matches);
    CountIsExact(r.mismatches);
    hide NumberJson, ValidConfigurationCheck, UniqueKeys;
  }

  lemma DriftCounted(r: ConfigurationResult)
    requires ValidConfigurationResult(r)
    ensures DriftIsCounted(ConfigurationJson(r), ChecksJson(r.checks))
  {
    hide ConfigurationJson, HasFields, Get, Has, UniqueKeys, ValidConfigurationCheck, CountJson, CountStatus;
    hide ConfigurationStatusText, CheckStatusText, ChecksJson, NumberJson, ValidConfigurationResult;
    DriftIsExact(r);
    ConfigurationFields(r);
    CountsAgree(r.checks, StatusMatch);
    DriftTextKnown(r.status);
    ChecksJsonLength(r.checks);
  }

  lemma ConfigurationResultAccepted(r: ConfigurationResult)
    requires ValidConfigurationResult(r)
    ensures IsConfigurationResult(ConfigurationJson(r)) <==> AllReadable(r.checks)
  {
    hide NumberJson, CheckJson, ValidConfigurationCheck;
    DriftIsExact(r);
    ConfigurationFields(r);
    ConfigurationChecksAccepted(r.checks);
    DriftCounted(r);
    DriftTextKnown(r.status);
    hide ConfigurationJson, HasFields, Get, Has, AreConfigurationChecks, AllReadable, ChecksJson, DriftIsCounted;
    hide ConfigurationStatusText, ValidConfigurationResult;
  }

  lemma ChecksJsonLength(checks: seq<ComparisonCheck>)
    ensures |ChecksJson(checks)| == |checks|
    ensures CheckStatusText(StatusMatch) == "match"
  {
  }

  lemma DriftTextKnown(s: ConfigurationStatus)
    ensures ConfigurationStatusText(Some(s)) in ["in_sync", "drifted"]
    ensures ConfigurationStatusText(Some(s)) == if s == InSync then "in_sync" else "drifted"
  {
    assert ["in_sync", "drifted"][0] == "in_sync" && ["in_sync", "drifted"][1] == "drifted";
  }

  lemma HealthCounted(r: OperationalResult)
    requires ValidOperationalResult(r)
    ensures NumberJson(r.healthy) == JNumber(Some(r.healthy)) && NumberJson(r.unhealthy) == JNumber(Some(r.unhealthy))
    ensures NumberJson(r.unavailable) == JNumber(Some(r.unavailable))
    ensures r.healthy >= 0 && r.unhealthy >= 0 && r.unavailable >= 0
  {
    CountIsAll(r.checks, StatusHealthy);
    CountIsAll(r.checks, StatusUnhealthy);
    CountIsAll(r.checks, StatusUnavailable);
    CountIsExact(r.healthy);
    CountIsExact(r.unhealthy);
    CountIsExact(r.unavailable);
    hide NumberJson, ValidOperationalCheck, UniqueKeys;
  }

  lemma OperationalResultAccepted(r: OperationalResult)
    requires ValidOperationalResult(r)
    ensures IsOperationalResult(OperationalJson(r)) <==> AllReadable(r.checks)
  {
    HealthCounted(r);
    hide NumberJson;
    OperationalFields(r);
    OperationalChecksAccepted(r.checks);
    CountsAgree(r.checks, StatusHealthy);
    CountsAgree(r.checks, StatusUnhealthy);
    CountsAgree(r.checks, StatusUnavailable);
    AggregatesAgree(r.checks);
    HealthKnown(r.status);
    hide OperationalJson, HasFields, Get, Has, AreOperationalChecks, AllReadable, UniqueKeys, ValidOperationalCheck;
    hide CountJson, CountStatus;
    hide HealthText, BrowserHealth, ServerHealth;
  }

  /** The checks a detail carries. */
  function ChecksOf(d: ComparedDetail): seq<ComparisonCheck> {
    (if d.configuration.result.Some? then d.configuration.result.value.checks else [])
    + (if d.operational.result.Some? then d.operational.result.value.checks else [])
  }

  lemma SourcesAccepted(s: ObservationSources)
    requires OwnedSources(s)
    ensures IsSources(SourcesJson(s)) && (SourcesHealthy(SourcesJson(s)) <==> BothHealthy(s))
  {
    AvailabilityAccepted(s.intent);
    AvailabilityAccepted(s.device);
    hide IsAvailability, SourceStatusText;
  }

  lemma AvailabilityAccepted(a: Availability)
    ensures IsAvailability(AvailabilityJson(a))
    ensures SourceStatusText(a.status) == "healthy" <==> a.status == SourceHealthy
  {
    var options := ["healthy", "degraded", "unavailable", "unknown"];
    match a.status
    case SourceHealthy => assert options[0] == SourceStatusText(a.status);
    case SourceDegraded => assert options[1] == SourceStatusText(a.status) && |options[1]| != |options[0]|;
    case SourceUnavailable => assert options[2] == SourceStatusText(a.status) && |options[2]| != |options[0]|;
    case SourceUnknown => assert options[3] == SourceStatusText(a.status) && options[3][0] != options[0][0];
  }

  lemma DetailFields(d: ComparedDetail)
    ensures var v := DetailJson(d);
            && HasFields(v, [Summary, ConfigurationDrift, OperationalHealth]) && HasFields(Get(v, Summary), [Name])
            && Get(Get(v, Summary), Name) == JText(d.name)
            && Get(v, ConfigurationDrift) == ConfigurationObservationJson(d.configuration)
            && Get(v, OperationalHealth) == OperationalObservationJson(d.operational)
  {
    hide ConfigurationObservationJson, OperationalObservationJson;
  }

  /**
   A device detail that satisfies the server's invariants is accepted by the browser
   exactly when every text in its checks is at most 128 (messages: 256) UTF-16 units long
   and has a character JavaScript does not trim, and every number is a finite double, not
   the same as the one it differs from.
   */
  lemma DetailAcceptedExactlyWhen(d: ComparedDetail)
    requires ValidDetail(d)
    ensures IsComparedDetail(DetailJson(d)) <==> forall c :: c in ChecksOf(d) ==> Readable(c)
  {
    ConfigurationObservationAccepted(d.configuration);
    OperationalObservationAccepted(d.operational);
    ConfigurationObservationFields(d.configuration);
    OperationalObservationFields(d.operational);
    if d.configuration.result.Some? {
      ConfigurationFields(d.configuration.result.value);
    }
    if d.operational.result.Some? {
      OperationalFields(d.operational.result.value);
    }
    DetailFields(d);
    hide IsConfigurationObservation, IsOperationalObservation, Readable, ValidConfigurationObservation;
    hide ValidOperationalObservation;
    hide DetailJson, ConfigurationObservationJson, OperationalObservationJson, ConfigurationJson, OperationalJson;
    hide Get, Has, HasFields;
  }

  lemma ConfigurationObservationFields(o: ConfigurationObservation)
    ensures var v := ConfigurationObservationJson(o);
            && HasFields(v, [Status, Sources, ResultField, ObservedAt])
            && Get(v, Status) == JText(ConfigurationStatusText(o.status)) && Get(v, Sources) == SourcesJson(o.sources)
            && Get(v, ResultField) == (if o.result.None? then JNull else ConfigurationJson(o.result.value))
            && Get(v, ObservedAt) == JText(o.observedAt)
  {
    hide ConfigurationStatusText, SourcesJson, ConfigurationJson;
  }

  lemma OperationalObservationFields(o: OperationalObservation)
    ensures var v := OperationalObservationJson(o);
            && HasFields(v, [Status, Sources, ResultField, ObservedAt])
            && Get(v, Status) == JText(HealthText(o.status)) && Get(v, Sources) == SourcesJson(o.sources)
            && Get(v, ResultField) == (if o.result.None? then JNull else OperationalJson(o.result.value))
            && Get(v, ObservedAt) == JText(o.observedAt)
  {
    hide HealthText, SourcesJson, OperationalJson;
  }

  lemma ConfigurationObservationAccepted(o: ConfigurationObservation)
    requires ValidConfigurationObservation(o)
    ensures IsConfigurationObservation(ConfigurationObservationJson(o)) <==>
              (o.result.Some? ==> AllReadable(o.result.value.checks))
  {
    hide IsConfigurationResult, IsSources, SourcesJson, SourcesHealthy, BothHealthy, ValidConfigurationResult;
    hide AllReadable;
    hide HasFields, Get, Has, ConfigurationJson, OwnedSources;
    ConfigurationObservationFields(o);
    hide ConfigurationObservationJson;
    SourcesAccepted(o.sources);
    ConfigurationStatusKnown(o.status);
    hide ConfigurationStatusText;
    if o.result.Some? {
      ConfigurationResultAccepted(o.result.value);
      ConfigurationFields(o.result.value);
    }
  }

  lemma ConfigurationStatusKnown(s: Option<ConfigurationStatus>)
    ensures ConfigurationStatusText(s) in ["in_sync", "drifted", "unavailable"]
    ensures ConfigurationStatusText(s) == "unavailable" <==> s.None?
  {
    var options := ["in_sync", "drifted", "unavailable"];
    match s
    case None => assert options[2] == ConfigurationStatusText(s);
    case Some(InSync) => assert options[0] == ConfigurationStatusText(s) && |options[0]| != |options[2]|;
    case Some(Drifted) => assert options[1] == ConfigurationStatusText(s) && |options[1]| != |options[2]|;
  }

  lemma OperationalObservationAccepted(o: OperationalObservation)
    requires ValidOperationalObservation(o)
    ensures IsOperationalObservation(OperationalObservationJson(o)) <==>
              (o.result.Some? ==> AllReadable(o.result.value.checks))
  {
    hide IsOperationalResult, IsSources, SourcesJson, SourcesHealthy, BothHealthy, ValidOperationalResult, AllReadable;
    hide HasFields, Get, Has, OperationalJson, OwnedSources;
    OperationalObservationFields(o);
    hide OperationalObservationJson;
    SourcesAccepted(o.sources);
    HealthKnown(o.status);
    hide HealthText;
    if o.result.Some? {
      OperationalResultAccepted(o.result.value);
      OperationalFields(o.result.value);
    }
  }

  lemma HealthKnown(s: HealthStatus)
    ensures HealthText(s) in ["healthy", "degraded", "unavailable"]
    ensures HealthText(s) == "unavailable" <==> s == Unavailable
  {
    var options := ["healthy", "degraded", "unavailable"];
    match s
    case Healthy => assert options[0] == HealthText(s) && |options[0]| != |options[2]|;
    case Degraded => assert options[1] == HealthText(s) && |options[1]| != |options[2]|;
    case Unavailable => assert options[2] == HealthText(s);
  }

  // ---------------------------------------------------------------- the two limits in practice

  predicate AsciiCheck(c: ComparisonCheck) {
    && AsciiText(c.key) && AsciiText(c.message)
    && (c.expected.Text? ==> AsciiText(c.expected.text))
    && (c.observed.Text? ==> AsciiText(c.observed.text))
  }

  /** The numbers JavaScript calls safe. */
  predicate SafeNumber(v: V.Value) {
    v.Whole? ==> -EXACT_LIMIT < v.whole < EXACT_LIMIT
  }

  lemma SafeNumbersAreReadable(expected: V.Value, observed: V.Value)
    requires SafeNumber(expected) && SafeNumber(observed)
    ensures BrowserNumbers(expected, observed)
  {
    hide Rounded;
    if expected.Whole? { RoundedIsExact(expected.whole); }
    if observed.Whole? { RoundedIsExact(observed.whole); }
  }

  lemma AsciiTextIsReadable(t: string, limit: nat)
    requires AsciiText(t) && BoundedText(t, limit)
    ensures BrowserText(t, limit)
  {
    Utf16LengthBounds(t);
    var k :| 0 <= k < |t| && !PythonSpace(t[k]);
    assert !BrowserSpace(t[k]);
  }

  /** As long as the checks hold only ASCII text and safe numbers, nothing the server accepts is refused. */
  lemma AsciiDetailIsAccepted(d: ComparedDetail)
    requires ValidDetail(d)
    requires forall c :: c in ChecksOf(d) ==> AsciiCheck(c) && SafeNumber(c.expected) && SafeNumber(c.observed)
    ensures IsComparedDetail(DetailJson(d))
  {
    forall c | c in ChecksOf(d) ensures Readable(c) {
      SafeNumbersAreReadable(c.expected, c.observed);
      hide AsciiText, BoundedText, BrowserText, UniqueKeys, BrowserNumbers, SafeNumber;
      assert CheckFields(c);
      AsciiTextIsReadable(c.key, 128);
      if c.expected.Text? { AsciiTextIsReadable(c.expected.text, 128); }
      if c.observed.Text? { AsciiTextIsReadable(c.observed.text, 128); }
      if c.message != "" { AsciiTextIsReadable(c.message, 256); }
    }
    DetailAcceptedExactlyWhen(d);
  }
}
