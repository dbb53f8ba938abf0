/** When the comparison of an accepted state returns: what it demands of names and observations. */
module ComparisonReturns {
  import opened Outcomes
  import opened Text
  import opened Leaves
  import opened Plans
  import V = GetResponse
  import opened ExpectedStates
  import opened CheckKeys
  import opened Comparisons
  import opened Comparison
  import opened Agreement

  /** Every path can be built, and every observed value has the type of its leaf. */
  predicate Readings(e: ExpectedState, state: map<string, V.Value>) {
    forall x :: x in ValidationPlan(e) ==>
      LeafPath(x.leaf).Some? && AllowedValue(IntegerLeaf(x.leaf), Reading(x.leaf, state))
  }

  /** Every text a check is made of fits its field. */
  predicate FittingTexts(e: ExpectedState) {
    && BoundedText(e.deviceName, 128)
    && (forall x :: x in ConfigurationPlan(e) ==> BoundedText(ConfigurationKey(x), 128))
    && (forall x :: x in OperationalPlan(e) ==> BoundedText(OperationalKey(x), 128))
  }

  lemma FixedTextsFit()
    ensures BoundedText("enable", 128) && BoundedText("up", 128)
    ensures BoundedText("preferred", 128) && BoundedText("established", 128)
  {
    assert !PythonSpace("enable"[0]) && !PythonSpace("up"[0]);
    assert !PythonSpace("preferred"[0]) && !PythonSpace("established"[0]);
  }

  lemma ExpectedFits(e: ExpectedState, x: Expectation)
    requires BoundedText(e.deviceName, 128) && (x in ConfigurationPlan(e) || x in OperationalPlan(e))
    ensures BoundedScalar(x.expected)
    ensures x in ConfigurationPlan(e) && x.leaf.AddressStatus? ==> x.expected.Flag?
    ensures x in ConfigurationPlan(e) && x.leaf == Hostname ==> x.expected == V.Text(e.deviceName)
  {
    FixedTextsFit();
    hide BoundedText, ConfigurationPlan, OperationalPlan;
    InConfiguration(e, x);
    InOperation(e, x);
  }

  /** The leaf of a planned check is one validation reads as well. */
  lemma PlannedForValidation(e: ExpectedState, x: Expectation) returns (y: Expectation)
    requires x in ConfigurationPlan(e) || x in OperationalPlan(e)
    ensures y in ValidationPlan(e) && y.leaf == x.leaf
  {
    hide ConfigurationPlan, OperationalPlan, ValidationPlan;
    ValidationIsSettingsAndStates(e, x);
    PresenceMatchesReadiness(e, x);
    y := if x in ValidationPlan(e) then x else Expectation(x.leaf, V.Text("preferred"));
    ValidationIsSettingsAndStates(e, y);
  }

  lemma AllowedFits(integer: bool, v: V.Value)
    requires AllowedValue(integer, v)
    ensures v == V.Null || BoundedScalar(v)
  {
  }

  lemma MessagesFit()
    ensures BoundedText(CONFIGURATION_MISMATCH, 256) && CONFIGURATION_MISMATCH != ""
    ensures BoundedText(OPERATIONAL_UNHEALTHY, 256) && OPERATIONAL_UNHEALTHY != ""
    ensures BoundedText(OPERATIONAL_UNAVAILABLE, 256) && OPERATIONAL_UNAVAILABLE != ""
  {
    assert CONFIGURATION_MISMATCH[0] == 'c' && OPERATIONAL_UNHEALTHY[0] == OPERATIONAL_UNAVAILABLE[0] == 'o';
  }

  lemma ChecksAreValid(x: Expectation, state: map<string, V.Value>)
    requires BoundedScalar(x.expected) && (Reading(x.leaf, state) == V.Null || BoundedScalar(Reading(x.leaf, state)))
    ensures BoundedText(ConfigurationKey(x), 128) && ConfigurationCategory(CategoryOf(x.leaf, false)) ==>
              ValidConfigurationCheck(ConfigurationCheckOf(x, state))
    ensures BoundedText(OperationalKey(x), 128) && OperationalCategory(CategoryOf(x.leaf, true)) ==>
              ValidOperationalCheck(OperationalCheckOf(x, state))
  {
    MessagesFit();
    hide BoundedText, Reading, LeafPath, ConfigurationKey, OperationalKey, CategoryOf;
    hide ConfigurationCategory, OperationalCategory;
  }

  lemma PlannedChecksAreValid(e: ExpectedState, state: map<string, V.Value>, x: Expectation)
    requires Readings(e, state) && FittingTexts(e)
    ensures x in ConfigurationPlan(e) ==> ValidConfigurationCheck(ConfigurationCheckOf(x, state))
    ensures x in OperationalPlan(e) ==> ValidOperationalCheck(OperationalCheckOf(x, state))
  {
    hide BoundedText, ConfigurationPlan, OperationalPlan, ValidationPlan, Reading, LeafPath;
    hide ConfigurationKey, OperationalKey, ValidConfigurationCheck, ValidOperationalCheck, BoundedScalar, AllowedValue;
    hide ConfigurationCheckOf, OperationalCheckOf, IntegerLeaf, CategoryOf, ConfigurationCategory, OperationalCategory;
    if x in ConfigurationPlan(e) || x in OperationalPlan(e) {
      ExpectedFits(e, x);
      CategoriesFit(e, x);
      var y := PlannedForValidation(e, x);
      AllowedFits(IntegerLeaf(y.leaf), Reading(y.leaf, state));
      ChecksAreValid(x, state);
    }
  }

  lemma CategoriesFit(e: ExpectedState, x: Expectation)
    ensures x in ConfigurationPlan(e) ==> ConfigurationCategory(CategoryOf(x.leaf, false))
    ensures x in OperationalPlan(e) ==> OperationalCategory(CategoryOf(x.leaf, true))
  {
    InConfiguration(e, x);
    InOperation(e, x);
  }

  /** Checks of distinct keys, each valid, make valid results. */
  lemma ResultsAreValid(name: string, settings: seq<ComparisonCheck>, states: seq<ComparisonCheck>, at: string)
    requires 1 <= |settings| <= 64 && 1 <= |states| <= 64 && UniqueKeys(settings) && UniqueKeys(states)
    requires forall c :: c in settings ==> ValidConfigurationCheck(c)
    requires forall c :: c in states ==> ValidOperationalCheck(c)
    ensures ValidConfigurationResult(ConfigurationOf(name, settings, at))
    ensures ValidOperationalResult(OperationOf(name, states, at))
  {
    hide ValidConfigurationCheck, ValidOperationalCheck, UniqueKeys, CountStatus;
  }

  lemma KeysOfSettings(plan: seq<Expectation>, state: map<string, V.Value>)
    ensures UniqueKeys(Map(plan, Configured(state))) <==> DistinctOn(plan, ConfigurationKey)
  {
    hide ConfigurationKey, CategoryOf, ConfigurationReading, Map;
    var checks := Map(plan, Configured(state));
    assert forall i :: 0 <= i < |plan| ==> checks[i].key == ConfigurationKey(plan[i]);
    hide ConfigurationCheckOf;
  }

  lemma KeysOfStates(plan: seq<Expectation>, state: map<string, V.Value>)
    ensures UniqueKeys(Map(plan, Operated(state))) <==> DistinctOn(plan, OperationalKey)
  {
    hide OperationalKey, CategoryOf, Reading, Map;
    var checks := Map(plan, Operated(state));
    assert forall i :: 0 <= i < |plan| ==> checks[i].key == OperationalKey(plan[i]);
    hide OperationalCheckOf;
  }

  lemma AllChecksAreValid(e: ExpectedState, state: map<string, V.Value>)
    requires Readings(e, state) && FittingTexts(e)
    ensures forall c :: c in Map(ConfigurationPlan(e), Configured(state)) ==> ValidConfigurationCheck(c)
    ensures forall c :: c in Map(OperationalPlan(e), Operated(state)) ==> ValidOperationalCheck(c)
  {
    hide Readings, FittingTexts, ConfigurationCheckOf, OperationalCheckOf, ValidConfigurationCheck;
    hide ValidOperationalCheck, ConfigurationPlan, OperationalPlan, Map;
    var cp, op := ConfigurationPlan(e), OperationalPlan(e);
    forall c | c in Map(cp, Configured(state)) ensures ValidConfigurationCheck(c) {
      var i :| 0 <= i < |cp| && Map(cp, Configured(state))[i] == c;
      PlannedChecksAreValid(e, state, cp[i]);
    }
    forall c | c in Map(op, Operated(state)) ensures ValidOperationalCheck(c) {
      var i :| 0 <= i < |op| && Map(op, Operated(state))[i] == c;
      PlannedChecksAreValid(e, state, op[i]);
    }
  }

  lemma PlannedResultsAreValid(e: ExpectedState, state: map<string, V.Value>, at: string)
    requires Accepted(e) && e.loopbackName !in NamesOf(e.routed) && Readings(e, state) && FittingTexts(e)
    ensures Assemble(e, state, at).Ok?
  {
    hide Accepted, ConfigurationPlan, OperationalPlan, ValidationPlan, Readings, FittingTexts, ConfigurationKey;
    hide OperationalKey, Configured, Operated, ValidConfigurationCheck, ValidOperationalCheck, NamesOf, Map;
    hide UniqueKeys, DistinctOn, ConfigurationOf, OperationOf, ValidConfigurationResult, ValidOperationalResult;
    PlanSizes(e);
    KeysAreUniqueExactlyWhen(e);
    KeysOfSettings(ConfigurationPlan(e), state);
    KeysOfStates(OperationalPlan(e), state);
    AllChecksAreValid(e, state);
    ResultsAreValid(
      e.deviceName, Map(ConfigurationPlan(e), Configured(state)), Map(OperationalPlan(e), Operated(state)), at);
  }

  lemma ComparesByPhases(e: ExpectedState, state: map<string, V.Value>, at: string)
    ensures Compare(e, state, at).Ok? <==> Readings(e, state) && Assemble(e, state, at).Ok?
  {
    hide ValidationPlan, Assemble, LeafPath, Reading, AllowedValue;
  }

  lemma ReturnedChecksFit(e: ExpectedState, state: map<string, V.Value>, at: string, x: Expectation)
    requires Compare(e, state, at).Ok?
    ensures x in ConfigurationPlan(e) ==> BoundedText(ConfigurationKey(x), 128) && BoundedScalar(x.expected)
    ensures x in OperationalPlan(e) ==> BoundedText(OperationalKey(x), 128)
  {
    hide ConfigurationPlan, OperationalPlan, Compare, ValidConfigurationCheck, ValidOperationalCheck, Accepted;
    hide ConfigurationCheckOf, OperationalCheckOf, BoundedText, ConfigurationKey, OperationalKey, UniqueKeys;
    ComparedChecks(e, state, at);
    var c := Compare(e, state, at).value;
    if x in ConfigurationPlan(e) {
      var i :| 0 <= i < |ConfigurationPlan(e)| && ConfigurationPlan(e)[i] == x;
      assert c.configuration.checks[i] in c.configuration.checks;
      ValidSettingFits(x, state);
    }
    if x in OperationalPlan(e) {
      var i :| 0 <= i < |OperationalPlan(e)| && OperationalPlan(e)[i] == x;
      assert c.operational.checks[i] in c.operational.checks;
      ValidStateFits(x, state);
    }
  }

  lemma ValidSettingFits(x: Expectation, state: map<string, V.Value>)
    requires ValidConfigurationCheck(ConfigurationCheckOf(x, state))
    ensures BoundedText(ConfigurationKey(x), 128) && BoundedScalar(x.expected)
  {
    hide Reading, ConfigurationKey, BoundedText;
  }

  lemma ValidStateFits(x: Expectation, state: map<string, V.Value>)
    requires ValidOperationalCheck(OperationalCheckOf(x, state))
    ensures BoundedText(OperationalKey(x), 128)
  {
    hide Reading, OperationalKey, BoundedText;
  }

  lemma ReturnedFits(e: ExpectedState, state: map<string, V.Value>, at: string)
    requires Accepted(e) && Compare(e, state, at).Ok?
    ensures FittingTexts(e) && e.loopbackName !in NamesOf(e.routed)
  {
    hide Accepted, NamesOf, Compare, BoundedText, ConfigurationKey, OperationalKey, ConfigurationPlan, OperationalPlan;
    hide ValidConfigurationCheck, ConfigurationCheckOf, OperationalCheckOf, ValidOperationalResult, DistinctOn;
    var host := Expectation(Hostname, V.Text(e.deviceName));
    InConfiguration(e, host);
    forall x
      ensures x in ConfigurationPlan(e) ==> BoundedText(ConfigurationKey(x), 128) && BoundedScalar(x.expected)
      ensures x in OperationalPlan(e) ==> BoundedText(OperationalKey(x), 128)
    {
      ReturnedChecksFit(e, state, at, x);
    }
    ComparedChecks(e, state, at);
    KeysAreUniqueExactlyWhen(e);
    ConfigurationKeysDistinct(e, state, Compare(e, state, at).value.configuration.checks);
    assert BoundedScalar(host.expected);
  }

  /**
   The comparison of an accepted state returns exactly when every path can be built, every
   observed value has its leaf's type, every key and the device name fit, and the loopback is
   not a routed interface too.
   */
  lemma ComparisonReturnsExactlyWhen(e: ExpectedState, state: map<string, V.Value>, at: string)
    requires Accepted(e)
    ensures Compare(e, state, at).Ok? <==>
              Readings(e, state) && FittingTexts(e) && e.loopbackName !in NamesOf(e.routed)
  {
    hide Accepted, NamesOf, Compare, Readings, FittingTexts, Assemble;
    ComparesByPhases(e, state, at);
    if Compare(e, state, at).Ok? {
      ReturnedFits(e, state, at);
    } else if Readings(e, state) && FittingTexts(e) && e.loopbackName !in NamesOf(e.routed) {
      PlannedResultsAreValid(e, state, at);
    }
  }
}
