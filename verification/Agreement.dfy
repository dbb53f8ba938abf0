/** Validation and comparison are written separately; here is where they say the same thing. */
module Agreement {
  import opened Outcomes
  import opened Text
  import opened Leaves
  import opened Plans
  import V = GetResponse
  import opened ExpectedStates
  import opened CheckKeys
  import opened Comparisons
  import opened Comparison
  import Validation

  /** A returned comparison is made of one valid check for each entry of its two plans. */
  lemma ComparedChecks(e: ExpectedState, state: map<string, V.Value>, at: string)
    requires Compare(e, state, at).Ok?
    ensures
      var c := Compare(e, state, at).value;
      var cp, op := ConfigurationPlan(e), OperationalPlan(e);
      && ValidConfigurationResult(c.configuration) && ValidOperationalResult(c.operational)
      && |c.configuration.checks| == |cp| && |c.operational.checks| == |op|
      && (forall i :: 0 <= i < |cp| ==> c.configuration.checks[i] == ConfigurationCheckOf(cp[i], state))
      && (forall i :: 0 <= i < |op| ==> c.operational.checks[i] == OperationalCheckOf(op[i], state))
  {
    hide LeafPath, ConfigurationPlan, OperationalPlan, ValidationPlan, ValidConfigurationResult, ValidOperationalResult;
    hide ConfigurationCheckOf, OperationalCheckOf;
  }

  /** What a returned comparison says about its two plans. */
  lemma ComparisonSaysAll(e: ExpectedState, state: map<string, V.Value>, at: string)
    requires Compare(e, state, at).Ok?
    ensures
      var c := Compare(e, state, at).value;
      && (c.configuration.status == InSync <==>
          forall x :: x in ConfigurationPlan(e) ==> ConfigurationReading(x, state) == x.expected)
      && (c.operational.status == Healthy <==>
          forall x :: x in OperationalPlan(e) ==> Reading(x.leaf, state) == x.expected)
  {
    hide Reading, ConfigurationReading, ConfigurationKey, OperationalKey, ConfigurationPlan, OperationalPlan;
    hide ValidConfigurationResult, ValidOperationalResult, Compare;
    ComparedChecks(e, state, at);
    var c := Compare(e, state, at).value;
    StatusesSayAll(c.configuration, c.operational);
    forall x | x in ConfigurationPlan(e) && c.configuration.status == InSync
      ensures ConfigurationReading(x, state) == x.expected
    {
      var i :| 0 <= i < |ConfigurationPlan(e)| && ConfigurationPlan(e)[i] == x;
      assert c.configuration.checks[i] in c.configuration.checks;
    }
    forall x | x in OperationalPlan(e) && c.operational.status == Healthy ensures Reading(x.leaf, state) == x.expected {
      var i :| 0 <= i < |OperationalPlan(e)| && OperationalPlan(e)[i] == x;
      assert c.operational.checks[i] in c.operational.checks;
    }
  }

  lemma ExpectedIsALeaf(e: ExpectedState, x: Expectation)
    requires x in ValidationPlan(e)
    ensures x.expected != V.Null
  {
    hide LeafPath;
    InPlan(e, x);
  }

  lemma SatisfiedIsReading(e: ExpectedState, x: Expectation, state: map<string, V.Value>)
    requires x in ValidationPlan(e)
    ensures Validation.Satisfied(x, state) <==> Reading(x.leaf, state) == x.expected
  {
    hide LeafPath;
    ExpectedIsALeaf(e, x);
  }

  /**
   Whenever both return, validation passes exactly when the configuration is in sync
   and the device is healthy.
   */
  lemma ValidationAgreesWithComparison(
    e: ExpectedState, state: map<string, V.Value>, at: string, printable: char -> bool)
    requires Compare(e, state, at).Ok? && Validation.Validate(e, state, printable).Ok?
    ensures
      var c := Compare(e, state, at).value;
      Validation.Validate(e, state, printable).value.passed <==>
        c.configuration.status == InSync && c.operational.status == Healthy
  {
    hide LeafPath, ConfigurationPlan, OperationalPlan, ValidationPlan, Compare, Validation.Validate, Reading;
    hide Validation.Retryable, Validation.Satisfied, Validation.Contradicted;
    ComparisonSaysAll(e, state, at);
    Validation.PermanentExactlyWhen(e, state, printable);
    forall x | x in ValidationPlan(e)
      ensures Validation.Satisfied(x, state) <==> Reading(x.leaf, state) == x.expected
    {
      SatisfiedIsReading(e, x, state);
    }
    forall x
      ensures x in ValidationPlan(e) <==> (Setting(x.leaf) && x in ConfigurationPlan(e)) || x in OperationalPlan(e)
      ensures x in ConfigurationPlan(e) && !Setting(x.leaf) ==>
                && x == Presence(x.leaf) && x.leaf.AddressStatus?
                && Expectation(x.leaf, V.Text("preferred")) in OperationalPlan(e)
    {
      ValidationIsSettingsAndStates(e, x);
      PresenceMatchesReadiness(e, x);
    }
  }

  /** A check that a leaf's configuration contradicts: not about presence, mismatching, and not for want of a value. */
  predicate Contradiction(c: ComparisonCheck) {
    c.category != AddressPresence && c.status == StatusMismatch && c.observed != V.Null
  }

  lemma ContradictedIsSetting(x: Expectation, state: map<string, V.Value>)
    ensures Validation.Contradicted(x, state) ==> Setting(x.leaf)
  {
    hide LeafPath;
  }

  lemma ContradictionIsContradicted(e: ExpectedState, x: Expectation, state: map<string, V.Value>)
    requires x in ConfigurationPlan(e)
    ensures Contradiction(ConfigurationCheckOf(x, state)) <==> Validation.Contradicted(x, state)
  {
    hide LeafPath, ConfigurationPlan, OperationalPlan, ConfigurationKey;
    PresenceMatchesReadiness(e, x);
  }

  /**
   Whenever both return, a validation failure is permanent exactly when some
   configuration check other than address presence mismatches a value that is there.
   */
  lemma PermanentMeansContradiction(e: ExpectedState, state: map<string, V.Value>, at: string, printable: char -> bool)
    requires Compare(e, state, at).Ok? && Validation.Validate(e, state, printable).Ok?
    ensures
      !Validation.Retryable(Validation.Validate(e, state, printable).value.checks) <==>
        exists c :: c in Compare(e, state, at).value.configuration.checks && Contradiction(c)
  {
    hide LeafPath, ConfigurationPlan, OperationalPlan, ValidationPlan, Validation.Validate, Compare;
    hide Validation.Retryable, ValidConfigurationResult, ValidOperationalResult, ConfigurationCheckOf, Contradiction;
    hide Validation.Contradicted;
    Validation.PermanentExactlyWhen(e, state, printable);
    ComparedChecks(e, state, at);
    var plan, cs := ConfigurationPlan(e), Compare(e, state, at).value.configuration.checks;
    forall i | 0 <= i < |plan| ensures Contradiction(cs[i]) <==> Validation.Contradicted(plan[i], state) {
      ContradictionIsContradicted(e, plan[i], state);
    }
    forall x ensures Validation.Contradicted(x, state) ==> Setting(x.leaf) {
      ContradictedIsSetting(x, state);
    }
    if x :| x in ValidationPlan(e) && Validation.Contradicted(x, state) {
      ValidationIsSettingsAndStates(e, x);
      var i :| 0 <= i < |plan| && plan[i] == x;
      assert cs[i] in cs;
    }
    if c :| c in cs && Contradiction(c) {
      var i :| 0 <= i < |cs| && cs[i] == c;
      ValidationIsSettingsAndStates(e, plan[i]);
    }
  }

  // ---------------------------------------------------------------- when validation returns too

  /** Everything a check would store about this leaf is printable. */
  predicate PrintableEntry(x: Expectation, state: map<string, V.Value>, printable: char -> bool) {
    && All(Trim(CheckName(x.leaf)), printable)
    && (x.expected.Text? ==> All(Trim(x.expected.text), printable))
    && (Reading(x.leaf, state).Text? ==> All(Trim(Reading(x.leaf, state).text), printable))
  }

  lemma BoundedIsTrimmable(t: string, printable: char -> bool)
    requires BoundedText(t, 128)
    ensures Validation.SafeText(t, printable) <==> All(Trim(t), printable)
  {
  }

  /** A comparison that returned has vetted every name and text validation will store, save for printability. */
  lemma ComparisonVetsEntries(e: ExpectedState, state: map<string, V.Value>, at: string, x: Expectation)
    requires Compare(e, state, at).Ok? && x in ValidationPlan(e)
    ensures BoundedText(CheckName(x.leaf), 128)
    ensures V.IsLeaf(x.expected) && (x.expected.Text? ==> BoundedText(x.expected.text, 128))
    ensures Reading(x.leaf, state).Text? ==> BoundedText(Reading(x.leaf, state).text, 128)
    ensures Reading(x.leaf, state) == V.Null || V.IsLeaf(Reading(x.leaf, state))
  {
    hide LeafPath, ConfigurationPlan, OperationalPlan, ValidationPlan, Compare, OperationalKey, CheckName;
    ValidationIsSettingsAndStates(e, x);
    ComparedChecks(e, state, at);
    var c := Compare(e, state, at).value;
    if x in OperationalPlan(e) {
      var i :| 0 <= i < |OperationalPlan(e)| && OperationalPlan(e)[i] == x;
      assert c.operational.checks[i] in c.operational.checks;
      CheckNameFits(x);
    } else {
      var i :| 0 <= i < |ConfigurationPlan(e)| && ConfigurationPlan(e)[i] == x;
      assert c.configuration.checks[i] in c.configuration.checks;
    }
  }

  lemma CheckNameFits(x: Expectation)
    requires BoundedText(OperationalKey(x), 128)
    ensures BoundedText(CheckName(x.leaf), 128)
  {
    if x.leaf.AddressStatus? {
      assert CheckName(x.leaf)[0] == 'a';
    }
  }

  /**
   After a full read, and when the comparison of the same state returns, validation
   returns exactly when every name and text it stores is printable.
   */
  lemma ValidationReturnsExactlyWhen(e: ExpectedState, state: map<string, V.Value>, at: string, printable: char -> bool)
    requires Accepted(e) && Compare(e, state, at).Ok?
    requires forall x :: x in ValidationPlan(e) ==> LeafPath(x.leaf).Some? && LeafPath(x.leaf).value in state
    ensures Validation.Validate(e, state, printable).Ok? <==>
              forall x :: x in ValidationPlan(e) ==> PrintableEntry(x, state, printable)
  {
    hide LeafPath, ConfigurationPlan, OperationalPlan, ValidationPlan, CheckName, Accepted, Compare;
    var plan := ValidationPlan(e);
    var checker := Validation.Checker(state, printable);
    MapAllIsPointwise(plan, checker);
    forall i | 0 <= i < |plan| ensures checker(plan[i]).Ok? <==> PrintableEntry(plan[i], state, printable) {
      EntryIsStored(e, state, at, printable, plan[i]);
    }
    if MapAll(plan, checker).Ok? {
      NamesStayDistinct(e, state, at, printable);
    }
  }

  lemma EntryIsStored(
    e: ExpectedState, state: map<string, V.Value>, at: string, printable: char -> bool, x: Expectation)
    requires Compare(e, state, at).Ok? && x in ValidationPlan(e)
    requires LeafPath(x.leaf).Some? && LeafPath(x.leaf).value in state
    ensures Validation.CheckLeaf(x, state, printable).Ok? <==> PrintableEntry(x, state, printable)
  {
    hide LeafPath, ValidationPlan, CheckName, Compare;
    ComparisonVetsEntries(e, state, at, x);
    BoundedIsTrimmable(CheckName(x.leaf), printable);
    if x.expected.Text? { BoundedIsTrimmable(x.expected.text, printable); }
    if Reading(x.leaf, state).Text? { BoundedIsTrimmable(Reading(x.leaf, state).text, printable); }
  }

  lemma NamesStayDistinct(e: ExpectedState, state: map<string, V.Value>, at: string, printable: char -> bool)
    requires Accepted(e) && Compare(e, state, at).Ok?
    requires MapAll(ValidationPlan(e), Validation.Checker(state, printable)).Ok?
    ensures Validation.Validate(e, state, printable).Ok?
  {
    hide LeafPath, ConfigurationPlan, OperationalPlan, ValidationPlan, CheckName, Accepted, OperationalKey;
    hide ConfigurationKey;
    hide Compare;
    var plan, checks := ValidationPlan(e), MapAll(ValidationPlan(e), Validation.Checker(state, printable)).value;
    MapAllIsPointwise(plan, Validation.Checker(state, printable));
    PlanSizes(e);
    ComparedChecks(e, state, at);
    KeysAreUniqueExactlyWhen(e);
    ConfigurationKeysDistinct(e, state, Compare(e, state, at).value.configuration.checks);
    forall i, j | 0 <= i < j < |checks| ensures checks[i].name != checks[j].name {
      assert Validation.CheckLeaf(plan[i], state, printable) == Ok(checks[i]);
      assert Validation.CheckLeaf(plan[j], state, printable) == Ok(checks[j]);
      assert ValidationName(plan[i]) != ValidationName(plan[j]);
    }
  }

  lemma ConfigurationKeysDistinct(e: ExpectedState, state: map<string, V.Value>, cs: seq<ComparisonCheck>)
    requires UniqueKeys(cs) && |cs| == |ConfigurationPlan(e)|
    requires forall i :: 0 <= i < |cs| ==> cs[i] == ConfigurationCheckOf(ConfigurationPlan(e)[i], state)
    ensures DistinctOn(ConfigurationPlan(e), ConfigurationKey)
  {
    hide ConfigurationPlan, ConfigurationKey, Reading;
    var plan := ConfigurationPlan(e);
    forall i, j | 0 <= i < j < |plan| ensures ConfigurationKey(plan[i]) != ConfigurationKey(plan[j]) {
      assert cs[i].key != cs[j].key;
    }
  }
}
