/** The checks validation and comparison make, one by one, with the names and paths they are made under. */
module ChecksMade {
  import opened Outcomes
  import opened Text
  import opened Leaves
  import opened Plans
  import opened GetResponse
  import opened ExpectedStates
  import opened CheckKeys
  import opened Comparisons
  import opened Comparison
  import opened PathTexts
  import Agreement
  import Validation

  // ---------------------------------------------------------------- validation

  /** A check of this name holds what stands under the path against what is expected. */
  predicate Checked(
    checks: seq<Validation.Check>, state: map<string, Value>, name: string, leaf: Leaf, expected: Value) {
    exists k :: 0 <= k < |checks|
                && TextOf(leaf) in state
                && checks[k] == Validation.Check(name, state[TextOf(leaf)] == expected, expected, state[TextOf(leaf)])
  }

  predicate InterfaceChecked(checks: seq<Validation.Check>, state: map<string, Value>, i: Interface) {
    && Checked(checks, state, "interface." + i.name + ".admin_state", InterfaceAdmin(i.name), Value.Text("enable"))
    && Checked(checks, state, "subinterface." + i.name + ".0.admin_state", SubinterfaceAdmin(i.name),
         Value.Text("enable"))
    && Checked(checks, state, "address." + i.name + "." + i.prefix + ".status", AddressStatus(i.name, i.prefix),
         Value.Text("preferred"))
    && (i.requireUp ==>
          && Checked(checks, state, "interface." + i.name + ".oper_state", InterfaceOper(i.name), Value.Text("up"))
          && Checked(checks, state, "subinterface." + i.name + ".0.oper_state", SubinterfaceOper(i.name),
               Value.Text("up")))
  }

  predicate NeighborChecked(checks: seq<Validation.Check>, state: map<string, Value>, n: Neighbor) {
    && Checked(checks, state, "routing.bgp.neighbor." + n.address + ".peer_as", PeerAs(n.address), Whole(n.remoteAsn))
    && Checked(checks, state, "routing.bgp.neighbor." + n.address + ".session_state", SessionState(n.address),
         Value.Text("established"))
  }

  lemma PlannedIsChecked(
    e: ExpectedState, state: map<string, Value>, printable: char -> bool, x: Expectation, name: string)
    requires Validation.Validate(e, state, printable).Ok? && x in ValidationPlan(e) && name == CheckName(x.leaf)
    ensures Checked(Validation.Validate(e, state, printable).value.checks, state, name, x.leaf, x.expected)
  {
    hide CheckName, ValidationPlan;
    var plan, checker := ValidationPlan(e), Validation.Checker(state, printable);
    MapAllIsPointwise(plan, checker);
    LeafPathIs(x.leaf);
    hide LeafPath, TextOf;
    var i :| 0 <= i < |plan| && plan[i] == x;
    assert checker(plan[i]) == Ok(Validation.Validate(e, state, printable).value.checks[i]);
  }

  lemma InterfacePlanned(e: ExpectedState, i: Interface)
    requires i == Interface(e.loopbackName, e.loopbackPrefix, true) || i in e.routed
    ensures exists k :: 0 <= k < |e.Interfaces()| && e.Interfaces()[k] == i
  {
    if i in e.routed {
      var k :| 0 <= k < |e.routed| && e.routed[k] == i;
      assert e.Interfaces()[k + 1] == i;
    } else {
      assert e.Interfaces()[0] == i;
    }
  }

  lemma EntryPlanned(e: ExpectedState, i: Interface, x: Expectation)
    requires i == Interface(e.loopbackName, e.loopbackPrefix, true) || i in e.routed
    requires x in InterfacePlan(i)
    ensures x in ValidationPlan(e)
  {
    hide InterfacePlan, ValidationPlan;
    InterfacePlanned(e, i);
    InPlan(e, x);
  }

  lemma InterfaceNames(n: string, p: string)
    ensures CheckName(InterfaceAdmin(n)) == "interface." + n + ".admin_state"
    ensures CheckName(InterfaceOper(n)) == "interface." + n + ".oper_state"
    ensures CheckName(SubinterfaceAdmin(n)) == "subinterface." + n + ".0.admin_state"
    ensures CheckName(SubinterfaceOper(n)) == "subinterface." + n + ".0.oper_state"
    ensures CheckName(AddressStatus(n, p)) == "address." + n + "." + p + ".status"
  {
  }

  lemma InterfaceEntries(i: Interface)
    ensures Expectation(InterfaceAdmin(i.name), Value.Text("enable")) in InterfacePlan(i)
    ensures Expectation(SubinterfaceAdmin(i.name), Value.Text("enable")) in InterfacePlan(i)
    ensures Expectation(AddressStatus(i.name, i.prefix), Value.Text("preferred")) in InterfacePlan(i)
    ensures i.requireUp ==>
              && Expectation(InterfaceOper(i.name), Value.Text("up")) in InterfacePlan(i)
              && Expectation(SubinterfaceOper(i.name), Value.Text("up")) in InterfacePlan(i)
  {
  }

  lemma InterfaceIsChecked(e: ExpectedState, state: map<string, Value>, printable: char -> bool, i: Interface)
    requires Validation.Validate(e, state, printable).Ok?
    requires i == Interface(e.loopbackName, e.loopbackPrefix, true) || i in e.routed
    ensures InterfaceChecked(Validation.Validate(e, state, printable).value.checks, state, i)
  {
    hide InterfacePlan, ValidationPlan, Validation.Validate, TextOf, Checked, CheckName;
    InterfaceEntries(i);
    InterfaceNames(i.name, i.prefix);
    forall x | x in InterfacePlan(i)
      ensures Checked(
                Validation.Validate(e, state, printable).value.checks, state, CheckName(x.leaf), x.leaf, x.expected)
    {
      EntryPlanned(e, i, x);
      PlannedIsChecked(e, state, printable, x, CheckName(x.leaf));
    }
    assert forall x :: x in InterfacePlan(i) ==>
        Checked(Validation.Validate(e, state, printable).value.checks, state, CheckName(x.leaf), x.leaf, x.expected);
  }

  lemma NeighborEntries(n: Neighbor)
    ensures Expectation(PeerAs(n.address), Whole(n.remoteAsn)) in NeighborPlan(n)
    ensures Expectation(SessionState(n.address), Value.Text("established")) in NeighborPlan(n)
    ensures CheckName(PeerAs(n.address)) == "routing.bgp.neighbor." + n.address + ".peer_as"
    ensures CheckName(SessionState(n.address)) == "routing.bgp.neighbor." + n.address + ".session_state"
  {
  }

  lemma NeighborIsChecked(e: ExpectedState, state: map<string, Value>, printable: char -> bool, n: Neighbor)
    requires Validation.Validate(e, state, printable).Ok? && n in e.neighbors
    ensures NeighborChecked(Validation.Validate(e, state, printable).value.checks, state, n)
  {
    hide NeighborPlan, ValidationPlan, Validation.Validate, TextOf, Checked, CheckName;
    var k :| 0 <= k < |e.neighbors| && e.neighbors[k] == n;
    NeighborEntries(n);
    forall x | x in NeighborPlan(n)
      ensures Checked(
                Validation.Validate(e, state, printable).value.checks, state, CheckName(x.leaf), x.leaf, x.expected)
    {
      InPlan(e, x);
      PlannedIsChecked(e, state, printable, x, CheckName(x.leaf));
    }
    assert forall x :: x in NeighborPlan(n) ==>
        Checked(Validation.Validate(e, state, printable).value.checks, state, CheckName(x.leaf), x.leaf, x.expected);
  }

  lemma DeviceIsChecked(e: ExpectedState, state: map<string, Value>, printable: char -> bool)
    requires Validation.Validate(e, state, printable).Ok?
    ensures var checks := Validation.Validate(e, state, printable).value.checks;
            && Checked(checks, state, "system.hostname", Hostname, Value.Text(e.deviceName))
            && Checked(checks, state, "routing.bgp.local_asn", LocalAsn, Whole(e.localAsn))
  {
    hide ValidationPlan, Validation.Validate, TextOf, Checked;
    var host, asn := Expectation(Hostname, Value.Text(e.deviceName)), Expectation(LocalAsn, Whole(e.localAsn));
    InPlan(e, host);
    InPlan(e, asn);
    PlannedIsChecked(e, state, printable, host, "system.hostname");
    PlannedIsChecked(e, state, printable, asn, "routing.bgp.local_asn");
  }

  lemma ValidationPasses(e: ExpectedState, state: map<string, Value>, printable: char -> bool)
    requires Validation.Validate(e, state, printable).Ok?
    ensures var r := Validation.Validate(e, state, printable).value;
            && (r.passed <==> forall k :: 0 <= k < |r.checks| ==> r.checks[k].passed)
            && (forall j, k :: 0 <= j < k < |r.checks| ==> r.checks[j].name != r.checks[k].name)
            && |r.checks| == |ValidationPlan(e)|
  {
    hide ValidationPlan, Validation.CheckLeaf;
    MapAllIsPointwise(ValidationPlan(e), Validation.Checker(state, printable));
    var checks := Validation.Validate(e, state, printable).value.checks;
    forall c | c in checks && forall k :: 0 <= k < |checks| ==> checks[k].passed ensures c.passed {
    }
  }

  /**
   A validation checks the host name and the local ASN, three or five leaves of the loopback and of
   each routed interface, and two of each neighbour, and nothing else: their number is that many and
   no name comes twice. It passed if every check did.
   */
  lemma ValidationMakes(e: ExpectedState, state: map<string, Value>, printable: char -> bool)
    requires Validation.Validate(e, state, printable).Ok?
    ensures var r := Validation.Validate(e, state, printable).value;
            && Checked(r.checks, state, "system.hostname", Hostname, Value.Text(e.deviceName))
            && Checked(r.checks, state, "routing.bgp.local_asn", LocalAsn, Whole(e.localAsn))
            && InterfaceChecked(r.checks, state, Interface(e.loopbackName, e.loopbackPrefix, true))
            && (forall i :: i in e.routed ==> InterfaceChecked(r.checks, state, i))
            && (forall n :: n in e.neighbors ==> NeighborChecked(r.checks, state, n))
            && |r.checks| == 7 + CheckWeight(e.routed) + 2 * |e.neighbors|
            && (forall j, k :: 0 <= j < k < |r.checks| ==> r.checks[j].name != r.checks[k].name)
            && (r.passed <==> forall k :: 0 <= k < |r.checks| ==> r.checks[k].passed)
  {
    hide Validation.Validate, ValidationPlan, TextOf, Checked, InterfaceChecked, NeighborChecked, CheckWeight;
    PlanSizes(e);
    ValidationPasses(e, state, printable);
    DeviceIsChecked(e, state, printable);
    InterfaceIsChecked(e, state, printable, Interface(e.loopbackName, e.loopbackPrefix, true));
    forall i | i in e.routed
      ensures InterfaceChecked(Validation.Validate(e, state, printable).value.checks, state, i)
    {
      InterfaceIsChecked(e, state, printable, i);
    }
    forall n | n in e.neighbors
      ensures NeighborChecked(Validation.Validate(e, state, printable).value.checks, state, n)
    {
      NeighborIsChecked(e, state, printable, n);
    }
  }

  // ---------------------------------------------------------------- comparison

  /** What stands under a leaf's path; null where nothing does. */
  function Seen(state: map<string, Value>, leaf: Leaf): Value {
    if TextOf(leaf) in state then state[TextOf(leaf)] else Null
  }

  /** A configuration check with this key holds what was seen against what is expected. */
  predicate SettingCompared(
    checks: seq<ComparisonCheck>, key: string, category: Category, expected: Value, seen: Value) {
    ComparisonCheck(
      key, category, if seen == expected then StatusMatch else StatusMismatch, expected, seen,
      if seen == expected then "" else "configuration does not match intended state") in checks
  }

  predicate StateCompared(
    checks: seq<ComparisonCheck>, key: string, category: Category, expected: Value, seen: Value) {
    (if seen == Null then
       ComparisonCheck(key, category, StatusUnavailable, expected, seen, "operational state is unavailable")
     else if seen == expected then ComparisonCheck(key, category, StatusHealthy, expected, seen, "")
     else
       ComparisonCheck(key, category, StatusUnhealthy, expected, seen, "observed state is not operationally healthy"))
    in checks
  }

  predicate InterfaceCompared(
    settings: seq<ComparisonCheck>, states: seq<ComparisonCheck>, state: map<string, Value>, i: Interface) {
    var address := Seen(state, AddressStatus(i.name, i.prefix));
    && SettingCompared(settings, "interface." + i.name + ".admin_state", InterfaceAdminCategory,
         Value.Text("enable"), Seen(state, InterfaceAdmin(i.name)))
    && SettingCompared(settings, "subinterface." + i.name + ".0.admin_state", SubinterfaceAdminCategory,
         Value.Text("enable"), Seen(state, SubinterfaceAdmin(i.name)))
    && SettingCompared(settings, "address." + i.name + "." + i.prefix + ".presence", AddressPresence,
         Flag(true), Flag(address != Null))
    && StateCompared(states, "address." + i.name + "." + i.prefix + ".readiness", AddressReadiness,
         Value.Text("preferred"), address)
    && (i.requireUp ==>
          && StateCompared(states, "interface." + i.name + ".oper_state", InterfaceOperCategory,
               Value.Text("up"), Seen(state, InterfaceOper(i.name)))
          && StateCompared(states, "subinterface." + i.name + ".0.oper_state", SubinterfaceOperCategory,
               Value.Text("up"), Seen(state, SubinterfaceOper(i.name))))
  }

  predicate NeighborCompared(
    settings: seq<ComparisonCheck>, states: seq<ComparisonCheck>, state: map<string, Value>, n: Neighbor) {
    && SettingCompared(settings, "routing.bgp.neighbor." + n.address + ".peer_as", BgpPeerAs, Whole(n.remoteAsn),
         Seen(state, PeerAs(n.address)))
    && StateCompared(states, "routing.bgp.neighbor." + n.address + ".session_state", BgpSession,
         Value.Text("established"), Seen(state, SessionState(n.address)))
  }

  lemma ReadingIsSeen(leaf: Leaf, state: map<string, Value>)
    requires Addressable(leaf)
    ensures Reading(leaf, state) == Seen(state, leaf)
  {
    LeafPathIs(leaf);
    hide LeafPath, TextOf;
  }

  lemma ComparedIsAddressable(e: ExpectedState, state: map<string, Value>, at: string, x: Expectation)
    requires Compare(e, state, at).Ok?
    requires x in ConfigurationPlan(e) || x in OperationalPlan(e)
    ensures Addressable(x.leaf)
  {
    ValidationIsSettingsAndStates(e, x);
    PresenceMatchesReadiness(e, x);
    var y := if x in ValidationPlan(e) then x else Expectation(x.leaf, Value.Text("preferred"));
    ValidationIsSettingsAndStates(e, y);
    hide ValidationPlan, ConfigurationPlan, OperationalPlan, Assemble;
    assert LeafPath(y.leaf).Some?;
  }

  lemma SettingIsCompared(
    e: ExpectedState, state: map<string, Value>, at: string, x: Expectation, key: string, category: Category)
    requires Compare(e, state, at).Ok? && x in ConfigurationPlan(e) && !x.leaf.AddressStatus?
    requires key == CheckName(x.leaf) && category == CategoryOf(x.leaf, false)
    ensures SettingCompared(
              Compare(e, state, at).value.configuration.checks, key, category, x.expected, Seen(state, x.leaf))
  {
    Agreement.ComparedChecks(e, state, at);
    ComparedIsAddressable(e, state, at, x);
    ReadingIsSeen(x.leaf, state);
    hide Compare, ConfigurationPlan, OperationalPlan, CheckName, CategoryOf, Reading, Seen;
    hide ValidConfigurationResult, ValidOperationalResult;
    var i :| 0 <= i < |ConfigurationPlan(e)| && ConfigurationPlan(e)[i] == x;
    assert Compare(e, state, at).value.configuration.checks[i] in Compare(e, state, at).value.configuration.checks;
  }

  lemma PresenceIsCompared(e: ExpectedState, state: map<string, Value>, at: string, i: Interface)
    requires Compare(e, state, at).Ok?
    requires Expectation(AddressStatus(i.name, i.prefix), Flag(true)) in ConfigurationPlan(e)
    ensures SettingCompared(
              Compare(e, state, at).value.configuration.checks, "address." + i.name + "." + i.prefix + ".presence",
              AddressPresence, Flag(true), Flag(Seen(state, AddressStatus(i.name, i.prefix)) != Null))
  {
    var x := Expectation(AddressStatus(i.name, i.prefix), Flag(true));
    Agreement.ComparedChecks(e, state, at);
    ComparedIsAddressable(e, state, at, x);
    ReadingIsSeen(x.leaf, state);
    hide Compare, ConfigurationPlan, OperationalPlan, Reading, Seen, ValidConfigurationResult, ValidOperationalResult;
    var k :| 0 <= k < |ConfigurationPlan(e)| && ConfigurationPlan(e)[k] == x;
    assert Compare(e, state, at).value.configuration.checks[k] in Compare(e, state, at).value.configuration.checks;
  }

  lemma StateHolds(x: Expectation, state: map<string, Value>, checks: seq<ComparisonCheck>)
    requires Addressable(x.leaf) && OperationalCheckOf(x, state) in checks
    ensures StateCompared(checks, OperationalKey(x), CategoryOf(x.leaf, true), x.expected, Seen(state, x.leaf))
  {
    ReadingIsSeen(x.leaf, state);
    hide OperationalKey, CategoryOf, Reading, Seen;
  }

  lemma StateIsCompared(
    e: ExpectedState, state: map<string, Value>, at: string, x: Expectation, key: string, category: Category)
    requires Compare(e, state, at).Ok? && x in OperationalPlan(e)
    requires key == OperationalKey(x) && category == CategoryOf(x.leaf, true)
    ensures StateCompared(
              Compare(e, state, at).value.operational.checks, key, category, x.expected, Seen(state, x.leaf))
  {
    hide Compare, ConfigurationPlan, OperationalPlan, OperationalKey, CategoryOf, Seen, OperationalCheckOf;
    hide ConfigurationCheckOf, StateCompared, ValidConfigurationResult, ValidOperationalResult;
    Agreement.ComparedChecks(e, state, at);
    ComparedIsAddressable(e, state, at, x);
    var i :| 0 <= i < |OperationalPlan(e)| && OperationalPlan(e)[i] == x;
    assert Compare(e, state, at).value.operational.checks[i] in Compare(e, state, at).value.operational.checks;
    StateHolds(x, state, Compare(e, state, at).value.operational.checks);
  }

  lemma InterfaceSettings(e: ExpectedState, i: Interface, x: Expectation)
    requires i == Interface(e.loopbackName, e.loopbackPrefix, true) || i in e.routed
    ensures x in InterfaceConfiguration(i) ==> x in ConfigurationPlan(e)
    ensures x in InterfaceOperation(i) ==> x in OperationalPlan(e)
  {
    hide InterfaceConfiguration, InterfaceOperation, ConfigurationPlan, OperationalPlan;
    InterfacePlanned(e, i);
    InConfiguration(e, x);
    InOperation(e, x);
  }

  lemma ComparedEntries(i: Interface)
    ensures Expectation(InterfaceAdmin(i.name), Value.Text("enable")) in InterfaceConfiguration(i)
    ensures Expectation(SubinterfaceAdmin(i.name), Value.Text("enable")) in InterfaceConfiguration(i)
    ensures Expectation(AddressStatus(i.name, i.prefix), Flag(true)) in InterfaceConfiguration(i)
    ensures Expectation(AddressStatus(i.name, i.prefix), Value.Text("preferred")) in InterfaceOperation(i)
    ensures i.requireUp ==>
              && Expectation(InterfaceOper(i.name), Value.Text("up")) in InterfaceOperation(i)
              && Expectation(SubinterfaceOper(i.name), Value.Text("up")) in InterfaceOperation(i)
  {
  }

  lemma OperationalNames(i: Interface)
    ensures OperationalKey(Expectation(AddressStatus(i.name, i.prefix), Value.Text("preferred"))) ==
            "address." + i.name + "." + i.prefix + ".readiness"
    ensures OperationalKey(Expectation(InterfaceOper(i.name), Value.Text("up"))) ==
            "interface." + i.name + ".oper_state"
    ensures OperationalKey(Expectation(SubinterfaceOper(i.name), Value.Text("up"))) ==
            "subinterface." + i.name + ".0.oper_state"
  {
  }

  lemma InterfaceIsCompared(e: ExpectedState, state: map<string, Value>, at: string, i: Interface)
    requires Compare(e, state, at).Ok?
    requires i == Interface(e.loopbackName, e.loopbackPrefix, true) || i in e.routed
    ensures var c := Compare(e, state, at).value;
            InterfaceCompared(c.configuration.checks, c.operational.checks, state, i)
  {
    hide Compare, ConfigurationPlan, OperationalPlan, InterfaceConfiguration, InterfaceOperation, OperationalKey;
    hide CheckName, SettingCompared, StateCompared, Seen, ValidConfigurationResult, ValidOperationalResult;
    ComparedEntries(i);
    OperationalNames(i);
    InterfaceNames(i.name, i.prefix);
    var admin := Expectation(InterfaceAdmin(i.name), Value.Text("enable"));
    var subAdmin := Expectation(SubinterfaceAdmin(i.name), Value.Text("enable"));
    var presence := Expectation(AddressStatus(i.name, i.prefix), Flag(true));
    var readiness := Expectation(AddressStatus(i.name, i.prefix), Value.Text("preferred"));
    InterfaceSettings(e, i, admin);
    InterfaceSettings(e, i, subAdmin);
    InterfaceSettings(e, i, presence);
    InterfaceSettings(e, i, readiness);
    SettingIsCompared(e, state, at, admin, CheckName(admin.leaf), InterfaceAdminCategory);
    SettingIsCompared(e, state, at, subAdmin, CheckName(subAdmin.leaf), SubinterfaceAdminCategory);
    PresenceIsCompared(e, state, at, i);
    StateIsCompared(e, state, at, readiness, OperationalKey(readiness), AddressReadiness);
    if i.requireUp {
      var oper, subOper := Expectation(InterfaceOper(i.name), Value.Text("up")),
        Expectation(SubinterfaceOper(i.name), Value.Text("up"));
      InterfaceSettings(e, i, oper);
      InterfaceSettings(e, i, subOper);
      StateIsCompared(e, state, at, oper, OperationalKey(oper), InterfaceOperCategory);
      StateIsCompared(e, state, at, subOper, OperationalKey(subOper), SubinterfaceOperCategory);
    }
  }

  lemma NeighborComparedEntries(n: Neighbor)
    ensures Expectation(PeerAs(n.address), Whole(n.remoteAsn)) in NeighborConfiguration(n)
    ensures Expectation(SessionState(n.address), Value.Text("established")) in NeighborOperation(n)
    ensures OperationalKey(Expectation(SessionState(n.address), Value.Text("established"))) ==
            CheckName(SessionState(n.address))
  {
    hide CheckName;
  }

  lemma NeighborSettings(e: ExpectedState, n: Neighbor, x: Expectation)
    requires n in e.neighbors
    ensures x in NeighborConfiguration(n) ==> x in ConfigurationPlan(e)
    ensures x in NeighborOperation(n) ==> x in OperationalPlan(e)
  {
    hide NeighborConfiguration, NeighborOperation, ConfigurationPlan, OperationalPlan;
    var k :| 0 <= k < |e.neighbors| && e.neighbors[k] == n;
    InConfiguration(e, x);
    InOperation(e, x);
  }

  lemma NeighborIsCompared(e: ExpectedState, state: map<string, Value>, at: string, n: Neighbor)
    requires Compare(e, state, at).Ok? && n in e.neighbors
    ensures var c := Compare(e, state, at).value;
            NeighborCompared(c.configuration.checks, c.operational.checks, state, n)
  {
    hide Compare, ConfigurationPlan, OperationalPlan, NeighborConfiguration, NeighborOperation, OperationalKey;
    hide CheckName, SettingCompared, StateCompared, Seen, ValidConfigurationResult, ValidOperationalResult;
    var peer := Expectation(PeerAs(n.address), Whole(n.remoteAsn));
    var session := Expectation(SessionState(n.address), Value.Text("established"));
    NeighborEntries(n);
    NeighborComparedEntries(n);
    NeighborSettings(e, n, peer);
    NeighborSettings(e, n, session);
    SettingIsCompared(e, state, at, peer, CheckName(peer.leaf), BgpPeerAs);
    StateIsCompared(e, state, at, session, OperationalKey(session), BgpSession);
  }

  /**
   A comparison holds the host name, the local ASN, each interface's and each neighbour's settings and
   states against what was read, under these keys and categories; the two lists have one check for
   each of validation's and one more for each interface, and no key comes twice in either.
   */
  lemma ComparisonMakes(e: ExpectedState, state: map<string, Value>, at: string)
    requires Compare(e, state, at).Ok?
    ensures var c := Compare(e, state, at).value;
            var settings, states := c.configuration.checks, c.operational.checks;
            && c.deviceName == c.configuration.deviceName == c.operational.deviceName == e.deviceName
            && c.observedAt == c.configuration.observedAt == c.operational.observedAt == at
            && SettingCompared(settings, "system.hostname", HostnameCategory, Value.Text(e.deviceName),
                 Seen(state, Hostname))
            && SettingCompared(settings, "routing.bgp.local_asn", BgpLocalAsn, Whole(e.localAsn),
                 Seen(state, LocalAsn))
            && InterfaceCompared(settings, states, state, Interface(e.loopbackName, e.loopbackPrefix, true))
            && (forall i :: i in e.routed ==> InterfaceCompared(settings, states, state, i))
            && (forall n :: n in e.neighbors ==> NeighborCompared(settings, states, state, n))
            && |settings| + |states| == 8 + CheckWeight(e.routed) + |e.routed| + 2 * |e.neighbors|
            && UniqueKeys(settings) && UniqueKeys(states)
  {
    PlanSizes(e);
    Agreement.ComparedChecks(e, state, at);
    ComparisonNames(e, state, at);
    DeviceIsCompared(e, state, at);
    hide Compare, ConfigurationPlan, OperationalPlan, ValidationPlan, SettingCompared, InterfaceCompared;
    hide NeighborCompared, Seen, CheckWeight, UniqueKeys, ConfigurationCheckOf, OperationalCheckOf;
    InterfaceIsCompared(e, state, at, Interface(e.loopbackName, e.loopbackPrefix, true));
    var c := Compare(e, state, at).value;
    forall i | i in e.routed ensures InterfaceCompared(c.configuration.checks, c.operational.checks, state, i) {
      InterfaceIsCompared(e, state, at, i);
    }
    forall n | n in e.neighbors ensures NeighborCompared(c.configuration.checks, c.operational.checks, state, n) {
      NeighborIsCompared(e, state, at, n);
    }
  }

  lemma ComparisonNames(e: ExpectedState, state: map<string, Value>, at: string)
    requires Compare(e, state, at).Ok?
    ensures var c := Compare(e, state, at).value;
            && c.deviceName == c.configuration.deviceName == c.operational.deviceName == e.deviceName
            && c.observedAt == c.configuration.observedAt == c.operational.observedAt == at
  {
    hide ValidationPlan, ConfigurationPlan, OperationalPlan, LeafPath, Reading, Map, AllowedValue;
    hide ValidConfigurationResult, ValidOperationalResult;
  }

  lemma DeviceIsCompared(e: ExpectedState, state: map<string, Value>, at: string)
    requires Compare(e, state, at).Ok?
    ensures var settings := Compare(e, state, at).value.configuration.checks;
            && SettingCompared(settings, "system.hostname", HostnameCategory, Value.Text(e.deviceName),
                 Seen(state, Hostname))
            && SettingCompared(settings, "routing.bgp.local_asn", BgpLocalAsn, Whole(e.localAsn),
                 Seen(state, LocalAsn))
  {
    hide Compare, ConfigurationPlan, SettingCompared, Seen;
    var host, asn := Expectation(Hostname, Value.Text(e.deviceName)), Expectation(LocalAsn, Whole(e.localAsn));
    InConfiguration(e, host);
    InConfiguration(e, asn);
    SettingIsCompared(e, state, at, host, "system.hostname", HostnameCategory);
    SettingIsCompared(e, state, at, asn, "routing.bgp.local_asn", BgpLocalAsn);
  }
}
