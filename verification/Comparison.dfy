/** Comparing one expected state with one normalised observation of the device. */
module Comparison {
  import opened Outcomes
  import opened Leaves
  import opened Plans
  import opened GetResponse
  import opened ExpectedStates
  import opened CheckKeys
  import opened Comparisons

  datatype Failure = BadPath | InvalidObservation

  const CONFIGURATION_MISMATCH := "configuration does not match intended state"
  const OPERATIONAL_UNHEALTHY := "observed state is not operationally healthy"
  const OPERATIONAL_UNAVAILABLE := "operational state is unavailable"

  /** What an observation says about a leaf; absent leaves read as null. */
  function Reading(leaf: Leaf, state: map<string, Value>): Value {
    if LeafPath(leaf).Some? && LeafPath(leaf).value in state then state[LeafPath(leaf).value] else Null
  }

  predicate IntegerLeaf(leaf: Leaf) {
    leaf.LocalAsn? || leaf.PeerAs?
  }

  /** A leaf is absent, or holds a value of its own type. */
  predicate AllowedValue(integer: bool, v: Value) {
    v == Null || if integer then v.Whole? else v.Text? && BoundedText(v.text, 128)
  }

  function CategoryOf(leaf: Leaf, operational: bool): Category {
    match leaf
    case Hostname => HostnameCategory
    case InterfaceAdmin(_) => InterfaceAdminCategory
    case InterfaceOper(_) => InterfaceOperCategory
    case SubinterfaceAdmin(_) => SubinterfaceAdminCategory
    case SubinterfaceOper(_) => SubinterfaceOperCategory
    case AddressStatus(_, _) => if operational then AddressReadiness else AddressPresence
    case LocalAsn => BgpLocalAsn
    case PeerAs(_) => BgpPeerAs
    case SessionState(_) => BgpSession
  }

  /** What a configuration check compares: an address only has to be there. */
  function ConfigurationReading(x: Expectation, state: map<string, Value>): Value {
    if x.leaf.AddressStatus? then Flag(Reading(x.leaf, state) != Null) else Reading(x.leaf, state)
  }

  function ConfigurationCheckOf(x: Expectation, state: map<string, Value>): ComparisonCheck {
    var observed := ConfigurationReading(x, state);
    ComparisonCheck(
      ConfigurationKey(x), CategoryOf(x.leaf, false),
      if observed == x.expected then StatusMatch else StatusMismatch,
      x.expected, observed,
      if observed == x.expected then "" else CONFIGURATION_MISMATCH)
  }

  function OperationalCheckOf(x: Expectation, state: map<string, Value>): ComparisonCheck {
    var observed := Reading(x.leaf, state);
    var status := if observed == Null then StatusUnavailable
                  else if observed == x.expected then StatusHealthy else StatusUnhealthy;
    ComparisonCheck(
      OperationalKey(x), CategoryOf(x.leaf, true), status, x.expected, observed,
      match status
      case StatusUnavailable => OPERATIONAL_UNAVAILABLE
      case StatusHealthy => ""
      case _ => OPERATIONAL_UNHEALTHY)
  }

  function Configured(state: map<string, Value>): Expectation -> ComparisonCheck {
    x => ConfigurationCheckOf(x, state)
  }

  function Operated(state: map<string, Value>): Expectation -> ComparisonCheck {
    x => OperationalCheckOf(x, state)
  }

  function ConfigurationOf(name: string, checks: seq<ComparisonCheck>, at: string): ConfigurationResult {
    var matches := CountStatus(checks, StatusMatch);
    ConfigurationResult(name, if |checks| - matches == 0 then InSync else Drifted, checks, matches,
        |checks| - matches, at)
  }

  function OperationOf(name: string, checks: seq<ComparisonCheck>, at: string): OperationalResult {
    OperationalResult(
      name, ServerHealth(checks), checks, CountStatus(checks, StatusHealthy), CountStatus(checks, StatusUnhealthy),
      CountStatus(checks, StatusUnavailable), at)
  }

  /** Both results, or a failure when either does not pass the model's validators. */
  function Assemble(e: ExpectedState, state: map<string, Value>, at: string): Result<DeviceComparison, Failure> {
    var configuration := ConfigurationOf(e.deviceName, Map(ConfigurationPlan(e), Configured(state)), at);
    var operational := OperationOf(e.deviceName, Map(OperationalPlan(e), Operated(state)), at);
    if ValidConfigurationResult(configuration) && ValidOperationalResult(operational)
    then Ok(DeviceComparison(e.deviceName, configuration, operational, at))
    else Err(InvalidObservation)
  }

  /** All paths are built first, then all values checked, then both results assembled. */
  function Compare(e: ExpectedState, state: map<string, Value>, at: string): Result<DeviceComparison, Failure> {
    if exists x :: x in ValidationPlan(e) && LeafPath(x.leaf).None? then Err(BadPath)
    else if exists x :: x in ValidationPlan(e) && !AllowedValue(IntegerLeaf(x.leaf), Reading(x.leaf, state))
    then Err(InvalidObservation)
    else Assemble(e, state, at)
  }

  // ---------------------------------------------------------------- the loops

  function InterfaceTexts(i: Interface): seq<Leaf> {
    [InterfaceAdmin(i.name), SubinterfaceAdmin(i.name)]
    + (if i.requireUp then [InterfaceOper(i.name), SubinterfaceOper(i.name)] else [])
    + [AddressStatus(i.name, i.prefix)]
  }

  function NeighborTexts(n: Neighbor): seq<Leaf> {
    [SessionState(n.address)]
  }

  function NeighborIntegers(n: Neighbor): seq<Leaf> {
    [PeerAs(n.address)]
  }

  function TextLeaves(e: ExpectedState): seq<Leaf> {
    [Hostname] + FlatMap(e.Interfaces(), InterfaceTexts) + FlatMap(e.neighbors, NeighborTexts)
  }

  function IntegerLeaves(e: ExpectedState): seq<Leaf> {
    [LocalAsn] + FlatMap(e.neighbors, NeighborIntegers)
  }

  lemma PlannedIsRead(e: ExpectedState, x: Expectation)
    requires x in ValidationPlan(e)
    ensures x.leaf in if IntegerLeaf(x.leaf) then IntegerLeaves(e) else TextLeaves(e)
  {
    hide LeafPath, FlatMap;
    InPlan(e, x);
    FlatMapMember(e.Interfaces(), InterfaceTexts, x.leaf);
    FlatMapMember(e.neighbors, NeighborTexts, x.leaf);
    FlatMapMember(e.neighbors, NeighborIntegers, x.leaf);
    if k :| 0 <= k < |e.neighbors| && x in NeighborPlan(e.neighbors[k]) {
      NeighborIsRead(e.neighbors[k], x);
    } else if k :| 0 <= k < |e.Interfaces()| && x in InterfacePlan(e.Interfaces()[k]) {
      InterfaceIsRead(e.Interfaces()[k], x);
    }
  }

  lemma NeighborIsRead(n: Neighbor, x: Expectation)
    requires x in NeighborPlan(n)
    ensures x.leaf in if IntegerLeaf(x.leaf) then NeighborIntegers(n) else NeighborTexts(n)
  {
  }

  lemma InterfaceIsRead(i: Interface, x: Expectation)
    requires x in InterfacePlan(i)
    ensures x.leaf in InterfaceTexts(i) && !IntegerLeaf(x.leaf)
  {
  }

  lemma TextsArePlanned(i: Interface, leaf: Leaf) returns (x: Expectation)
    requires leaf in InterfaceTexts(i)
    ensures x in InterfacePlan(i) && x.leaf == leaf && !IntegerLeaf(leaf)
  {
    x := Expectation(leaf, Text(if leaf.AddressStatus? then "preferred"
                                else if leaf.InterfaceAdmin? || leaf.SubinterfaceAdmin? then "enable" else "up"));
  }

  lemma PlannedLeaf(e: ExpectedState, leaf: Leaf) returns (x: Expectation)
    requires leaf in TextLeaves(e) || leaf in IntegerLeaves(e)
    ensures x in ValidationPlan(e) && x.leaf == leaf
    ensures leaf in TextLeaves(e) ==> !IntegerLeaf(leaf)
    ensures leaf in IntegerLeaves(e) ==> IntegerLeaf(leaf)
  {
    hide ValidationPlan, InterfaceTexts, InterfacePlan, LeafPath;
    FlatMapMember(e.Interfaces(), InterfaceTexts, leaf);
    FlatMapMember(e.neighbors, NeighborTexts, leaf);
    FlatMapMember(e.neighbors, NeighborIntegers, leaf);
    if k :| 0 <= k < |e.Interfaces()| && leaf in InterfaceTexts(e.Interfaces()[k]) {
      x := TextsArePlanned(e.Interfaces()[k], leaf);
    } else if k :| 0 <= k < |e.neighbors| && leaf in NeighborTexts(e.neighbors[k]) {
      x := Expectation(leaf, Text("established"));
      assert x in NeighborPlan(e.neighbors[k]);
    } else if k :| 0 <= k < |e.neighbors| && leaf in NeighborIntegers(e.neighbors[k]) {
      x := Expectation(leaf, Whole(e.neighbors[k].remoteAsn));
      assert x in NeighborPlan(e.neighbors[k]);
    } else {
      x := Expectation(leaf, if leaf == Hostname then Text(e.deviceName) else Whole(e.localAsn));
    }
    InPlan(e, x);
  }

  /** What phase two of the comparison guarantees about a list of leaves. */
  ghost predicate Recorded(leaves: seq<Leaf>, validated: map<string, Value>, state: map<string, Value>) {
    forall leaf :: leaf in leaves ==>
      LeafPath(leaf).Some? && LeafPath(leaf).value in validated && Reading(leaf, validated) == Reading(leaf, state)
  }

  /** Build the paths of some leaves; None when a key is rejected. */
  method BuildPaths(leaves: seq<Leaf>) returns (r: Option<seq<string>>)
    ensures r.Some? <==> forall leaf :: leaf in leaves ==> LeafPath(leaf).Some?
    ensures r.Some? ==> |r.value| == |leaves| && forall i :: 0 <= i < |leaves| ==>
            LeafPath(leaves[i]) == Some(r.value[i])
  {
    hide LeafPath;
    var paths: seq<string> := [];
    for i := 0 to |leaves|
      invariant |paths| == i && forall k :: 0 <= k < i ==> LeafPath(leaves[k]) == Some(paths[k])
    {
      var path := LeafPath(leaves[i]);
      if path.None? {
        assert leaves[i] in leaves;
        return None;
      }
      paths := paths + [path.value];
    }
    return Some(paths);
  }

  /** Look every path up, refusing a value of the wrong type. */
  method ValidateLeaves(leaves: seq<Leaf>, paths: seq<string>, integer: bool, state: map<string, Value>,
                        before: map<string, Value>)
    returns (r: Option<map<string, Value>>)
    requires |paths| == |leaves| && forall i :: 0 <= i < |leaves| ==> LeafPath(leaves[i]) == Some(paths[i])
    requires forall p :: p in before ==> before[p] == if p in state then state[p] else Null
    ensures r.Some? <==> forall leaf :: leaf in leaves ==> AllowedValue(integer, Reading(leaf, state))
    ensures r.Some? ==> Recorded(leaves, r.value, state) && before.Keys <= r.value.Keys
    ensures r.Some? ==> forall p :: p in r.value ==> r.value[p] == if p in state then state[p] else Null
  {
    hide LeafPath;
    var validated := before;
    for i := 0 to |paths|
      invariant before.Keys <= validated.Keys
      invariant forall p :: p in validated ==> validated[p] == if p in state then state[p] else Null
      invariant forall k :: 0 <= k < i ==> paths[k] in validated && AllowedValue(integer, Reading(leaves[k], state))
    {
      var value := if paths[i] in state then state[paths[i]] else Null;
      if !AllowedValue(integer, value) {
        assert leaves[i] in leaves && Reading(leaves[i], state) == value;
        return None;
      }
      validated := validated[paths[i] := value];
    }
    return Some(validated);
  }

  /** When the first two phases fail, in terms of the leaves actually visited. */
  lemma PhasesFail(e: ExpectedState, state: map<string, Value>)
    ensures (exists x :: x in ValidationPlan(e) && LeafPath(x.leaf).None?) <==>
              exists leaf :: leaf in TextLeaves(e) + IntegerLeaves(e) && LeafPath(leaf).None?
    ensures (exists x :: x in ValidationPlan(e) && !AllowedValue(IntegerLeaf(x.leaf), Reading(x.leaf, state))) <==>
              || (exists leaf :: leaf in TextLeaves(e) && !AllowedValue(false, Reading(leaf, state)))
              || (exists leaf :: leaf in IntegerLeaves(e) && !AllowedValue(true, Reading(leaf, state)))
  {
    hide LeafPath, TextLeaves, IntegerLeaves, ValidationPlan;
    forall x | x in ValidationPlan(e)
      ensures x.leaf in if IntegerLeaf(x.leaf) then IntegerLeaves(e) else TextLeaves(e)
    {
      PlannedIsRead(e, x);
    }
    forall leaf | leaf in TextLeaves(e) || leaf in IntegerLeaves(e)
      ensures exists x :: x in ValidationPlan(e) && x.leaf == leaf
      ensures leaf in TextLeaves(e) ==> !IntegerLeaf(leaf)
      ensures leaf in IntegerLeaves(e) ==> IntegerLeaf(leaf)
    {
      var x := PlannedLeaf(e, leaf);
    }
  }

  lemma RecordedStays(leaves: seq<Leaf>, one: map<string, Value>, two: map<string, Value>, state: map<string, Value>)
    requires Recorded(leaves, one, state) && one.Keys <= two.Keys
    requires forall p :: p in two ==> two[p] == if p in state then state[p] else Null
    ensures Recorded(leaves, two, state)
  {
    hide LeafPath;
  }

  /** What was recorded reads the same as the observation, for every planned leaf. */
  lemma RecordedPlan(e: ExpectedState, validated: map<string, Value>, state: map<string, Value>)
    requires Recorded(TextLeaves(e), validated, state) && Recorded(IntegerLeaves(e), validated, state)
    ensures forall x :: x in ConfigurationPlan(e) || x in OperationalPlan(e) ==>
              Reading(x.leaf, validated) == Reading(x.leaf, state)
  {
    hide LeafPath, TextLeaves, IntegerLeaves, ValidationPlan, ConfigurationPlan, OperationalPlan;
    forall x | x in ConfigurationPlan(e) || x in OperationalPlan(e)
      ensures Reading(x.leaf, validated) == Reading(x.leaf, state)
    {
      ValidationIsSettingsAndStates(e, x);
      PresenceMatchesReadiness(e, x);
      var y := if x in ValidationPlan(e) then x else Expectation(x.leaf, Text("preferred"));
      ValidationIsSettingsAndStates(e, y);
      PlannedIsRead(e, y);
    }
  }

  /** The checks of every interface, appended to those so far. */
  method InterfaceChecks(interfaces: seq<Interface>, validated: map<string, Value>, settingsSoFar: seq<ComparisonCheck>)
    returns (configuration: seq<ComparisonCheck>, operational: seq<ComparisonCheck>)
    ensures configuration == settingsSoFar + Map(FlatMap(interfaces, InterfaceConfiguration), Configured(validated))
    ensures operational == Map(FlatMap(interfaces, InterfaceOperation), Operated(validated))
  {
    hide Configured, Operated, InterfaceConfiguration, InterfaceOperation;
    configuration, operational := settingsSoFar, [];
    for k := 0 to |interfaces|
      invariant configuration ==
                settingsSoFar + Map(FlatMap(interfaces[..k], InterfaceConfiguration), Configured(validated))
      invariant operational == [] + Map(FlatMap(interfaces[..k], InterfaceOperation), Operated(validated))
    {
      var settings, states := InterfaceConfiguration(interfaces[k]), InterfaceOperation(interfaces[k]);
      MappedGrows(interfaces, k, InterfaceConfiguration, Configured(validated), settingsSoFar);
      MappedGrows(interfaces, k, InterfaceOperation, Operated(validated), []);
      configuration := configuration + Map(settings, Configured(validated));
      operational := operational + Map(states, Operated(validated));
    }
    assert interfaces[..|interfaces|] == interfaces;
  }

  /** The checks of every neighbour, appended to those so far. */
  method NeighborChecks(neighbors: seq<Neighbor>, validated: map<string, Value>,
                        settingsSoFar: seq<ComparisonCheck>, statesSoFar: seq<ComparisonCheck>)
    returns (configuration: seq<ComparisonCheck>, operational: seq<ComparisonCheck>)
    ensures configuration == settingsSoFar + Map(FlatMap(neighbors, NeighborConfiguration), Configured(validated))
    ensures operational == statesSoFar + Map(FlatMap(neighbors, NeighborOperation), Operated(validated))
  {
    hide Configured, Operated, NeighborConfiguration, NeighborOperation;
    configuration, operational := settingsSoFar, statesSoFar;
    for k := 0 to |neighbors|
      invariant configuration ==
                settingsSoFar + Map(FlatMap(neighbors[..k], NeighborConfiguration), Configured(validated))
      invariant operational == statesSoFar + Map(FlatMap(neighbors[..k], NeighborOperation), Operated(validated))
    {
      var settings, states := NeighborConfiguration(neighbors[k]), NeighborOperation(neighbors[k]);
      MappedGrows(neighbors, k, NeighborConfiguration, Configured(validated), settingsSoFar);
      MappedGrows(neighbors, k, NeighborOperation, Operated(validated), statesSoFar);
      configuration := configuration + Map(settings, Configured(validated));
      operational := operational + Map(states, Operated(validated));
    }
    assert neighbors[..|neighbors|] == neighbors;
  }

  method BuildResults(e: ExpectedState, validated: map<string, Value>, ghost state: map<string, Value>, at: string)
    returns (r: Result<DeviceComparison, Failure>)
    requires Recorded(TextLeaves(e), validated, state) && Recorded(IntegerLeaves(e), validated, state)
    ensures r == Assemble(e, state, at)
  {
    hide ConfigurationCheckOf, OperationalCheckOf, Recorded, ValidConfigurationResult, ValidOperationalResult;
    var host, asn := Expectation(Hostname, Text(e.deviceName)), Expectation(LocalAsn, Whole(e.localAsn));
    var configuration, operational := InterfaceChecks(e.Interfaces(), validated, [ConfigurationCheckOf(host,
        validated)]);
    configuration := configuration + [ConfigurationCheckOf(asn, validated)];
    configuration, operational := NeighborChecks(e.neighbors, validated, configuration, operational);
    PlansConcat(e, validated);
    RecordedPlan(e, validated, state);
    SameReadingsSameChecks(ConfigurationPlan(e), validated, state);
    SameReadingsSameChecks(OperationalPlan(e), validated, state);
    var drift := ConfigurationOf(e.deviceName, configuration, at);
    var health := OperationOf(e.deviceName, operational, at);
    r := if ValidConfigurationResult(drift) && ValidOperationalResult(health)
         then Ok(DeviceComparison(e.deviceName, drift, health, at))
         else Err(InvalidObservation);
  }

  lemma PlansConcat(e: ExpectedState, state: map<string, Value>)
    ensures
      Map(ConfigurationPlan(e), Configured(state)) ==
        [ConfigurationCheckOf(Expectation(Hostname, Text(e.deviceName)), state)]
        + Map(FlatMap(e.Interfaces(), InterfaceConfiguration), Configured(state))
        + [ConfigurationCheckOf(Expectation(LocalAsn, Whole(e.localAsn)), state)]
        + Map(FlatMap(e.neighbors, NeighborConfiguration), Configured(state))
    ensures
      Map(OperationalPlan(e), Operated(state)) ==
        Map(FlatMap(e.Interfaces(), InterfaceOperation), Operated(state))
        + Map(FlatMap(e.neighbors, NeighborOperation), Operated(state))
  {
    hide ConfigurationCheckOf, OperationalCheckOf;
    var host, asn := Expectation(Hostname, Text(e.deviceName)), Expectation(LocalAsn, Whole(e.localAsn));
    var a := FlatMap(e.Interfaces(), InterfaceConfiguration);
    MapConcat([host], a, Configured(state));
    MapConcat([host] + a, [asn], Configured(state));
    MapConcat([host] + a + [asn], FlatMap(e.neighbors, NeighborConfiguration), Configured(state));
    MapConcat(FlatMap(e.Interfaces(), InterfaceOperation), FlatMap(e.neighbors, NeighborOperation), Operated(state));
  }

  lemma SameReadingSameChecks(x: Expectation, one: map<string, Value>, two: map<string, Value>)
    requires Reading(x.leaf, one) == Reading(x.leaf, two)
    ensures Configured(one)(x) == Configured(two)(x) && Operated(one)(x) == Operated(two)(x)
  {
    hide LeafPath, ConfigurationKey, OperationalKey, Reading;
  }

  lemma {:induction false} SameReadingsSameChecks(
    plan: seq<Expectation>, one: map<string, Value>, two: map<string, Value>)
    requires forall x :: x in plan ==> Reading(x.leaf, one) == Reading(x.leaf, two)
    ensures Map(plan, Configured(one)) == Map(plan, Configured(two))
    ensures Map(plan, Operated(one)) == Map(plan, Operated(two))
  {
    hide Reading, Configured, Operated;
    if plan != [] {
      assert plan[0] in plan;
      SameReadingSameChecks(plan[0], one, two);
      SameReadingsSameChecks(plan[1..], one, two);
    }
  }

  /** The leaves to look up, text and integer apart, in the order they are read. */
  method CollectLeaves(e: ExpectedState) returns (texts: seq<Leaf>, integers: seq<Leaf>)
    ensures texts == TextLeaves(e) && integers == IntegerLeaves(e)
  {
    hide InterfaceTexts;
    var interfaces := e.Interfaces();
    texts, integers := [Hostname], [LocalAsn];
    for k := 0 to |interfaces|
      invariant texts == [Hostname] + FlatMap(interfaces[..k], InterfaceTexts)
    {
      FlatMapGrows(interfaces, k, InterfaceTexts);
      texts := texts + InterfaceTexts(interfaces[k]);
    }
    assert interfaces[..|interfaces|] == interfaces;
    texts, integers := CollectNeighborLeaves(e, texts, integers);
  }

  method CollectNeighborLeaves(e: ExpectedState, textsSoFar: seq<Leaf>, integersSoFar: seq<Leaf>)
    returns (texts: seq<Leaf>, integers: seq<Leaf>)
    ensures texts == textsSoFar + FlatMap(e.neighbors, NeighborTexts)
    ensures integers == integersSoFar + FlatMap(e.neighbors, NeighborIntegers)
  {
    texts, integers := textsSoFar, integersSoFar;
    for k := 0 to |e.neighbors|
      invariant texts == textsSoFar + FlatMap(e.neighbors[..k], NeighborTexts)
      invariant integers == integersSoFar + FlatMap(e.neighbors[..k], NeighborIntegers)
    {
      FlatMapGrows(e.neighbors, k, NeighborTexts);
      FlatMapGrows(e.neighbors, k, NeighborIntegers);
      integers := integers + [PeerAs(e.neighbors[k].address)];
      texts := texts + [SessionState(e.neighbors[k].address)];
    }
    assert e.neighbors[..|e.neighbors|] == e.neighbors;
  }

  method CompareDeviceState(e: ExpectedState, state: map<string, Value>, at: string)
    returns (r: Result<DeviceComparison, Failure>)
    ensures r == Compare(e, state, at)
  {
    hide LeafPath, TextLeaves, IntegerLeaves, ValidationPlan, Assemble;
    var texts, integers := CollectLeaves(e);
    PhasesFail(e, state);
    var textPaths := BuildPaths(texts);
    var integerPaths := BuildPaths(integers);
    if textPaths.None? || integerPaths.None? {
      return Err(BadPath);
    }
    var validated := ValidateLeaves(texts, textPaths.value, false, state, map[]);
    if validated.None? {
      return Err(InvalidObservation);
    }
    ghost var first := validated.value;
    validated := ValidateLeaves(integers, integerPaths.value, true, state, validated.value);
    if validated.None? {
      return Err(InvalidObservation);
    }
    RecordedStays(texts, first, validated.value, state);
    r := BuildResults(e, validated.value, state, at);
  }
}
