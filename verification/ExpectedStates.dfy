/**
 What a device should look like, and the three lists of leaves derived from it: the
 validation plan, and the configuration and operational plans of the comparison.
 */
module ExpectedStates {
  import opened Outcomes
  import opened Text
  import opened Leaves
  import opened Plans
  import opened GetResponse

  datatype Interface = Interface(name: string, prefix: string, requireUp: bool)

  datatype Neighbor = Neighbor(address: string, remoteAsn: int)

  datatype ExpectedState = ExpectedState(
    deviceName: string,
    loopbackName: string,
    loopbackPrefix: string,
    routed: seq<Interface>,
    localAsn: int,
    neighbors: seq<Neighbor>
  ) {
    /** The loopback, which must be up, and then the routed interfaces. */
    function Interfaces(): seq<Interface> {
      [Interface(loopbackName, loopbackPrefix, true)] + routed
    }
  }

  datatype Expectation = Expectation(leaf: Leaf, expected: Value)

  function InterfacePlan(i: Interface): seq<Expectation> {
    [Expectation(InterfaceAdmin(i.name), Text("enable"))]
    + (if i.requireUp then [Expectation(InterfaceOper(i.name), Text("up"))] else [])
    + [Expectation(SubinterfaceAdmin(i.name), Text("enable"))]
    + (if i.requireUp then [Expectation(SubinterfaceOper(i.name), Text("up"))] else [])
    + [Expectation(AddressStatus(i.name, i.prefix), Text("preferred"))]
  }

  function NeighborPlan(n: Neighbor): seq<Expectation> {
    [Expectation(PeerAs(n.address), Whole(n.remoteAsn)), Expectation(SessionState(n.address), Text("established"))]
  }

  /** Every leaf validation reads and the value it wants there. */
  function ValidationPlan(e: ExpectedState): seq<Expectation> {
    [Expectation(Hostname, Text(e.deviceName))]
    + FlatMap(e.Interfaces(), InterfacePlan)
    + [Expectation(LocalAsn, Whole(e.localAsn))]
    + FlatMap(e.neighbors, NeighborPlan)
  }

  /** Configuration of one interface; the address status stands for the address being there at all. */
  function InterfaceConfiguration(i: Interface): seq<Expectation> {
    [Expectation(InterfaceAdmin(i.name), Text("enable")),
     Expectation(SubinterfaceAdmin(i.name), Text("enable")),
     Expectation(AddressStatus(i.name, i.prefix), Flag(true))]
  }

  function NeighborConfiguration(n: Neighbor): seq<Expectation> {
    [Expectation(PeerAs(n.address), Whole(n.remoteAsn))]
  }

  function ConfigurationPlan(e: ExpectedState): seq<Expectation> {
    [Expectation(Hostname, Text(e.deviceName))]
    + FlatMap(e.Interfaces(), InterfaceConfiguration)
    + [Expectation(LocalAsn, Whole(e.localAsn))]
    + FlatMap(e.neighbors, NeighborConfiguration)
  }

  function InterfaceOperation(i: Interface): seq<Expectation> {
    (if i.requireUp
     then [Expectation(InterfaceOper(i.name), Text("up")), Expectation(SubinterfaceOper(i.name), Text("up"))]
     else [])
    + [Expectation(AddressStatus(i.name, i.prefix), Text("preferred"))]
  }

  function NeighborOperation(n: Neighbor): seq<Expectation> {
    [Expectation(SessionState(n.address), Text("established"))]
  }

  function OperationalPlan(e: ExpectedState): seq<Expectation> {
    FlatMap(e.Interfaces(), InterfaceOperation) + FlatMap(e.neighbors, NeighborOperation)
  }

  // ---------------------------------------------------------------- the model's validators

  predicate BoundedName(name: string) {
    1 <= |name| <= 128 && Trim(name) == name
  }

  predicate Asn(n: int) {
    1 <= n <= 4294967295
  }

  /** Five checks for an interface that must be up, three for one that need not be. */
  function CheckWeight(routed: seq<Interface>): nat {
    if routed == [] then 0 else (if routed[0].requireUp then 5 else 3) + CheckWeight(routed[1..])
  }

  function NamesOf(routed: seq<Interface>): (r: seq<string>)
    ensures |r| == |routed| && forall i :: 0 <= i < |r| ==> r[i] == routed[i].name
  {
    seq(|routed|, i requires 0 <= i < |routed| => routed[i].name)
  }

  function AddressesOf(neighbors: seq<Neighbor>): (r: seq<string>)
    ensures |r| == |neighbors| && forall i :: 0 <= i < |r| ==> r[i] == neighbors[i].address
  {
    seq(|neighbors|, i requires 0 <= i < |neighbors| => neighbors[i].address)
  }

  /** The expected states the model lets through. */
  predicate Accepted(e: ExpectedState) {
    && BoundedName(e.loopbackName) && PrefixText(e.loopbackPrefix) && EndsWith(e.loopbackPrefix, "/32")
    && 1 <= |e.routed| <= 64
    && (forall i :: i in e.routed ==> BoundedName(i.name) && PrefixText(i.prefix))
    && Asn(e.localAsn)
    && 1 <= |e.neighbors| <= 64
    && (forall n :: n in e.neighbors ==> PathKey(n.address) && Asn(n.remoteAsn))
    && Distinct(NamesOf(e.routed))
    && Distinct(AddressesOf(e.neighbors))
    && 7 + CheckWeight(e.routed) + 2 * |e.neighbors| <= 64
  }

  // ---------------------------------------------------------------- sizes

  lemma {:induction false} InterfaceLengths(xs: seq<Interface>)
    ensures TotalLength(xs, InterfacePlan) == CheckWeight(xs)
    ensures TotalLength(xs, InterfaceConfiguration) == 3 * |xs|
    ensures TotalLength(xs, InterfaceConfiguration) + TotalLength(xs, InterfaceOperation) == CheckWeight(xs) + |xs|
    ensures CheckWeight(xs) >= 3 * |xs|
  {
    if xs != [] {
      InterfaceLengths(xs[1..]);
    }
  }

  lemma {:induction false} NeighborLengths(xs: seq<Neighbor>)
    ensures TotalLength(xs, NeighborPlan) == 2 * |xs|
    ensures TotalLength(xs, NeighborConfiguration) == |xs| && TotalLength(xs, NeighborOperation) == |xs|
  {
    if xs != [] {
      NeighborLengths(xs[1..]);
    }
  }

  /**
   Validation yields exactly the number of checks the model bounds; the two comparison
   plans together have one more for each interface, loopback included; and for every
   accepted state none of the three exceeds 64.
   */
  lemma PlanSizes(e: ExpectedState)
    ensures |ValidationPlan(e)| == 7 + CheckWeight(e.routed) + 2 * |e.neighbors|
    ensures |ConfigurationPlan(e)| + |OperationalPlan(e)| == |ValidationPlan(e)| + 1 + |e.routed|
    ensures Accepted(e) ==>
              && 1 <= |ValidationPlan(e)| <= 64
              && 1 <= |ConfigurationPlan(e)| <= 64
              && 1 <= |OperationalPlan(e)| <= 64
  {
    var interfaces := e.Interfaces();
    assert interfaces[1..] == e.routed;
    FlatMapLength(interfaces, InterfacePlan);
    FlatMapLength(interfaces, InterfaceConfiguration);
    FlatMapLength(interfaces, InterfaceOperation);
    FlatMapLength(e.neighbors, NeighborPlan);
    FlatMapLength(e.neighbors, NeighborConfiguration);
    FlatMapLength(e.neighbors, NeighborOperation);
    InterfaceLengths(interfaces);
    InterfaceLengths(e.routed);
    NeighborLengths(e.neighbors);
    assert CheckWeight(interfaces) == 5 + CheckWeight(e.routed);
  }

  // ---------------------------------------------------------------- contents

  lemma InPlan(e: ExpectedState, x: Expectation)
    ensures x in ValidationPlan(e) <==>
              || x == Expectation(Hostname, Text(e.deviceName))
              || x == Expectation(LocalAsn, Whole(e.localAsn))
              || (exists k :: 0 <= k < |e.Interfaces()| && x in InterfacePlan(e.Interfaces()[k]))
              || (exists k :: 0 <= k < |e.neighbors| && x in NeighborPlan(e.neighbors[k]))
  {
    FlatMapMember(e.Interfaces(), InterfacePlan, x);
    FlatMapMember(e.neighbors, NeighborPlan, x);
  }

  lemma InConfiguration(e: ExpectedState, x: Expectation)
    ensures x in ConfigurationPlan(e) <==>
              || x == Expectation(Hostname, Text(e.deviceName))
              || x == Expectation(LocalAsn, Whole(e.localAsn))
              || (exists k :: 0 <= k < |e.Interfaces()| && x in InterfaceConfiguration(e.Interfaces()[k]))
              || (exists k :: 0 <= k < |e.neighbors| && x in NeighborConfiguration(e.neighbors[k]))
  {
    FlatMapMember(e.Interfaces(), InterfaceConfiguration, x);
    FlatMapMember(e.neighbors, NeighborConfiguration, x);
  }

  lemma InOperation(e: ExpectedState, x: Expectation)
    ensures x in OperationalPlan(e) <==>
              || (exists k :: 0 <= k < |e.Interfaces()| && x in InterfaceOperation(e.Interfaces()[k]))
              || (exists k :: 0 <= k < |e.neighbors| && x in NeighborOperation(e.neighbors[k]))
  {
    FlatMapMember(e.Interfaces(), InterfaceOperation, x);
    FlatMapMember(e.neighbors, NeighborOperation, x);
  }

  /** The leaves whose value is a setting rather than a state. */
  predicate Setting(leaf: Leaf) {
    leaf.Hostname? || leaf.InterfaceAdmin? || leaf.SubinterfaceAdmin? || leaf.LocalAsn? || leaf.PeerAs?
  }

  /** The presence entry that accompanies an address status. */
  function Presence(leaf: Leaf): Expectation {
    Expectation(leaf, Flag(true))
  }

  lemma InterfacePlansFit(i: Interface, x: Expectation)
    ensures x in InterfacePlan(i) <==>
              (Setting(x.leaf) && x in InterfaceConfiguration(i)) || x in InterfaceOperation(i)
    ensures x in InterfaceOperation(i) ==> !Setting(x.leaf)
    ensures x in InterfaceConfiguration(i) && !Setting(x.leaf) ==>
              && x == Presence(x.leaf) && x.leaf.AddressStatus?
              && Expectation(x.leaf, Text("preferred")) in InterfaceOperation(i)
    ensures x in InterfaceOperation(i) && x.leaf.AddressStatus? ==> Presence(x.leaf) in InterfaceConfiguration(i)
  {
  }

  lemma NeighborPlansFit(n: Neighbor, x: Expectation)
    ensures x in NeighborPlan(n) <==>
              (Setting(x.leaf) && x in NeighborConfiguration(n)) || x in NeighborOperation(n)
    ensures x in NeighborOperation(n) ==> !Setting(x.leaf) && !x.leaf.AddressStatus?
    ensures x in NeighborConfiguration(n) ==> Setting(x.leaf)
  {
  }

  /**
   Validation is the settings of the configuration plan and all of the operational plan,
   which holds no settings.
   */
  lemma ValidationIsSettingsAndStates(e: ExpectedState, x: Expectation)
    ensures x in ValidationPlan(e) <==> (Setting(x.leaf) && x in ConfigurationPlan(e)) || x in OperationalPlan(e)
    ensures x in OperationalPlan(e) ==> !Setting(x.leaf)
  {
    InPlan(e, x);
    InConfiguration(e, x);
    InOperation(e, x);
    forall i ensures x in InterfacePlan(i) <==>
                       (Setting(x.leaf) && x in InterfaceConfiguration(i)) || x in InterfaceOperation(i)
             ensures x in InterfaceOperation(i) ==> !Setting(x.leaf)
    {
      InterfacePlansFit(i, x);
    }
    forall n ensures x in NeighborPlan(n) <==>
                       (Setting(x.leaf) && x in NeighborConfiguration(n)) || x in NeighborOperation(n)
             ensures x in NeighborOperation(n) ==> !Setting(x.leaf)
    {
      NeighborPlansFit(n, x);
    }
  }

  /** The configuration plan's only other entries are the presence of each address validated. */
  lemma PresenceMatchesReadiness(e: ExpectedState, x: Expectation)
    ensures x in ConfigurationPlan(e) && !Setting(x.leaf) ==>
              && x == Presence(x.leaf) && x.leaf.AddressStatus?
              && Expectation(x.leaf, Text("preferred")) in OperationalPlan(e)
    ensures x in OperationalPlan(e) && x.leaf.AddressStatus? ==> Presence(x.leaf) in ConfigurationPlan(e)
  {
    if x in ConfigurationPlan(e) && !Setting(x.leaf) {
      InConfiguration(e, x);
      if k :| 0 <= k < |e.neighbors| && x in NeighborConfiguration(e.neighbors[k]) {
        NeighborPlansFit(e.neighbors[k], x);
      }
      var k :| 0 <= k < |e.Interfaces()| && x in InterfaceConfiguration(e.Interfaces()[k]);
      InterfacePlansFit(e.Interfaces()[k], x);
      InOperation(e, Expectation(x.leaf, Text("preferred")));
    }
    if x in OperationalPlan(e) && x.leaf.AddressStatus? {
      InOperation(e, x);
      if k :| 0 <= k < |e.neighbors| && x in NeighborOperation(e.neighbors[k]) {
        NeighborPlansFit(e.neighbors[k], x);
      }
      var k :| 0 <= k < |e.Interfaces()| && x in InterfaceOperation(e.Interfaces()[k]);
      InterfacePlansFit(e.Interfaces()[k], x);
      InConfiguration(e, Presence(x.leaf));
    }
  }

  /**
   The model lets through one to 64 routed interfaces of different names and one to 64 neighbours of
   different addresses, all within their limits, whose validation makes no more than 64 checks.
   */
  lemma AcceptedExactlyWhen(e: ExpectedState)
    ensures Accepted(e) <==>
              && (forall i :: 0 <= i < |e.Interfaces()| ==>
                    && 1 <= |e.Interfaces()[i].name| <= 128 && Trim(e.Interfaces()[i].name) == e.Interfaces()[i].name
                    && PrefixText(e.Interfaces()[i].prefix))
              && EndsWith(e.loopbackPrefix, "/32")
              && 1 <= |e.routed| <= 64 && 1 <= |e.neighbors| <= 64
              && 1 <= e.localAsn < 0x1_0000_0000
              && (forall k :: 0 <= k < |e.neighbors| ==>
                    PathKey(e.neighbors[k].address) && 1 <= e.neighbors[k].remoteAsn < 0x1_0000_0000)
              && (forall i, j :: 0 <= i < j < |e.routed| ==> e.routed[i].name != e.routed[j].name)
              && (forall i, j :: 0 <= i < j < |e.neighbors| ==> e.neighbors[i].address != e.neighbors[j].address)
              && |ValidationPlan(e)| <= 64
  {
    PlanSizes(e);
    InterfacesAreNamed(e);
    NeighborsAreAddressed(e);
    NamesAreDistinct(e);
    hide ValidationPlan, PrefixText, PathKey, EndsWith, Trim, CheckWeight, Distinct, NamesOf, AddressesOf;
    hide BoundedName, Asn;
  }

  lemma NamesAreDistinct(e: ExpectedState)
    ensures Distinct(NamesOf(e.routed)) <==>
            forall i, j :: 0 <= i < j < |e.routed| ==> e.routed[i].name != e.routed[j].name
    ensures Distinct(AddressesOf(e.neighbors)) <==>
            forall i, j :: 0 <= i < j < |e.neighbors| ==> e.neighbors[i].address != e.neighbors[j].address
  {
  }

  lemma InterfacesAreNamed(e: ExpectedState)
    ensures (forall i :: 0 <= i < |e.Interfaces()| ==>
               && 1 <= |e.Interfaces()[i].name| <= 128 && Trim(e.Interfaces()[i].name) == e.Interfaces()[i].name
               && PrefixText(e.Interfaces()[i].prefix)) <==>
            && BoundedName(e.loopbackName) && PrefixText(e.loopbackPrefix)
            && forall i :: i in e.routed ==> BoundedName(i.name) && PrefixText(i.prefix)
  {
    var all := e.Interfaces();
    assert all[0].name == e.loopbackName && all[0].prefix == e.loopbackPrefix;
    assert forall i :: 0 <= i < |e.routed| ==> all[i + 1] == e.routed[i];
    assert forall i :: 0 < i < |all| ==> all[i] == e.routed[i - 1] && all[i] in e.routed;
    hide PrefixText, Trim;
  }

  lemma NeighborsAreAddressed(e: ExpectedState)
    ensures Asn(e.localAsn) <==> 1 <= e.localAsn < 0x1_0000_0000
    ensures (forall n :: n in e.neighbors ==> PathKey(n.address) && Asn(n.remoteAsn)) <==>
            forall k :: 0 <= k < |e.neighbors| ==>
              PathKey(e.neighbors[k].address) && 1 <= e.neighbors[k].remoteAsn < 0x1_0000_0000
  {
    assert forall k :: 0 <= k < |e.neighbors| ==> e.neighbors[k] in e.neighbors;
    hide PathKey;
  }
}
