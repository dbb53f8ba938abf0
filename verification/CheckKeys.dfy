/** When the keys of the checks are unique: exactly when the loopback is not also a routed interface. */
module CheckKeys {
  import opened Text
  import opened Leaves
  import opened Plans
  import opened ExpectedStates
  import V = GetResponse

  function LeafOf(x: Expectation): Leaf {
    x.leaf
  }

  function ValidationName(x: Expectation): string {
    CheckName(x.leaf)
  }

  /** The key of a configuration check; an address status is checked for presence. */
  function ConfigurationKey(x: Expectation): string {
    if x.leaf.AddressStatus? then "address." + x.leaf.name + "." + x.leaf.prefix + ".presence" else CheckName(x.leaf)
  }

  /** The key of an operational check; an address status is checked for readiness. */
  function OperationalKey(x: Expectation): string {
    if x.leaf.AddressStatus? then "address." + x.leaf.name + "." + x.leaf.prefix + ".readiness" else CheckName(x.leaf)
  }

  lemma AddressKeysInjective(a: Leaf, b: Leaf, suffix: string)
    requires a.AddressStatus? && b.AddressStatus? && Proper(a) && Proper(b)
    requires "address." + a.name + "." + a.prefix + suffix == "address." + b.name + "." + b.prefix + suffix
    ensures a == b
  {
    assert "address." + (a.name + "." + a.prefix) + suffix == "address." + a.name + "." + a.prefix + suffix;
    assert "address." + (b.name + "." + b.prefix) + suffix == "address." + b.name + "." + b.prefix + suffix;
    BetweenInjective("address.", a.name + "." + a.prefix, b.name + "." + b.prefix, suffix);
    NameAndPrefixInjective(a.name, a.prefix, b.name, b.prefix);
  }

  lemma KeysInjective(x: Expectation, y: Expectation)
    requires Proper(x.leaf) && Proper(y.leaf)
    ensures ValidationName(x) == ValidationName(y) ==> x.leaf == y.leaf
    ensures ConfigurationKey(x) == ConfigurationKey(y) ==> x.leaf == y.leaf
    ensures OperationalKey(x) == OperationalKey(y) ==> x.leaf == y.leaf
  {
    KindIsWritten(x.leaf);
    KindIsWritten(y.leaf);
    if x.leaf.AddressStatus? && y.leaf.AddressStatus? {
      if ConfigurationKey(x) == ConfigurationKey(y) { AddressKeysInjective(x.leaf, y.leaf, ".presence"); }
      if OperationalKey(x) == OperationalKey(y) { AddressKeysInjective(x.leaf, y.leaf, ".readiness"); }
      if ValidationName(x) == ValidationName(y) { CheckNameInjective(x.leaf, y.leaf); }
    } else if x.leaf.AddressStatus? || y.leaf.AddressStatus? {
      assert ConfigurationKey(x)[1] != ConfigurationKey(y)[1];
      assert OperationalKey(x)[1] != OperationalKey(y)[1];
      assert ValidationName(x)[1] != ValidationName(y)[1];
    } else if ValidationName(x) == ValidationName(y) {
      CheckNameInjective(x.leaf, y.leaf);
    }
  }

  /** What a plan's entries are about: one interface, one neighbour, or the device. */
  datatype Subject = OfInterface(name: string) | OfNeighbor(address: string) | OfDevice

  function SubjectOf(leaf: Leaf): Subject {
    match leaf
    case Hostname | LocalAsn => OfDevice
    case InterfaceAdmin(n) => OfInterface(n)
    case InterfaceOper(n) => OfInterface(n)
    case SubinterfaceAdmin(n) => OfInterface(n)
    case SubinterfaceOper(n) => OfInterface(n)
    case AddressStatus(n, _) => OfInterface(n)
    case PeerAs(a) => OfNeighbor(a)
    case SessionState(a) => OfNeighbor(a)
  }

  /** A plan is put together from per-interface and per-neighbour entries and the two device leaves. */
  ghost predicate Shaped(f: Interface -> seq<Expectation>, g: Neighbor -> seq<Expectation>) {
    && (forall i: Interface :: DistinctOn(f(i), LeafOf))
    && (forall i: Interface, x :: x in f(i) ==> SubjectOf(x.leaf) == OfInterface(i.name))
    && (forall n: Neighbor :: DistinctOn(g(n), LeafOf))
    && (forall n: Neighbor, x :: x in g(n) ==> SubjectOf(x.leaf) == OfNeighbor(n.address))
  }

  lemma InterfacePlanIsShaped(i: Interface)
    ensures DistinctOn(InterfacePlan(i), LeafOf)
    ensures forall x :: x in InterfacePlan(i) ==> SubjectOf(x.leaf) == OfInterface(i.name)
  {
  }

  lemma ValidationIsShaped()
    ensures Shaped(InterfacePlan, NeighborPlan)
  {
    forall i: Interface
      ensures DistinctOn(InterfacePlan(i), LeafOf)
      ensures forall x :: x in InterfacePlan(i) ==> SubjectOf(x.leaf) == OfInterface(i.name)
    {
      InterfacePlanIsShaped(i);
    }
  }

  lemma ConfigurationIsShaped()
    ensures Shaped(InterfaceConfiguration, NeighborConfiguration)
  {
  }

  lemma OperationIsShaped()
    ensures Shaped(InterfaceOperation, NeighborOperation)
  {
  }

  lemma InterfaceNamesAreDistinct(e: ExpectedState)
    requires Accepted(e) && e.loopbackName !in NamesOf(e.routed)
    ensures forall i, j :: 0 <= i < j < |e.Interfaces()| ==> e.Interfaces()[i].name != e.Interfaces()[j].name
  {
    var interfaces := e.Interfaces();
    forall i, j | 0 <= i < j < |interfaces| ensures interfaces[i].name != interfaces[j].name {
      assert interfaces[j].name == NamesOf(e.routed)[j - 1];
      if i > 0 {
        assert interfaces[i].name == NamesOf(e.routed)[i - 1];
      }
    }
  }

  lemma InterfaceEntriesAreDistinct(e: ExpectedState, f: Interface -> seq<Expectation>, g: Neighbor -> seq<Expectation>)
    requires Accepted(e) && e.loopbackName !in NamesOf(e.routed) && Shaped(f, g)
    ensures DistinctOn(FlatMap(e.Interfaces(), f), LeafOf)
    ensures forall x :: x in FlatMap(e.Interfaces(), f) ==> SubjectOf(x.leaf).OfInterface?
  {
    var interfaces := e.Interfaces();
    InterfaceNamesAreDistinct(e);
    hide Accepted, NamesOf;
    FlatMapDistinct(interfaces, f, LeafOf);
    forall x | x in FlatMap(interfaces, f) ensures SubjectOf(x.leaf).OfInterface? {
      FlatMapMember(interfaces, f, x);
    }
  }

  lemma NeighborEntriesAreDistinct(e: ExpectedState, f: Interface -> seq<Expectation>, g: Neighbor -> seq<Expectation>)
    requires Distinct(AddressesOf(e.neighbors)) && Shaped(f, g)
    ensures DistinctOn(FlatMap(e.neighbors, g), LeafOf)
    ensures forall x :: x in FlatMap(e.neighbors, g) ==> SubjectOf(x.leaf).OfNeighbor?
  {
    forall i, j | 0 <= i < j < |e.neighbors| ensures e.neighbors[i].address != e.neighbors[j].address {
      assert AddressesOf(e.neighbors)[i] != AddressesOf(e.neighbors)[j];
    }
    FlatMapDistinct(e.neighbors, g, LeafOf);
    forall x | x in FlatMap(e.neighbors, g) ensures SubjectOf(x.leaf).OfNeighbor? {
      FlatMapMember(e.neighbors, g, x);
    }
  }

  lemma AssembledIsDistinct(a: seq<Expectation>, b: seq<Expectation>, host: Expectation, asn: Expectation)
    requires DistinctOn(a, LeafOf) && DistinctOn(b, LeafOf)
    requires forall x :: x in a ==> SubjectOf(x.leaf).OfInterface?
    requires forall x :: x in b ==> SubjectOf(x.leaf).OfNeighbor?
    requires host.leaf == Hostname && asn.leaf == LocalAsn
    ensures DistinctOn([host] + a + [asn] + b, LeafOf) && DistinctOn(a + b, LeafOf)
  {
    DistinctConcat([host], a, LeafOf);
    DistinctConcat([host] + a, [asn], LeafOf);
    DistinctConcat([host] + a + [asn], b, LeafOf);
    DistinctConcat(a, b, LeafOf);
  }

  lemma LeavesAreDistinct(e: ExpectedState)
    requires Accepted(e) && e.loopbackName !in NamesOf(e.routed)
    ensures DistinctOn(ValidationPlan(e), LeafOf)
    ensures DistinctOn(ConfigurationPlan(e), LeafOf)
    ensures DistinctOn(OperationalPlan(e), LeafOf)
  {
    ValidationIsShaped();
    ConfigurationIsShaped();
    OperationIsShaped();
    var host, asn := Expectation(Hostname, V.Text(e.deviceName)), Expectation(LocalAsn, V.Whole(e.localAsn));
    InterfaceEntriesAreDistinct(e, InterfacePlan, NeighborPlan);
    NeighborEntriesAreDistinct(e, InterfacePlan, NeighborPlan);
    AssembledIsDistinct(FlatMap(e.Interfaces(), InterfacePlan), FlatMap(e.neighbors, NeighborPlan), host, asn);
    InterfaceEntriesAreDistinct(e, InterfaceConfiguration, NeighborConfiguration);
    NeighborEntriesAreDistinct(e, InterfaceConfiguration, NeighborConfiguration);
    AssembledIsDistinct(
      FlatMap(e.Interfaces(), InterfaceConfiguration), FlatMap(e.neighbors, NeighborConfiguration), host, asn);
    InterfaceEntriesAreDistinct(e, InterfaceOperation, NeighborOperation);
    NeighborEntriesAreDistinct(e, InterfaceOperation, NeighborOperation);
    AssembledIsDistinct(
      FlatMap(e.Interfaces(), InterfaceOperation), FlatMap(e.neighbors, NeighborOperation), host, asn);
  }

  lemma PlanLeavesAreProper(e: ExpectedState, x: Expectation)
    requires Accepted(e) && (x in ValidationPlan(e) || x in ConfigurationPlan(e) || x in OperationalPlan(e))
    ensures Proper(x.leaf)
  {
    ValidationIsSettingsAndStates(e, x);
    PresenceMatchesReadiness(e, x);
    if x in OperationalPlan(e) {
      InOperation(e, x);
    } else {
      InConfiguration(e, x);
    }
    forall k | 0 <= k < |e.Interfaces()| ensures PrefixText(e.Interfaces()[k].prefix) {
      if k > 0 {
        assert e.Interfaces()[k] in e.routed;
      }
    }
  }

  /** On proper leaves, the key names the leaf. */
  ghost predicate NamesLeaf(key: Expectation -> string) {
    forall x, y :: Proper(LeafOf(x)) && Proper(LeafOf(y)) && key(x) == key(y) ==> LeafOf(x) == LeafOf(y)
  }

  lemma NamesAreInjective()
    ensures NamesLeaf(ValidationName) && NamesLeaf(ConfigurationKey) && NamesLeaf(OperationalKey)
  {
    forall x, y | Proper(LeafOf(x)) && Proper(LeafOf(y))
      ensures ValidationName(x) == ValidationName(y) ==> LeafOf(x) == LeafOf(y)
    {
      KeysInjective(x, y);
    }
    forall x, y | Proper(LeafOf(x)) && Proper(LeafOf(y))
      ensures ConfigurationKey(x) == ConfigurationKey(y) ==> LeafOf(x) == LeafOf(y)
    {
      KeysInjective(x, y);
    }
    forall x, y | Proper(LeafOf(x)) && Proper(LeafOf(y))
      ensures OperationalKey(x) == OperationalKey(y) ==> LeafOf(x) == LeafOf(y)
    {
      KeysInjective(x, y);
    }
  }

  lemma DistinctNames(plan: seq<Expectation>, key: Expectation -> string)
    requires DistinctOn(plan, LeafOf) && NamesLeaf(key)
    requires forall x :: x in plan ==> Proper(x.leaf)
    ensures DistinctOn(plan, key)
  {
    forall i, j | 0 <= i < j < |plan| ensures key(plan[i]) != key(plan[j]) {
      assert LeafOf(plan[i]) != LeafOf(plan[j]);
    }
  }

  lemma RepeatedEntry(h: Expectation, first: seq<Expectation>, rest: seq<Expectation>, asn: Expectation,
                      tail: seq<Expectation>, x: Expectation, key: Expectation -> string)
    requires x in first && x in rest
    ensures !DistinctOn([h] + (first + rest) + [asn] + tail, key)
  {
    var i :| 0 <= i < |first| && first[i] == x;
    var j :| 0 <= j < |rest| && rest[j] == x;
    var plan := [h] + (first + rest) + [asn] + tail;
    assert plan[1 + i] == x && plan[1 + |first| + j] == x;
    assert key(plan[1 + i]) == key(plan[1 + |first| + j]);
  }

  /** A routed interface that takes the loopback's name repeats its checks. */
  lemma LoopbackRepeated(e: ExpectedState, f: Interface -> seq<Expectation>, x: Expectation,
                         tail: seq<Expectation>, key: Expectation -> string)
    requires e.loopbackName in NamesOf(e.routed)
    requires forall i: Interface :: i.name == e.loopbackName ==> x in f(i)
    ensures !DistinctOn(
              [Expectation(Hostname, V.Text(e.deviceName))] + FlatMap(e.Interfaces(), f)
              + [Expectation(LocalAsn, V.Whole(e.localAsn))] + tail, key)
  {
    var k :| 0 <= k < |e.routed| && NamesOf(e.routed)[k] == e.loopbackName;
    assert x in f(e.routed[k]) && x in f(e.Interfaces()[0]);
    FlatMapMember(e.routed, f, x);
    assert e.Interfaces()[1..] == e.routed;
    RepeatedEntry(Expectation(Hostname, V.Text(e.deviceName)), f(e.Interfaces()[0]), FlatMap(e.routed, f),
                  Expectation(LocalAsn, V.Whole(e.localAsn)), tail, x, key);
  }

  lemma KeysAreUnique(e: ExpectedState)
    requires Accepted(e) && e.loopbackName !in NamesOf(e.routed)
    ensures DistinctOn(ValidationPlan(e), ValidationName)
    ensures DistinctOn(ConfigurationPlan(e), ConfigurationKey)
    ensures DistinctOn(OperationalPlan(e), OperationalKey)
  {
    LeavesAreDistinct(e);
    forall x | x in ValidationPlan(e) || x in ConfigurationPlan(e) || x in OperationalPlan(e)
      ensures Proper(x.leaf)
    {
      PlanLeavesAreProper(e, x);
    }
    NamesAreInjective();
    DistinctNames(ValidationPlan(e), ValidationName);
    DistinctNames(ConfigurationPlan(e), ConfigurationKey);
    DistinctNames(OperationalPlan(e), OperationalKey);
  }

  /**
   For every accepted state, the validation names and the configuration keys are unique
   exactly when the loopback's name is not also a routed interface's; the operational
   keys are then unique too.
   */
  lemma KeysAreUniqueExactlyWhen(e: ExpectedState)
    requires Accepted(e)
    ensures DistinctOn(ValidationPlan(e), ValidationName) <==> e.loopbackName !in NamesOf(e.routed)
    ensures DistinctOn(ConfigurationPlan(e), ConfigurationKey) <==> e.loopbackName !in NamesOf(e.routed)
    ensures e.loopbackName !in NamesOf(e.routed) ==> DistinctOn(OperationalPlan(e), OperationalKey)
  {
    if e.loopbackName in NamesOf(e.routed) {
      var x := Expectation(InterfaceAdmin(e.loopbackName), V.Text("enable"));
      LoopbackRepeated(e, InterfacePlan, x, FlatMap(e.neighbors, NeighborPlan), ValidationName);
      LoopbackRepeated(e, InterfaceConfiguration, x, FlatMap(e.neighbors, NeighborConfiguration), ConfigurationKey);
    } else {
      KeysAreUnique(e);
    }
  }
}
