/** The links of the topology as relations: which pairs of endpoints are joined, physically or by BGP. */
module Links {
  import opened Outcomes
  import opened Text
  import opened Plans

  type Address = int

  datatype Device = Device(name: string, neighbors: seq<Address>)

  datatype Endpoint = Endpoint(device: string, name: string)

  datatype Interface = Interface(
    device: string, name: string, addresses: seq<Address>, connectedDevice: Option<string>,
        connectedInterface: Option<string>)

  datatype LinkKind = Physical | Bgp

  /** A link, from the device whose name comes first; its ID is a digest of its key and is not kept. */
  datatype Link = Link(kind: LinkKind, source: Endpoint, target: Endpoint)

  datatype Inventory = Inventory(devices: seq<Device>, interfaces: seq<Interface>)

  predicate Before(a: string, b: string) {
    StringLe(a, b) && a != b
  }

  function At(i: Interface): Endpoint {
    Endpoint(i.device, i.name)
  }

  /** The far end the inventory records for an interface; a half-recorded one is none. */
  function FarEnd(i: Interface): Option<Endpoint> {
    if i.connectedDevice.Some? && i.connectedInterface.Some?
    then Some(Endpoint(i.connectedDevice.value, i.connectedInterface.value)) else None
  }

  predicate HasDevice(devices: seq<Device>, name: string) {
    exists d :: d in devices && d.name == name
  }

  /** Some interface at `a` is recorded as connected to `b`. */
  predicate Connected(interfaces: seq<Interface>, a: Endpoint, b: Endpoint) {
    exists i :: i in interfaces && At(i) == a && FarEnd(i) == Some(b)
  }

  // ---------------------------------------------------------------- BGP

  function Repeated(a: Address, addresses: seq<Address>, e: Endpoint): seq<Endpoint> {
    if addresses == [] then []
    else Repeated(a, addresses[..|addresses| - 1], e) + (if addresses[|addresses| - 1] == a then [e] else [])
  }

  function OwnerAt(a: Address): Interface -> seq<Endpoint> {
    (i: Interface) => Repeated(a, i.addresses, At(i))
  }

  /** Where an address is configured, once for each time it is. */
  function OwnersOf(interfaces: seq<Interface>, a: Address): seq<Endpoint> {
    FlatMap(interfaces, OwnerAt(a))
  }

  /** The interface names on `target` that `neighbors` of `source` point to, each uniquely owned. */
  function PointedTo(interfaces: seq<Interface>, neighbors: seq<Address>, source: string, target: string): seq<string> {
    if neighbors == [] then []
    else
      var owners := OwnersOf(interfaces, neighbors[|neighbors| - 1]);
      PointedTo(interfaces, neighbors[..|neighbors| - 1], source, target)
      + (if |owners| == 1 && owners[0].device == target && source != target then [owners[0].name] else [])
  }

  function DeviceSessions(interfaces: seq<Interface>, source: string, target: string): Device -> seq<string> {
    (d: Device) => if d.name == source then PointedTo(interfaces, d.neighbors, source, target) else []
  }

  /** What `source` points to on `target`, over its whole configuration. */
  function Sessions(inv: Inventory, source: string, target: string): seq<string> {
    FlatMap(inv.devices, DeviceSessions(inv.interfaces, source, target))
  }

  // ---------------------------------------------------------------- the links

  /**
   A physical link is a pair of endpoints recorded at both ends, between two devices; a BGP
   link is a pair of devices of which each has exactly one uniquely owned neighbour address on
   the other, at the interfaces that own them.
   */
  ghost predicate IsLink(inv: Inventory, l: Link) {
    && Before(l.source.device, l.target.device)
    && match l.kind
       case Physical =>
         && Connected(inv.interfaces, l.source, l.target) && Connected(inv.interfaces, l.target, l.source)
         && (HasDevice(inv.devices, l.source.device) || HasDevice(inv.devices, l.target.device))
       case Bgp =>
         && Sessions(inv, l.source.device, l.target.device) == [l.target.name]
         && Sessions(inv, l.target.device, l.source.device) == [l.source.name]
  }

  function KindText(kind: LinkKind): string {
    match kind
    case Physical => "physical"
    case Bgp => "bgp"
  }

  function LinkKey(l: Link): string {
    KindText(l.kind) + ":" + l.source.device + ":" + l.source.name + ":" + l.target.device + ":" + l.target.name
  }

  predicate ValidName(s: string) {
    1 <= |s| <= 128
  }

  /** The key must be ASCII to be hashed, and the four names short enough for the response. */
  predicate Presentable(l: Link) {
    && AsciiText(LinkKey(l))
    && ValidName(l.source.device) && ValidName(l.source.name) && ValidName(l.target.device) && ValidName(l.target.name)
  }

  // ---------------------------------------------------------------- keys

  predicate NoColons(l: Link) {
    && Without(l.source.device, {':'}) && Without(l.source.name, {':'})
    && Without(l.target.device, {':'}) && Without(l.target.name, {':'})
  }

  lemma FieldsAgree(a: string, b: string, restA: string, restB: string)
    requires Without(a, {':'}) && Without(b, {':'}) && a + ":" + restA == b + ":" + restB
    ensures a == b && restA == restB
  {
    var s := a + ":" + restA;
    assert s == b + ":" + restB;
    assert s[|a|] == ':' && s[|b|] == ':';
    assert forall k :: 0 <= k < |a| ==> s[k] == a[k];
    assert forall k :: 0 <= k < |b| ==> s[k] == b[k];
    assert |a| == |b|;
    assert s[..|a|] == a && s[..|b|] == b && s[|a| + 1..] == restA && s[|b| + 1..] == restB;
  }

  /** Names without a colon are read back from the key, so two links have two keys. */
  lemma LinkKeyInjective(l: Link, m: Link)
    requires NoColons(l) && NoColons(m) && LinkKey(l) == LinkKey(m)
    ensures l == m
  {
    assert Without(l.source.device, {':'}) && Without(l.source.name, {':'}) && Without(l.target.device, {':'});
    assert Without(m.source.device, {':'}) && Without(m.source.name, {':'}) && Without(m.target.device, {':'});
    var l4, m4 := l.target.name, m.target.name;
    var l3, m3 := l.target.device + ":" + l4, m.target.device + ":" + m4;
    var l2, m2 := l.source.name + ":" + l3, m.source.name + ":" + m3;
    var l1, m1 := l.source.device + ":" + l2, m.source.device + ":" + m2;
    KeyParts(l);
    KeyParts(m);
    KindTextsDiffer(l.kind, m.kind);
    hide LinkKey, NoColons, KindText, Without;
    FieldsAgree(KindText(l.kind), KindText(m.kind), l1, m1);
    FieldsAgree(l.source.device, m.source.device, l2, m2);
    FieldsAgree(l.source.name, m.source.name, l3, m3);
    FieldsAgree(l.target.device, m.target.device, l4, m4);
  }

  lemma KeyParts(l: Link)
    ensures LinkKey(l) == KindText(l.kind) + ":" +
                          (l.source.device + ":" + (l.source.name + ":" + (l.target.device + ":" + l.target.name)))
  {
    hide KindText;
  }

  lemma KindTextsDiffer(a: LinkKind, b: LinkKind)
    ensures Without(KindText(a), {':'}) && Without(KindText(b), {':'})
    ensures KindText(a) == KindText(b) <==> a == b
  {
    assert |KindText(Physical)| == 8 && |KindText(Bgp)| == 3;
  }

  // ---------------------------------------------------------------- order does not matter

  lemma FlatMapMiddle<T, U>(a: seq<T>, x: T, b: seq<T>, f: T -> seq<U>)
    ensures FlatMap(a + [x] + b, f) == FlatMap(a, f) + f(x) + FlatMap(b, f)
  {
    FlatMapConcat(a + [x], b, f);
    FlatMapConcat(a, [x], f);
    assert FlatMap([x], f) == f(x) + [];
  }

  lemma TakeOut<T>(xs: seq<T>, ys: seq<T>) returns (k: nat)
    requires multiset(xs) == multiset(ys) && xs != []
    ensures k < |ys| && ys[k] == xs[0] && ys == ys[..k] + [xs[0]] + ys[k + 1..]
    ensures multiset(xs[1..]) == multiset(ys[..k] + ys[k + 1..])
  {
    var x := xs[0];
    assert x in multiset(ys);
    k :| 0 <= k < |ys| && ys[k] == x;
    assert xs == [x] + xs[1..];
    assert ys == ys[..k] + [x] + ys[k + 1..];
    var rest := ys[..k] + ys[k + 1..];
    assert multiset(rest) == multiset(ys) - multiset{x};
    assert multiset(xs[1..]) == multiset(xs) - multiset{x};
  }

  lemma {:induction false} FlatMapBag<T, U>(xs: seq<T>, ys: seq<T>, f: T -> seq<U>)
    requires multiset(xs) == multiset(ys)
    ensures multiset(FlatMap(xs, f)) == multiset(FlatMap(ys, f))
  {
    if xs == [] {
      assert |multiset(ys)| == 0;
    } else {
      var k := TakeOut(xs, ys);
      FlatMapBag(xs[1..], ys[..k] + ys[k + 1..], f);
      FlatMapConcat(ys[..k], ys[k + 1..], f);
      FlatMapMiddle(ys[..k], xs[0], ys[k + 1..], f);
    }
  }

  predicate Reordered(a: Inventory, b: Inventory) {
    multiset(a.devices) == multiset(b.devices) && multiset(a.interfaces) == multiset(b.interfaces)
  }

  lemma SingletonBag<T>(a: seq<T>, b: seq<T>)
    requires multiset(a) == multiset(b)
    ensures |a| == |b| && (|a| == 1 ==> a == b)
  {
    assert |multiset(a)| == |a| && |multiset(b)| == |b|;
    if |a| == 1 {
      assert a == [a[0]] && b == [b[0]];
      assert multiset(a)[a[0]] == 1;
    }
  }

  lemma {:induction false} SamePointedTo(
    a: seq<Interface>, b: seq<Interface>, neighbors: seq<Address>, source: string, target: string)
    requires multiset(a) == multiset(b)
    ensures PointedTo(a, neighbors, source, target) == PointedTo(b, neighbors, source, target)
  {
    if neighbors != [] {
      SamePointedTo(a, b, neighbors[..|neighbors| - 1], source, target);
      var n := neighbors[|neighbors| - 1];
      FlatMapBag(a, b, OwnerAt(n));
      SingletonBag(OwnersOf(a, n), OwnersOf(b, n));
    }
  }

  lemma SameSessions(a: Inventory, b: Inventory, source: string, target: string)
    requires Reordered(a, b)
    ensures multiset(Sessions(a, source, target)) == multiset(Sessions(b, source, target))
  {
    var f, g := DeviceSessions(a.interfaces, source, target), DeviceSessions(b.interfaces, source, target);
    FlatMapBag(a.devices, b.devices, f);
    forall d ensures f(d) == g(d) {
      SamePointedTo(a.interfaces, b.interfaces, d.neighbors, source, target);
    }
    SameFunction(b.devices, f, g);
  }

  lemma {:induction false} SameFunction<T(!new), U>(xs: seq<T>, f: T -> seq<U>, g: T -> seq<U>)
    requires forall x :: f(x) == g(x)
    ensures FlatMap(xs, f) == FlatMap(xs, g)
  {
    if xs != [] {
      SameFunction(xs[1..], f, g);
    }
  }

  lemma SameMembers<T>(a: seq<T>, b: seq<T>)
    requires multiset(a) == multiset(b)
    ensures forall x :: x in a <==> x in b
  {
    forall x ensures x in a <==> x in b {
      assert x in a <==> x in multiset(a);
      assert x in b <==> x in multiset(b);
    }
  }

  /** Which links there are does not depend on the order of devices or interfaces. */
  lemma SameLinks(a: Inventory, b: Inventory, l: Link)
    requires Reordered(a, b)
    ensures IsLink(a, l) <==> IsLink(b, l)
  {
    SameMembers(a.interfaces, b.interfaces);
    SameMembers(a.devices, b.devices);
    SameSessions(a, b, l.source.device, l.target.device);
    SameSessions(a, b, l.target.device, l.source.device);
    SingletonBag(Sessions(a, l.source.device, l.target.device), Sessions(b, l.source.device, l.target.device));
    SingletonBag(Sessions(a, l.target.device, l.source.device), Sessions(b, l.target.device, l.source.device));
    hide Sessions, FarEnd, At, StringLe;
  }

  // ---------------------------------------------------------------- why a BGP link is there

  lemma {:induction false} RepeatedMeansListed(a: Address, addresses: seq<Address>, e: Endpoint, x: Endpoint)
    requires x in Repeated(a, addresses, e)
    ensures x == e && a in addresses
  {
    if x in Repeated(a, addresses[..|addresses| - 1], e) {
      RepeatedMeansListed(a, addresses[..|addresses| - 1], e, x);
    }
  }

  lemma {:induction false} PointedToIsOwned(
    interfaces: seq<Interface>, neighbors: seq<Address>, source: string, target: string, name: string)
    requires name in PointedTo(interfaces, neighbors, source, target)
    ensures exists a :: a in neighbors && OwnersOf(interfaces, a) == [Endpoint(target, name)]
  {
    var init, a := neighbors[..|neighbors| - 1], neighbors[|neighbors| - 1];
    hide OwnersOf;
    if name in PointedTo(interfaces, init, source, target) {
      PointedToIsOwned(interfaces, init, source, target, name);
      var b :| b in init && OwnersOf(interfaces, b) == [Endpoint(target, name)];
      assert b in neighbors;
    } else {
      assert OwnersOf(interfaces, a) == [Endpoint(target, name)];
    }
  }

  /** A configured neighbour of `source` is the address of this interface and of no other. */
  ghost predicate PointsTo(inv: Inventory, source: string, target: Endpoint) {
    exists d, a, i :: d in inv.devices && d.name == source && a in d.neighbors
        && OwnersOf(inv.interfaces, a) == [target]
                      && i in inv.interfaces && At(i) == target && a in i.addresses
  }

  lemma SessionIsJustified(inv: Inventory, source: string, target: string, name: string)
    requires name in Sessions(inv, source, target)
    ensures PointsTo(inv, source, Endpoint(target, name))
  {
    var f := DeviceSessions(inv.interfaces, source, target);
    FlatMapMember(inv.devices, f, name);
    var k :| 0 <= k < |inv.devices| && name in f(inv.devices[k]);
    var d := inv.devices[k];
    PointedToIsOwned(inv.interfaces, d.neighbors, source, target, name);
    var a :| a in d.neighbors && OwnersOf(inv.interfaces, a) == [Endpoint(target, name)];
    assert OwnersOf(inv.interfaces, a)[0] in OwnersOf(inv.interfaces, a);
    FlatMapMember(inv.interfaces, OwnerAt(a), Endpoint(target, name));
    var j :| 0 <= j < |inv.interfaces| && Endpoint(target, name) in OwnerAt(a)(inv.interfaces[j]);
    RepeatedMeansListed(a, inv.interfaces[j].addresses, At(inv.interfaces[j]), Endpoint(target, name));
    assert inv.interfaces[j] in inv.interfaces;
  }

  /**
   Each side of a BGP link has the other side's interface address as a neighbour, and nobody else
   has that address.
   */
  lemma BgpLinkIsJustified(inv: Inventory, l: Link)
    requires IsLink(inv, l) && l.kind == Bgp
    ensures PointsTo(inv, l.source.device, l.target) && PointsTo(inv, l.target.device, l.source)
  {
    assert l.target.name in [l.target.name] && l.source.name in [l.source.name];
    hide Sessions, PointsTo, StringLe;
    SessionIsJustified(inv, l.source.device, l.target.device, l.target.name);
    SessionIsJustified(inv, l.target.device, l.source.device, l.source.name);
  }
}
