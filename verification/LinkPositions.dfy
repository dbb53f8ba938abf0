/** What a link is, in terms of the inventory's entries alone: which interfaces, addresses and neighbours make it. */
module LinkPositions {
  import opened Outcomes
  import opened Text
  import opened Plans
  import opened Links

  // ---------------------------------------------------------------- lists with one entry

  lemma {:induction false} FlatMapEmpty<T, U>(xs: seq<T>, f: T -> seq<U>)
    ensures FlatMap(xs, f) == [] <==> forall i :: 0 <= i < |xs| ==> f(xs[i]) == []
  {
    if xs != [] {
      FlatMapEmpty(xs[1..], f);
      assert forall i :: 0 <= i < |xs[1..]| ==> xs[1..][i] == xs[i + 1];
      assert forall i :: 0 < i < |xs| ==> xs[i] == xs[1..][i - 1];
    }
  }

  /** One item yields one entry, and no other item yields any. */
  ghost predicate OnlyFrom<T, U>(xs: seq<T>, f: T -> seq<U>, u: U, i: nat) {
    i < |xs| && f(xs[i]) == [u] && forall j :: 0 <= j < |xs| && j != i ==> f(xs[j]) == []
  }

  lemma OnlyFirst<T, U>(xs: seq<T>, f: T -> seq<U>, u: U)
    requires xs != [] && f(xs[0]) != []
    ensures FlatMap(xs, f) == [u] <==> OnlyFrom(xs, f, u, 0)
    ensures forall i: nat :: OnlyFrom(xs, f, u, i) ==> i == 0
  {
    FlatMapEmpty(xs[1..], f);
    assert forall i :: 0 <= i < |xs[1..]| ==> xs[1..][i] == xs[i + 1];
    assert forall i :: 0 < i < |xs| ==> xs[i] == xs[1..][i - 1];
    var rest := FlatMap(xs[1..], f);
    if FlatMap(xs, f) == [u] {
      assert f(xs[0]) + rest == [u] && |f(xs[0])| + |rest| == 1;
      assert rest == [] && f(xs[0]) == [u];
    }
  }

  lemma OnlyLater<T, U>(xs: seq<T>, f: T -> seq<U>, u: U, i: nat)
    requires xs != [] && f(xs[0]) == []
    ensures OnlyFrom(xs, f, u, i + 1) <==> OnlyFrom(xs[1..], f, u, i)
    ensures !OnlyFrom(xs, f, u, 0)
  {
    var rest := xs[1..];
    assert forall j :: 0 <= j < |rest| ==> rest[j] == xs[j + 1];
    if OnlyFrom(rest, f, u, i) {
      forall j | 0 <= j < |xs| && j != i + 1 ensures f(xs[j]) == [] {
        assert j > 0 ==> xs[j] == rest[j - 1];
      }
    }
  }

  lemma {:induction false} FlatMapSingle<T, U>(xs: seq<T>, f: T -> seq<U>, u: U)
    ensures FlatMap(xs, f) == [u] <==> exists i: nat :: OnlyFrom(xs, f, u, i)
  {
    if xs != [] {
      hide OnlyFrom;
      if f(xs[0]) != [] {
        OnlyFirst(xs, f, u);
      } else {
        FlatMapSingle(xs[1..], f, u);
        assert FlatMap(xs, f) == FlatMap(xs[1..], f);
        OnlyLater(xs, f, u, 0);
        if i: nat :| OnlyFrom(xs[1..], f, u, i) {
          OnlyLater(xs, f, u, i);
        }
        if i: nat :| OnlyFrom(xs, f, u, i) && i > 0 {
          OnlyLater(xs, f, u, i - 1);
        }
      }
    } else {
      assert forall i: nat :: !OnlyFrom(xs, f, u, i);
    }
  }

  // ---------------------------------------------------------------- addresses

  /** Interface i lists the address as its m-th. */
  predicate Lists(interfaces: seq<Interface>, a: Address, i: nat, m: nat) {
    i < |interfaces| && m < |interfaces[i].addresses| && interfaces[i].addresses[m] == a
  }

  /** There, and nowhere else, the address is listed. */
  ghost predicate ListedOnce(interfaces: seq<Interface>, a: Address, i: nat, m: nat) {
    Lists(interfaces, a, i, m) && forall j: nat, n: nat :: Lists(interfaces, a, j, n) ==> j == i && n == m
  }

  lemma {:induction false} RepeatedEmpty(a: Address, addresses: seq<Address>, e: Endpoint)
    ensures Repeated(a, addresses, e) == [] <==> a !in addresses
  {
    if addresses != [] {
      RepeatedEmpty(a, addresses[..|addresses| - 1], e);
      assert addresses == addresses[..|addresses| - 1] + [addresses[|addresses| - 1]];
    }
  }

  /** Entry m is this address, and no other entry is. */
  predicate Once(a: Address, addresses: seq<Address>, m: nat) {
    m < |addresses| && addresses[m] == a && forall n :: 0 <= n < |addresses| && n != m ==> addresses[n] != a
  }

  lemma LastAlone<T>(before: seq<T>, e: T, x: T)
    ensures before + [e] == [x] <==> before == [] && x == e
  {
    if before + [e] == [x] {
      assert |before + [e]| == |before| + 1 && (before + [e])[|before|] == e;
    }
  }

  lemma {:induction false} RepeatedSingle(a: Address, addresses: seq<Address>, e: Endpoint, x: Endpoint)
    ensures Repeated(a, addresses, e) == [x] <==> x == e && exists m: nat :: Once(a, addresses, m)
  {
    if addresses != [] {
      var init, last := addresses[..|addresses| - 1], addresses[|addresses| - 1];
      assert addresses == init + [last];
      var before := Repeated(a, init, e);
      if last == a {
        RepeatedEmpty(a, init, e);
        assert Repeated(a, addresses, e) == before + [e];
        LastAlone(before, e, x);
        if a !in init {
          assert Once(a, addresses, |init|);
        }
        if m: nat :| Once(a, addresses, m) {
          assert m == |init|;
          assert forall n :: 0 <= n < |init| ==> addresses[n] == init[n];
        }
      } else {
        RepeatedSingle(a, init, e, x);
        assert Repeated(a, addresses, e) == before;
        if m: nat :| Once(a, init, m) {
          assert Once(a, addresses, m);
        }
        if m: nat :| Once(a, addresses, m) {
          assert Once(a, init, m);
        }
      }
    }
  }

  /** An address has one owner exactly when it is listed once, and that owner is where it is listed. */
  lemma OwnedExactlyWhen(interfaces: seq<Interface>, a: Address, e: Endpoint)
    ensures OwnersOf(interfaces, a) == [e] <==>
              exists i: nat, m: nat :: ListedOnce(interfaces, a, i, m)
                                       && e == Endpoint(interfaces[i].device, interfaces[i].name)
  {
    var f := OwnerAt(a);
    FlatMapSingle(interfaces, f, e);
    if i: nat :| OnlyFrom(interfaces, f, e, i) {
      OwnerIsListed(interfaces, a, e, i);
    }
    if i: nat, m: nat :| ListedOnce(interfaces, a, i, m) && e == Endpoint(interfaces[i].device, interfaces[i].name) {
      ListedIsOwner(interfaces, a, e, i, m);
    }
  }

  lemma OwnerIsListed(interfaces: seq<Interface>, a: Address, e: Endpoint, i: nat)
    requires OnlyFrom(interfaces, OwnerAt(a), e, i)
    ensures e == At(interfaces[i]) && exists m: nat :: ListedOnce(interfaces, a, i, m)
  {
    assert OwnerAt(a)(interfaces[i]) == Repeated(a, interfaces[i].addresses, At(interfaces[i])) == [e];
    RepeatedSingle(a, interfaces[i].addresses, At(interfaces[i]), e);
    var m: nat :| Once(a, interfaces[i].addresses, m);
    forall j: nat, n: nat | Lists(interfaces, a, j, n) ensures j == i && n == m {
      assert OwnerAt(a)(interfaces[j]) == Repeated(a, interfaces[j].addresses, At(interfaces[j]));
      RepeatedEmpty(a, interfaces[j].addresses, At(interfaces[j]));
    }
    assert ListedOnce(interfaces, a, i, m);
  }

  lemma ListedIsOwner(interfaces: seq<Interface>, a: Address, e: Endpoint, i: nat, m: nat)
    requires ListedOnce(interfaces, a, i, m) && e == At(interfaces[i])
    ensures OnlyFrom(interfaces, OwnerAt(a), e, i)
  {
    forall n | 0 <= n < |interfaces[i].addresses| && n != m ensures interfaces[i].addresses[n] != a {
      assert !Lists(interfaces, a, i, n);
    }
    assert Once(a, interfaces[i].addresses, m);
    RepeatedSingle(a, interfaces[i].addresses, At(interfaces[i]), e);
    forall j | 0 <= j < |interfaces| && j != i ensures OwnerAt(a)(interfaces[j]) == [] {
      RepeatedEmpty(a, interfaces[j].addresses, At(interfaces[j]));
      if a in interfaces[j].addresses {
        var k :| 0 <= k < |interfaces[j].addresses| && interfaces[j].addresses[k] == a;
        assert Lists(interfaces, a, j, k);
      }
    }
  }

  // ---------------------------------------------------------------- sessions

  /** The n-th neighbour of device k, which has this name, is an address listed once, at this endpoint elsewhere. */
  ghost predicate PointsAt(inv: Inventory, k: nat, n: nat, source: string, target: Endpoint) {
    && k < |inv.devices| && n < |inv.devices[k].neighbors|
    && inv.devices[k].name == source && source != target.device
    && exists i: nat, m: nat :: ListedOnce(inv.interfaces, inv.devices[k].neighbors[n], i, m)
                                && target == Endpoint(inv.interfaces[i].device, inv.interfaces[i].name)
  }

  /** Among all devices of this name, exactly one neighbour points to the other device, and to this interface of it. */
  ghost predicate PointsOnce(inv: Inventory, source: string, target: Endpoint) {
    exists k: nat, n: nat ::
      && PointsAt(inv, k, n, source, target)
      && forall j: nat, m: nat, e: Endpoint :: PointsAt(inv, j, m, source, e) && e.device == target.device ==>
           j == k && m == n
  }

  /** What one neighbour of a device points to there. */
  function PointedAt(interfaces: seq<Interface>, source: string, target: string): Address -> seq<string> {
    (a: Address) =>
      var owners := OwnersOf(interfaces, a);
      if |owners| == 1 && owners[0].device == target && source != target then [owners[0].name] else []
  }

  lemma {:induction false} PointedToIsFlat(
    interfaces: seq<Interface>, neighbors: seq<Address>, source: string, target: string)
    ensures PointedTo(interfaces, neighbors, source, target) ==
            FlatMap(neighbors, PointedAt(interfaces, source, target))
  {
    var f := PointedAt(interfaces, source, target);
    hide OwnersOf;
    if neighbors != [] {
      var init, last := neighbors[..|neighbors| - 1], neighbors[|neighbors| - 1];
      PointedToIsFlat(interfaces, init, source, target);
      assert neighbors == init + [last];
      FlatMapConcat(init, [last], f);
      assert FlatMap([last], f) == f(last) + [];
    }
  }

  /** A neighbour points to an interface of the other device exactly when that interface alone lists it. */
  lemma PointsExactlyWhen(interfaces: seq<Interface>, a: Address, source: string, target: string, x: string)
    ensures PointedAt(interfaces, source, target)(a) == [x] <==>
              && source != target
              && exists i: nat, m: nat ::
                   ListedOnce(interfaces, a, i, m)
                   && Endpoint(target, x) == Endpoint(interfaces[i].device, interfaces[i].name)
    ensures PointedAt(interfaces, source, target)(a) != [] ==>
              exists y :: PointedAt(interfaces, source, target)(a) == [y]
  {
    OwnedExactlyWhen(interfaces, a, Endpoint(target, x));
    hide OwnersOf, ListedOnce;
    var owners := OwnersOf(interfaces, a);
    if PointedAt(interfaces, source, target)(a) == [x] {
      assert [owners[0].name] == [x] && owners[0].name == [owners[0].name][0];
      assert owners == [owners[0]] && owners[0] == Endpoint(target, x);
    }
  }

  /** What neighbour n of device k points to on the target. */
  function Yields(inv: Inventory, k: nat, n: nat, source: string, target: string): seq<string> {
    if k < |inv.devices| && inv.devices[k].name == source && n < |inv.devices[k].neighbors|
    then PointedAt(inv.interfaces, source, target)(inv.devices[k].neighbors[n]) else []
  }

  lemma YieldsExactlyWhen(inv: Inventory, k: nat, n: nat, source: string, target: string)
    ensures forall x :: Yields(inv, k, n, source, target) == [x] <==>
                        PointsAt(inv, k, n, source, Endpoint(target, x))
    ensures Yields(inv, k, n, source, target) == [] <==>
            forall e: Endpoint :: PointsAt(inv, k, n, source, e) ==> e.device != target
  {
    hide PointedAt, ListedOnce;
    if k < |inv.devices| && inv.devices[k].name == source && n < |inv.devices[k].neighbors| {
      var a := inv.devices[k].neighbors[n];
      forall x ensures Yields(inv, k, n, source, target) == [x] <==> PointsAt(inv, k, n, source, Endpoint(target, x)) {
        PointsExactlyWhen(inv.interfaces, a, source, target, x);
      }
      PointsExactlyWhen(inv.interfaces, a, source, target, "");
      if e: Endpoint :| PointsAt(inv, k, n, source, e) && e.device == target {
        assert e == Endpoint(target, e.name);
        assert Yields(inv, k, n, source, target) == [e.name];
      }
    }
  }

  /** Of device k's neighbours only the n-th points to the target. */
  ghost predicate YieldsOnly(inv: Inventory, k: nat, n: nat, source: string, target: string, x: string) {
    && Yields(inv, k, n, source, target) == [x]
    && forall m: nat :: m != n ==> Yields(inv, k, m, source, target) == []
  }

  /** What a device of this name points to is what its neighbours point to, one after another. */
  lemma YieldsOf(inv: Inventory, k: nat, source: string, target: string)
    requires k < |inv.devices|
    ensures var d, f := inv.devices[k], PointedAt(inv.interfaces, source, target);
            && DeviceSessions(inv.interfaces, source, target)(d) ==
                 (if d.name == source then FlatMap(d.neighbors, f) else [])
            && forall n: nat :: Yields(inv, k, n, source, target) ==
                 if d.name == source && n < |d.neighbors| then f(d.neighbors[n]) else []
  {
    hide PointedAt;
    PointedToIsFlat(inv.interfaces, inv.devices[k].neighbors, source, target);
  }

  lemma DeviceYieldsNothing(inv: Inventory, k: nat, source: string, target: string)
    requires k < |inv.devices|
    ensures DeviceSessions(inv.interfaces, source, target)(inv.devices[k]) == [] <==>
            forall n: nat :: Yields(inv, k, n, source, target) == []
  {
    YieldsOf(inv, k, source, target);
    var d, f := inv.devices[k], PointedAt(inv.interfaces, source, target);
    hide Yields, DeviceSessions, PointedAt;
    FlatMapEmpty(d.neighbors, f);
    if d.name == source {
      assert forall n :: 0 <= n < |d.neighbors| ==> Yields(inv, k, n, source, target) == f(d.neighbors[n]);
    }
  }

  lemma OnlyIsYields(inv: Inventory, k: nat, n: nat, source: string, target: string, x: string)
    requires k < |inv.devices| && inv.devices[k].name == source
    ensures YieldsOnly(inv, k, n, source, target, x) <==>
            OnlyFrom(inv.devices[k].neighbors, PointedAt(inv.interfaces, source, target), x, n)
  {
    YieldsOf(inv, k, source, target);
    hide Yields, DeviceSessions, PointedAt;
    var d, f := inv.devices[k], PointedAt(inv.interfaces, source, target);
    if OnlyFrom(d.neighbors, f, x, n) {
      forall m: nat | m != n ensures Yields(inv, k, m, source, target) == [] {
      }
    }
    if YieldsOnly(inv, k, n, source, target, x) {
      forall m | 0 <= m < |d.neighbors| && m != n ensures f(d.neighbors[m]) == [] {
        assert Yields(inv, k, m, source, target) == [];
      }
    }
  }

  lemma DeviceYieldsOne(inv: Inventory, k: nat, source: string, target: string, x: string)
    requires k < |inv.devices|
    ensures DeviceSessions(inv.interfaces, source, target)(inv.devices[k]) == [x] <==>
            exists n: nat :: YieldsOnly(inv, k, n, source, target, x)
  {
    YieldsOf(inv, k, source, target);
    var d, f := inv.devices[k], PointedAt(inv.interfaces, source, target);
    if d.name == source {
      hide Yields, DeviceSessions, PointedAt, FlatMap, OnlyFrom, YieldsOnly;
      FlatMapSingle(d.neighbors, f, x);
      forall n: nat ensures YieldsOnly(inv, k, n, source, target, x) <==> OnlyFrom(d.neighbors, f, x, n) {
        OnlyIsYields(inv, k, n, source, target, x);
      }
    } else {
      hide Yields, DeviceSessions, PointedAt;
    }
  }

  lemma DeviceYields(inv: Inventory, k: nat, source: string, target: string, x: string)
    requires k < |inv.devices|
    ensures var found := DeviceSessions(inv.interfaces, source, target)(inv.devices[k]);
            && (found == [] <==> forall n: nat :: Yields(inv, k, n, source, target) == [])
            && (found == [x] <==> exists n: nat :: YieldsOnly(inv, k, n, source, target, x))
  {
    DeviceYieldsNothing(inv, k, source, target);
    DeviceYieldsOne(inv, k, source, target, x);
  }

  /** What a device points to on another is one interface exactly when one neighbour points there, to that interface. */
  lemma SessionExactlyWhen(inv: Inventory, source: string, target: Endpoint)
    ensures Sessions(inv, source, target.device) == [target.name] <==> PointsOnce(inv, source, target)
  {
    var f := DeviceSessions(inv.interfaces, source, target.device);
    FlatMapSingle(inv.devices, f, target.name);
    hide DeviceSessions, Yields, PointsAt;
    forall k: nat, n: nat
      ensures Yields(inv, k, n, source, target.device) == [target.name] <==> PointsAt(inv, k, n, source, target)
      ensures Yields(inv, k, n, source, target.device) == [] <==>
              forall e: Endpoint :: PointsAt(inv, k, n, source, e) ==> e.device != target.device
    {
      YieldsExactlyWhen(inv, k, n, source, target.device);
      assert target == Endpoint(target.device, target.name);
    }
    if k: nat :| OnlyFrom(inv.devices, f, target.name, k) {
      OnlySession(inv, source, target, k);
    }
    if PointsOnce(inv, source, target) {
      OnceYields(inv, source, target);
    }
  }

  lemma Beyond(inv: Inventory, k: nat, n: nat, source: string, target: string)
    requires k >= |inv.devices|
    ensures Yields(inv, k, n, source, target) == []
  {
  }

  lemma OnlySession(inv: Inventory, source: string, target: Endpoint, k: nat)
    requires OnlyFrom(inv.devices, DeviceSessions(inv.interfaces, source, target.device), target.name, k)
    ensures PointsOnce(inv, source, target)
  {
    hide DeviceSessions, Yields, PointsAt;
    DeviceYields(inv, k, source, target.device, target.name);
    var n: nat :| YieldsOnly(inv, k, n, source, target.device, target.name);
    YieldsExactlyWhen(inv, k, n, source, target.device);
    assert target == Endpoint(target.device, target.name);
    forall j: nat, m: nat, e: Endpoint | PointsAt(inv, j, m, source, e) && e.device == target.device
      ensures j == k && m == n
    {
      YieldsExactlyWhen(inv, j, m, source, target.device);
      if j >= |inv.devices| {
        Beyond(inv, j, m, source, target.device);
      } else if j != k {
        DeviceYields(inv, j, source, target.device, target.name);
      }
    }
  }

  lemma OnceYields(inv: Inventory, source: string, target: Endpoint)
    requires PointsOnce(inv, source, target)
    ensures exists k: nat ::
              OnlyFrom(inv.devices, DeviceSessions(inv.interfaces, source, target.device), target.name, k)
  {
    var k: nat, n: nat :| PointsAt(inv, k, n, source, target)
      && forall j: nat, m: nat, e: Endpoint :: PointsAt(inv, j, m, source, e) && e.device == target.device ==>
           j == k && m == n;
    var f := DeviceSessions(inv.interfaces, source, target.device);
    assert k < |inv.devices|;
    hide DeviceSessions, Yields, PointsAt;
    YieldsExactlyWhen(inv, k, n, source, target.device);
    assert target == Endpoint(target.device, target.name);
    forall j: nat, m: nat | j != k || m != n ensures Yields(inv, j, m, source, target.device) == [] {
      YieldsExactlyWhen(inv, j, m, source, target.device);
    }
    assert YieldsOnly(inv, k, n, source, target.device, target.name);
    DeviceYields(inv, k, source, target.device, target.name);
    forall j | 0 <= j < |inv.devices| && j != k ensures f(inv.devices[j]) == [] {
      DeviceYields(inv, j, source, target.device, target.name);
    }
    assert OnlyFrom(inv.devices, f, target.name, k);
  }

  // ---------------------------------------------------------------- links

  /** Interface i is this endpoint, and the inventory records that one at its far end. */
  predicate Records(interfaces: seq<Interface>, i: nat, here: Endpoint, there: Endpoint) {
    && i < |interfaces| && interfaces[i].device == here.device && interfaces[i].name == here.name
    && interfaces[i].connectedDevice == Some(there.device) && interfaces[i].connectedInterface == Some(there.name)
  }

  /**
   A physical link is two endpoints, the device that comes first in the alphabet first, each of
   which some interface records at the other's far end, with at least one of the devices in the
   inventory.
   */
  lemma PhysicalLinkExactlyWhen(inv: Inventory, l: Link)
    requires l.kind == Physical
    ensures IsLink(inv, l) <==>
              && l.source.device != l.target.device && StringLe(l.source.device, l.target.device)
              && (exists i: nat :: Records(inv.interfaces, i, l.source, l.target))
              && (exists i: nat :: Records(inv.interfaces, i, l.target, l.source))
              && (exists k :: 0 <= k < |inv.devices|
                              && (inv.devices[k].name == l.source.device || inv.devices[k].name == l.target.device))
  {
    ConnectedExactlyWhen(inv.interfaces, l.source, l.target);
    ConnectedExactlyWhen(inv.interfaces, l.target, l.source);
    HasDeviceExactlyWhen(inv.devices, l.source.device);
    HasDeviceExactlyWhen(inv.devices, l.target.device);
    hide Connected, HasDevice, Records, StringLe;
  }

  lemma ConnectedExactlyWhen(interfaces: seq<Interface>, a: Endpoint, b: Endpoint)
    ensures Connected(interfaces, a, b) <==> exists i: nat :: Records(interfaces, i, a, b)
  {
    if Connected(interfaces, a, b) {
      var i :| i in interfaces && At(i) == a && FarEnd(i) == Some(b);
      var k :| 0 <= k < |interfaces| && interfaces[k] == i;
      assert Records(interfaces, k, a, b);
    }
    if k: nat :| Records(interfaces, k, a, b) {
      assert interfaces[k] in interfaces && At(interfaces[k]) == a && FarEnd(interfaces[k]) == Some(b);
    }
  }

  lemma HasDeviceExactlyWhen(devices: seq<Device>, name: string)
    ensures HasDevice(devices, name) <==> exists k :: 0 <= k < |devices| && devices[k].name == name
  {
    if HasDevice(devices, name) {
      var d :| d in devices && d.name == name;
      var k :| 0 <= k < |devices| && devices[k] == d;
    }
    if k :| 0 <= k < |devices| && devices[k].name == name {
      assert devices[k] in devices;
    }
  }

  /**
   A BGP link is two endpoints, the device that comes first in the alphabet first, such that of all
   neighbours of either device exactly one is an address that one interface of the other device
   alone lists, and that interface is the endpoint.
   */
  lemma BgpLinkExactlyWhen(inv: Inventory, l: Link)
    requires l.kind == Bgp
    ensures IsLink(inv, l) <==>
              && l.source.device != l.target.device && StringLe(l.source.device, l.target.device)
              && PointsOnce(inv, l.source.device, l.target) && PointsOnce(inv, l.target.device, l.source)
  {
    SessionExactlyWhen(inv, l.source.device, l.target);
    SessionExactlyWhen(inv, l.target.device, l.source);
    hide Sessions, PointsOnce, StringLe;
  }

  /** A name the response can hold. */
  predicate Shown(name: string) {
    1 <= |name| <= 128 && forall k :: 0 <= k < |name| ==> name[k] < '\U{80}'
  }

  /** A link can be presented exactly when its four names are ASCII, not empty and no longer than 128. */
  lemma PresentableExactlyWhen(l: Link)
    ensures Presentable(l) <==>
              Shown(l.source.device) && Shown(l.source.name) && Shown(l.target.device) && Shown(l.target.name)
  {
    var kind := KindText(l.kind);
    AsciiParts(kind, ":");
    AsciiParts(kind + ":", l.source.device);
    AsciiParts(kind + ":" + l.source.device, ":");
    var source := kind + ":" + l.source.device + ":";
    AsciiParts(source, l.source.name);
    AsciiParts(source + l.source.name, ":");
    AsciiParts(source + l.source.name + ":", l.target.device);
    AsciiParts(source + l.source.name + ":" + l.target.device, ":");
    AsciiParts(source + l.source.name + ":" + l.target.device + ":", l.target.name);
    assert AsciiText(kind) && AsciiText(":");
    assert LinkKey(l) == source + l.source.name + ":" + l.target.device + ":" + l.target.name;
    hide KindText, LinkKey;
  }

  lemma AsciiParts(a: string, b: string)
    ensures AsciiText(a + b) <==> AsciiText(a) && AsciiText(b)
  {
    var s := a + b;
    assert forall k :: 0 <= k < |a| ==> s[k] == a[k];
    assert forall k :: 0 <= k < |b| ==> s[|a| + k] == b[k];
  }
}
