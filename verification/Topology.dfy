/** Inferring the topology: dictionaries of links, address owners and directed sessions, filled in loops. */
module Topology {
  import opened Outcomes
  import opened Text
  import opened Sorting
  import opened Plans
  import opened Links
  import OrderedMaps

  datatype Refused = NotPresentable

  type LinkMap = seq<(string, Link)>

  const MAX_LINKS := 200

  /** Every entry is a link under its own key. */
  ghost predicate LinksOnly(inv: Inventory, links: LinkMap) {
    && OrderedMaps.DistinctKeys(links)
    && forall e :: e in links ==> e.0 == LinkKey(e.1) && IsLink(inv, e.1) && Presentable(e.1)
  }

  method AddLink(ghost inv: Inventory, links: LinkMap, l: Link) returns (r: Result<LinkMap, Refused>)
    requires LinksOnly(inv, links) && IsLink(inv, l)
    ensures r.Ok? <==> Presentable(l)
    ensures r.Ok? ==> LinksOnly(inv, r.value) && forall k :: OrderedMaps.Has(r.value, k) <==>
            OrderedMaps.Has(links, k) || k == LinkKey(l)
  {
    hide IsLink, LinkKey, Presentable;
    if !Presentable(l) {
      return Err(NotPresentable);
    }
    OrderedMaps.PutKeepsDistinct(links, LinkKey(l), l);
    var more := OrderedMaps.Put(links, LinkKey(l), l);
    assert forall e :: e in more ==> e in links || e == (LinkKey(l), l);
    return Ok(more);
  }

  // ---------------------------------------------------------------- physical links

  predicate EndpointLe(a: Endpoint, b: Endpoint) {
    if a.device == b.device then StringLe(a.name, b.name) else StringLe(a.device, b.device)
  }

  function PhysicalLink(a: Endpoint, b: Endpoint): Link {
    if EndpointLe(a, b) then Link(Physical, a, b) else Link(Physical, b, a)
  }

  /** The link an interface yields: its far end is in the inventory, elsewhere, and points back. */
  function PhysicalCandidate(inv: Inventory, i: Interface): Option<Link> {
    if FarEnd(i).Some? && HasDevice(inv.devices, FarEnd(i).value.device) && FarEnd(i).value.device != i.device
       && Connected(inv.interfaces, FarEnd(i).value, At(i))
    then Some(PhysicalLink(At(i), FarEnd(i).value))
    else None
  }

  lemma CandidateIsLink(inv: Inventory, i: Interface)
    requires i in inv.interfaces && PhysicalCandidate(inv, i).Some?
    ensures IsLink(inv, PhysicalCandidate(inv, i).value) && PhysicalCandidate(inv, i).value.kind == Physical
  {
    StringLeTotal(i.device, FarEnd(i).value.device);
    assert Connected(inv.interfaces, At(i), FarEnd(i).value);
  }

  lemma LinkIsCandidate(inv: Inventory, l: Link)
    requires IsLink(inv, l) && l.kind == Physical
    ensures exists i :: i in inv.interfaces && PhysicalCandidate(inv, i) == Some(l)
  {
    StringLeTotal(l.source.device, l.target.device);
    hide StringLe;
    var i :| i in inv.interfaces && At(i) == l.source && FarEnd(i) == Some(l.target);
    var j :| j in inv.interfaces && At(j) == l.target && FarEnd(j) == Some(l.source);
    if HasDevice(inv.devices, l.target.device) {
      assert PhysicalCandidate(inv, i) == Some(l);
    } else {
      assert PhysicalCandidate(inv, j) == Some(l);
    }
  }

  /** Every physical link of the first k interfaces has its key. */
  ghost predicate PhysicalDone(inv: Inventory, k: nat, links: LinkMap)
    requires k <= |inv.interfaces|
  {
    forall j :: 0 <= j < k && PhysicalCandidate(inv, inv.interfaces[j]).Some? ==>
      OrderedMaps.Has(links, LinkKey(PhysicalCandidate(inv, inv.interfaces[j]).value))
  }

  method CollectPhysical(inv: Inventory) returns (r: Result<LinkMap, Refused>)
    ensures r.Ok? ==> LinksOnly(inv, r.value) && PhysicalDone(inv, |inv.interfaces|, r.value)
    ensures r.Err? ==> exists l :: IsLink(inv, l) && !Presentable(l)
  {
    hide IsLink, LinkKey, Presentable, StringLe;
    var endpoints := set i | i in inv.interfaces && FarEnd(i).Some? :: (At(i), FarEnd(i).value);
    var names := set d | d in inv.devices :: d.name;
    var links: LinkMap := [];
    for k := 0 to |inv.interfaces|
      invariant LinksOnly(inv, links) && PhysicalDone(inv, k, links)
    {
      var i := inv.interfaces[k];
      EndpointsAreConnections(inv, endpoints, i);
      assert FarEnd(i).Some? ==> (FarEnd(i).value.device in names <==> HasDevice(inv.devices, FarEnd(i).value.device));
      if FarEnd(i).Some? && FarEnd(i).value.device in names && FarEnd(i).value.device != i.device
         && (FarEnd(i).value, At(i)) in endpoints {
        var l := PhysicalLink(At(i), FarEnd(i).value);
        CandidateIsLink(inv, i);
        var added := AddLink(inv, links, l);
        if added.Err? {
          return Err(NotPresentable);
        }
        links := added.value;
      }
    }
    return Ok(links);
  }

  lemma EndpointsAreConnections(inv: Inventory, endpoints: set<(Endpoint, Endpoint)>, i: Interface)
    requires endpoints == set j | j in inv.interfaces && FarEnd(j).Some? :: (At(j), FarEnd(j).value)
    ensures FarEnd(i).Some? ==>
              ((FarEnd(i).value, At(i)) in endpoints <==> Connected(inv.interfaces, FarEnd(i).value, At(i)))
  {
  }

  // ---------------------------------------------------------------- address owners

  /** The list under a key, empty where there is none. */
  function Lookup<K(==), V>(m: seq<(K, seq<V>)>, k: K): seq<V> {
    if OrderedMaps.Has(m, k) then OrderedMaps.Get(m, k) else []
  }

  /** setdefault and append. */
  function AppendTo<K(==), V>(m: seq<(K, seq<V>)>, k: K, v: V): seq<(K, seq<V>)> {
    OrderedMaps.Put(m, k, Lookup(m, k) + [v])
  }

  lemma AppendToLooksUp<K, V>(m: seq<(K, seq<V>)>, k: K, v: V)
    requires OrderedMaps.DistinctKeys(m)
    ensures OrderedMaps.DistinctKeys(AppendTo(m, k, v))
    ensures forall x :: Lookup(AppendTo(m, k, v), x) == if x == k then Lookup(m, k) + [v] else Lookup(m, x)
    ensures forall x :: OrderedMaps.Has(AppendTo(m, k, v), x) <==> OrderedMaps.Has(m, x) || x == k
  {
    OrderedMaps.PutKeepsDistinct(m, k, Lookup(m, k) + [v]);
    var p := AppendTo(m, k, v);
    forall x | x != k ensures Lookup(p, x) == Lookup(m, x) {
      if OrderedMaps.Has(m, x) {
        assert p[OrderedMaps.IndexOf(m, x)] == m[OrderedMaps.IndexOf(m, x)];
        assert OrderedMaps.IndexOf(p, x) == OrderedMaps.IndexOf(m, x);
      }
    }
  }

  type OwnerMap = seq<(Address, seq<Endpoint>)>

  method CollectOwners(interfaces: seq<Interface>) returns (owners: OwnerMap)
    ensures forall a :: Lookup(owners, a) == OwnersOf(interfaces, a)
  {
    hide OwnersOf, Lookup, OrderedMaps.DistinctKeys;
    owners := [];
    NothingOwned();
    for k := 0 to |interfaces|
      invariant OrderedMaps.DistinctKeys(owners)
      invariant forall a :: Lookup(owners, a) == OwnersOf(interfaces[..k], a)
    {
      owners := AddOwner(owners, interfaces[k]);
      OwnersGrow(interfaces, k);
    }
    assert interfaces[..|interfaces|] == interfaces;
  }

  lemma NothingOwned()
    ensures OrderedMaps.DistinctKeys<Address, seq<Endpoint>>([])
    ensures forall a :: Lookup<Address, Endpoint>([], a) == OwnersOf([], a)
  {
  }

  lemma OwnersGrow(interfaces: seq<Interface>, k: nat)
    requires k < |interfaces|
    ensures forall a ::
              OwnersOf(interfaces[..k + 1], a) ==
              OwnersOf(interfaces[..k], a) + Repeated(a, interfaces[k].addresses, At(interfaces[k]))
  {
    forall a
      ensures OwnersOf(interfaces[..k + 1], a) ==
              OwnersOf(interfaces[..k], a) + Repeated(a, interfaces[k].addresses, At(interfaces[k]))
    {
      FlatMapGrows(interfaces, k, OwnerAt(a));
    }
  }

  method AddOwner(owners: OwnerMap, i: Interface) returns (r: OwnerMap)
    requires OrderedMaps.DistinctKeys(owners)
    ensures OrderedMaps.DistinctKeys(r)
    ensures forall a :: Lookup(r, a) == Lookup(owners, a) + Repeated(a, i.addresses, At(i))
  {
    hide Lookup, AppendTo, OrderedMaps.DistinctKeys;
    r := owners;
    for n := 0 to |i.addresses|
      invariant OrderedMaps.DistinctKeys(r)
      invariant forall a :: Lookup(r, a) == Lookup(owners, a) + Repeated(a, i.addresses[..n], At(i))
    {
      AppendToLooksUp(r, i.addresses[n], At(i));
      assert i.addresses[..n + 1][..n] == i.addresses[..n];
      r := AppendTo(r, i.addresses[n], At(i));
    }
    assert i.addresses[..|i.addresses|] == i.addresses;
  }

  // ---------------------------------------------------------------- directed sessions

  type SessionMap = seq<((string, string), seq<string>)>

  method CollectSessions(inv: Inventory, owners: OwnerMap) returns (directed: SessionMap)
    requires forall a :: Lookup(owners, a) == OwnersOf(inv.interfaces, a)
    ensures OrderedMaps.DistinctKeys(directed)
    ensures forall s, t :: Lookup(directed, (s, t)) == Sessions(inv, s, t)
  {
    hide OwnersOf, Lookup, OrderedMaps.DistinctKeys;
    directed := [];
    NoSessions(inv);
    for k := 0 to |inv.devices|
      invariant OrderedMaps.DistinctKeys(directed)
      invariant forall s, t :: Lookup(directed, (s, t)) == Sessions(inv.(devices := inv.devices[..k]), s, t)
    {
      directed := AddSessions(inv.interfaces, owners, directed, inv.devices[k]);
      SessionsGrow(inv, k);
    }
    assert inv.(devices := inv.devices[..|inv.devices|]) == inv;
  }

  lemma NoSessions(inv: Inventory)
    ensures OrderedMaps.DistinctKeys<(string, string), seq<string>>([])
    ensures forall s, t ::
              Lookup<(string, string), string>([], (s, t)) == Sessions(inv.(devices := inv.devices[..0]), s, t)
  {
  }

  lemma SessionsGrow(inv: Inventory, k: nat)
    requires k < |inv.devices|
    ensures forall s, t ::
              Sessions(inv.(devices := inv.devices[..k + 1]), s, t) ==
              Sessions(inv.(devices := inv.devices[..k]), s, t) + DeviceSessions(inv.interfaces, s, t)(inv.devices[k])
  {
    forall s, t
      ensures Sessions(inv.(devices := inv.devices[..k + 1]), s, t) ==
              Sessions(inv.(devices := inv.devices[..k]), s, t) + DeviceSessions(inv.interfaces, s, t)(inv.devices[k])
    {
      FlatMapGrows(inv.devices, k, DeviceSessions(inv.interfaces, s, t));
    }
  }

  /** What one device's first n neighbours add to a pair of devices. */
  function Added(interfaces: seq<Interface>, d: Device, n: nat, s: string, t: string): seq<string>
    requires n <= |d.neighbors|
  {
    if d.name == s then PointedTo(interfaces, d.neighbors[..n], s, t) else []
  }

  lemma AddedGrows(interfaces: seq<Interface>, d: Device, n: nat)
    requires n < |d.neighbors|
    ensures forall s, t ::
              Added(interfaces, d, n + 1, s, t) ==
              Added(interfaces, d, n, s, t) + OneSession(interfaces, d, d.neighbors[n], s, t)
  {
    assert d.neighbors[..n + 1][..n] == d.neighbors[..n];
  }

  /** What one neighbour adds. */
  function OneSession(interfaces: seq<Interface>, d: Device, a: Address, s: string, t: string): seq<string> {
    var owners := OwnersOf(interfaces, a);
    if d.name == s && |owners| == 1 && owners[0].device == t && s != t then [owners[0].name] else []
  }

  method AddSessions(
    interfaces: seq<Interface>, owners: OwnerMap, directed: SessionMap, d: Device) returns (r: SessionMap)
    requires forall a :: Lookup(owners, a) == OwnersOf(interfaces, a)
    requires OrderedMaps.DistinctKeys(directed)
    ensures OrderedMaps.DistinctKeys(r)
    ensures forall s, t :: Lookup(r, (s, t)) == Lookup(directed, (s, t)) + DeviceSessions(interfaces, s, t)(d)
  {
    hide Lookup, AppendTo, OrderedMaps.DistinctKeys, OwnersOf, PointedTo;
    r := directed;
    assert forall s, t :: Added(interfaces, d, 0, s, t) == [] by { NothingAdded(interfaces, d); }
    for n := 0 to |d.neighbors|
      invariant OrderedMaps.DistinctKeys(r)
      invariant forall s, t :: Lookup(r, (s, t)) == Lookup(directed, (s, t)) + Added(interfaces, d, n, s, t)
    {
      AddedGrows(interfaces, d, n);
      var matches := Lookup(owners, d.neighbors[n]);
      if |matches| == 1 && matches[0].device != d.name {
        AppendToLooksUp(r, (d.name, matches[0].device), matches[0].name);
        r := AppendTo(r, (d.name, matches[0].device), matches[0].name);
      }
    }
    assert d.neighbors[..|d.neighbors|] == d.neighbors;
  }

  lemma NothingAdded(interfaces: seq<Interface>, d: Device)
    ensures forall s, t :: Added(interfaces, d, 0, s, t) == []
  {
  }

  // ---------------------------------------------------------------- BGP links

  predicate PairLe(a: (string, string), b: (string, string)) {
    if a.0 == b.0 then StringLe(a.1, b.1) else StringLe(a.0, b.0)
  }

  /** The link of a pair of devices that point to each other exactly once. */
  function BgpCandidate(directed: SessionMap, pair: (string, string)): Option<Link> {
    var forward, reverse := Lookup(directed, pair), Lookup(directed, (pair.1, pair.0));
    if Before(pair.0, pair.1) && |forward| == 1 && |reverse| == 1
    then Some(Link(Bgp, Endpoint(pair.0, reverse[0]), Endpoint(pair.1, forward[0])))
    else None
  }

  lemma BgpCandidateIsLink(inv: Inventory, directed: SessionMap, pair: (string, string))
    requires forall s, t :: Lookup(directed, (s, t)) == Sessions(inv, s, t)
    requires BgpCandidate(directed, pair).Some?
    ensures IsLink(inv, BgpCandidate(directed, pair).value)
  {
    hide Sessions, Lookup, Before;
    assert Lookup(directed, (pair.0, pair.1)) == Sessions(inv, pair.0, pair.1);
    assert Lookup(directed, (pair.1, pair.0)) == Sessions(inv, pair.1, pair.0);
  }

  lemma BgpLinkIsCandidate(inv: Inventory, directed: SessionMap, l: Link)
    requires forall s, t :: Lookup(directed, (s, t)) == Sessions(inv, s, t)
    requires IsLink(inv, l) && l.kind == Bgp
    ensures OrderedMaps.Has(directed, (l.source.device, l.target.device))
    ensures BgpCandidate(directed, (l.source.device, l.target.device)) == Some(l)
  {
    hide Sessions, Before;
    assert Lookup(directed, (l.source.device, l.target.device)) == Sessions(inv, l.source.device, l.target.device);
    assert Lookup(directed, (l.target.device, l.source.device)) == Sessions(inv, l.target.device, l.source.device);
  }

  function KeyList<K, V>(m: seq<(K, V)>): (r: seq<K>)
    ensures |r| == |m| && forall i :: 0 <= i < |r| ==> r[i] == m[i].0
  {
    if m == [] then [] else KeyList(m[..|m| - 1]) + [m[|m| - 1].0]
  }

  /** Every link of a pair listed so far has its key. */
  ghost predicate BgpDone(directed: SessionMap, pairs: seq<(string, string)>, k: nat, links: LinkMap)
    requires k <= |pairs|
  {
    forall j :: 0 <= j < k && BgpCandidate(directed, pairs[j]).Some? ==>
      OrderedMaps.Has(links, LinkKey(BgpCandidate(directed, pairs[j]).value))
  }

  /** Every link of any pair has its key. */
  ghost predicate AllBgpDone(directed: SessionMap, links: LinkMap) {
    forall pair :: OrderedMaps.Has(directed, pair) && BgpCandidate(directed, pair).Some? ==>
      OrderedMaps.Has(links, LinkKey(BgpCandidate(directed, pair).value))
  }

  lemma PairsAreAll(directed: SessionMap, pairs: seq<(string, string)>, links: LinkMap)
    requires multiset(pairs) == multiset(KeyList(directed)) && BgpDone(directed, pairs, |pairs|, links)
    ensures AllBgpDone(directed, links)
  {
    hide BgpCandidate, LinkKey;
    forall pair | OrderedMaps.Has(directed, pair) && BgpCandidate(directed, pair).Some?
      ensures OrderedMaps.Has(links, LinkKey(BgpCandidate(directed, pair).value))
    {
      assert KeyList(directed)[OrderedMaps.IndexOf(directed, pair)] == pair;
      assert pair in multiset(KeyList(directed));
      assert pair in multiset(pairs);
      var j :| 0 <= j < |pairs| && pairs[j] == pair;
    }
  }

  method CollectBgp(inv: Inventory, directed: SessionMap, physical: LinkMap) returns (r: Result<LinkMap, Refused>)
    requires forall s, t :: Lookup(directed, (s, t)) == Sessions(inv, s, t)
    requires LinksOnly(inv, physical)
    ensures r.Ok? ==>
              && LinksOnly(inv, r.value) && (forall k :: OrderedMaps.Has(physical, k) ==> OrderedMaps.Has(r.value, k))
              && AllBgpDone(directed, r.value)
    ensures r.Err? ==> exists l :: IsLink(inv, l) && !Presentable(l)
  {
    hide Sessions, Lookup, IsLink, LinkKey, Presentable, StringLe, PairLe, Sort, KeyList, LinksOnly, BgpCandidate;
    hide OrderedMaps.Has;
    var pairs := Sort(KeyList(directed), PairLe);
    var links := physical;
    for k := 0 to |pairs|
      invariant LinksOnly(inv, links) && (forall x :: OrderedMaps.Has(physical, x) ==> OrderedMaps.Has(links, x))
      invariant BgpDone(directed, pairs, k, links)
    {
      var candidate := BgpCandidate(directed, pairs[k]);
      if candidate.Some? {
        BgpCandidateIsLink(inv, directed, pairs[k]);
        var added := AddLink(inv, links, candidate.value);
        if added.Err? {
          return Err(NotPresentable);
        }
        links := added.value;
      }
    }
    PairsAreAll(directed, pairs, links);
    return Ok(links);
  }

  // ---------------------------------------------------------------- the graph

  /** Links in strictly increasing order of their keys. */
  predicate InKeyOrder(links: seq<Link>) {
    forall i, j :: 0 <= i < j < |links| ==> Before(LinkKey(links[i]), LinkKey(links[j]))
  }

  /** Some link of the list has this link's key. */
  ghost predicate Represented(links: seq<Link>, l: Link) {
    exists m :: m in links && LinkKey(m) == LinkKey(l)
  }

  /** All links and nothing else, one for each key. */
  ghost predicate AllLinks(inv: Inventory, links: seq<Link>) {
    && InKeyOrder(links)
    && (forall l :: l in links ==> IsLink(inv, l))
    && (forall l :: IsLink(inv, l) ==> Represented(links, l))
  }

  function FirstLinks(links: seq<Link>): seq<Link> {
    if |links| <= MAX_LINKS then links else links[..MAX_LINKS]
  }

  lemma LinksAreCovered(inv: Inventory, directed: SessionMap, links: LinkMap, l: Link)
    requires forall s, t :: Lookup(directed, (s, t)) == Sessions(inv, s, t)
    requires PhysicalDone(inv, |inv.interfaces|, links) && AllBgpDone(directed, links) && IsLink(inv, l)
    ensures OrderedMaps.Has(links, LinkKey(l))
  {
    hide Sessions, LinkKey, StringLe, PairLe, Lookup;
    match l.kind
    case Physical =>
      LinkIsCandidate(inv, l);
      hide IsLink;
      var i :| i in inv.interfaces && PhysicalCandidate(inv, i) == Some(l);
      var j :| 0 <= j < |inv.interfaces| && inv.interfaces[j] == i;
    case Bgp =>
      BgpLinkIsCandidate(inv, directed, l);
  }

  // ---------------------------------------------------------------- from the dictionary to the graph

  function LinkAt(links: LinkMap): string -> Link
  {
    (k: string) => if OrderedMaps.Has(links, k) then OrderedMaps.Get(links, k) else Link(Physical, Endpoint("", ""),
        Endpoint("", ""))
  }

  /** The links in the order of their sorted keys. */
  function InOrder(links: LinkMap): seq<Link> {
    Map(Sort(KeyList(links), StringLe), LinkAt(links))
  }

  lemma KeysSorted(links: LinkMap)
    requires OrderedMaps.DistinctKeys(links)
    ensures var keys := Sort(KeyList(links), StringLe);
            && (forall i, j :: 0 <= i < j < |keys| ==> Before(keys[i], keys[j]))
            && (forall k :: k in keys <==> OrderedMaps.Has(links, k))
  {
    var list := KeyList(links);
    var keys := Sort(list, StringLe);
    StringOrder(Elements(list));
    SortIsSorted(list, StringLe);
    SameBagSameElements(keys, list);
    forall i, j | 0 <= i < j < |keys| ensures Before(keys[i], keys[j]) {
      if keys[i] == keys[j] {
        TwiceInBag(keys, i, j);
        var p, q := TwiceInSequence(list, keys[i]);
        assert false;
      }
    }
    forall k ensures k in keys <==> OrderedMaps.Has(links, k) {
      assert k in keys <==> k in Elements(keys);
      assert k in list <==> k in Elements(list);
      OrderedMaps.HasExactlyWhen(links, k);
    }
  }

  lemma InOrderAt(inv: Inventory, links: LinkMap, i: nat)
    requires LinksOnly(inv, links) && i < |InOrder(links)|
    ensures var l := InOrder(links)[i];
            LinkKey(l) == Sort(KeyList(links), StringLe)[i] && IsLink(inv, l) && Presentable(l)
  {
    KeysSorted(links);
    hide IsLink, LinkKey, Presentable, Sort, KeyList, StringLe, Before;
    var keys := Sort(KeyList(links), StringLe);
    assert keys[i] in keys;
    var e := links[OrderedMaps.IndexOf(links, keys[i])];
    assert e in links;
  }

  lemma InOrderRepresents(inv: Inventory, links: LinkMap, l: Link)
    requires LinksOnly(inv, links) && OrderedMaps.Has(links, LinkKey(l))
    ensures Represented(InOrder(links), l)
  {
    KeysSorted(links);
    var keys, all := Sort(KeyList(links), StringLe), InOrder(links);
    assert |all| == |keys|;
    hide IsLink, LinkKey, Presentable, Sort, KeyList, StringLe, Before, LinksOnly, InOrder;
    var i :| 0 <= i < |keys| && keys[i] == LinkKey(l);
    InOrderAt(inv, links, i);
    assert all[i] in all;
  }

  lemma InOrderIsOrdered(inv: Inventory, links: LinkMap)
    requires LinksOnly(inv, links)
    ensures InKeyOrder(InOrder(links))
    ensures forall l :: l in InOrder(links) ==> IsLink(inv, l) && Presentable(l)
  {
    KeysSorted(links);
    var keys, all := Sort(KeyList(links), StringLe), InOrder(links);
    assert |all| == |keys|;
    hide IsLink, LinkKey, Presentable, Sort, KeyList, StringLe, Before, LinksOnly, InOrder;
    forall i | 0 <= i < |all| ensures LinkKey(all[i]) == keys[i] && IsLink(inv, all[i]) && Presentable(all[i]) {
      InOrderAt(inv, links, i);
    }
  }

  /**
   The topology's links: the first 200, in the order of their keys, of all links there are;
   none at all when one of them cannot be presented.
   */
  method GetTopology(inv: Inventory) returns (r: Result<seq<Link>, Refused>, ghost all: seq<Link>)
    ensures r.Ok? ==> AllLinks(inv, all) && forall l :: l in all ==> Presentable(l)
    ensures r.Ok? ==> r.value <= all && |r.value| == if |all| <= 200 then |all| else 200
    ensures r.Err? ==> exists l :: IsLink(inv, l) && !Presentable(l)
  {
    hide IsLink, Sessions, Lookup, OwnersOf, LinkKey, Presentable;
    all := [];
    var physical := CollectPhysical(inv);
    if physical.Err? {
      return Err(NotPresentable), all;
    }
    var owners := CollectOwners(inv.interfaces);
    var directed := CollectSessions(inv, owners);
    var links := CollectBgp(inv, directed, physical.value);
    if links.Err? {
      return Err(NotPresentable), all;
    }
    forall l | IsLink(inv, l) ensures Represented(InOrder(links.value), l) {
      LinksAreCovered(inv, directed, links.value, l);
      InOrderRepresents(inv, links.value, l);
    }
    InOrderIsOrdered(inv, links.value);
    all := InOrder(links.value);
    return Ok(FirstLinks(InOrder(links.value))), all;
  }

  // ---------------------------------------------------------------- exactness and order independence

  ghost predicate PlainNames(inv: Inventory) {
    forall l :: IsLink(inv, l) ==> NoColons(l)
  }

  /** No two links of the inventory have one key. */
  ghost predicate KeysTellLinks(inv: Inventory) {
    forall l, m :: IsLink(inv, l) && IsLink(inv, m) && LinkKey(l) == LinkKey(m) ==> l == m
  }

  lemma KeyIsUnique(all: seq<Link>, l: Link, m: Link)
    requires InKeyOrder(all) && l in all && m in all && LinkKey(l) == LinkKey(m)
    ensures l == m
  {
    hide LinkKey, StringLe;
    var i :| 0 <= i < |all| && all[i] == l;
    var j :| 0 <= j < |all| && all[j] == m;
    assert i == j;
  }

  /** A complete list holds every link exactly when no two links share a key. */
  lemma NoneIsMissedExactlyWhen(inv: Inventory, all: seq<Link>)
    requires AllLinks(inv, all)
    ensures (forall l :: l in all <==> IsLink(inv, l)) <==> KeysTellLinks(inv)
  {
    hide IsLink, LinkKey, StringLe;
    if KeysTellLinks(inv) {
      forall l | IsLink(inv, l) ensures l in all {
        assert Represented(all, l);
        var m :| m in all && LinkKey(m) == LinkKey(l);
      }
    }
    if forall l :: l in all <==> IsLink(inv, l) {
      forall l, m | IsLink(inv, l) && IsLink(inv, m) && LinkKey(l) == LinkKey(m) ensures l == m {
        assert l in all && m in all;
        KeyIsUnique(all, l, m);
      }
    }
  }

  lemma PlainKeysTellLinks(inv: Inventory)
    requires PlainNames(inv)
    ensures KeysTellLinks(inv)
  {
    hide LinkKey, NoColons, IsLink;
    forall l, m | IsLink(inv, l) && IsLink(inv, m) && LinkKey(l) == LinkKey(m) ensures l == m {
      LinkKeyInjective(l, m);
    }
  }

  /** With names free of colons every link is there, exactly once. */
  lemma NoneIsMissed(inv: Inventory, all: seq<Link>, l: Link)
    requires PlainNames(inv) && AllLinks(inv, all)
    ensures l in all <==> IsLink(inv, l)
  {
    PlainKeysTellLinks(inv);
    NoneIsMissedExactlyWhen(inv, all);
  }

  /** Two complete lists of the same links are the same list. */
  lemma {:induction false} CompleteListsAgree(a: seq<Link>, b: seq<Link>)
    requires InKeyOrder(a) && InKeyOrder(b) && forall l :: l in a <==> l in b
    ensures a == b
  {
    hide LinkKey, StringLe;
    EmptyAgrees(a, b);
    if a != [] {
      FirstsAgree(a, b);
      forall l ensures l in a[1..] <==> l in b[1..] {
        RestMembers(a, l);
        RestMembers(b, l);
      }
      CompleteListsAgree(a[1..], b[1..]);
      assert a == [a[0]] + a[1..] && b == [b[0]] + b[1..];
    }
  }

  lemma EmptyAgrees(a: seq<Link>, b: seq<Link>)
    requires forall l :: l in a <==> l in b
    ensures a == [] <==> b == []
    ensures a != [] && b != [] ==> a[0] in b && b[0] in a
  {
    if a != [] {
      assert a[0] in a;
    }
    if b != [] {
      assert b[0] in b;
    }
  }

  lemma RestMembers(a: seq<Link>, l: Link)
    requires InKeyOrder(a) && a != []
    ensures l in a[1..] <==> l in a && l != a[0]
  {
    hide LinkKey, StringLe;
    if l in a[1..] {
      var i :| 0 < i < |a| && a[i] == l;
      assert Before(LinkKey(a[0]), LinkKey(a[i]));
    }
  }

  lemma FirstsAgree(a: seq<Link>, b: seq<Link>)
    requires InKeyOrder(a) && InKeyOrder(b) && a != [] && b != [] && a[0] in b && b[0] in a
    ensures a[0] == b[0]
  {
    hide LinkKey, StringLe;
    var i :| 0 <= i < |b| && b[i] == a[0];
    var j :| 0 <= j < |a| && a[j] == b[0];
    assert i == 0 || Before(LinkKey(b[0]), LinkKey(a[0]));
    assert j == 0 || Before(LinkKey(a[0]), LinkKey(b[0]));
    StringLeTotal(LinkKey(a[0]), LinkKey(b[0]));
  }

  lemma Ordered(inv: Inventory, all: seq<Link>)
    requires AllLinks(inv, all)
    ensures InKeyOrder(all)
  {
  }

  /** Devices and interfaces in any order give the same links, in the same order. */
  lemma OrderDoesNotMatter(a: Inventory, b: Inventory, allA: seq<Link>, allB: seq<Link>)
    requires Reordered(a, b) && KeysTellLinks(a) && AllLinks(a, allA) && AllLinks(b, allB)
    ensures allA == allB && FirstLinks(allA) == FirstLinks(allB)
  {
    hide IsLink, LinkKey, AllLinks, Reordered, InKeyOrder;
    forall l ensures IsLink(a, l) <==> IsLink(b, l) {
      SameLinks(a, b, l);
    }
    NoneIsMissedExactlyWhen(a, allA);
    NoneIsMissedExactlyWhen(b, allB);
    assert InKeyOrder(allA) && InKeyOrder(allB) by { Ordered(a, allA); Ordered(b, allB); }
    CompleteListsAgree(allA, allB);
  }

  /** A physical link joins two different devices of the inventory, once however often it was recorded. */
  lemma PhysicalLinksStayInside(inv: Inventory, l: Link)
    requires IsLink(inv, l) && l.kind == Physical && forall i :: i in inv.interfaces ==>
             HasDevice(inv.devices, i.device)
    ensures HasDevice(inv.devices, l.source.device) && HasDevice(inv.devices, l.target.device)
            && l.source.device != l.target.device
    ensures !IsLink(inv, Link(Physical, l.target, l.source))
  {
    StringLeTotal(l.source.device, l.target.device);
    hide StringLe;
    var i :| i in inv.interfaces && At(i) == l.source && FarEnd(i) == Some(l.target);
    var j :| j in inv.interfaces && At(j) == l.target && FarEnd(j) == Some(l.source);
  }

  // ---------------------------------------------------------------- a link that is missed

  const FIRST := Link(Physical, Endpoint("a", "b"), Endpoint("c", "d:e"))
  const SECOND := Link(Physical, Endpoint("a", "b:c"), Endpoint("d", "e"))

  function CableEnds(l: Link): seq<Interface> {
    [Interface(l.source.device, l.source.name, [], Some(l.target.device), Some(l.target.name)),
     Interface(l.target.device, l.target.name, [], Some(l.source.device), Some(l.source.name))]
  }

  /** Two cables between three devices, with colons in the names of two interfaces. */
  function TwoCables(): Inventory {
    Inventory([Device("a", []), Device("c", []), Device("d", [])], CableEnds(FIRST) + CableEnds(SECOND))
  }

  lemma CablesShareAKey()
    ensures LinkKey(FIRST) == LinkKey(SECOND) && FIRST != SECOND
  {
    assert LinkKey(FIRST) == "physical:a:b:c:d:e";
    assert LinkKey(SECOND) == "physical:a:b:c:d:e";
  }

  lemma NoSessionsAtAll(source: string, target: string)
    ensures Sessions(TwoCables(), source, target) == []
  {
    var f := DeviceSessions(TwoCables().interfaces, source, target);
    assert forall d :: d in TwoCables().devices ==> f(d) == [];
    if name :| name in Sessions(TwoCables(), source, target) {
      FlatMapMember(TwoCables().devices, f, name);
      assert false;
    }
  }

  lemma CablesAreLinks(l: Link)
    requires l in {FIRST, SECOND}
    ensures IsLink(TwoCables(), l)
  {
    assert CableEnds(l)[0] in TwoCables().interfaces && CableEnds(l)[1] in TwoCables().interfaces;
    assert TwoCables().devices[0] in TwoCables().devices;
    hide Sessions;
  }

  lemma NoOtherCable(l: Link)
    requires IsLink(TwoCables(), l) && l.kind == Physical
    ensures l in {FIRST, SECOND}
  {
    hide Sessions, HasDevice;
    assert forall i :: i in TwoCables().interfaces ==> i in CableEnds(FIRST) || i in CableEnds(SECOND);
  }

  lemma CablesAreTheLinks(l: Link)
    ensures IsLink(TwoCables(), l) <==> l == FIRST || l == SECOND
  {
    if l in {FIRST, SECOND} {
      CablesAreLinks(l);
    } else if l.kind == Bgp {
      NoSessionsAtAll(l.source.device, l.target.device);
    } else if IsLink(TwoCables(), l) {
      NoOtherCable(l);
    }
  }

  lemma CablesArePresentable()
    ensures Presentable(FIRST) && Presentable(SECOND)
  {
    assert LinkKey(FIRST) == "physical:a:b:c:d:e";
    assert LinkKey(SECOND) == "physical:a:b:c:d:e";
  }

  lemma FirstKeysDiffer(all: seq<Link>)
    requires InKeyOrder(all)
    ensures |all| <= 1 || LinkKey(all[0]) != LinkKey(all[1])
  {
    hide LinkKey, StringLe;
  }

  /** The topology of this inventory can be presented, and shows only one of its two cables. */
  lemma KeysCollideWithColons(all: seq<Link>)
    requires AllLinks(TwoCables(), all)
    ensures IsLink(TwoCables(), FIRST) && IsLink(TwoCables(), SECOND) && FIRST != SECOND
    ensures forall l :: IsLink(TwoCables(), l) ==> Presentable(l)
    ensures |all| == 1 && all[0] in {FIRST, SECOND}
  {
    CablesShareAKey();
    CablesArePresentable();
    hide IsLink, TwoCables, LinkKey, StringLe, Presentable;
    forall l ensures IsLink(TwoCables(), l) <==> l == FIRST || l == SECOND {
      CablesAreTheLinks(l);
    }
    assert Represented(all, FIRST);
    forall i | 0 <= i < |all| ensures all[i] in {FIRST, SECOND} && LinkKey(all[i]) == LinkKey(FIRST) {
      assert all[i] in all;
    }
    FirstKeysDiffer(all);
  }
}
