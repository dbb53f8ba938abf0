/**
 The native leaves one device state is judged by: the path each is read from, the name
 of the check it feeds, and why neither can be mistaken for another leaf's.
 */
module Leaves {
  import opened Outcomes
  import opened Sorting
  import opened Text
  import GnmiPath
  import PathPrinting

  datatype Leaf =
    | Hostname
    | InterfaceAdmin(name: string)
    | InterfaceOper(name: string)
    | SubinterfaceAdmin(name: string)
    | SubinterfaceOper(name: string)
    | AddressStatus(name: string, prefix: string)
    | LocalAsn
    | PeerAs(address: string)
    | SessionState(address: string)

  /** A key value that needs no escaping. */
  predicate PathKey(value: string) {
    value != "" && Without(value, {'[', ']', '='})
  }

  predicate Addressable(leaf: Leaf) {
    match leaf
    case Hostname | LocalAsn => true
    case InterfaceAdmin(n) => PathKey(n)
    case InterfaceOper(n) => PathKey(n)
    case SubinterfaceAdmin(n) => PathKey(n)
    case SubinterfaceOper(n) => PathKey(n)
    case AddressStatus(n, p) => PathKey(n) && PathKey(p)
    case PeerAs(a) => PathKey(a)
    case SessionState(a) => PathKey(a)
  }

  function Node(name: string): GnmiPath.Element {
    GnmiPath.Element(name, [])
  }

  function Entry(name: string, key: string, value: string): GnmiPath.Element {
    GnmiPath.Element(name, [(key, value)])
  }

  /** The elements a leaf is meant to be found under. */
  function LeafElements(leaf: Leaf): GnmiPath.Path {
    match leaf
    case Hostname => [Node("system"), Node("name"), Node("host-name")]
    case InterfaceAdmin(n) => [Entry("interface", "name", n), Node("admin-state")]
    case InterfaceOper(n) => [Entry("interface", "name", n), Node("oper-state")]
    case SubinterfaceAdmin(n) => [Entry("interface", "name", n), Entry("subinterface", "index", "0"),
        Node("admin-state")]
    case SubinterfaceOper(n) => [Entry("interface", "name", n), Entry("subinterface", "index", "0"), Node("oper-state")]
    case AddressStatus(n, p) =>
      [Entry("interface", "name", n), Entry("subinterface", "index", "0"), Node("ipv4"),
       Entry("address", "ip-prefix", p), Node("status")]
    case LocalAsn =>
      [Entry("network-instance", "name", "default"), Node("protocols"), Node("bgp"), Node("autonomous-system")]
    case PeerAs(a) =>
      [Entry("network-instance", "name", "default"), Node("protocols"), Node("bgp"),
       Entry("neighbor", "peer-address", a), Node("peer-as")]
    case SessionState(a) =>
      [Entry("network-instance", "name", "default"), Node("protocols"), Node("bgp"),
       Entry("neighbor", "peer-address", a), Node("session-state")]
  }

  /** The path builders: the text of the elements, or None where a key is rejected. */
  function LeafPath(leaf: Leaf): Option<string> {
    if Addressable(leaf) then Some(PathPrinting.Print(PathPrinting.Plain(LeafElements(leaf)))) else None
  }

  lemma NamesArePlain()
    ensures forall name :: name in {"system", "name", "host-name"} ==> PathPrinting.PlainName(name)
    ensures forall name :: name in {"interface", "admin-state", "oper-state"} ==> PathPrinting.PlainName(name)
  {
  }

  lemma SubinterfaceNamesArePlain()
    ensures forall name :: name in {"subinterface", "index", "ipv4"} ==> PathPrinting.PlainName(name)
    ensures forall name :: name in {"address", "ip-prefix", "status"} ==> PathPrinting.PlainName(name)
    ensures PathPrinting.GoodValue("0")
  {
  }

  lemma InstanceNamesArePlain()
    ensures forall name :: name in {"network-instance", "protocols", "bgp"} ==> PathPrinting.PlainName(name)
    ensures PathPrinting.PlainName("autonomous-system") && PathPrinting.GoodValue("default")
  {
  }

  lemma NeighborNamesArePlain()
    ensures forall name :: name in {"neighbor", "peer-address"} ==> PathPrinting.PlainName(name)
    ensures forall name :: name in {"peer-as", "session-state"} ==> PathPrinting.PlainName(name)
  {
  }

  lemma NodeIsNormal(name: string)
    requires PathPrinting.PlainName(name)
    ensures PathPrinting.Normal(Node(name))
  {
  }

  lemma EntryIsNormal(name: string, key: string, value: string)
    requires PathPrinting.PlainName(name) && PathPrinting.PlainName(key) && PathPrinting.GoodValue(value)
    ensures PathPrinting.Normal(Entry(name, key, value))
  {
  }

  lemma LeafElementsAreNormal(leaf: Leaf)
    requires Addressable(leaf)
    ensures forall e :: e in LeafElements(leaf) ==> PathPrinting.Normal(e)
  {
    var es := LeafElements(leaf);
    NamesArePlain();
    SubinterfaceNamesArePlain();
    InstanceNamesArePlain();
    NeighborNamesArePlain();
    forall e | e in es ensures PathPrinting.Normal(e) {
      if e.keys == [] {
        NodeIsNormal(e.name);
      } else {
        EntryIsNormal(e.name, e.keys[0].0, e.keys[0].1);
      }
    }
  }

  /** Every builder's path parses to the elements it is meant for. */
  lemma LeafPathParses(leaf: Leaf)
    requires LeafPath(leaf).Some?
    ensures GnmiPath.Parse(LeafPath(leaf).value, false) == Some(LeafElements(leaf))
  {
    LeafElementsAreNormal(leaf);
    PathPrinting.NormalIsCanonical(LeafElements(leaf));
    PathPrinting.ParseUndoesPrint(PathPrinting.Plain(LeafElements(leaf)), false);
  }

  lemma LeafElementsInjective(a: Leaf, b: Leaf)
    requires LeafElements(a) == LeafElements(b)
    ensures a == b
  {
    var x, y := LeafElements(a), LeafElements(b);
    assert x[0] == y[0] && x[|x| - 1] == y[|y| - 1];
    assert |x| > 3 ==> x[3] == y[3];
  }

  /** No two leaves share a path, not even after normalisation. */
  lemma LeafPathInjective(a: Leaf, b: Leaf)
    requires LeafPath(a).Some? && LeafPath(a) == LeafPath(b)
    ensures a == b
  {
    LeafPathParses(a);
    LeafPathParses(b);
    LeafElementsInjective(a, b);
  }

  // ---------------------------------------------------------------- check names

  /** The name of the validation check a leaf feeds. */
  function CheckName(leaf: Leaf): string {
    match leaf
    case Hostname => "system.hostname"
    case InterfaceAdmin(n) => "interface." + n + ".admin_state"
    case InterfaceOper(n) => "interface." + n + ".oper_state"
    case SubinterfaceAdmin(n) => "subinterface." + n + ".0.admin_state"
    case SubinterfaceOper(n) => "subinterface." + n + ".0.oper_state"
    case AddressStatus(n, p) => "address." + n + "." + p + ".status"
    case LocalAsn => "routing.bgp.local_asn"
    case PeerAs(a) => "routing.bgp.neighbor." + a + ".peer_as"
    case SessionState(a) => "routing.bgp.neighbor." + a + ".session_state"
  }

  /** The text of an IPv4 prefix has three dots, whatever the interface name has. */
  predicate PrefixText(p: string) {
    p != "" && Without(p, {'[', ']', '='}) && Count(p, '.') == 3
  }

  predicate Proper(leaf: Leaf) {
    leaf.AddressStatus? ==> PrefixText(leaf.prefix)
  }

  lemma DottedTailsDiffer(n: string, p: string, m: string, q: string)
    requires n + "." + p == m + "." + q && |p| < |q|
    ensures Count(q, '.') > Count(p, '.')
  {
    var s := n + "." + p;
    var tail := s[|s| - |p| - 1..];
    assert tail == "." + p;
    assert tail == q[|q| - |p| - 1..];
    assert q == q[..|q| - |p| - 1] + tail;
    CountConcat(q[..|q| - |p| - 1], tail, '.');
    CountConcat(".", p, '.');
  }

  /** An interface name and a prefix can be told apart again after joining them with a dot. */
  lemma NameAndPrefixInjective(n: string, p: string, m: string, q: string)
    requires n + "." + p == m + "." + q && Count(p, '.') == Count(q, '.')
    ensures n == m && p == q
  {
    if |p| < |q| {
      DottedTailsDiffer(n, p, m, q);
    } else if |q| < |p| {
      DottedTailsDiffer(m, q, n, p);
    }
    var s, t := n + "." + p, m + "." + q;
    assert s[..|n|] == n && t[..|m|] == m && s[|n| + 1..] == p && t[|m| + 1..] == q;
  }

  lemma BetweenInjective(before: string, n: string, m: string, after: string)
    requires before + n + after == before + m + after
    ensures n == m
  {
    var s, t := before + n + after, before + m + after;
    assert s[|before|..|s| - |after|] == n && t[|before|..|t| - |after|] == m;
  }

  lemma InterfaceNamesInjective(a: Leaf, b: Leaf)
    requires (a.InterfaceAdmin? && b.InterfaceAdmin?) || (a.InterfaceOper? && b.InterfaceOper?)
    requires CheckName(a) == CheckName(b)
    ensures a == b
  {
    BetweenInjective("interface.", a.name, b.name, if a.InterfaceAdmin? then ".admin_state" else ".oper_state");
  }

  lemma SubinterfaceNamesInjective(a: Leaf, b: Leaf)
    requires (a.SubinterfaceAdmin? && b.SubinterfaceAdmin?) || (a.SubinterfaceOper? && b.SubinterfaceOper?)
    requires CheckName(a) == CheckName(b)
    ensures a == b
  {
    BetweenInjective("subinterface.", a.name, b.name,
        if a.SubinterfaceAdmin? then ".0.admin_state" else ".0.oper_state");
  }

  lemma AddressNamesInjective(a: Leaf, b: Leaf)
    requires a.AddressStatus? && b.AddressStatus? && Proper(a) && Proper(b) && CheckName(a) == CheckName(b)
    ensures a == b
  {
    assert CheckName(a) == "address." + (a.name + "." + a.prefix) + ".status";
    assert CheckName(b) == "address." + (b.name + "." + b.prefix) + ".status";
    BetweenInjective("address.", a.name + "." + a.prefix, b.name + "." + b.prefix, ".status");
    NameAndPrefixInjective(a.name, a.prefix, b.name, b.prefix);
  }

  lemma NeighborNamesInjective(a: Leaf, b: Leaf)
    requires (a.PeerAs? && b.PeerAs?) || (a.SessionState? && b.SessionState?)
    requires CheckName(a) == CheckName(b)
    ensures a == b
  {
    BetweenInjective("routing.bgp.neighbor.", a.address, b.address, if a.PeerAs? then ".peer_as" else ".session_state");
  }

  /** Interface names may contain dots, yet no two leaves share a check name. */
  lemma CheckNameInjective(a: Leaf, b: Leaf)
    requires Proper(a) && Proper(b) && CheckName(a) == CheckName(b)
    ensures a == b
  {
    hide CheckName, Proper;
    SameKind(a, b);
    match a {
      case Hostname | LocalAsn =>
      case InterfaceAdmin(_) | InterfaceOper(_) => InterfaceNamesInjective(a, b);
      case SubinterfaceAdmin(_) | SubinterfaceOper(_) => SubinterfaceNamesInjective(a, b);
      case AddressStatus(_, _) => AddressNamesInjective(a, b);
      case PeerAs(_) | SessionState(_) => NeighborNamesInjective(a, b);
    }
  }

  function Kind(leaf: Leaf): nat {
    match leaf
    case Hostname => 0
    case InterfaceAdmin(_) => 1
    case InterfaceOper(_) => 2
    case SubinterfaceAdmin(_) => 3
    case SubinterfaceOper(_) => 4
    case AddressStatus(_, _) => 5
    case LocalAsn => 6
    case PeerAs(_) => 7
    case SessionState(_) => 8
  }

  /** Four letters of a check name give its kind away. */
  predicate KindWritten(leaf: Leaf) {
    var s := CheckName(leaf);
    && |s| >= 15
    && Kind(leaf) ==
         if s[1] == 'y' then 0
         else if s[1] == 'n' then (if s[|s| - 7] == 'n' then 1 else 2)
         else if s[1] == 'u' then (if s[|s| - 7] == 'n' then 3 else 4)
         else if s[1] == 'd' then 5
         else if s[12] == 'l' then 6
         else if s[|s| - 1] == 's' then 7 else 8
  }

  lemma SameKind(a: Leaf, b: Leaf)
    requires Proper(a) && Proper(b) && CheckName(a) == CheckName(b)
    ensures Kind(a) == Kind(b)
  {
    KindIsWritten(a);
    KindIsWritten(b);
    hide CheckName, Proper, Kind;
  }

  lemma InterfaceKindIsWritten(leaf: Leaf)
    requires leaf.InterfaceAdmin? || leaf.InterfaceOper?
    ensures KindWritten(leaf)
  {
    var s := CheckName(leaf);
    if leaf.InterfaceAdmin? {
      assert s[|s| - 12..] == ".admin_state";
    } else {
      assert s[|s| - 11..] == ".oper_state";
    }
  }

  lemma SubinterfaceKindIsWritten(leaf: Leaf)
    requires leaf.SubinterfaceAdmin? || leaf.SubinterfaceOper?
    ensures KindWritten(leaf)
  {
    var s := CheckName(leaf);
    if leaf.SubinterfaceAdmin? {
      assert s[|s| - 12..] == ".admin_state";
    } else {
      assert s[|s| - 11..] == ".oper_state";
    }
  }

  lemma NeighborKindIsWritten(leaf: Leaf)
    requires leaf.PeerAs? || leaf.SessionState?
    ensures KindWritten(leaf)
  {
    var s := CheckName(leaf);
    if leaf.PeerAs? {
      assert s[|s| - 8..] == ".peer_as";
    } else {
      assert s[|s| - 14..] == ".session_state";
    }
  }

  lemma OtherKindIsWritten(leaf: Leaf)
    requires leaf.Hostname? || leaf.LocalAsn? || leaf.AddressStatus?
    ensures KindWritten(leaf)
  {
    var s := CheckName(leaf);
    if leaf.AddressStatus? {
      assert s[|s| - 7..] == ".status";
    }
  }

  lemma KindIsWritten(leaf: Leaf)
    ensures KindWritten(leaf)
  {
    hide KindWritten;
    match leaf {
      case InterfaceAdmin(_) | InterfaceOper(_) => InterfaceKindIsWritten(leaf);
      case SubinterfaceAdmin(_) | SubinterfaceOper(_) => SubinterfaceKindIsWritten(leaf);
      case PeerAs(_) | SessionState(_) => NeighborKindIsWritten(leaf);
      case _ => OtherKindIsWritten(leaf);
    }
  }
}
