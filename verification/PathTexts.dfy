/** The native paths as texts. */
module PathTexts {
  import opened Outcomes
  import opened Text
  import opened Leaves
  import opened GnmiPath
  import opened PathPrinting

  lemma PrintedNode(name: string)
    ensures PrintElement(Written(QName("", name), Unqualified([]))) == name
  {
    assert PrintKeys([]) == "" && "" + name == name;
  }

  lemma NoPrefix(s: string)
    ensures PrintName(QName("", s)) == s && s + "" == s
  {
  }

  lemma OneKeyPrints(key: string, value: string)
    ensures PrintKeys(Unqualified([(key, value)])) == "[" + key + "=" + value + "]"
  {
    var keys := Unqualified([(key, value)]);
    assert keys[0] == (QName("", key), value) && keys[1..] == [];
    NoPrefix(key);
    hide PrintName;
    NoPrefix(PrintKey(QName("", key), value));
  }

  lemma PrintedEntry(name: string, key: string, value: string)
    ensures PrintElement(Written(QName("", name), Unqualified([(key, value)]))) ==
            name + ("[" + key + "=" + value + "]")
  {
    NoPrefix(name);
    OneKeyPrints(key, value);
    hide PrintName, PrintKeys;
  }

  /** An element as the builders write it. */
  function ElementText(e: Element): string {
    if |e.keys| == 1 then e.name + ("[" + e.keys[0].0 + "=" + e.keys[0].1 + "]") else e.name
  }

  lemma ElementPrints(e: Element)
    requires |e.keys| <= 1
    ensures PrintElement(Plain([e])[0]) == ElementText(e)
  {
    assert Plain([e])[0] == Written(QName("", e.name), Unqualified(e.keys));
    if e.keys == [] {
      PrintedNode(e.name);
    } else {
      assert e.keys == [(e.keys[0].0, e.keys[0].1)];
      PrintedEntry(e.name, e.keys[0].0, e.keys[0].1);
    }
  }

  function PathText(es: Path): string {
    if es == [] then "" else "/" + (ElementText(es[0]) + PathText(es[1..]))
  }

  lemma {:induction false} PathPrints(es: Path)
    requires forall e :: e in es ==> |e.keys| <= 1
    ensures Print(Plain(es)) == PathText(es)
  {
    hide ElementText, PrintElement;
    if es != [] {
      assert es[0] in es && es == [es[0]] + es[1..];
      PathPrints(es[1..]);
      ElementPrints(es[0]);
      PrintedPath(es[0], es[1..]);
    }
  }

  lemma {:induction false} PrintedPath(first: Element, rest: Path)
    ensures Print(Plain([first] + rest)) == "/" + (PrintElement(Plain([first])[0]) + Print(Plain(rest)))
  {
    hide PrintElement;
    assert ([first] + rest)[1..] == rest && [first][1..] == [];
    var ws := Plain([first] + rest);
    assert ws == [Plain([first])[0]] + Plain(rest);
    assert ws[1..] == Plain(rest);
    JoinCons(PrintElement(ws[0]), PrintAll(ws[1..]));
  }

  // ---------------------------------------------------------------- the nine leaves

  const BGP := "/network-instance[name=default]/protocols/bgp/"

  /** The text a leaf is read under. */
  function TextOf(leaf: Leaf): string {
    match leaf
    case Hostname => "/system/name/host-name"
    case InterfaceAdmin(n) => "/interface[name=" + n + "]/admin-state"
    case InterfaceOper(n) => "/interface[name=" + n + "]/oper-state"
    case SubinterfaceAdmin(n) => "/interface[name=" + n + "]/subinterface[index=0]/admin-state"
    case SubinterfaceOper(n) => "/interface[name=" + n + "]/subinterface[index=0]/oper-state"
    case AddressStatus(n, p) =>
      "/interface[name=" + n + "]/subinterface[index=0]/ipv4/address[ip-prefix=" + p + "]/status"
    case LocalAsn => BGP + "autonomous-system"
    case PeerAs(a) => BGP + "neighbor[peer-address=" + a + "]/peer-as"
    case SessionState(a) => BGP + "neighbor[peer-address=" + a + "]/session-state"
  }

  lemma TwoSteps(a: Element, b: Element)
    ensures PathText([a, b]) == "/" + ElementText(a) + "/" + ElementText(b)
  {
    hide ElementText;
    assert [a, b][1..] == [b] && [b][1..] == [];
    assert PathText([b]) == "/" + (ElementText(b) + "");
  }

  lemma OneMoreStep(a: Element, rest: Path)
    ensures PathText([a] + rest) == "/" + ElementText(a) + PathText(rest)
  {
    hide ElementText;
    assert ([a] + rest)[1..] == rest;
  }

  lemma HostnameText()
    ensures PathText(LeafElements(Hostname)) == TextOf(Hostname)
  {
    var es := LeafElements(Hostname);
    OneMoreStep(es[0], [es[1], es[2]]);
    TwoSteps(es[1], es[2]);
    assert es == [es[0]] + [es[1], es[2]];
    hide PathText;
  }

  lemma InterfaceText(n: string)
    ensures ElementText(Entry("interface", "name", n)) == "interface[name=" + n + "]"
  {
    assert "interface" + ("[" + "name" + "=" + n + "]") == "interface[name=" + n + "]";
  }

  lemma SubinterfaceText()
    ensures ElementText(Entry("subinterface", "index", "0")) == "subinterface[index=0]"
  {
  }

  lemma InstanceText()
    ensures ElementText(Entry("network-instance", "name", "default")) == "network-instance[name=default]"
  {
  }

  lemma PrefixText(p: string)
    ensures ElementText(Entry("address", "ip-prefix", p)) == "address[ip-prefix=" + p + "]"
  {
    assert "address" + ("[" + "ip-prefix" + "=" + p + "]") == "address[ip-prefix=" + p + "]";
  }

  lemma NeighborText(a: string)
    ensures ElementText(Entry("neighbor", "peer-address", a)) == "neighbor[peer-address=" + a + "]"
  {
    assert "neighbor" + ("[" + "peer-address" + "=" + a + "]") == "neighbor[peer-address=" + a + "]";
  }

  lemma InterfaceEnd(n: string, leaf: string)
    ensures "/" + ("interface[name=" + n + "]") + "/" + leaf == "/interface[name=" + n + ("]/" + leaf)
  {
    Regroup("/", "interface[name=" + n, "]");
    Regroup("/", "interface[name=", n);
    assert "/" + "interface[name=" == "/interface[name=";
    Regroup("/interface[name=" + n, "]", "/");
    Regroup("/interface[name=" + n, "]/", leaf);
    assert "]" + "/" == "]/";
  }

  lemma InterfaceEnds()
    ensures "]/" + "admin-state" == "]/admin-state" && "]/" + "oper-state" == "]/oper-state"
  {
  }

  lemma InterfaceLeafText(leaf: Leaf)
    requires leaf.InterfaceAdmin? || leaf.InterfaceOper?
    ensures PathText(LeafElements(leaf)) == TextOf(leaf)
  {
    var es := LeafElements(leaf);
    assert ElementText(es[1]) == es[1].name;
    hide PathText, ElementText;
    InterfaceText(leaf.name);
    TwoSteps(es[0], es[1]);
    assert es == [es[0], es[1]];
    InterfaceEnd(leaf.name, es[1].name);
    InterfaceEnds();
  }

  lemma Regroup(a: string, b: string, c: string)
    ensures a + (b + c) == a + b + c
  {
  }

  lemma SubinterfaceSteps(n: string, t: string)
    ensures "/" + ("interface[name=" + n + "]") + ("/" + "subinterface[index=0]" + t) ==
            "/interface[name=" + n + "]/subinterface[index=0]" + t
  {
    var i, s := "/interface[name=" + n, "/subinterface[index=0]";
    Regroup("/", "interface[name=" + n, "]");
    Regroup("/", "interface[name=", n);
    assert "/" + "interface[name=" == "/interface[name=";
    assert "/" + "subinterface[index=0]" == s;
    Regroup(i + "]", s, t);
    Regroup(i, "]", s);
    assert "]" + s == "]/subinterface[index=0]";
  }

  lemma SubinterfaceAt(n: string, rest: Path)
    ensures PathText([Entry("interface", "name", n), Entry("subinterface", "index", "0")] + rest) ==
            "/interface[name=" + n + "]/subinterface[index=0]" + PathText(rest)
  {
    var a, b := Entry("interface", "name", n), Entry("subinterface", "index", "0");
    InterfaceText(n);
    SubinterfaceText();
    hide ElementText;
    OneMoreStep(b, rest);
    OneMoreStep(a, [b] + rest);
    hide PathText;
    assert [a, b] + rest == [a] + ([b] + rest);
    SubinterfaceSteps(n, PathText(rest));
  }

  lemma OneStep(e: Element)
    requires e.keys == []
    ensures PathText([e]) == "/" + e.name
  {
    assert [e][1..] == [] && e.name + "" == e.name;
  }

  lemma SubinterfaceEnd(i: string, leaf: string)
    ensures i + "]/subinterface[index=0]" + ("/" + leaf) == i + ("]/subinterface[index=0]/" + leaf)
  {
    Regroup(i, "]/subinterface[index=0]", "/" + leaf);
    Regroup("]/subinterface[index=0]", "/", leaf);
    assert "]/subinterface[index=0]" + "/" == "]/subinterface[index=0]/";
  }

  lemma SubinterfaceLeafText(leaf: Leaf)
    requires leaf.SubinterfaceAdmin? || leaf.SubinterfaceOper?
    ensures PathText(LeafElements(leaf)) == TextOf(leaf)
  {
    var es := LeafElements(leaf);
    OneStep(es[2]);
    hide PathText, ElementText;
    SubinterfaceAt(leaf.name, [es[2]]);
    assert es == [es[0], es[1]] + [es[2]];
    SubinterfaceEnd("/interface[name=" + leaf.name, es[2].name);
    SubinterfaceEnds();
  }

  lemma SubinterfaceEnds()
    ensures "]/subinterface[index=0]/" + "admin-state" == "]/subinterface[index=0]/admin-state"
    ensures "]/subinterface[index=0]/" + "oper-state" == "]/subinterface[index=0]/oper-state"
  {
  }

  lemma AddressEnd(p: string)
    ensures "/" + "ipv4" + ("/" + ("address[ip-prefix=" + p + "]") + "/" + "status") ==
            "/ipv4/address[ip-prefix=" + p + "]/status"
  {
    var q := "address[ip-prefix=" + p;
    Regroup("/", q, "]");
    Regroup("/", "address[ip-prefix=", p);
    Regroup("/" + q, "]", "/");
    Regroup("/" + q, "]/", "status");
    Regroup("/ipv4", "/" + q, "]/status");
    Regroup("/ipv4", "/address[ip-prefix=", p);
    AddressLiterals();
  }

  lemma AddressLiterals()
    ensures "/" + "ipv4" == "/ipv4" && "/" + "address[ip-prefix=" == "/address[ip-prefix="
    ensures "]" + "/" == "]/" && "]/" + "status" == "]/status"
    ensures "/ipv4" + "/address[ip-prefix=" == "/ipv4/address[ip-prefix="
  {
  }

  lemma AddressTail(p: string)
    ensures PathText([Node("ipv4"), Entry("address", "ip-prefix", p), Node("status")]) ==
            "/ipv4/address[ip-prefix=" + p + "]/status"
  {
    var a, b, c := Node("ipv4"), Entry("address", "ip-prefix", p), Node("status");
    assert ElementText(a) == "ipv4" && ElementText(c) == "status";
    hide PathText, ElementText;
    PrefixText(p);
    TwoSteps(b, c);
    OneMoreStep(a, [b, c]);
    assert [a, b, c] == [a] + [b, c];
    AddressEnd(p);
  }

  lemma AddressSteps(i: string, p: string)
    ensures i + "]/subinterface[index=0]" + ("/ipv4/address[ip-prefix=" + p + "]/status") ==
            i + "]/subinterface[index=0]/ipv4/address[ip-prefix=" + p + "]/status"
  {
    var s, q := "]/subinterface[index=0]", "/ipv4/address[ip-prefix=";
    Regroup(i + s, q + p, "]/status");
    Regroup(i + s, q, p);
    Regroup(i, s, q);
    assert s + q == "]/subinterface[index=0]/ipv4/address[ip-prefix=";
  }

  lemma AddressLeafText(leaf: Leaf)
    requires leaf.AddressStatus?
    ensures PathText(LeafElements(leaf)) == TextOf(leaf)
  {
    var es := LeafElements(leaf);
    hide PathText, ElementText;
    SubinterfaceAt(leaf.name, es[2..]);
    assert es[2..] == [Node("ipv4"), Entry("address", "ip-prefix", leaf.prefix), Node("status")];
    AddressTail(leaf.prefix);
    assert es == [es[0], es[1]] + es[2..];
    AddressSteps("/interface[name=" + leaf.name, leaf.prefix);
  }

  lemma BgpSteps(t: string)
    ensures "/" + "network-instance[name=default]" + ("/" + "protocols" + ("/" + "bgp" + t)) ==
            "/network-instance[name=default]/protocols/bgp" + t
  {
    var i, p, b := "/network-instance[name=default]", "/protocols", "/bgp";
    assert "/" + "network-instance[name=default]" == i && "/" + "protocols" == p && "/" + "bgp" == b;
    Regroup(p, b, t);
    Regroup(i, p + b, t);
    assert p + b == "/protocols/bgp" && i + (p + b) == "/network-instance[name=default]/protocols/bgp";
  }

  lemma BgpAt(rest: Path)
    ensures PathText([Entry("network-instance", "name", "default"), Node("protocols"), Node("bgp")] + rest) ==
            "/network-instance[name=default]/protocols/bgp" + PathText(rest)
  {
    var a, b, c := Entry("network-instance", "name", "default"), Node("protocols"), Node("bgp");
    InstanceText();
    assert ElementText(b) == "protocols" && ElementText(c) == "bgp";
    hide ElementText;
    OneMoreStep(c, rest);
    OneMoreStep(b, [c] + rest);
    OneMoreStep(a, [b] + ([c] + rest));
    hide PathText;
    assert [a, b, c] + rest == [a] + ([b] + ([c] + rest));
    BgpSteps(PathText(rest));
  }

  lemma LocalAsnEnd()
    ensures "/network-instance[name=default]/protocols/bgp" + ("/" + "autonomous-system") == BGP + "autonomous-system"
  {
    Regroup("/network-instance[name=default]/protocols/bgp", "/", "autonomous-system");
    assert "/network-instance[name=default]/protocols/bgp" + "/" == BGP;
  }

  lemma LocalAsnText()
    ensures PathText(LeafElements(LocalAsn)) == TextOf(LocalAsn)
  {
    var es := LeafElements(LocalAsn);
    hide PathText, ElementText;
    BgpAt([es[3]]);
    OneStep(es[3]);
    assert es == [es[0], es[1], es[2]] + [es[3]];
    LocalAsnEnd();
  }

  lemma NeighborEnd(a: string, leaf: string)
    ensures "/" + ("neighbor[peer-address=" + a + "]") + "/" + leaf == "/neighbor[peer-address=" + a + "]/" + leaf
  {
    Regroup("/", "neighbor[peer-address=" + a, "]");
    Regroup("/", "neighbor[peer-address=", a);
    assert "/" + "neighbor[peer-address=" == "/neighbor[peer-address=";
    Regroup("/neighbor[peer-address=" + a, "]", "/");
    assert "]" + "/" == "]/";
  }

  lemma NeighborTail(a: string, e: Element)
    requires e.keys == []
    ensures PathText([Entry("neighbor", "peer-address", a), e]) == "/neighbor[peer-address=" + a + "]/" + e.name
  {
    var n := Entry("neighbor", "peer-address", a);
    assert ElementText(e) == e.name;
    hide PathText, ElementText;
    NeighborText(a);
    TwoSteps(n, e);
    NeighborEnd(a, e.name);
  }

  lemma NeighborSteps(a: string, leaf: string)
    ensures "/network-instance[name=default]/protocols/bgp" + ("/neighbor[peer-address=" + a + "]/" + leaf) ==
            BGP + "neighbor[peer-address=" + a + ("]/" + leaf)
  {
    var b, n := "/network-instance[name=default]/protocols/bgp", "/neighbor[peer-address=";
    Regroup(n + a, "]/", leaf);
    Regroup(b, n + a, "]/" + leaf);
    Regroup(b, n, a);
    assert n == "/" + "neighbor[peer-address=" && b + "/" == BGP;
    Regroup(b, "/", "neighbor[peer-address=");
  }

  lemma NeighborEnds()
    ensures "]/" + "peer-as" == "]/peer-as" && "]/" + "session-state" == "]/session-state"
  {
  }

  lemma NeighborLeafText(leaf: Leaf)
    requires leaf.PeerAs? || leaf.SessionState?
    ensures PathText(LeafElements(leaf)) == TextOf(leaf)
  {
    var es, a := LeafElements(leaf), leaf.address;
    hide PathText, ElementText;
    BgpAt([es[3], es[4]]);
    NeighborTail(a, es[4]);
    assert es == [es[0], es[1], es[2]] + [es[3], es[4]];
    NeighborSteps(a, es[4].name);
    NeighborEnds();
  }

  /** The builders' texts, wherever the keys need no escaping; nothing else is built. */
  lemma LeafPathIs(leaf: Leaf)
    ensures LeafPath(leaf) == if Addressable(leaf) then Some(TextOf(leaf)) else None
  {
    var es := LeafElements(leaf);
    PathPrints(es);
    hide PathText, ElementText, TextOf, Print, Plain;
    match leaf {
      case Hostname => HostnameText();
      case InterfaceAdmin(_) | InterfaceOper(_) => InterfaceLeafText(leaf);
      case SubinterfaceAdmin(_) | SubinterfaceOper(_) => SubinterfaceLeafText(leaf);
      case AddressStatus(_, _) => AddressLeafText(leaf);
      case LocalAsn => LocalAsnText();
      case PeerAs(_) | SessionState(_) => NeighborLeafText(leaf);
    }
  }
}
