/** Ordinary comparisons that the server returns and the browser refuses. */
module RefusedDetails {
  import opened Outcomes
  import opened Text
  import opened Leaves
  import opened Plans
  import V = GetResponse
  import opened ExpectedStates
  import opened CheckKeys
  import opened Comparisons
  import opened Comparison
  import opened Agreement
  import opened ComparisonReturns
  import opened Numbers
  import opened Browser

  const HEALTHY_SOURCES := ObservationSources(
    Availability("nautobot", SourceHealthy, "2026-01-01T00:00:00Z", None, "", ""),
    Availability("device", SourceHealthy, "2026-01-01T00:00:00Z", None, "", ""))

  /** The comparison part of a device detail, made of one comparison of its device. */
  function DetailOf(c: DeviceComparison): ComparedDetail {
    ComparedDetail(
      c.deviceName,
      ConfigurationObservation(Some(c.configuration.status), HEALTHY_SOURCES, Some(c.configuration), c.observedAt),
      OperationalObservation(c.operational.status, HEALTHY_SOURCES, Some(c.operational), c.observedAt))
  }

  lemma DetailOfIsValid(e: ExpectedState, state: map<string, V.Value>, at: string)
    requires Compare(e, state, at).Ok?
    ensures ValidDetail(DetailOf(Compare(e, state, at).value))
  {
    hide ValidationPlan, ConfigurationPlan, OperationalPlan, LeafPath, Reading, Map;
    hide ValidConfigurationResult, ValidOperationalResult, AllowedValue;
  }

  /**
   A comparison the server returns is refused by the browser exactly when some check of its two
   plans cannot be read there.
   */
  lemma ComparisonRefusedExactlyWhen(e: ExpectedState, state: map<string, V.Value>, at: string)
    requires Compare(e, state, at).Ok?
    ensures IsComparedDetail(DetailJson(DetailOf(Compare(e, state, at).value))) <==>
              && (forall x :: x in ConfigurationPlan(e) ==> Readable(ConfigurationCheckOf(x, state)))
              && (forall x :: x in OperationalPlan(e) ==> Readable(OperationalCheckOf(x, state)))
  {
    hide ConfigurationPlan, OperationalPlan, Compare, ConfigurationCheckOf, OperationalCheckOf, Readable, ValidDetail;
    hide IsComparedDetail, DetailJson, ValidConfigurationResult, ValidOperationalResult;
    DetailOfIsValid(e, state, at);
    ComparedChecks(e, state, at);
    var c, cp, op := Compare(e, state, at).value, ConfigurationPlan(e), OperationalPlan(e);
    DetailAcceptedExactlyWhen(DetailOf(c));
    assert ChecksOf(DetailOf(c)) == c.configuration.checks + c.operational.checks;
    forall x | x in cp ensures ConfigurationCheckOf(x, state) in c.configuration.checks {
      var i :| 0 <= i < |cp| && cp[i] == x;
    }
    forall x | x in op ensures OperationalCheckOf(x, state) in c.operational.checks {
      var i :| 0 <= i < |op| && op[i] == x;
    }
  }

  // ---------------------------------------------------------------- one device

  /** A device with a loopback, one interface and one neighbour. */
  function Leaf1(): ExpectedState {
    ExpectedState("leaf1", "system0", "10.0.0.1/32", [Interface("ethernet-1/1", "10.1.0.0/31", true)], 65001,
                  [Neighbor("10.1.0.1", 65002)])
  }

  lemma LoopbackPrefixHasDots()
    ensures Count("10.0.0.1/32", '.') == 3
  {
  }

  lemma RoutedPrefixHasDots()
    ensures Count("10.1.0.0/31", '.') == 3
  {
  }

  lemma LoopbackPrefixIsProper()
    ensures PrefixText("10.0.0.1/32")
  {
    LoopbackPrefixHasDots();
    hide Count;
  }

  lemma RoutedPrefixIsProper()
    ensures PrefixText("10.1.0.0/31")
  {
    RoutedPrefixHasDots();
    hide Count;
  }

  lemma LoopbackPrefixIsHost()
    ensures EndsWith("10.0.0.1/32", "/32")
  {
    assert "10.0.0.1/32"[8..] == "/32";
  }

  lemma NamesAreTrimmed()
    ensures BoundedName("system0")
  {
    assert Trim("system0") == "system0";
  }

  lemma InterfaceNameIsTrimmed()
    ensures BoundedName("ethernet-1/1")
  {
    assert Trim("ethernet-1/1") == "ethernet-1/1";
  }

  lemma NamesDiffer()
    ensures "system0" != "ethernet-1/1"
  {
    assert |"system0"| != |"ethernet-1/1"|;
  }

  lemma SmallStateIsAccepted(e: ExpectedState)
    requires |e.routed| == 1 && |e.neighbors| == 1 && e.loopbackName != e.routed[0].name
    requires BoundedName(e.loopbackName) && PrefixText(e.loopbackPrefix) && EndsWith(e.loopbackPrefix, "/32")
    requires BoundedName(e.routed[0].name) && PrefixText(e.routed[0].prefix)
    requires Asn(e.localAsn) && PathKey(e.neighbors[0].address) && Asn(e.neighbors[0].remoteAsn)
    ensures Accepted(e) && e.loopbackName !in NamesOf(e.routed)
  {
    hide PrefixText, BoundedName, EndsWith, PathKey, Asn;
    assert CheckWeight(e.routed) == (if e.routed[0].requireUp then 5 else 3) + CheckWeight(e.routed[1..]);
  }

  lemma LeafIsAccepted()
    ensures Accepted(Leaf1()) && Leaf1().loopbackName !in NamesOf(Leaf1().routed)
  {
    hide PrefixText, BoundedName, EndsWith, Accepted, NamesOf;
    LoopbackPrefixIsProper();
    RoutedPrefixIsProper();
    LoopbackPrefixIsHost();
    NamesAreTrimmed();
    InterfaceNameIsTrimmed();
    NamesDiffer();
    assert PathKey("10.1.0.1");
    hide PathKey;
    SmallStateIsAccepted(Leaf1());
  }

  // ---------------------------------------------------------------- its names fit

  predicate ShortKey(s: string) {
    PathKey(s) && |s| <= 40
  }

  predicate ShortLeaf(leaf: Leaf) {
    match leaf
    case Hostname | LocalAsn => true
    case InterfaceAdmin(n) => ShortKey(n)
    case InterfaceOper(n) => ShortKey(n)
    case SubinterfaceAdmin(n) => ShortKey(n)
    case SubinterfaceOper(n) => ShortKey(n)
    case AddressStatus(n, p) => ShortKey(n) && ShortKey(p)
    case PeerAs(a) => ShortKey(a)
    case SessionState(a) => ShortKey(a)
  }

  predicate ShortNames(e: ExpectedState) {
    && (forall i :: i in e.Interfaces() ==> ShortKey(i.name) && ShortKey(i.prefix))
    && (forall n :: n in e.neighbors ==> ShortKey(n.address))
  }

  lemma ShortCheckNames(leaf: Leaf)
    requires ShortLeaf(leaf)
    ensures BoundedText(CheckName(leaf), 128)
  {
    assert CheckName(leaf)[0] in {'s', 'i', 'a', 'r'};
  }

  lemma ShortKeysFit(x: Expectation)
    requires ShortLeaf(x.leaf)
    ensures BoundedText(ConfigurationKey(x), 128) && BoundedText(OperationalKey(x), 128)
  {
    ShortCheckNames(x.leaf);
    if x.leaf.AddressStatus? {
      assert ConfigurationKey(x)[0] == OperationalKey(x)[0] == 'a';
    }
  }

  lemma ShortPlan(e: ExpectedState, x: Expectation)
    requires ShortNames(e) && (x in ConfigurationPlan(e) || x in OperationalPlan(e) || x in ValidationPlan(e))
    ensures ShortLeaf(x.leaf)
  {
    hide ShortKey, ConfigurationPlan, OperationalPlan, ValidationPlan;
    InConfiguration(e, x);
    InOperation(e, x);
    InPlan(e, x);
  }

  lemma ShortNamesFit(e: ExpectedState)
    requires ShortNames(e) && BoundedText(e.deviceName, 128)
    ensures FittingTexts(e)
  {
    hide BoundedText, ConfigurationPlan, OperationalPlan, ShortNames, ConfigurationKey, OperationalKey, ShortLeaf;
    forall x | x in ConfigurationPlan(e) || x in OperationalPlan(e)
      ensures BoundedText(ConfigurationKey(x), 128) && BoundedText(OperationalKey(x), 128)
    {
      ShortPlan(e, x);
      ShortKeysFit(x);
    }
  }

  lemma LeafKeysAreShort()
    ensures ShortKey("system0") && ShortKey("ethernet-1/1") && ShortKey("10.1.0.1")
  {
  }

  lemma LeafPrefixesAreShort()
    ensures ShortKey("10.0.0.1/32") && ShortKey("10.1.0.0/31")
  {
  }

  lemma LeafIsShort()
    ensures ShortNames(Leaf1()) && BoundedText("leaf1", 128)
  {
    LeafKeysAreShort();
    LeafPrefixesAreShort();
    hide ShortKey;
    assert "leaf1"[0] == 'l';
  }

  // ---------------------------------------------------------------- one odd reading

  /** An observation of one leaf only; the comparison takes every other one for absent. */
  function Observing(leaf: Leaf, v: V.Value): map<string, V.Value>
    requires LeafPath(leaf).Some?
  {
    map[LeafPath(leaf).value := v]
  }

  lemma OnlyThatLeafReads(leaf: Leaf, v: V.Value, other: Leaf)
    requires LeafPath(leaf).Some?
    ensures Reading(other, Observing(leaf, v)) == if other == leaf then v else V.Null
  {
    if LeafPath(other) == LeafPath(leaf) {
      LeafPathInjective(other, leaf);
    }
    hide LeafPath;
  }

  lemma SingleReadingAllowed(e: ExpectedState, leaf: Leaf, v: V.Value, x: Expectation)
    requires LeafPath(leaf).Some? && AllowedValue(IntegerLeaf(leaf), v) && ShortNames(e) && x in ValidationPlan(e)
    ensures LeafPath(x.leaf).Some? && AllowedValue(IntegerLeaf(x.leaf), Reading(x.leaf, Observing(leaf, v)))
  {
    hide ValidationPlan, ShortNames, Reading, Observing, BoundedText;
    ShortPlan(e, x);
    OnlyThatLeafReads(leaf, v, x.leaf);
  }

  lemma ShortStateCompares(e: ExpectedState, leaf: Leaf, v: V.Value, at: string)
    requires Accepted(e) && e.loopbackName !in NamesOf(e.routed) && ShortNames(e) && BoundedText(e.deviceName, 128)
    requires LeafPath(leaf).Some? && AllowedValue(IntegerLeaf(leaf), v)
    ensures Compare(e, Observing(leaf, v), at).Ok?
  {
    hide Accepted, NamesOf, ValidationPlan, ShortNames, BoundedText, Compare, Reading, FittingTexts, Observing;
    hide LeafPath, AllowedValue;
    ShortNamesFit(e);
    forall x | x in ValidationPlan(e)
      ensures LeafPath(x.leaf).Some? && AllowedValue(IntegerLeaf(x.leaf), Reading(x.leaf, Observing(leaf, v)))
    {
      SingleReadingAllowed(e, leaf, v, x);
    }
    ComparisonReturnsExactlyWhen(e, Observing(leaf, v), at);
  }

  lemma SingleReadingCompares(leaf: Leaf, v: V.Value, at: string)
    requires leaf in {Hostname, LocalAsn} && AllowedValue(IntegerLeaf(leaf), v)
    ensures LeafPath(leaf).Some? && Compare(Leaf1(), Observing(leaf, v), at).Ok?
  {
    hide *;
    LeafIsAccepted();
    LeafIsShort();
    DevicePathsAreBuilt();
    ShortStateCompares(Leaf1(), leaf, v, at);
  }

  lemma DevicePathsAreBuilt()
    ensures LeafPath(Hostname).Some? && LeafPath(LocalAsn).Some? && Leaf1().deviceName == "leaf1"
  {
  }

  // ---------------------------------------------------------------- refused

  lemma UnreadableIsRefused(e: ExpectedState, state: map<string, V.Value>, at: string, x: Expectation)
    requires Compare(e, state, at).Ok? && x in ConfigurationPlan(e) && !Readable(ConfigurationCheckOf(x, state))
    ensures var detail := DetailOf(Compare(e, state, at).value);
            ValidDetail(detail) && !IsComparedDetail(DetailJson(detail))
  {
    hide *;
    DetailOfIsValid(e, state, at);
    ComparisonRefusedExactlyWhen(e, state, at);
  }

  lemma HostIsPlanned()
    ensures Expectation(Hostname, V.Text("leaf1")) in ConfigurationPlan(Leaf1())
    ensures Expectation(LocalAsn, V.Whole(65001)) in ConfigurationPlan(Leaf1())
  {
    hide ConfigurationPlan;
    InConfiguration(Leaf1(), Expectation(Hostname, V.Text("leaf1")));
    InConfiguration(Leaf1(), Expectation(LocalAsn, V.Whole(65001)));
  }

  const MARK := V.Text("\U{feff}")

  lemma MarkIsSpaceToOne()
    ensures BoundedText(MARK.text, 128) && !BrowserText(MARK.text, 128)
  {
    assert !PythonSpace(MARK.text[0]);
  }

  /** A check whose leaf reads as this value has it as its observed value. */
  lemma ObservedInCheck(x: Expectation, v: V.Value)
    requires LeafPath(x.leaf).Some? && !x.leaf.AddressStatus?
    ensures ConfigurationCheckOf(x, Observing(x.leaf, v)).observed == v
    ensures ConfigurationCheckOf(x, Observing(x.leaf, v)).expected == x.expected
  {
    hide Observing, Reading, ConfigurationKey;
    OnlyThatLeafReads(x.leaf, v, x.leaf);
  }

  /** A byte-order mark read as the host name is text to Python and white space to the browser. */
  lemma ValidDetailIsRefused(at: string)
    ensures var comparison := Compare(Leaf1(), Observing(Hostname, MARK), at);
            && comparison.Ok? && ValidDetail(DetailOf(comparison.value))
            && !IsComparedDetail(DetailJson(DetailOf(comparison.value)))
  {
    hide Compare, Leaf1, ConfigurationPlan, IsComparedDetail, DetailJson, DetailOf, ValidDetail, BoundedText;
    hide BrowserText, Observing, ConfigurationCheckOf, LeafPath;
    var host := Expectation(Hostname, V.Text("leaf1"));
    MarkIsSpaceToOne();
    HostIsPlanned();
    SingleReadingCompares(Hostname, MARK, at);
    ObservedInCheck(host, MARK);
    UnreadableIsRefused(Leaf1(), Observing(Hostname, MARK), at, host);
  }

  /** A local ASN too large for a double arrives there as infinity. */
  lemma HugeNumberIsRefused(at: string)
    ensures var comparison := Compare(Leaf1(), Observing(LocalAsn, V.Whole(2 * FirstInfinite())), at);
            && comparison.Ok? && ValidDetail(DetailOf(comparison.value))
            && !IsComparedDetail(DetailJson(DetailOf(comparison.value)))
  {
    hide Compare, Leaf1, ConfigurationPlan, IsComparedDetail, DetailJson, DetailOf, ValidDetail, FirstInfinite;
    hide Rounded, Observing, ConfigurationCheckOf, LeafPath, TextsReadable;
    var huge, asn := V.Whole(2 * FirstInfinite()), Expectation(LocalAsn, V.Whole(65001));
    HugeIsInfinite(huge.whole);
    HostIsPlanned();
    SingleReadingCompares(LocalAsn, huge, at);
    ObservedInCheck(asn, huge);
    UnreadableIsRefused(Leaf1(), Observing(LocalAsn, huge), at, asn);
  }
}
