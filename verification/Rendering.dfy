/**
 The order in which a configuration is rendered: interfaces by natural name, neighbours by address,
 peer groups by number.
 */
module Rendering {
  import opened Outcomes
  import opened Text
  import opened Sorting
  import opened Plans

  // ---------------------------------------------------------------- natural keys (ASCII names)

  datatype Component = Number(value: nat) | Letters(text: string)

  predicate Digit(c: char) {
    '0' <= c <= '9'
  }

  /** The length of the longest prefix whose characters are all digits, or all not. */
  function RunLength(s: string, digits: bool): (n: nat)
    ensures n <= |s|
    ensures forall k :: 0 <= k < n ==> Digit(s[k]) == digits
    ensures n < |s| ==> Digit(s[n]) != digits
  {
    if s == "" || Digit(s[0]) != digits then 0 else 1 + RunLength(s[1..], digits)
  }

  /** The text before the first digit, the digits from there, and what follows them. */
  function Split3(s: string): (r: (string, string, string))
    ensures r.1 != "" ==> |r.2| < |s|
  {
    var n := RunLength(s, false);
    var tail := s[n..];
    var d := RunLength(tail, true);
    (s[..n], tail[..d], tail[d..])
  }

  lemma CutTwice(s: string, n: nat, d: nat)
    requires n <= |s| && d <= |s[n..]|
    ensures s == s[..n] + (s[n..][..d] + s[n..][d..])
  {
    assert s[n..] == s[n..][..d] + s[n..][d..];
  }

  lemma RunIs(s: string, digits: bool)
    ensures var n := RunLength(s, digits);
            && (forall k :: 0 <= k < n ==> Digit(s[..n][k]) == digits)
            && (n < |s| ==> Digit(s[n..][0]) != digits)
  {
  }

  lemma SplitParts(s: string)
    ensures var r := Split3(s);
            && s == r.0 + (r.1 + r.2) && (forall k :: 0 <= k < |r.0| ==> !Digit(r.0[k])) && !AllDigits(r.0)
            && NoDigitAtStart(r.2) && (r.1 == "" ==> r.0 == s) && (r.1 != "" ==> AllDigits(r.1))
  {
    var n := RunLength(s, false);
    var tail := s[n..];
    var d := RunLength(tail, true);
    CutTwice(s, n, d);
    RunIs(s, false);
    RunIs(tail, true);
    hide Digit;
    assert s[..n] != "" ==> !Digit(s[..n][0]);
    assert tail[d..] != "" ==> !Digit(tail[d..][0]);
    assert d == 0 ==> tail == "" by { if tail != "" { assert Digit(tail[0]); } }
    assert tail == "" ==> s[..n] == s;
  }

  predicate AllDigits(s: string) {
    s != "" && forall k :: 0 <= k < |s| ==> Digit(s[k])
  }

  predicate NoDigitAtEnd(s: string) {
    s == "" || !Digit(s[|s| - 1])
  }

  predicate NoDigitAtStart(s: string) {
    s == "" || !Digit(s[0])
  }

  /** A name split at its digit runs, which stay in the result; text and digits alternate, text first and last. */
  function Runs(s: string): (r: seq<string>)
    ensures r != []
    decreases |s|
  {
    var (text, digits, rest) := Split3(s);
    if digits == "" then [text] else [text, digits] + Runs(rest)
  }

  function ValueOf(digits: string): nat
    requires forall k :: 0 <= k < |digits| ==> Digit(digits[k])
  {
    if digits == "" then 0
    else
      assert Digit(digits[|digits| - 1]);
      10 * ValueOf(digits[..|digits| - 1]) + (digits[|digits| - 1] as int - '0' as int)
  }

  function LowerChar(c: char): char {
    if 'A' <= c <= 'Z' then (c as int + 32) as char else c
  }

  function Lower(s: string): (r: string)
    ensures |r| == |s|
  {
    if s == "" then "" else [LowerChar(s[0])] + Lower(s[1..])
  }

  function ComponentOf(run: string): Component {
    if AllDigits(run) then Number(ValueOf(run)) else Letters(Lower(run))
  }

  function Components(name: string): seq<Component> {
    Map(Runs(name), ComponentOf)
  }

  method NaturalComponents(name: string) returns (components: seq<Component>)
    ensures components == Components(name)
  {
    hide ComponentOf, Runs;
    var runs := Runs(name);
    components := [];
    for i := 0 to |runs|
      invariant |components| == i && forall j :: 0 <= j < i ==> components[j] == ComponentOf(runs[j])
    {
      components := components + [ComponentOf(runs[i])];
    }
  }

  function Joined(runs: seq<string>): string {
    if runs == [] then "" else runs[0] + Joined(runs[1..])
  }

  lemma JoinedStep(a: string, b: string, rest: seq<string>)
    ensures Joined([a, b] + rest) == a + (b + Joined(rest))
  {
    var all := [a, b] + rest;
    assert all[1..] == [b] + rest && all[1..][1..] == rest;
  }

  /** Splitting loses nothing: the runs make up the name again. */
  lemma {:induction false} RunsRejoin(s: string)
    ensures Joined(Runs(s)) == s
    decreases |s|
  {
    SplitParts(s);
    hide Split3, AllDigits, NoDigitAtStart;
    var (text, digits, rest) := Split3(s);
    if digits == "" {
      assert Joined([text]) == text + Joined([]);
    } else {
      RunsRejoin(rest);
      JoinedStep(text, digits, Runs(rest));
    }
  }

  /** Text and digit runs alternate, so two keys never hold a number against a text. */
  lemma {:induction false} RunsAlternate(s: string)
    ensures |Runs(s)| % 2 == 1
    ensures forall i :: 0 <= i < |Runs(s)| ==> (AllDigits(Runs(s)[i]) <==> i % 2 == 1)
    decreases |s|
  {
    SplitParts(s);
    hide Split3, AllDigits, NoDigitAtStart;
    var (text, digits, rest) := Split3(s);
    if digits != "" {
      RunsAlternate(rest);
      var tail, all := Runs(rest), Runs(s);
      forall i | 0 <= i < |all| ensures AllDigits(all[i]) <==> i % 2 == 1 {
        if i >= 2 {
          assert all[i] == tail[i - 2];
        }
      }
    }
  }

  // ---------------------------------------------------------------- the order of names

  /** Numbers sort before text, as the tags 0 and 1 do. */
  predicate ComponentLe(a: Component, b: Component) {
    match (a, b)
    case (Number(m), Number(n)) => m <= n
    case (Letters(s), Letters(t)) => StringLe(s, t)
    case (Number(_), Letters(_)) => true
    case (Letters(_), Number(_)) => false
  }

  /** Tuple comparison: the first difference decides, and a prefix comes first. */
  predicate ComponentsLe(a: seq<Component>, b: seq<Component>) {
    a == [] || (b != [] && if a[0] == b[0] then ComponentsLe(a[1..], b[1..]) else ComponentLe(a[0], b[0]))
  }

  /** By components, then by the lower-case name, then by the name itself. */
  predicate NaturalLe(a: string, b: string) {
    if Components(a) != Components(b) then ComponentsLe(Components(a), Components(b))
    else if Lower(a) != Lower(b) then StringLe(Lower(a), Lower(b))
    else StringLe(a, b)
  }

  lemma ComponentOrder(a: Component, b: Component, c: Component)
    ensures ComponentLe(a, b) || ComponentLe(b, a)
    ensures ComponentLe(a, b) && ComponentLe(b, a) ==> a == b
    ensures ComponentLe(a, b) && ComponentLe(b, c) ==> ComponentLe(a, c)
  {
    if a.Letters? && b.Letters? {
      StringLeTotal(a.text, b.text);
      if c.Letters? && StringLe(a.text, b.text) && StringLe(b.text, c.text) {
        StringLeTransitive(a.text, b.text, c.text);
      }
    }
  }

  lemma {:induction false} ComponentsTotal(a: seq<Component>, b: seq<Component>)
    ensures ComponentsLe(a, b) || ComponentsLe(b, a)
    ensures ComponentsLe(a, b) && ComponentsLe(b, a) ==> a == b
  {
    if a != [] && b != [] {
      hide ComponentLe;
      ComponentOrder(a[0], b[0], a[0]);
      ComponentsTotal(a[1..], b[1..]);
      assert a == [a[0]] + a[1..] && b == [b[0]] + b[1..];
    }
  }

  lemma {:induction false} ComponentsTransitive(a: seq<Component>, b: seq<Component>, c: seq<Component>)
    requires ComponentsLe(a, b) && ComponentsLe(b, c)
    ensures ComponentsLe(a, c)
  {
    if a != [] {
      hide ComponentLe;
      ComponentOrder(a[0], b[0], c[0]);
      ComponentOrder(b[0], c[0], a[0]);
      ComponentOrder(a[0], c[0], b[0]);
      if a[0] == b[0] && b[0] == c[0] {
        ComponentsTransitive(a[1..], b[1..], c[1..]);
      }
    }
  }

  lemma NaturalTotal(a: string, b: string)
    ensures NaturalLe(a, b) || NaturalLe(b, a)
    ensures NaturalLe(a, b) && NaturalLe(b, a) ==> a == b
  {
    hide Components, Lower, StringLe, ComponentsLe;
    ComponentsTotal(Components(a), Components(b));
    StringLeTotal(Lower(a), Lower(b));
    StringLeTotal(a, b);
  }

  lemma NaturalTransitive(a: string, b: string, c: string)
    requires NaturalLe(a, b) && NaturalLe(b, c)
    ensures NaturalLe(a, c)
  {
    hide Components, Lower, StringLe, ComponentsLe;
    var x, y, z := Components(a), Components(b), Components(c);
    ComponentsTotal(x, y);
    ComponentsTotal(y, z);
    ComponentsTotal(x, z);
    if ComponentsLe(x, y) && ComponentsLe(y, z) {
      ComponentsTransitive(x, y, z);
    }
    StringLeTotal(Lower(a), Lower(b));
    StringLeTotal(Lower(b), Lower(c));
    StringLeTotal(Lower(a), Lower(c));
    if StringLe(Lower(a), Lower(b)) && StringLe(Lower(b), Lower(c)) {
      StringLeTransitive(Lower(a), Lower(b), Lower(c));
    }
    if StringLe(a, b) && StringLe(b, c) {
      StringLeTransitive(a, b, c);
    }
  }

  /** Natural order is a total order on names: no two names tie. */
  lemma NaturalOrder(names: set<string>)
    ensures OrderOn(NaturalLe, names)
  {
    hide NaturalLe;
    forall a, b ensures NaturalLe(a, b) || NaturalLe(b, a) {
      NaturalTotal(a, b);
    }
    forall a, b | NaturalLe(a, b) && NaturalLe(b, a) ensures a == b {
      NaturalTotal(a, b);
    }
    forall a, b, c | NaturalLe(a, b) && NaturalLe(b, c) ensures NaturalLe(a, c) {
      NaturalTransitive(a, b, c);
    }
  }

  // ---------------------------------------------------------------- numbers count as numbers

  lemma {:induction false} RunLengthIs(s: string, n: nat, digits: bool)
    requires n <= |s| && (forall k :: 0 <= k < n ==> Digit(s[k]) == digits) && (n < |s| ==> Digit(s[n]) != digits)
    ensures RunLength(s, digits) == n
  {
  }

  /** The three parts are determined by what they are. */
  lemma SplitIs(text: string, digits: string, rest: string)
    requires (forall k :: 0 <= k < |text| ==> !Digit(text[k])) && AllDigits(digits) && NoDigitAtStart(rest)
    ensures Split3(text + (digits + rest)) == (text, digits, rest)
  {
    var s := text + (digits + rest);
    RunLengthIs(s, |text|, false);
    assert s[|text|..] == digits + rest;
    RunLengthIs(digits + rest, |digits|, true);
    assert s[..|text|] == text && (digits + rest)[..|digits|] == digits && (digits + rest)[|digits|..] == rest;
  }

  lemma RunsOf(text: string, digits: string, rest: string)
    requires (forall k :: 0 <= k < |text| ==> !Digit(text[k])) && AllDigits(digits) && NoDigitAtStart(rest)
    ensures Runs(text + (digits + rest)) == [text, digits] + Runs(rest)
  {
    SplitIs(text, digits, rest);
    hide Split3;
  }

  lemma RestKeepsEnd(text: string, digits: string, rest: string)
    requires NoDigitAtEnd(text + (digits + rest)) && AllDigits(digits) && NoDigitAtStart(rest)
    ensures NoDigitAtEnd(rest) && forall x: string :: NoDigitAtStart(rest + x)
  {
    var p, tail := text + (digits + rest), digits + rest;
    assert p[|p| - 1] == tail[|tail| - 1];
    MoreThanDigits(digits, rest);
    assert tail[|tail| - 1] == rest[|rest| - 1];
  }

  lemma MoreThanDigits(digits: string, rest: string)
    requires AllDigits(digits) && !Digit((digits + rest)[|digits + rest| - 1])
    ensures rest != ""
  {
  }

  lemma Regroup(text: string, digits: string, rest: string, more: string)
    ensures text + (digits + rest) + more == text + (digits + (rest + more))
  {
  }

  lemma RunsAroundText(p: string, d: string, s: string)
    requires Split3(p).1 == "" && AllDigits(d) && NoDigitAtStart(s)
    ensures Runs(p + (d + s)) == Runs(p) + [d] + Runs(s)
  {
    SplitParts(p);
    RunsOf(p, d, s);
    assert Runs(p) == [p];
    hide *;
    RunsAssociate(p, d, [], "", Runs(s));
  }

  lemma RunsAroundStep(text: string, digits: string, rest: string, d: string, s: string)
    requires (forall k :: 0 <= k < |text| ==> !Digit(text[k])) && AllDigits(digits) && NoDigitAtStart(rest)
    requires NoDigitAtStart(rest + (d + s)) && Runs(rest + (d + s)) == Runs(rest) + [d] + Runs(s)
    ensures Runs(text + (digits + rest) + (d + s)) == Runs(text + (digits + rest)) + [d] + Runs(s)
  {
    RunsOf(text, digits, rest);
    RunsOf(text, digits, rest + (d + s));
    hide *;
    Regroup(text, digits, rest, d + s);
    RunsAssociate(text, digits, Runs(rest), d, Runs(s));
  }

  /** A digit run between two texts is split off as one run. */
  lemma {:induction false} RunsAround(p: string, d: string, s: string)
    requires NoDigitAtEnd(p) && AllDigits(d) && NoDigitAtStart(s)
    ensures Runs(p + (d + s)) == Runs(p) + [d] + Runs(s)
    decreases |p|
  {
    SplitParts(p);
    var (text, digits, rest) := Split3(p);
    if digits == "" {
      RunsAroundText(p, d, s);
    } else {
      RestKeepsEnd(text, digits, rest);
      hide *;
      RunsAround(rest, d, s);
      RunsAroundStep(text, digits, rest, d, s);
    }
  }

  lemma RunsAssociate(a: string, b: string, x: seq<string>, d: string, y: seq<string>)
    ensures [a, b] + (x + [d] + y) == [a, b] + x + [d] + y
    ensures [a, b] + y == [a] + [b] + y
  {
  }

  lemma {:induction false} CommonPrefix(
    p: seq<Component>, a: Component, b: Component, s: seq<Component>, t: seq<Component>)
    requires a != b
    ensures ComponentsLe(p + [a] + s, p + [b] + t) <==> ComponentLe(a, b)
    ensures p + [a] + s != p + [b] + t
  {
    var x, y := p + [a] + s, p + [b] + t;
    assert x[|p|] == a && y[|p|] == b;
    if p != [] {
      assert x[0] == p[0] == y[0] && x[1..] == p[1..] + [a] + s && y[1..] == p[1..] + [b] + t;
      CommonPrefix(p[1..], a, b, s, t);
    }
  }

  lemma ComponentsAround(p: string, d: string, s: string)
    requires NoDigitAtEnd(p) && AllDigits(d) && NoDigitAtStart(s)
    ensures Components(p + (d + s)) == Components(p) + [Number(ValueOf(d))] + Components(s)
  {
    RunsAround(p, d, s);
    hide Runs, ValueOf, Lower;
    MapConcat(Runs(p) + [d], Runs(s), ComponentOf);
    MapConcat(Runs(p), [d], ComponentOf);
    assert Map([d], ComponentOf) == [ComponentOf(d)];
  }

  /** Names that differ first in a number are ordered by its value: port 2 comes before port 10. */
  lemma NumbersOrderByValue(p: string, d: string, e: string, s: string, t: string)
    requires NoDigitAtEnd(p) && AllDigits(d) && AllDigits(e) && NoDigitAtStart(s) && NoDigitAtStart(t)
    requires ValueOf(d) < ValueOf(e)
    ensures NaturalLe(p + (d + s), p + (e + t)) && !NaturalLe(p + (e + t), p + (d + s))
  {
    ComponentsAround(p, d, s);
    ComponentsAround(p, e, t);
    CommonPrefix(Components(p), Number(ValueOf(d)), Number(ValueOf(e)), Components(s), Components(t));
    CommonPrefix(Components(p), Number(ValueOf(e)), Number(ValueOf(d)), Components(t), Components(s));
    hide Components, ValueOf, Lower, StringLe, ComponentsLe;
  }

  function DecimalDigit(n: nat): (c: char)
    requires n < 10
    ensures Digit(c) && c as int - '0' as int == n
  {
    "0123456789"[n]
  }

  /** The decimal digits of a number. */
  function Decimal(n: nat): string {
    (if n < 10 then "" else Decimal(n / 10)) + [DecimalDigit(n % 10)]
  }

  predicate OnlyDigits(s: string) {
    forall k :: 0 <= k < |s| ==> Digit(s[k])
  }

  lemma LastDigit(s: string, c: char)
    requires OnlyDigits(s) && Digit(c)
    ensures OnlyDigits(s + [c]) && s + [c] != ""
    ensures ValueOf(s + [c]) == 10 * ValueOf(s) + (c as int - '0' as int)
  {
    assert (s + [c])[..|s|] == s;
  }

  lemma NoDigits()
    ensures OnlyDigits("") && ValueOf("") == 0
  {
  }

  /** A digit run counts as the number it is written for. */
  lemma {:induction false} ValueOfDecimal(n: nat)
    ensures OnlyDigits(Decimal(n)) && Decimal(n) != "" && ValueOf(Decimal(n)) == n
  {
    hide ValueOf, DecimalDigit, Digit, OnlyDigits;
    if n < 10 {
      NoDigits();
      LastDigit("", DecimalDigit(n));
    } else {
      ValueOfDecimal(n / 10);
      LastDigit(Decimal(n / 10), DecimalDigit(n % 10));
    }
  }

  lemma ZeroBefore(s: string, c: char)
    ensures "0" + (s + [c]) == "0" + s + [c]
  {
  }

  lemma LeadingZeroStep(s: string, c: char)
    requires OnlyDigits(s) && OnlyDigits("0" + s) && Digit(c) && ValueOf("0" + s) == ValueOf(s)
    ensures OnlyDigits(s + [c]) && OnlyDigits("0" + (s + [c])) && ValueOf("0" + (s + [c])) == ValueOf(s + [c])
  {
    hide ValueOf, Digit, OnlyDigits;
    LastDigit(s, c);
    LastDigit("0" + s, c);
    ZeroBefore(s, c);
  }

  lemma ZeroAlone()
    ensures OnlyDigits("") && OnlyDigits("0" + "") && ValueOf("0" + "") == ValueOf("")
  {
    NoDigits();
    LastDigit("", '0');
    assert "0" + "" == "" + ['0'];
    hide ValueOf, OnlyDigits;
  }

  /** Leading zeros do not count. */
  lemma {:induction false} LeadingZero(s: string)
    requires OnlyDigits(s)
    ensures OnlyDigits("0" + s) && ValueOf("0" + s) == ValueOf(s)
  {
    if s == "" {
      ZeroAlone();
    } else {
      var init, last := s[..|s| - 1], s[|s| - 1];
      assert OnlyDigits(init) && Digit(last);
      hide ValueOf, Digit, OnlyDigits;
      LeadingZero(init);
      LeadingZeroStep(init, last);
      assert s == init + [last];
    }
  }

  /** Upper-case letters, and nothing else, become the lower-case letters in their place. */
  lemma {:induction false} LowerIs(s: string)
    ensures forall k :: 0 <= k < |s| ==>
              if 'A' <= s[k] <= 'Z' then 'a' <= Lower(s)[k] <= 'z' && Lower(s)[k] - 'a' == s[k] - 'A'
              else Lower(s)[k] == s[k]
  {
    if s != "" {
      LowerIs(s[1..]);
      forall k | 0 <= k < |s|
        ensures if 'A' <= s[k] <= 'Z' then 'a' <= Lower(s)[k] <= 'z' && Lower(s)[k] - 'a' == s[k] - 'A'
                else Lower(s)[k] == s[k]
      {
        if k > 0 {
          assert s[k] == s[1..][k - 1] && Lower(s)[k] == Lower(s[1..])[k - 1];
        }
      }
    }
  }

  lemma WordsCompare(x: string, y: string)
    requires x != y
    ensures ComponentsLe([Letters(x)], [Letters(y)]) <==> StringLe(x, y)
  {
    assert [Letters(x)][0] == Letters(x) && [Letters(y)][0] == Letters(y);
    hide StringLe;
  }

  /** Names without digits are ordered without regard to case, and by their spelling when that makes no difference. */
  lemma WordsOrderWithoutCase(a: string, b: string)
    requires (forall k :: 0 <= k < |a| ==> !Digit(a[k])) && (forall k :: 0 <= k < |b| ==> !Digit(b[k]))
    ensures NaturalLe(a, b) <==> if Lower(a) == Lower(b) then StringLe(a, b) else StringLe(Lower(a), Lower(b))
  {
    hide Digit, Lower, StringLe, AllDigits, ComponentsLe, ComponentOf, Runs;
    WordIsOneRun(a);
    WordIsOneRun(b);
    assert Components(a) == [Letters(Lower(a))] && Components(b) == [Letters(Lower(b))];
    if Lower(a) != Lower(b) {
      assert [Letters(Lower(a))][0] != [Letters(Lower(b))][0];
      WordsCompare(Lower(a), Lower(b));
    }
  }

  lemma WordIsOneRun(s: string)
    requires forall k :: 0 <= k < |s| ==> !Digit(s[k])
    ensures Runs(s) == [s] && !AllDigits(s) && Map([s], ComponentOf) == [Letters(Lower(s))]
  {
    RunLengthIs(s, |s|, false);
    assert s[|s|..] == "" && s[..|s|] == s;
  }

  /** Names that differ only in leading zeros or case still have an order: by lower case, then by spelling. */
  lemma TiesBreakBySpelling(a: string, b: string)
    requires Components(a) == Components(b)
    ensures Lower(a) != Lower(b) ==> (NaturalLe(a, b) <==> StringLe(Lower(a), Lower(b)))
    ensures Lower(a) == Lower(b) ==> (NaturalLe(a, b) <==> StringLe(a, b))
  {
    hide Components, Lower, StringLe;
  }

  // ---------------------------------------------------------------- the render context

  datatype Interface = Interface(name: string, description: string, ipv4: string)

  /** `address` is the number of the neighbour's IPv4 address. */
  datatype Neighbor = Neighbor(address: nat, remoteAsn: nat, description: Option<string>)

  datatype Intent = Intent(
    name: string, loopbackAddress: string, loopbackDescription: Option<string>, localAsn: nat,
    interfaces: seq<Interface>, neighbors: seq<Neighbor>)

  /** What the template is given, before each value is quoted. */
  datatype Context = Context(
    hostname: string, loopbackAddress: string, loopbackDescription: Option<string>, localAsn: nat,
    interfaces: seq<Interface>, peerGroups: seq<nat>, neighbors: seq<Neighbor>)

  predicate InterfaceLe(a: Interface, b: Interface) {
    NaturalLe(a.name, b.name)
  }

  predicate NeighborLe(a: Neighbor, b: Neighbor) {
    a.address <= b.address
  }

  predicate AsnLe(a: nat, b: nat) {
    a <= b
  }

  /** What the intent model demands of its lists. */
  predicate ValidIntent(i: Intent) {
    && (forall a, b :: a in i.interfaces && b in i.interfaces && a.name == b.name ==> a == b)
    && (forall a, b :: a in i.neighbors && b in i.neighbors && a.address == b.address ==> a == b)
  }

  function WithoutRepeats(s: seq<nat>): (r: seq<nat>)
    ensures forall x :: x in r <==> x in s
    ensures Distinct(r)
  {
    if s == [] then []
    else
      var rest := WithoutRepeats(s[..|s| - 1]);
      assert s == s[..|s| - 1] + [s[|s| - 1]];
      if s[|s| - 1] in rest then rest else rest + [s[|s| - 1]]
  }

  function AsnOf(n: Neighbor): nat {
    n.remoteAsn
  }

  function ContextOf(i: Intent): Context {
    Context(
      i.name, i.loopbackAddress, i.loopbackDescription, i.localAsn,
      Sort(i.interfaces, InterfaceLe), Sort(WithoutRepeats(Map(i.neighbors, AsnOf)), AsnLe), Sort(i.neighbors,
          NeighborLe))
  }

  lemma InterfacesAreOrdered(i: Intent)
    requires ValidIntent(i)
    ensures OrderOn(InterfaceLe, Elements(i.interfaces)) && OrderOn(NeighborLe, Elements(i.neighbors))
  {
    hide NaturalLe;
    forall a: Interface, b: Interface ensures InterfaceLe(a, b) || InterfaceLe(b, a) {
      NaturalTotal(a.name, b.name);
    }
    forall a, b | a in i.interfaces && b in i.interfaces && InterfaceLe(a, b) && InterfaceLe(b, a) ensures a == b {
      NaturalTotal(a.name, b.name);
    }
    forall a: Interface, b: Interface, c: Interface | InterfaceLe(a, b) && InterfaceLe(b, c) ensures InterfaceLe(a, c) {
      NaturalTransitive(a.name, b.name, c.name);
    }
  }

  lemma DistinctBag(s: seq<nat>, t: seq<nat>)
    requires Distinct(s) && Distinct(t) && forall x :: x in s <==> x in t
    ensures multiset(s) == multiset(t)
  {
    forall x ensures multiset(s)[x] == multiset(t)[x] {
      OnceInBag(s, x);
      OnceInBag(t, x);
    }
  }

  lemma OnceInBag(s: seq<nat>, x: nat)
    requires Distinct(s)
    ensures multiset(s)[x] == if x in s then 1 else 0
  {
    if multiset(s)[x] >= 2 {
      var i, j := TwiceInSequence(s, x);
      assert false;
    }
    assert x in s <==> x in multiset(s);
  }

  /**
   The whole render context depends only on which interfaces and neighbours there are: any
   order of either gives the identical context.
   */
  lemma ContextForgetsOrder(a: Intent, b: Intent)
    requires ValidIntent(a)
    requires multiset(a.interfaces) == multiset(b.interfaces) && multiset(a.neighbors) == multiset(b.neighbors)
    requires b == a.(interfaces := b.interfaces, neighbors := b.neighbors)
    ensures ContextOf(a) == ContextOf(b)
  {
    InterfacesAreOrdered(a);
    SortForgetsOrder(a.interfaces, b.interfaces, InterfaceLe);
    SortForgetsOrder(a.neighbors, b.neighbors, NeighborLe);
    SameAsns(a.neighbors, b.neighbors);
    hide OrderOn, Sort, InterfaceLe, NeighborLe;
    DistinctBag(WithoutRepeats(Map(a.neighbors, AsnOf)), WithoutRepeats(Map(b.neighbors, AsnOf)));
    AsnOrder(Elements(WithoutRepeats(Map(a.neighbors, AsnOf))));
    SortForgetsOrder(WithoutRepeats(Map(a.neighbors, AsnOf)), WithoutRepeats(Map(b.neighbors, AsnOf)), AsnLe);
  }

  lemma AsnOrder(asns: set<nat>)
    ensures OrderOn(AsnLe, asns)
  {
  }

  lemma SameAsns(s: seq<Neighbor>, t: seq<Neighbor>)
    requires multiset(s) == multiset(t)
    ensures forall x :: x in Map(s, AsnOf) <==> x in Map(t, AsnOf)
  {
    SameBagSameElements(s, t);
    forall x ensures x in Map(s, AsnOf) <==> x in Map(t, AsnOf) {
      MappedAsn(s, x);
      MappedAsn(t, x);
      assert forall n :: n in s <==> n in Elements(s);
      assert forall n :: n in t <==> n in Elements(t);
    }
  }

  lemma MappedAsn(s: seq<Neighbor>, x: nat)
    ensures x in Map(s, AsnOf) <==> exists n :: n in s && n.remoteAsn == x
  {
    var m := Map(s, AsnOf);
    if x in m {
      var i :| 0 <= i < |m| && m[i] == x;
      assert s[i] in s;
    }
    if n :| n in s && n.remoteAsn == x {
      var i :| 0 <= i < |s| && s[i] == n;
      assert m[i] == x;
    }
  }

  /** Every peer group a neighbour is put in exists, once. */
  lemma PeerGroupsAreThoseUsed(i: Intent)
    ensures var c := ContextOf(i);
            && (forall x :: x in c.peerGroups <==> exists n :: n in i.neighbors && n.remoteAsn == x)
            && Distinct(c.peerGroups)
  {
    var asns := WithoutRepeats(Map(i.neighbors, AsnOf));
    var groups := Sort(asns, AsnLe);
    SameBagSameElements(groups, asns);
    forall x ensures x in groups <==> exists n :: n in i.neighbors && n.remoteAsn == x {
      MappedAsn(i.neighbors, x);
      assert x in groups <==> x in Elements(groups);
      assert x in asns <==> x in Elements(asns);
    }
    forall p, q | 0 <= p < q < |groups| ensures groups[p] != groups[q] {
      if groups[p] == groups[q] {
        TwiceInBag(groups, p, q);
        OnceInBag(asns, groups[p]);
        assert false;
      }
    }
  }

  lemma {:induction false} SortedByName(s: seq<Interface>)
    requires Sorted(s, InterfaceLe)
    ensures forall i, j :: 0 <= i < j < |s| ==> NaturalLe(s[i].name, s[j].name)
  {
    hide NaturalLe;
    assert forall i, j :: 0 <= i < j < |s| ==> InterfaceLe(s[i], s[j]);
  }

  /**
   What is rendered is the whole intent: every interface once for each time it is listed, in natural
   order of name, every neighbour likewise in order of address, the peer groups ascending, and the
   device's own name, loopback and number.
   */
  lemma ContextIsTheIntent(i: Intent)
    requires ValidIntent(i)
    ensures var c := ContextOf(i);
            && multiset(c.interfaces) == multiset(i.interfaces) && multiset(c.neighbors) == multiset(i.neighbors)
            && (forall k, m :: 0 <= k < m < |c.interfaces| ==>
                  NaturalLe(c.interfaces[k].name, c.interfaces[m].name))
            && (forall k, m :: 0 <= k < m < |c.neighbors| ==> c.neighbors[k].address <= c.neighbors[m].address)
            && (forall k, m :: 0 <= k < m < |c.peerGroups| ==> c.peerGroups[k] < c.peerGroups[m])
            && c.hostname == i.name && c.localAsn == i.localAsn
            && c.loopbackAddress == i.loopbackAddress && c.loopbackDescription == i.loopbackDescription
  {
    InterfacesAreOrdered(i);
    SortIsSorted(i.interfaces, InterfaceLe);
    SortedByName(Sort(i.interfaces, InterfaceLe));
    SortIsSorted(i.neighbors, NeighborLe);
    GroupsAscend(i);
    hide InterfaceLe, NaturalLe, Sort, OrderOn, WithoutRepeats;
    var neighbors := Sort(i.neighbors, NeighborLe);
    assert forall k, m :: 0 <= k < m < |neighbors| ==> NeighborLe(neighbors[k], neighbors[m]);
  }

  lemma GroupsAscend(i: Intent)
    ensures var groups := ContextOf(i).peerGroups;
            forall k, m :: 0 <= k < m < |groups| ==> groups[k] < groups[m]
  {
    PeerGroupsAreThoseUsed(i);
    var asns := WithoutRepeats(Map(i.neighbors, AsnOf));
    AsnOrder(Elements(asns));
    SortIsSorted(asns, AsnLe);
    hide Sort, WithoutRepeats, InterfaceLe, NeighborLe;
    var groups := ContextOf(i).peerGroups;
    assert forall k, m :: 0 <= k < m < |groups| ==> AsnLe(groups[k], groups[m]);
  }
}
