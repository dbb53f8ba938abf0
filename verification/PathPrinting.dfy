/**
 Printing element lists and reading them back: parsing undoes printing, and module
 qualifiers, key order and the leading slash carry no meaning.
 */
module PathPrinting {
  import opened Outcomes
  import opened Sorting
  import opened Text
  import opened GnmiPath

  // ---------------------------------------------------------------- printing

  /** A name or key as it may be written: after module qualifiers with their colons, or after nothing. */
  datatype QName = QName(prefix: string, name: string)

  datatype Written = Written(qname: QName, keys: seq<(QName, string)>)

  predicate PlainName(name: string) {
    name != "" && Without(name, {'/', '[', ']', '=', ':'})
  }

  /** Empty, or ended by a colon. */
  predicate Qualifies(prefix: string) {
    prefix == "" || prefix[|prefix| - 1] == ':'
  }

  predicate GoodName(qname: QName) {
    PlainName(qname.name) && Qualifies(qname.prefix) && Without(qname.prefix, {'/', '[', ']'})
  }

  predicate GoodKey(qname: QName) {
    PlainName(qname.name) && Qualifies(qname.prefix) && Without(qname.prefix, {'[', ']', '='})
  }

  predicate GoodValue(value: string) {
    value != "" && Without(value, {'[', ']'})
  }

  /** Distinct plain key names and non-empty values without brackets. */
  predicate GoodElement(e: Written) {
    && GoodName(e.qname)
    && (forall k :: k in e.keys ==> GoodKey(k.0) && GoodValue(k.1))
    && DistinctKeys(Meaning(e.keys))
  }

  function Meaning(keys: seq<(QName, string)>): (r: seq<(string, string)>)
    ensures |r| == |keys| && forall i :: 0 <= i < |r| ==> r[i] == (keys[i].0.name, keys[i].1)
  {
    seq(|keys|, i requires 0 <= i < |keys| => (keys[i].0.name, keys[i].1))
  }

  function PrintName(qname: QName): string {
    qname.prefix + qname.name
  }

  function PrintKey(qname: QName, value: string): string {
    "[" + PrintName(qname) + "=" + value + "]"
  }

  function PrintKeys(keys: seq<(QName, string)>): string {
    if keys == [] then "" else PrintKey(keys[0].0, keys[0].1) + PrintKeys(keys[1..])
  }

  function PrintElement(e: Written): string {
    PrintName(e.qname) + PrintKeys(e.keys)
  }

  function PrintAll(es: seq<Written>): seq<string> {
    if es == [] then [] else [PrintElement(es[0])] + PrintAll(es[1..])
  }

  function Print(es: seq<Written>): string {
    Join(PrintAll(es))
  }

  /** What the parser should recover: local names, keys in order. */
  function Canonical(es: seq<Written>): Path {
    if es == [] then []
    else [Element(es[0].qname.name, Sort(Meaning(es[0].keys), PairLe))] + Canonical(es[1..])
  }

  lemma {:induction false} FindInConcat(a: string, c: char, b: string)
    requires c !in a
    ensures Find(a + [c] + b, c) == |a|
  {
    var s := a + [c] + b;
    assert s[|a|] == c;
    assert forall k :: 0 <= k < |a| ==> s[k] == a[k];
  }

  lemma FindAbsent(a: string, c: char)
    requires c !in a
    ensures Find(a, c) == |a|
  {
  }

  lemma {:induction false} AfterColonConcat(prefix: string, name: string)
    requires ':' !in name && Qualifies(prefix)
    ensures AfterColon(name) == name && AfterColon(prefix + name) == name
    decreases |prefix|
  {
    FindAbsent(name, ':');
    if prefix == "" {
      assert prefix + name == name;
    } else {
      var i := Find(prefix, ':');
      var s, rest := prefix + name, prefix[i + 1..];
      assert prefix[|prefix| - 1] == ':' && i < |prefix|;
      assert s == prefix[..i] + ":" + (rest + name);
      FindInConcat(prefix[..i], ':', rest + name);
      assert s[i + 1..] == rest + name;
      assert rest != "" ==> rest[|rest| - 1] == prefix[|prefix| - 1];
      AfterColonConcat(rest, name);
    }
  }

  lemma NameIsRead(qname: QName)
    requires PlainName(qname.name) && Qualifies(qname.prefix)
    ensures LocalName(PrintName(qname)) == Some(qname.name) && PrintName(qname) != ""
    ensures forall chars :: Without(qname.name, chars) && Without(qname.prefix, chars) ==>
              Without(PrintName(qname), chars)
  {
    AfterColonConcat(qname.prefix, qname.name);
  }

  lemma {:induction false} RunPlain(s: string, inside: bool)
    requires Without(s, {'[', ']'}) && (inside || '/' !in s)
    ensures Run(s, inside) == Some(inside)
  {
    if s != "" {
      assert Without(s[1..], {'[', ']'});
      RunPlain(s[1..], inside);
    }
  }

  lemma OneKeyIsRead(qname: QName, value: string, rest: string)
    requires GoodKey(qname) && GoodValue(value)
    ensures
      var s := PrintKey(qname, value) + rest;
      && ParseKeys(s) == Prepend([(qname.name, value)], ParseKeys(rest))
      && Run(s, false) == Run(rest, false)
  {
    var written := PrintName(qname);
    var expression := written + "=" + value;
    var s := "[" + written + "=" + value + "]" + rest;
    NameIsRead(qname);
    assert Without(qname.name, {'[', ']', '='}) && Without(written, {'[', ']', '='});
    assert s == "[" + expression + "]" + rest;
    KeyIsRead(written, value);
    ParseKeysCons(expression, rest);
    RunBracketed(expression, rest);
  }

  lemma ParseKeysCons(expression: string, rest: string)
    requires ']' !in expression && ParseKey(expression).Some?
    ensures ParseKeys("[" + expression + "]" + rest) == Prepend([ParseKey(expression).value], ParseKeys(rest))
  {
    var s := "[" + expression + "]" + rest;
    FindInConcat("[" + expression, ']', rest);
    var closing := Find(s, ']');
    assert s[0] == '[' && closing == |expression| + 1;
    assert s[1..closing] == expression && s[closing + 1..] == rest;
  }

  lemma KeyIsRead(written: string, value: string)
    requires LocalName(written).Some? && written != "" && Without(written, {'[', ']', '='}) && GoodValue(value)
    ensures ParseKey(written + "=" + value) == Some((LocalName(written).value, value))
  {
    var expression := written + "=" + value;
    FindInConcat(written, '=', value);
    assert expression[..|written|] == written && expression[|written| + 1..] == value;
  }

  lemma RunBracketed(expression: string, rest: string)
    requires Without(expression, {'[', ']'})
    ensures Run("[" + expression + "]" + rest, false) == Run(rest, false)
  {
    RunPlain(expression, true);
    assert Run("[", false) == Some(true) && Run("]", true) == Some(false);
    RunConcat("[", expression, false);
    RunConcat("[" + expression, "]", false);
    RunConcat("[" + expression + "]", rest, false);
  }

  lemma {:induction false} KeysAreRead(keys: seq<(QName, string)>)
    requires forall k :: k in keys ==> GoodKey(k.0) && GoodValue(k.1)
    ensures ParseKeys(PrintKeys(keys)) == Some(Meaning(keys))
    ensures Run(PrintKeys(keys), false) == Some(false)
  {
    if keys != [] {
      var qname, value, rest := keys[0].0, keys[0].1, PrintKeys(keys[1..]);
      assert keys[0] in keys && forall k :: k in keys[1..] ==> k in keys;
      assert PrintKeys(keys) == PrintKey(qname, value) + rest;
      assert Meaning(keys) == [(qname.name, value)] + Meaning(keys[1..]);
      hide ParseKeys, PrintKeys, PrintKey, GoodKey, GoodValue, Run, Meaning;
      KeysAreRead(keys[1..]);
      OneKeyIsRead(qname, value, rest);
    }
  }

  lemma ElementIsRead(e: Written)
    requires GoodElement(e)
    ensures ParseElement(PrintElement(e)) == Some(Element(e.qname.name, Sort(Meaning(e.keys), PairLe)))
    ensures Segment(PrintElement(e))
  {
    var qname, keys := PrintName(e.qname), PrintKeys(e.keys);
    NameIsRead(e.qname);
    NameStaysOutside(e.qname);
    KeysAreRead(e.keys);
    KeysStartWithBracket(e.keys);
    hide PrintName, PrintKeys, ParseKeys, LocalName, Meaning, Run, Find;
    RunPlain(qname, false);
    RunConcat(qname, keys, false);
    BracketEndsName(qname, keys);
  }

  lemma NameStaysOutside(qname: QName)
    requires GoodName(qname)
    ensures Without(PrintName(qname), {'/', '[', ']'})
  {
  }

  lemma KeysStartWithBracket(keys: seq<(QName, string)>)
    ensures PrintKeys(keys) == "" || PrintKeys(keys)[0] == '['
  {
  }

  lemma BracketEndsName(qname: string, keys: string)
    requires Without(qname, {'/', '[', ']'}) && (keys == "" || keys[0] == '[')
    ensures Find(qname + keys, '[') == |qname|
    ensures (qname + keys)[..|qname|] == qname && (qname + keys)[|qname|..] == keys
  {
    if keys == "" {
      assert qname + keys == qname;
      FindAbsent(qname, '[');
    } else {
      assert qname + keys == qname + ['['] + keys[1..];
      FindInConcat(qname, '[', keys[1..]);
    }
  }

  lemma {:induction false} ElementsAreRead(es: seq<Written>)
    requires forall e :: e in es ==> GoodElement(e)
    ensures ParseElements(PrintAll(es)) == Some(Canonical(es))
    ensures forall p :: p in PrintAll(es) ==> Segment(p)
  {
    if es != [] {
      assert es[0] in es;
      ElementIsRead(es[0]);
      ElementsAreRead(es[1..]);
      assert PrintAll(es)[1..] == PrintAll(es[1..]);
    }
  }

  lemma PrintedIsAbsolute(es: seq<Written>, allowRelative: bool)
    requires es != [] && forall e :: e in es ==> GoodElement(e)
    ensures Print(es) != "" && Absolute(Print(es), allowRelative) == Some(Print(es))
    ensures Absolute(Print(es)[1..], true) == Some(Print(es))
  {
    var path := Print(es);
    assert es[0] in es && PrintAll(es)[0] == PrintElement(es[0]);
    NameIsRead(es[0].qname);
    assert Without(es[0].qname.name, {'/', '[', ']'}) && Without(PrintName(es[0].qname), {'/', '[', ']'});
    assert path[0] == '/' && path[1] == PrintName(es[0].qname)[0] != '/';
    assert path == "/" + path[1..];
  }

  /**
   Printing any well-formed element list and parsing it gives back its local names and
   sorted keys, whatever module qualifiers were written; and so does the same text
   without its leading slash, where relative paths are allowed.
   */
  lemma ParseUndoesPrint(es: seq<Written>, allowRelative: bool)
    requires es != [] && forall e :: e in es ==> GoodElement(e)
    ensures Parse(Print(es), allowRelative) == Some(Canonical(es))
    ensures Parse(Print(es)[1..], true) == Some(Canonical(es))
  {
    ElementsAreRead(es);
    PrintedIsAbsolute(es, allowRelative);
    var path := Print(es);
    assert PrintAll(es) != [] && path == Join(PrintAll(es));
    hide Print, PrintAll, Join, Absolute, Segment, Canonical, GoodElement, Split, ParseElements;
    SplitIsTheInverseOfJoin(path, allowRelative, PrintAll(es));
    SplitIsTheInverseOfJoin(path[1..], true, PrintAll(es));
  }

  // ---------------------------------------------------------------- what parsing yields

  /** A parsed element: no qualifiers left, keys distinct and in order. */
  predicate Normal(e: Element) {
    && PlainName(e.name)
    && (forall k :: k in e.keys ==> PlainName(k.0) && GoodValue(k.1))
    && DistinctKeys(e.keys)
    && Sorted(e.keys, PairLe)
  }

  function Unqualified(keys: seq<(string, string)>): (r: seq<(QName, string)>)
    ensures Meaning(r) == keys
  {
    seq(|keys|, i requires 0 <= i < |keys| => (QName("", keys[i].0), keys[i].1))
  }

  /** The element as it prints without qualifiers. */
  function Plain(es: Path): seq<Written> {
    if es == [] then []
    else [Written(QName("", es[0].name), Unqualified(es[0].keys))] + Plain(es[1..])
  }

  lemma {:induction false} AfterColonIsLocal(s: string)
    ensures ':' !in AfterColon(s)
    ensures forall c :: c in AfterColon(s) ==> c in s
    decreases |s|
  {
    var i := Find(s, ':');
    if i < |s| {
      AfterColonIsLocal(s[i + 1..]);
    }
  }

  lemma {:induction false} KeysAreGood(remainder: string)
    requires ParseKeys(remainder).Some?
    ensures forall k :: k in ParseKeys(remainder).value ==> PlainName(k.0) && GoodValue(k.1)
    decreases |remainder|
  {
    if remainder != "" {
      var closing := Find(remainder, ']');
      var expression := remainder[1..closing];
      var eq := Find(expression, '=');
      AfterColonIsLocal(expression[..eq]);
      assert forall k :: 0 <= k < |expression| ==> expression[k] == remainder[k + 1];
      assert Without(expression, {'[', ']'});
      KeysAreGood(remainder[closing + 1..]);
    }
  }

  lemma SortKeepsDistinctKeys(keys: seq<(string, string)>)
    requires DistinctKeys(keys)
    ensures DistinctKeys(Sort(keys, PairLe))
  {
    var r := Sort(keys, PairLe);
    SameBagSameElements(r, keys);
    forall i, j | 0 <= i < j < |r| ensures r[i].0 != r[j].0 {
      assert r[i] in Elements(keys) && r[j] in Elements(keys);
      if r[i] == r[j] {
        TwiceInBag(r, i, j);
        var a, b := TwiceInSequence(keys, r[i]);
      }
    }
  }

  lemma ParsedElementIsNormal(element: string)
    requires ParseElement(element).Some?
    ensures Normal(ParseElement(element).value)
  {
    var bracket := Find(element, '[');
    var keys := ParseKeys(element[bracket..]).value;
    AfterColonIsLocal(element[..bracket]);
    KeysAreGood(element[bracket..]);
    PairOrder(Elements(keys));
    SortIsSorted(keys, PairLe);
    SortKeepsDistinctKeys(keys);
    SameBagSameElements(Sort(keys, PairLe), keys);
    forall k | k in Sort(keys, PairLe) ensures PlainName(k.0) && GoodValue(k.1) {
      assert k in Elements(keys);
    }
  }

  lemma {:induction false} ParsedElementsAreNormal(parts: seq<string>)
    requires ParseElements(parts).Some?
    ensures |ParseElements(parts).value| == |parts|
    ensures forall e :: e in ParseElements(parts).value ==> Normal(e)
  {
    if parts != [] {
      ParsedElementIsNormal(parts[0]);
      ParsedElementsAreNormal(parts[1..]);
    }
  }

  lemma NormalElementIsGood(e: Element)
    requires Normal(e)
    ensures Sort(Meaning(Unqualified(e.keys)), PairLe) == e.keys
    ensures GoodElement(Written(QName("", e.name), Unqualified(e.keys)))
  {
    PairOrder(Elements(e.keys));
    SortedIsFixed(e.keys, PairLe);
    forall k | k in Unqualified(e.keys) ensures GoodKey(k.0) && GoodValue(k.1) {
      assert (k.0.name, k.1) in e.keys;
    }
  }

  lemma {:induction false} NormalIsCanonical(es: Path)
    requires forall e :: e in es ==> Normal(e)
    ensures Canonical(Plain(es)) == es
    ensures forall e :: e in Plain(es) ==> GoodElement(e)
  {
    if es != [] {
      assert es[0] in es;
      NormalElementIsGood(es[0]);
      NormalIsCanonical(es[1..]);
      assert Plain(es)[1..] == Plain(es[1..]);
    }
  }

  /**
   Whatever text parses, its parse is in normal form, and printing that form without
   qualifiers is an absolute path with the same parse.
   */
  lemma ParseIsIdempotent(path: string, allowRelative: bool)
    requires Parse(path, allowRelative).Some?
    ensures
      var es := Parse(path, allowRelative).value;
      && es != []
      && (forall e :: e in es ==> Normal(e))
      && Parse(Print(Plain(es)), false) == Some(es)
  {
    var parts := Split(path, allowRelative).value;
    SplitIsTheInverseOfJoin(path, allowRelative, parts);
    ParsedElementsAreNormal(parts);
    var es := Parse(path, allowRelative).value;
    NormalIsCanonical(es);
    ParseUndoesPrint(Plain(es), false);
  }
}
