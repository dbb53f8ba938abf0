/** Which texts are paths: exactly those that some element list prints as. */
module PathReading {
  import opened Outcomes
  import opened Sorting
  import opened Text
  import opened GnmiPath
  import opened PathPrinting

  lemma PrefixEnds(head: string, p: string, name: string)
    requires head != "" && head[|head| - 1] == ':' && Qualifies(p)
    ensures Qualifies(head + p) && head + (p + name) == head + p + name
  {
    if p != "" {
      assert (head + p)[|head + p| - 1] == p[|p| - 1];
    } else {
      assert head + p == head;
    }
  }

  /** What comes before the last colon, that colon included. */
  lemma {:induction false} QualifierOf(s: string) returns (prefix: string)
    ensures s == prefix + AfterColon(s) && Qualifies(prefix)
    decreases |s|
  {
    var i := Find(s, ':');
    if i == |s| {
      prefix := "";
      assert s == "" + s;
    } else {
      var head, rest := s[..i + 1], s[i + 1..];
      assert s == head + rest && head[|head| - 1] == ':';
      var p := QualifierOf(rest);
      PrefixEnds(head, p, AfterColon(rest));
      prefix := head + p;
    }
  }

  lemma PartsWithout(a: string, b: string, chars: set<char>)
    requires Without(a + b, chars)
    ensures Without(a, chars)
  {
    assert forall k :: 0 <= k < |a| ==> a[k] == (a + b)[k];
  }

  lemma NameWritten(s: string, chars: set<char>) returns (q: QName)
    requires LocalName(s).Some? && Without(s, chars)
    ensures PrintName(q) == s && Some(q.name) == LocalName(s) && PlainName(q.name)
    ensures Qualifies(q.prefix) && Without(q.prefix, chars)
  {
    var prefix := QualifierOf(s);
    AfterColonIsLocal(s);
    PartsWithout(prefix, AfterColon(s), chars);
    q := QName(prefix, AfterColon(s));
  }

  lemma KeyWritten(expression: string) returns (q: QName, v: string)
    requires ParseKey(expression).Some? && ']' !in expression
    ensures expression == PrintName(q) + "=" + v && ParseKey(expression) == Some((q.name, v))
    ensures GoodKey(q) && GoodValue(v)
  {
    var eq := Find(expression, '=');
    assert Without(expression[..eq], {'[', ']', '='});
    hide LocalName;
    q := NameWritten(expression[..eq], {'[', ']', '='});
    v := expression[eq + 1..];
    assert expression == expression[..eq] + "=" + expression[eq + 1..];
  }

  lemma CutBrackets(s: string, closing: nat)
    requires 1 <= closing < |s| && s[0] == '[' && s[closing] == ']'
    ensures s == "[" + s[1..closing] + "]" + s[closing + 1..]
  {
    assert s[..1] == "[" && s[closing..closing + 1] == "]";
    assert s == s[..1] + s[1..closing] + s[closing..closing + 1] + s[closing + 1..];
  }

  lemma Bracketed(remainder: string)
    requires remainder != "" && ParseKeys(remainder).Some?
    ensures var closing := Find(remainder, ']');
            && 1 <= closing < |remainder| && remainder[0] == '[' && remainder[closing] == ']'
            && ParseKey(remainder[1..closing]).Some? && ParseKeys(remainder[closing + 1..]).Some?
            && ParseKeys(remainder).value ==
                 [ParseKey(remainder[1..closing]).value] + ParseKeys(remainder[closing + 1..]).value
  {
    hide ParseKey;
  }

  lemma NoBracketInside(s: string, closing: nat)
    requires closing == Find(s, ']') && 1 <= closing < |s|
    ensures ']' !in s[1..closing]
  {
  }

  lemma OneKeyMeant(q: QName, v: string, rest: seq<(QName, string)>)
    ensures Meaning([(q, v)] + rest) == [(q.name, v)] + Meaning(rest)
    ensures GoodKey(q) && GoodValue(v) && (forall k :: k in rest ==> GoodKey(k.0) && GoodValue(k.1)) ==>
              forall k :: k in [(q, v)] + rest ==> GoodKey(k.0) && GoodValue(k.1)
  {
    hide GoodKey, GoodValue;
  }

  lemma {:induction false} KeysWritten(remainder: string) returns (keys: seq<(QName, string)>)
    requires ParseKeys(remainder).Some?
    ensures PrintKeys(keys) == remainder && Meaning(keys) == ParseKeys(remainder).value
    ensures forall k :: k in keys ==> GoodKey(k.0) && GoodValue(k.1)
    decreases |remainder|
  {
    if remainder == "" {
      keys := [];
    } else {
      hide ParseKey, GoodKey, GoodValue, ParseKeys, PrintKeys, Meaning, PrintName, Find;
      Bracketed(remainder);
      var closing := Find(remainder, ']');
      CutBrackets(remainder, closing);
      NoBracketInside(remainder, closing);
      var expression, after := remainder[1..closing], remainder[closing + 1..];
      assert |after| < |remainder|;
      var rest := KeysWritten(after);
      var q, v := KeyWritten(expression);
      keys := [(q, v)] + rest;
      OneKeyPrinted(q, v, rest, expression, after);
      OneKeyMeant(q, v, rest);
    }
  }

  lemma OneKeyPrinted(q: QName, v: string, rest: seq<(QName, string)>, expression: string, after: string)
    requires expression == PrintName(q) + "=" + v && PrintKeys(rest) == after
    ensures PrintKeys([(q, v)] + rest) == "[" + expression + "]" + after
  {
    hide PrintName;
    assert ([(q, v)] + rest)[1..] == rest;
    assert "[" + PrintName(q) + "=" + v + "]" == "[" + (PrintName(q) + "=" + v) + "]";
  }

  /** A piece without an opening bracket has no closing one and no slash. */
  lemma {:induction false} OutsideBrackets(s: string)
    requires Run(s, false).Some? && '[' !in s
    ensures Without(s, {'/', '[', ']'})
  {
    if s != "" {
      assert s[0] in s && forall c :: c in s[1..] ==> c in s;
      OutsideBrackets(s[1..]);
      assert forall k :: 0 < k < |s| ==> s[k] == s[1..][k - 1];
    }
  }

  lemma ElementParts(element: string)
    requires ParseElement(element).Some?
    ensures var bracket := Find(element, '[');
            && LocalName(element[..bracket]).Some? && ParseKeys(element[bracket..]).Some?
            && DistinctKeys(ParseKeys(element[bracket..]).value)
            && ParseElement(element).value ==
                 Element(LocalName(element[..bracket]).value, Sort(ParseKeys(element[bracket..]).value, PairLe))
  {
    hide LocalName, ParseKeys, Sort;
  }

  lemma NameIsOutside(element: string)
    requires Segment(element)
    ensures Without(element[..Find(element, '[')], {'/', '[', ']'})
  {
    var bracket := Find(element, '[');
    assert element == element[..bracket] + element[bracket..];
    RunConcat(element[..bracket], element[bracket..], false);
    OutsideBrackets(element[..bracket]);
  }

  lemma WrittenTogether(q: QName, keys: seq<(QName, string)>)
    requires PlainName(q.name) && Qualifies(q.prefix) && Without(q.prefix, {'/', '[', ']'})
    requires (forall k :: k in keys ==> GoodKey(k.0) && GoodValue(k.1)) && DistinctKeys(Meaning(keys))
    ensures GoodElement(Written(q, keys)) && PrintElement(Written(q, keys)) == PrintName(q) + PrintKeys(keys)
  {
    hide PlainName, Qualifies, Without, GoodKey, GoodValue, Meaning, PrintName, PrintKeys, DistinctKeys;
  }

  lemma ElementWritten(element: string) returns (w: Written)
    requires ParseElement(element).Some? && Segment(element)
    ensures GoodElement(w) && PrintElement(w) == element
    ensures Element(w.qname.name, Sort(Meaning(w.keys), PairLe)) == ParseElement(element).value
  {
    hide LocalName, ParseKeys, PrintKeys, PrintName, ParseElement, Segment, Find, Sort, GoodValue, GoodKey, GoodElement;
    hide PrintElement, PlainName, Qualifies, Without, Meaning, DistinctKeys;
    ElementParts(element);
    NameIsOutside(element);
    var bracket := Find(element, '[');
    var keys := KeysWritten(element[bracket..]);
    var q := NameWritten(element[..bracket], {'/', '[', ']'});
    WrittenTogether(q, keys);
    assert element == element[..bracket] + element[bracket..];
    w := Written(q, keys);
  }

  lemma FirstWritten(w: Written, rest: seq<Written>)
    ensures PrintAll([w] + rest) == [PrintElement(w)] + PrintAll(rest)
    ensures Canonical([w] + rest) == [Element(w.qname.name, Sort(Meaning(w.keys), PairLe))] + Canonical(rest)
  {
    hide PrintElement, Meaning;
    assert ([w] + rest)[1..] == rest;
  }

  lemma {:induction false} ElementsWritten(parts: seq<string>) returns (ws: seq<Written>)
    requires ParseElements(parts).Some? && forall p :: p in parts ==> Segment(p)
    ensures (forall w :: w in ws ==> GoodElement(w)) && PrintAll(ws) == parts
    ensures Canonical(ws) == ParseElements(parts).value
  {
    if parts == [] {
      ws := [];
    } else {
      hide Segment, GoodElement, PrintElement, ParseElement, PrintAll, Canonical;
      assert parts[0] in parts && forall p :: p in parts[1..] ==> p in parts;
      var w := ElementWritten(parts[0]);
      var rest := ElementsWritten(parts[1..]);
      ws := [w] + rest;
      FirstWritten(w, rest);
      assert parts == [parts[0]] + parts[1..];
    }
  }

  lemma {:induction false} PrintedLength(ws: seq<Written>)
    ensures |PrintAll(ws)| == |ws|
  {
    if ws != [] {
      PrintedLength(ws[1..]);
    }
  }

  /**
   A text is taken for a path exactly when it is, with its leading slash, the printed form of some
   well-formed elements, module qualifiers included; and the result is then their local names and
   sorted keys.
   */
  lemma ParsesExactlyWhen(path: string, allowRelative: bool, es: Path)
    ensures Parse(path, allowRelative) == Some(es) <==>
            exists ws ::
              && ws != [] && (forall w :: w in ws ==> GoodElement(w)) && Canonical(ws) == es
              && (path == Print(ws) || (allowRelative && "/" + path == Print(ws)))
  {
    hide GoodElement, PrintAll, ParseElements, Segment, Canonical;
    if Parse(path, allowRelative) == Some(es) {
      var parts := Split(path, allowRelative).value;
      SplitIsTheInverseOfJoin(path, allowRelative, parts);
      var ws := ElementsWritten(parts);
      PrintedLength(ws);
      assert Absolute(path, allowRelative) == Some(Print(ws));
    }
    if ws :| ws != [] && (forall w :: w in ws ==> GoodElement(w)) && Canonical(ws) == es
             && (path == Print(ws) || (allowRelative && "/" + path == Print(ws))) {
      ParseUndoesPrint(ws, allowRelative);
      if path != Print(ws) {
        assert Print(ws)[1..] == path by { assert ("/" + path)[1..] == path; }
      }
    }
  }
}
