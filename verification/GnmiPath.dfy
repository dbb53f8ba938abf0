/**
 The string form of a gNMI path: elements separated by slashes, each a name and
 bracketed keys, names optionally qualified by a module. The splitter and the
 element parser are loops; `Parts` and `ParseElement` say what they compute, and
 splitting is the one way to undo joining.
 */
module GnmiPath {
  import opened Outcomes
  import opened Sorting
  import opened Text

  datatype Element = Element(name: string, keys: seq<(string, string)>)

  type Path = seq<Element>

  // ---------------------------------------------------------------- splitting

  /** The bracket state after one character; None on a bracket error or a separating slash. */
  function Step(c: char, inside: bool): Option<bool> {
    if c == '[' then if inside then None else Some(true)
    else if c == ']' then if inside then Some(false) else None
    else if c == '/' && !inside then None
    else Some(inside)
  }

  function Run(s: string, inside: bool): Option<bool> {
    if s == "" then Some(inside)
    else
      var next :- Step(s[0], inside);
      Run(s[1..], next)
  }

  /** A non-empty piece with matched, unnested brackets and slashes only inside them. */
  predicate Segment(p: string) {
    p != "" && Run(p, false) == Some(false)
  }

  /** How far the first piece of `s` reaches; None when its brackets are wrong. */
  function Cut(s: string, inside: bool): (n: Option<nat>)
    ensures n.Some? ==> n.value <= |s| && (n.value < |s| ==> s[n.value] == '/')
  {
    if s == "" then if inside then None else Some(0)
    else if s[0] == '/' && !inside then Some(0)
    else
      var next :- Step(s[0], inside);
      var n :- Cut(s[1..], next);
      Some(n + 1)
  }

  lemma {:induction false} CutIsSegment(s: string, inside: bool)
    requires Cut(s, inside).Some?
    ensures Run(s[..Cut(s, inside).value], inside) == Some(false)
  {
    var n := Cut(s, inside).value;
    if n > 0 {
      CutIsSegment(s[1..], Step(s[0], inside).value);
      assert s[..n][1..] == s[1..][..n - 1];
    }
  }

  /** The pieces of a path whose leading slash has been removed. */
  function Parts(s: string): Option<seq<string>>
    decreases |s|
  {
    var n :- Cut(s, false);
    if n == 0 then None
    else if n == |s| then Some([s])
    else
      Prepend([s[..n]], Parts(s[n + 1..]))
  }

  function Join(parts: seq<string>): string {
    if parts == [] then "" else "/" + (parts[0] + Join(parts[1..]))
  }

  /** The absolute form of a path, when it has one. */
  function Absolute(path: string, allowRelative: bool): Option<string> {
    if path == "" || path == "/" then None
    else if path[0] == '/' then Some(path)
    else if allowRelative then Some("/" + path)
    else None
  }

  function Split(path: string, allowRelative: bool): Option<seq<string>> {
    var absolute :- Absolute(path, allowRelative);
    Parts(absolute[1..])
  }

  lemma {:induction false} RunConcat(a: string, b: string, inside: bool)
    ensures Run(a + b, inside) == if Run(a, inside).Some? then Run(b, Run(a, inside).value) else None
  {
    if a == "" {
      assert a + b == b;
    } else {
      assert (a + b)[1..] == a[1..] + b;
      if Step(a[0], inside).Some? {
        RunConcat(a[1..], b, Step(a[0], inside).value);
      }
    }
  }

  lemma {:induction false} CutAfterRun(a: string, s: string, inside: bool)
    requires Run(a, inside).Some?
    ensures
      var rest := Cut(s, Run(a, inside).value);
      Cut(a + s, inside) == if rest.Some? then Some(|a| + rest.value) else None
  {
    if a == "" {
      assert a + s == s;
    } else {
      assert (a + s)[1..] == a[1..] + s;
      CutAfterRun(a[1..], s, Step(a[0], inside).value);
    }
  }

  lemma OnlyPart(only: string)
    requires Segment(only)
    ensures Parts(only) == Some([only])
  {
    CutAfterRun(only, "", false);
    assert only + "" == only;
  }

  lemma FirstPart(first: string, tail: string, rest: seq<string>)
    requires Segment(first) && tail != "" && tail[0] == '/' && Parts(tail[1..]) == Some(rest)
    ensures Parts(first + tail) == Some([first] + rest)
  {
    CutAfterRun(first, tail, false);
    assert Cut(tail, false) == Some(0);
    hide Run, Cut, Step;
    assert (first + tail)[|first| + 1..] == tail[1..];
    assert (first + tail)[..|first|] == first;
  }

  lemma AfterFirst(slash: string, rest: string)
    requires |slash| == 1
    ensures (slash + rest)[1..] == rest && slash + rest != "" && (slash + rest)[0] == slash[0]
  {
    assert forall i :: 0 <= i < |rest| ==> (slash + rest)[1..][i] == rest[i];
  }

  lemma JoinTail(parts: seq<string>)
    requires parts != []
    ensures Join(parts) != "" && Join(parts)[0] == '/' && Join(parts)[1..] == parts[0] + Join(parts[1..])
  {
    AfterFirst("/", parts[0] + Join(parts[1..]));
  }

  lemma {:induction false} PartsOfJoin(parts: seq<string>)
    requires parts != [] && forall p :: p in parts ==> Segment(p)
    ensures Parts(Join(parts)[1..]) == Some(parts)
  {
    hide Cut, Run, Step, Parts, Segment, Join;
    JoinTail(parts);
    assert parts[0] in parts;
    var tail := parts[1..];
    assert parts == [parts[0]] + tail;
    if tail == [] {
      JoinOnly(parts[0], tail);
      assert parts == [parts[0]];
    } else {
      assert forall p :: p in tail ==> p in parts;
      JoinTail(tail);
      PartsOfJoin(tail);
      FirstPart(parts[0], Join(tail), tail);
    }
  }

  lemma JoinOnly(only: string, none: seq<string>)
    requires Segment(only) && none == []
    ensures only + Join(none) == only && Parts(only) == Some([only])
  {
    OnlyPart(only);
  }

  lemma JoinCons(first: string, rest: seq<string>)
    ensures Join([first] + rest) == "/" + (first + Join(rest))
  {
    assert ([first] + rest)[1..] == rest;
  }

  lemma {:induction false} JoinOfParts(s: string, parts: seq<string>)
    requires Parts(s) == Some(parts)
    ensures parts != [] && "/" + s == Join(parts) && forall p :: p in parts ==> Segment(p)
    decreases |s|
  {
    var n := Cut(s, false).value;
    CutIsSegment(s, false);
    if n == |s| {
      assert s[..n] == s;
      JoinCons(s, []);
    } else {
      var piece, after := s[..n], s[n + 1..];
      var rest := Parts(after).value;
      JoinOfParts(after, rest);
      JoinCons(piece, rest);
      assert parts == [piece] + rest;
      assert s == piece + ("/" + after);
    }
  }

  /**
   Splitting succeeds with `parts` exactly when `parts` is a non-empty list of
   well-bracketed pieces that joins to the absolute path; so there is at most one
   such list, and failure means there is none.
   */
  lemma SplitIsTheInverseOfJoin(path: string, allowRelative: bool, parts: seq<string>)
    ensures Split(path, allowRelative) == Some(parts) <==>
              && parts != []
              && (forall p :: p in parts ==> Segment(p))
              && Absolute(path, allowRelative) == Some(Join(parts))
  {
    var absolute := Absolute(path, allowRelative);
    if absolute.Some? {
      assert absolute.value == "/" + absolute.value[1..];
      if Split(path, allowRelative) == Some(parts) {
        JoinOfParts(absolute.value[1..], parts);
      }
      if parts != [] && (forall p :: p in parts ==> Segment(p)) && absolute == Some(Join(parts)) {
        PartsOfJoin(parts);
      }
    }
  }

  ghost predicate PartsFrom(path: string, start: nat, rest: Option<seq<string>>) {
    start <= |path| && rest == Parts(path[start..])
  }

  /** What the next character at `index` decides about the piece begun at `start`. */
  lemma ScanStep(path: string, start: nat, index: nat, inside: bool)
    requires start <= index < |path| && Run(path[start..index], false) == Some(inside)
    ensures
      var c := path[index];
      if c == '/' && !inside then
        Parts(path[start..]) ==
          if index == start then None else Prepend([path[start..index]], Parts(path[index + 1..]))
      else if Step(c, inside).None? then Parts(path[start..]).None?
      else Run(path[start..index + 1], false) == Step(c, inside)
  {
    var piece, rest := path[start..index], path[index..];
    assert path[start..] == piece + rest;
    CutAfterRun(piece, rest, false);
    if path[index] == '/' && !inside {
      assert path[start..][..index - start] == piece;
      assert path[start..][index - start + 1..] == path[index + 1..];
    } else if Step(path[index], inside).Some? {
      RunConcat(piece, [path[index]], false);
      assert path[start..index + 1] == piece + [path[index]];
    }
  }

  lemma ScanEnd(path: string, start: nat, inside: bool)
    requires start <= |path| && Run(path[start..], false) == Some(inside)
    ensures Parts(path[start..]) == if inside || start == |path| then None else Some([path[start..]])
  {
    assert path[start..] + "" == path[start..];
    CutAfterRun(path[start..], "", false);
  }

  /** The splitter's scan over the characters of an absolute path. */
  method ScanPieces(path: string) returns (r: Option<seq<string>>)
    requires path != "" && path[0] == '/'
    ensures r == Parts(path[1..])
  {
    var parts: seq<string> := [];
    var start, depth := 1, 0;
    hide Parts, Find, Cut;
    ghost var goal, rest := Parts(path[1..]), Parts(path[1..]);
    PrependNothing(goal);
    for index := 1 to |path|
      invariant 1 <= start <= index && 0 <= depth <= 1
      invariant goal == Prepend(parts, rest) && PartsFrom(path, start, rest)
      invariant Run(path[start..index], false) == Some(depth == 1)
    {
      var character := path[index];
      ScanStep(path, start, index, depth == 1);
      if character == '[' {
        depth := depth + 1;
        if depth > 1 {
          return None;
        }
      } else if character == ']' {
        depth := depth - 1;
        if depth < 0 {
          return None;
        }
      } else if character == '/' && depth == 0 {
        if index == start {
          return None;
        }
        PrependTwice(parts, [path[start..index]], Parts(path[index + 1..]));
        parts, rest := parts + [path[start..index]], Parts(path[index + 1..]);
        start := index + 1;
      }
    }
    assert path[start..|path|] == path[start..];
    ScanEnd(path, start, depth == 1);
    if depth != 0 || start == |path| {
      return None;
    }
    return Some(parts + [path[start..]]);
  }

  method SplitPath(path: string, allowRelative: bool) returns (r: Option<seq<string>>)
    ensures r == Split(path, allowRelative)
  {
    if path == "" || path == "/" {
      return None;
    }
    if path[0] == '/' {
      r := ScanPieces(path);
    } else if allowRelative {
      r := ScanPieces("/" + path);
    } else {
      return None;
    }
  }

  // ---------------------------------------------------------------- elements

  /** What follows the last colon. */
  function AfterColon(s: string): string
    decreases |s|
  {
    var i := Find(s, ':');
    if i == |s| then s else AfterColon(s[i + 1..])
  }

  function LocalName(name: string): Option<string> {
    var local := AfterColon(name);
    if local == "" || !Without(local, {'/', '[', ']', '='}) then None else Some(local)
  }

  /** One bracketed expression: a key and a non-empty value, split at the first '='. */
  function ParseKey(expression: string): Option<(string, string)> {
    var eq := Find(expression, '=');
    if eq >= |expression| - 1 || '[' in expression then None
    else
      var key :- LocalName(expression[..eq]);
      Some((key, expression[eq + 1..]))
  }

  function ParseKeys(remainder: string): Option<seq<(string, string)>>
    decreases |remainder|
  {
    if remainder == "" then Some([])
    else if remainder[0] != '[' then None
    else
      var closing := Find(remainder, ']');
      if closing == |remainder| then None
      else
        var key :- ParseKey(remainder[1..closing]);
        Prepend([key], ParseKeys(remainder[closing + 1..]))
  }

  predicate DistinctKeys(keys: seq<(string, string)>) {
    forall i, j :: 0 <= i < j < |keys| ==> keys[i].0 != keys[j].0
  }

  /** Python's order on (key, value) pairs. */
  predicate PairLe(a: (string, string), b: (string, string)) {
    if a.0 == b.0 then StringLe(a.1, b.1) else StringLe(a.0, b.0)
  }

  lemma PairOrder(xs: set<(string, string)>)
    ensures OrderOn(PairLe, xs)
  {
    var keys, values := (set x | x in xs :: x.0), (set x | x in xs :: x.1);
    StringOrder(keys);
    StringOrder(values);
    forall x, y | x in xs && y in xs ensures PairLe(x, y) || PairLe(y, x) {
      assert x.0 in keys && y.0 in keys && x.1 in values && y.1 in values;
    }
    forall x, y | x in xs && y in xs && PairLe(x, y) && PairLe(y, x) ensures x == y {
      assert x.0 in keys && y.0 in keys && x.1 in values && y.1 in values;
    }
    forall x, y, z | x in xs && y in xs && z in xs && PairLe(x, y) && PairLe(y, z) ensures PairLe(x, z) {
      assert x.0 in keys && y.0 in keys && z.0 in keys;
      assert x.1 in values && y.1 in values && z.1 in values;
    }
  }

  function ParseElement(element: string): Option<Element> {
    var bracket := Find(element, '[');
    var name :- LocalName(element[..bracket]);
    var keys :- ParseKeys(element[bracket..]);
    if !DistinctKeys(keys) then None else Some(Element(name, Sort(keys, PairLe)))
  }

  function ParseElements(parts: seq<string>): Option<Path> {
    if parts == [] then Some([])
    else
      var first :- ParseElement(parts[0]);
      Prepend([first], ParseElements(parts[1..]))
  }

  function Parse(path: string, allowRelative: bool): Option<Path> {
    var parts :- Split(path, allowRelative);
    ParseElements(parts)
  }

  /** The element parser's loop over the bracketed keys. */
  method ParseOneElement(element: string) returns (r: Option<Element>)
    ensures r == ParseElement(element)
  {
    var bracket := Find(element, '[');
    var name := LocalName(element[..bracket]);
    if name.None? {
      return None;
    }
    var remainder := element[bracket..];
    var keys: seq<(string, string)> := [];
    PrependNothing(ParseKeys(remainder));
    while remainder != ""
      invariant ParseKeys(element[bracket..]) == Prepend(keys, ParseKeys(remainder))
      decreases |remainder|
    {
      if remainder[0] != '[' {
        return None;
      }
      var closing := Find(remainder, ']');
      if closing == |remainder| {
        return None;
      }
      var key := ParseKey(remainder[1..closing]);
      if key.None? {
        return None;
      }
      PrependTwice(keys, [key.value], ParseKeys(remainder[closing + 1..]));
      keys := keys + [key.value];
      remainder := remainder[closing + 1..];
    }
    PrependToNothing(keys);
    if !DistinctKeys(keys) {
      return None;
    }
    return Some(Element(name.value, Sort(keys, PairLe)));
  }

  method ParsePath(path: string, allowRelative: bool) returns (r: Option<Path>)
    ensures r == Parse(path, allowRelative)
  {
    var parts := SplitPath(path, allowRelative);
    if parts.None? {
      return None;
    }
    var elements: Path := [];
    PrependNothing(ParseElements(parts.value));
    assert parts.value[0..] == parts.value;
    for i := 0 to |parts.value|
      invariant ParseElements(parts.value) == Prepend(elements, ParseElements(parts.value[i..]))
    {
      var element := ParseOneElement(parts.value[i]);
      if element.None? {
        return None;
      }
      assert parts.value[i..][1..] == parts.value[i + 1..];
      PrependTwice(elements, [element.value], ParseElements(parts.value[i + 1..]));
      elements := elements + [element.value];
    }
    PrependToNothing(elements);
    return Some(elements);
  }
}
