/** String search, lexicographic order and the white space of Python and of the browser. */
module Text {
  import opened Sorting

  /** Index of the first `c` in `s`, or |s| when there is none. */
  function Find(s: string, c: char): (i: nat)
    ensures i <= |s|
    ensures forall k :: 0 <= k < i ==> s[k] != c
    ensures i < |s| ==> s[i] == c
  {
    if s == "" || s[0] == c then 0 else 1 + Find(s[1..], c)
  }

  /** No character of `s` is one of `chars`. */
  predicate Without(s: string, chars: set<char>) {
    forall k :: 0 <= k < |s| ==> s[k] !in chars
  }

  /** Code-point order, as Python compares strings. */
  predicate StringLe(a: string, b: string) {
    a == "" || (b != "" && (a[0] < b[0] || (a[0] == b[0] && StringLe(a[1..], b[1..]))))
  }

  lemma {:induction false} StringLeTotal(a: string, b: string)
    ensures StringLe(a, b) || StringLe(b, a)
    ensures StringLe(a, b) && StringLe(b, a) ==> a == b
  {
    if a != "" && b != "" && a[0] == b[0] {
      StringLeTotal(a[1..], b[1..]);
      assert a == [a[0]] + a[1..] && b == [b[0]] + b[1..];
    }
  }

  lemma {:induction false} StringLeTransitive(a: string, b: string, c: string)
    requires StringLe(a, b) && StringLe(b, c)
    ensures StringLe(a, c)
  {
    if a != "" && a[0] == b[0] && b[0] == c[0] {
      StringLeTransitive(a[1..], b[1..], c[1..]);
    }
  }

  lemma StringOrder(xs: set<string>)
    ensures OrderOn(StringLe, xs)
  {
    forall x, y ensures StringLe(x, y) || StringLe(y, x) {
      StringLeTotal(x, y);
    }
    forall x, y | StringLe(x, y) && StringLe(y, x) ensures x == y {
      StringLeTotal(x, y);
    }
    forall x, y, z | StringLe(x, y) && StringLe(y, z) ensures StringLe(x, z) {
      StringLeTransitive(x, y, z);
    }
  }

  predicate StartsWith(s: string, prefix: string) {
    |prefix| <= |s| && s[..|prefix|] == prefix
  }

  predicate EndsWith(s: string, suffix: string) {
    |suffix| <= |s| && s[|s| - |suffix|..] == suffix
  }

  function Count(s: string, c: char): nat {
    if s == "" then 0 else (if s[0] == c then 1 else 0) + Count(s[1..], c)
  }

  lemma {:induction false} CountConcat(a: string, b: string, c: char)
    ensures Count(a + b, c) == Count(a, c) + Count(b, c)
  {
    if a == "" {
      assert a + b == b;
    } else {
      assert (a + b)[1..] == a[1..] + b;
      CountConcat(a[1..], b, c);
    }
  }

  predicate AsciiText(s: string) {
    forall k :: 0 <= k < |s| ==> s[k] < '\U{80}'
  }

  // ---------------------------------------------------------------- white space

  /** The Unicode White_Space property, which pydantic strips. */
  predicate UnicodeSpace(c: char) {
    || '\U{9}' <= c <= '\U{d}' || c == ' ' || c == '\U{85}' || c == '\U{a0}' || c == '\U{1680}'
    || '\U{2000}' <= c <= '\U{200a}' || c == '\U{2028}' || c == '\U{2029}' || c == '\U{202f}'
    || c == '\U{205f}' || c == '\U{3000}'
  }

  /** What Python's str.strip removes: also the four information separators. */
  predicate PythonSpace(c: char) {
    UnicodeSpace(c) || '\U{1c}' <= c <= '\U{1f}'
  }

  /** What String.prototype.trim removes: the byte-order mark, but not NEL. */
  predicate BrowserSpace(c: char) {
    (UnicodeSpace(c) && c != '\U{85}') || c == '\U{feff}'
  }

  predicate All(s: string, p: char -> bool) {
    forall k :: 0 <= k < |s| ==> p(s[k])
  }

  /** `s` without leading and trailing white space. */
  function Trim(s: string): (r: string)
    ensures |r| <= |s|
    ensures r == "" <==> All(s, UnicodeSpace)
    decreases |s|
  {
    if s == "" then ""
    else if UnicodeSpace(s[0]) then Trim(s[1..])
    else if UnicodeSpace(s[|s| - 1]) then Trim(s[..|s| - 1])
    else s
  }

  /** The length JavaScript reports: UTF-16 code units, two for a character beyond the basic plane. */
  function Utf16Length(s: string): nat {
    if s == "" then 0 else (if s[0] > '\U{ffff}' then 2 else 1) + Utf16Length(s[1..])
  }

  lemma {:induction false} Utf16LengthBounds(s: string)
    ensures |s| <= Utf16Length(s) <= 2 * |s|
    ensures (forall k :: 0 <= k < |s| ==> s[k] <= '\U{ffff}') ==> Utf16Length(s) == |s|
  {
    if s != "" {
      assert forall k :: 0 <= k < |s[1..]| ==> s[1..][k] == s[k + 1];
      Utf16LengthBounds(s[1..]);
    }
  }

  /** The first difference decides. */
  lemma {:induction false} FirstDifference(p: string, c: char, d: char, x: string, y: string)
    requires c != d
    ensures StringLe(p + [c] + x, p + [d] + y) <==> c < d
  {
    var a, b := p + [c] + x, p + [d] + y;
    if p != "" {
      assert a[0] == p[0] == b[0] && a[1..] == p[1..] + [c] + x && b[1..] == p[1..] + [d] + y;
      FirstDifference(p[1..], c, d, x, y);
    }
  }

  /** Without one, the shorter comes first. */
  lemma {:induction false} PrefixFirst(p: string, x: string)
    ensures StringLe(p, p + x)
  {
    if p != "" {
      assert (p + x)[1..] == p[1..] + x;
      PrefixFirst(p[1..], x);
    }
  }

  /** What is trimmed is white space, at the ends only. */
  lemma {:induction false} TrimIs(s: string) returns (before: string, after: string)
    ensures s == before + Trim(s) + after && All(before, UnicodeSpace) && All(after, UnicodeSpace)
    decreases |s|
  {
    hide UnicodeSpace, All;
    before, after := "", "";
    NothingBeside(s);
    if s != "" && UnicodeSpace(s[0]) {
      before, after := TrimIs(s[1..]);
      OneBefore(s, before, Trim(s), after);
      before := [s[0]] + before;
    } else if s != "" && UnicodeSpace(s[|s| - 1]) {
      before, after := TrimIs(s[..|s| - 1]);
      OneAfter(s, before, Trim(s), after);
      after := after + [s[|s| - 1]];
    }
  }

  lemma NothingBeside(s: string)
    ensures s == "" + s + "" && All("", UnicodeSpace)
  {
  }

  lemma OneBefore(s: string, before: string, kept: string, after: string)
    requires s != "" && s[1..] == before + kept + after && All(before, UnicodeSpace) && UnicodeSpace(s[0])
    ensures s == [s[0]] + before + kept + after && All([s[0]] + before, UnicodeSpace)
  {
    hide UnicodeSpace;
    assert s == [s[0]] + s[1..];
  }

  lemma OneAfter(s: string, before: string, kept: string, after: string)
    requires s != "" && s[..|s| - 1] == before + kept + after
    requires All(after, UnicodeSpace) && UnicodeSpace(s[|s| - 1])
    ensures s == before + kept + (after + [s[|s| - 1]]) && All(after + [s[|s| - 1]], UnicodeSpace)
  {
    hide UnicodeSpace;
    assert s == s[..|s| - 1] + [s[|s| - 1]];
  }

  lemma {:induction false} TrimmedEnds(s: string)
    ensures Trim(s) != "" ==> !UnicodeSpace(Trim(s)[0]) && !UnicodeSpace(Trim(s)[|Trim(s)| - 1])
    decreases |s|
  {
    hide UnicodeSpace, All;
    if s != "" && UnicodeSpace(s[0]) {
      TrimmedEnds(s[1..]);
    } else if s != "" && UnicodeSpace(s[|s| - 1]) {
      TrimmedEnds(s[..|s| - 1]);
    }
  }

  /** A character beyond the basic plane counts twice, any other once. */
  lemma {:induction false} Utf16LengthConcat(a: string, b: string)
    ensures Utf16Length(a + b) == Utf16Length(a) + Utf16Length(b)
    ensures |a| == 1 ==> Utf16Length(a) == if a[0] as int >= 0x10000 then 2 else 1
  {
    if a == "" {
      assert a + b == b;
    } else {
      assert (a + b)[1..] == a[1..] + b;
      Utf16LengthConcat(a[1..], b);
    }
  }
}
