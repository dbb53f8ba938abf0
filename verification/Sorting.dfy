/** Sorting by a total order, and why a sorted sequence forgets the order it came in. */
module Sorting {

  /** `le` is a total order on the elements of `xs`. */
  ghost predicate OrderOn<T>(le: (T, T) -> bool, xs: set<T>) {
    && (forall x, y :: x in xs && y in xs ==> le(x, y) || le(y, x))
    && (forall x, y :: x in xs && y in xs && le(x, y) && le(y, x) ==> x == y)
    && (forall x, y, z :: x in xs && y in xs && z in xs && le(x, y) && le(y, z) ==> le(x, z))
  }

  predicate Sorted<T>(s: seq<T>, le: (T, T) -> bool) {
    forall i, j :: 0 <= i < j < |s| ==> le(s[i], s[j])
  }

  function Elements<T>(s: seq<T>): set<T> {
    set x | x in s
  }

  function Insert<T>(x: T, s: seq<T>, le: (T, T) -> bool): (r: seq<T>)
    ensures multiset(r) == multiset{x} + multiset(s)
  {
    if s == [] then [x]
    else if le(x, s[0]) then [x] + s
    else
      assert s == [s[0]] + s[1..];
      [s[0]] + Insert(x, s[1..], le)
  }

  function Sort<T>(s: seq<T>, le: (T, T) -> bool): (r: seq<T>)
    ensures multiset(r) == multiset(s)
  {
    if s == [] then []
    else
      assert s == [s[0]] + s[1..];
      Insert(s[0], Sort(s[1..], le), le)
  }

  lemma SameBagSameElements<T>(s: seq<T>, t: seq<T>)
    requires multiset(s) == multiset(t)
    ensures Elements(s) == Elements(t) && |s| == |t|
  {
    forall x ensures x in Elements(s) <==> x in Elements(t) {
      assert x in s <==> x in multiset(s);
      assert x in t <==> x in multiset(t);
    }
    assert |multiset(s)| == |s| && |multiset(t)| == |t|;
  }

  lemma {:induction false} InsertIsSorted<T>(x: T, s: seq<T>, le: (T, T) -> bool)
    requires OrderOn(le, {x} + Elements(s)) && Sorted(s, le)
    ensures Sorted(Insert(x, s, le), le)
  {
    if s != [] && !le(x, s[0]) {
      assert forall y :: y in s[1..] ==> y in s;
      InsertIsSorted(x, s[1..], le);
      var r := Insert(x, s[1..], le);
      forall y | y in r ensures le(s[0], y) {
        assert y in multiset(r);
        assert y == x || y in s[1..];
      }
    } else if s != [] {
      forall y | y in s ensures le(x, y) {
        var k :| 0 <= k < |s| && s[k] == y;
        assert s[0] in Elements(s) && y in Elements(s);
      }
    }
  }

  lemma {:induction false} SortIsSorted<T>(s: seq<T>, le: (T, T) -> bool)
    requires OrderOn(le, Elements(s))
    ensures Sorted(Sort(s, le), le)
  {
    if s != [] {
      assert forall y :: y in s[1..] ==> y in s;
      SortIsSorted(s[1..], le);
      SameBagSameElements(Sort(s[1..], le), s[1..]);
      InsertIsSorted(s[0], Sort(s[1..], le), le);
    }
  }

  lemma SortedHeadsAgree<T>(s: seq<T>, t: seq<T>, le: (T, T) -> bool)
    requires OrderOn(le, Elements(s)) && multiset(s) == multiset(t) && s != [] && t != []
    requires Sorted(s, le) && Sorted(t, le)
    ensures s[0] == t[0]
  {
    SameBagSameElements(s, t);
    assert s[0] in Elements(t) && t[0] in Elements(s);
    var i :| 0 <= i < |t| && t[i] == s[0];
    var j :| 0 <= j < |s| && s[j] == t[0];
    if i != 0 && j != 0 {
      assert le(t[0], t[i]) && le(s[0], s[j]);
    }
  }

  /** Two sorted arrangements of one bag of values are the same sequence. */
  lemma {:induction false} SortedIsUnique<T>(s: seq<T>, t: seq<T>, le: (T, T) -> bool)
    requires OrderOn(le, Elements(s)) && multiset(s) == multiset(t)
    requires Sorted(s, le) && Sorted(t, le)
    ensures s == t
  {
    SameBagSameElements(s, t);
    if s != [] {
      SortedHeadsAgree(s, t, le);
      assert s == [s[0]] + s[1..] && t == [t[0]] + t[1..];
      assert multiset(s[1..]) == multiset(s) - multiset{s[0]};
      assert multiset(t[1..]) == multiset(t) - multiset{s[0]};
      OrderOnTail(s, le);
      SortedIsUnique(s[1..], t[1..], le);
    }
  }

  lemma OrderOnTail<T>(s: seq<T>, le: (T, T) -> bool)
    requires OrderOn(le, Elements(s)) && s != []
    ensures OrderOn(le, Elements(s[1..]))
  {
    forall y | y in Elements(s[1..]) ensures y in Elements(s) {
      assert y in s[1..];
    }
  }

  lemma SortForgetsOrder<T>(s: seq<T>, t: seq<T>, le: (T, T) -> bool)
    requires OrderOn(le, Elements(s)) && multiset(s) == multiset(t)
    ensures Sort(s, le) == Sort(t, le)
  {
    SameBagSameElements(s, t);
    SortIsSorted(s, le);
    SortIsSorted(t, le);
    SameBagSameElements(Sort(s, le), s);
    SortedIsUnique(Sort(s, le), Sort(t, le), le);
  }

  /** A sequence that is already in order is left alone. */
  lemma SortedIsFixed<T>(s: seq<T>, le: (T, T) -> bool)
    requires OrderOn(le, Elements(s)) && Sorted(s, le)
    ensures Sort(s, le) == s
  {
    SortIsSorted(s, le);
    SortedIsUnique(s, Sort(s, le), le);
  }

  lemma TwiceInBag<T>(s: seq<T>, i: nat, j: nat)
    requires i < j < |s| && s[i] == s[j]
    ensures multiset(s)[s[i]] >= 2
  {
    assert s == s[..j] + s[j..];
    assert s[i] in s[..j] && s[j] in s[j..];
  }

  lemma TwiceInSequence<T>(s: seq<T>, x: T) returns (i: nat, j: nat)
    requires multiset(s)[x] >= 2
    ensures i < j < |s| && s[i] == x && s[j] == x
  {
    i :| 0 <= i < |s| && s[i] == x by { assert x in s; }
    assert s == s[..i] + [x] + s[i + 1..];
    if x in s[i + 1..] {
      j :| i < j < |s| && s[j] == x;
    } else {
      assert x in s[..i];
      j := i;
      i :| 0 <= i < j && s[i] == x;
    }
  }
}
