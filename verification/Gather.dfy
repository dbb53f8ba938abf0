/** Reading a list item by item, failing as a whole when one item cannot be read. */
module Gather {
  import opened Outcomes

  function Both<T>(a: Option<seq<T>>, b: Option<seq<T>>): Option<seq<T>> {
    if a.None? then None else Prepend(a.value, b)
  }

  function ReadAll<T, U>(xs: seq<T>, read: T -> Option<seq<U>>): Option<seq<U>> {
    if xs == [] then Some([]) else Both(read(xs[0]), ReadAll(xs[1..], read))
  }

  lemma BothAssociates<T>(a: Option<seq<T>>, b: Option<seq<T>>, c: Option<seq<T>>)
    ensures Both(Both(a, b), c) == Both(a, Both(b, c))
  {
    if a.Some? && b.Some? {
      PrependTwice(a.value, b.value, c);
    }
  }

  lemma {:induction false} ReadAllSplits<T, U>(xs: seq<T>, ys: seq<T>, read: T -> Option<seq<U>>)
    ensures ReadAll(xs + ys, read) == Both(ReadAll(xs, read), ReadAll(ys, read))
  {
    if xs == [] {
      assert xs + ys == ys;
      PrependNothing(ReadAll(ys, read));
    } else {
      assert (xs + ys)[1..] == xs[1..] + ys;
      ReadAllSplits(xs[1..], ys, read);
      BothAssociates(read(xs[0]), ReadAll(xs[1..], read), ReadAll(ys, read));
    }
  }

  lemma ReadAllSingle<T, U>(x: T, read: T -> Option<seq<U>>)
    ensures ReadAll([x], read) == read(x)
  {
    if read(x).Some? {
      PrependToNothing(read(x).value);
    }
  }

  lemma SplitAt<T>(ys: seq<T>, x: T) returns (before: seq<T>, after: seq<T>)
    requires x in multiset(ys)
    ensures ys == before + [x] + after
  {
    var i :| 0 <= i < |ys| && ys[i] == x;
    before, after := ys[..i], ys[i + 1..];
  }

  lemma RestIsSame<T>(xs: seq<T>, before: seq<T>, after: seq<T>)
    requires xs != [] && multiset(xs) == multiset(before + [xs[0]] + after)
    ensures multiset(xs[1..]) == multiset(before + after)
  {
    assert xs == [xs[0]] + xs[1..];
    assert multiset(xs[1..]) == multiset(xs) - multiset{xs[0]};
  }

  lemma ReadAllInMiddle<T, U>(before: seq<T>, x: T, after: seq<T>, read: T -> Option<seq<U>>)
    ensures
      var all, rest := ReadAll(before + [x] + after, read), ReadAll(before + after, read);
      && (all.Some? <==> read(x).Some? && rest.Some?)
      && (all.Some? ==> multiset(all.value) == multiset(read(x).value) + multiset(rest.value))
  {
    ReadAllSplits(before, after, read);
    ReadAllSplits(before + [x], after, read);
    ReadAllSplits(before, [x], read);
    ReadAllSingle(x, read);
  }

  /** Whether the list can be read, and which values it yields, does not depend on its order. */
  lemma {:induction false} ReadAllForgetsOrder<T, U>(xs: seq<T>, ys: seq<T>, read: T -> Option<seq<U>>)
    requires multiset(xs) == multiset(ys)
    ensures ReadAll(xs, read).Some? <==> ReadAll(ys, read).Some?
    ensures ReadAll(xs, read).Some? ==> multiset(ReadAll(xs, read).value) == multiset(ReadAll(ys, read).value)
  {
    if xs == [] {
      assert |multiset(ys)| == 0;
    } else {
      var before, after := SplitAt(ys, xs[0]);
      RestIsSame(xs, before, after);
      ReadAllForgetsOrder(xs[1..], before + after, read);
      ReadAllInMiddle(before, xs[0], after, read);
    }
  }
}
