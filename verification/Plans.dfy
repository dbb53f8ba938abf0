/** Lists built by loops that append a few entries for each item. */
module Plans {
  import opened Outcomes

  function Map<T, U>(xs: seq<T>, f: T -> U): (r: seq<U>)
    ensures |r| == |xs| && forall i :: 0 <= i < |r| ==> r[i] == f(xs[i])
  {
    if xs == [] then [] else [f(xs[0])] + Map(xs[1..], f)
  }

  lemma MapConcat<T, U>(xs: seq<T>, ys: seq<T>, f: T -> U)
    ensures Map(xs + ys, f) == Map(xs, f) + Map(ys, f)
  {
  }

  /** The results of `f` along a list, or the first error met. */
  function MapAll<T, U, E>(xs: seq<T>, f: T -> Result<U, E>): Result<seq<U>, E> {
    if xs == [] then Ok([])
    else
      var first :- f(xs[0]);
      var rest :- MapAll(xs[1..], f);
      Ok([first] + rest)
  }

  lemma {:induction false} MapAllGrows<T, U, E>(xs: seq<T>, x: T, f: T -> Result<U, E>)
    ensures MapAll(xs + [x], f) ==
              var before := MapAll(xs, f);
              if before.Err? then before
              else if f(x).Err? then Err(f(x).error)
              else Ok(before.value + [f(x).value])
  {
    if xs == [] {
      assert [] + [x] == [x];
      assert f(x).Ok? ==> [f(x).value] + [] == [] + [f(x).value];
    } else {
      assert (xs + [x])[0] == xs[0] && (xs + [x])[1..] == xs[1..] + [x];
      MapAllGrows(xs[1..], x, f);
      var first, tail := f(xs[0]), MapAll(xs[1..], f);
      if first.Ok? && tail.Ok? && f(x).Ok? {
        assert [first.value] + (tail.value + [f(x).value]) == [first.value] + tail.value + [f(x).value];
      }
    }
  }

  /** Success means that every entry succeeded, in order. */
  lemma {:induction false} MapAllIsPointwise<T, U, E>(xs: seq<T>, f: T -> Result<U, E>)
    ensures MapAll(xs, f).Ok? <==> forall i :: 0 <= i < |xs| ==> f(xs[i]).Ok?
    ensures MapAll(xs, f).Ok? ==>
              && |MapAll(xs, f).value| == |xs|
              && forall i :: 0 <= i < |xs| ==> f(xs[i]) == Ok(MapAll(xs, f).value[i])
    ensures MapAll(xs, f).Err? ==> exists i :: 0 <= i < |xs| && f(xs[i]) == Err(MapAll(xs, f).error)
  {
    if xs != [] {
      MapAllIsPointwise(xs[1..], f);
      assert forall i :: 0 <= i < |xs[1..]| ==> xs[1..][i] == xs[i + 1];
      if i :| 0 < i < |xs| && f(xs[i]).Err? {
        assert f(xs[1..][i - 1]).Err?;
      }
    }
  }

  function FlatMap<T, U>(xs: seq<T>, f: T -> seq<U>): seq<U> {
    if xs == [] then [] else f(xs[0]) + FlatMap(xs[1..], f)
  }

  /** The number of entries, counted item by item. */
  function TotalLength<T, U>(xs: seq<T>, f: T -> seq<U>): nat {
    if xs == [] then 0 else |f(xs[0])| + TotalLength(xs[1..], f)
  }

  lemma {:induction false} FlatMapLength<T, U>(xs: seq<T>, f: T -> seq<U>)
    ensures |FlatMap(xs, f)| == TotalLength(xs, f)
  {
    if xs != [] {
      FlatMapLength(xs[1..], f);
    }
  }

  lemma {:induction false} FlatMapMember<T, U>(xs: seq<T>, f: T -> seq<U>, u: U)
    ensures u in FlatMap(xs, f) <==> exists i :: 0 <= i < |xs| && u in f(xs[i])
  {
    if xs != [] {
      FlatMapMember(xs[1..], f, u);
      if u in FlatMap(xs[1..], f) {
        var i :| 0 <= i < |xs[1..]| && u in f(xs[1..][i]);
        assert u in f(xs[i + 1]);
      }
      if i :| 0 < i < |xs| && u in f(xs[i]) {
        assert xs[i] == xs[1..][i - 1];
      }
    }
  }

  lemma {:induction false} FlatMapConcat<T, U>(xs: seq<T>, ys: seq<T>, f: T -> seq<U>)
    ensures FlatMap(xs + ys, f) == FlatMap(xs, f) + FlatMap(ys, f)
  {
    if xs == [] {
      assert xs + ys == ys;
    } else {
      assert (xs + ys)[1..] == xs[1..] + ys;
      FlatMapConcat(xs[1..], ys, f);
    }
  }

  lemma FlatMapGrows<T, U>(xs: seq<T>, k: nat, f: T -> seq<U>)
    requires k < |xs|
    ensures FlatMap(xs[..k + 1], f) == FlatMap(xs[..k], f) + f(xs[k])
  {
    assert xs[..k + 1] == xs[..k] + [xs[k]];
    FlatMapConcat(xs[..k], [xs[k]], f);
  }

  lemma MappedGrows<T, U, V>(xs: seq<T>, k: nat, f: T -> seq<U>, g: U -> V, before: seq<V>)
    requires k < |xs|
    ensures before + Map(FlatMap(xs[..k + 1], f), g) == before + Map(FlatMap(xs[..k], f), g) + Map(f(xs[k]), g)
  {
    FlatMapGrows(xs, k, f);
    MapConcat(FlatMap(xs[..k], f), f(xs[k]), g);
  }

  predicate Distinct<T(==)>(s: seq<T>) {
    forall i, j :: 0 <= i < j < |s| ==> s[i] != s[j]
  }

  /** No two entries have the same key. */
  ghost predicate DistinctOn<U, K>(s: seq<U>, key: U -> K) {
    forall i, j :: 0 <= i < j < |s| ==> key(s[i]) != key(s[j])
  }

  lemma DistinctConcat<U, K>(a: seq<U>, b: seq<U>, key: U -> K)
    requires DistinctOn(a, key) && DistinctOn(b, key)
    requires forall u, v :: u in a && v in b ==> key(u) != key(v)
    ensures DistinctOn(a + b, key)
  {
    forall i, j | 0 <= i < j < |a + b| ensures key((a + b)[i]) != key((a + b)[j]) {
      if i < |a| <= j {
        assert a[i] in a && b[j - |a|] in b;
      }
    }
  }

  /** Entries are distinct when each item's are and no two items share one. */
  lemma {:induction false} FlatMapDistinct<T, U, K>(xs: seq<T>, f: T -> seq<U>, key: U -> K)
    requires forall i :: 0 <= i < |xs| ==> DistinctOn(f(xs[i]), key)
    requires forall i, j, u, v :: 0 <= i < j < |xs| && u in f(xs[i]) && v in f(xs[j]) ==> key(u) != key(v)
    ensures DistinctOn(FlatMap(xs, f), key)
  {
    if xs != [] {
      var rest := xs[1..];
      assert forall i :: 0 <= i < |rest| ==> rest[i] == xs[i + 1];
      FlatMapDistinct(rest, f, key);
      forall u, v | u in f(xs[0]) && v in FlatMap(rest, f) ensures key(u) != key(v) {
        FlatMapMember(rest, f, v);
        var j :| 0 <= j < |rest| && v in f(rest[j]);
        assert v in f(xs[j + 1]);
      }
      DistinctConcat(f(xs[0]), FlatMap(rest, f), key);
    }
  }
}
