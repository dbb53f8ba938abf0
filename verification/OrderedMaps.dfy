/** A map that remembers insertion order, as Python's dict does: overwriting a key keeps its place. */
module OrderedMaps {

  function IndexOf<K(==), V>(m: seq<(K, V)>, k: K): (i: nat)
    ensures i <= |m|
    ensures i < |m| ==> m[i].0 == k
    ensures forall j :: 0 <= j < i ==> m[j].0 != k
  {
    if m == [] || m[0].0 == k then 0 else 1 + IndexOf(m[1..], k)
  }

  predicate Has<K(==), V>(m: seq<(K, V)>, k: K) {
    IndexOf(m, k) < |m|
  }

  function Get<K(==), V>(m: seq<(K, V)>, k: K): V
    requires Has(m, k)
  {
    m[IndexOf(m, k)].1
  }

  function Put<K(==), V>(m: seq<(K, V)>, k: K, v: V): seq<(K, V)> {
    if Has(m, k) then m[IndexOf(m, k) := (k, v)] else m + [(k, v)]
  }

  function Drop<K(==), V>(m: seq<(K, V)>, k: K): seq<(K, V)> {
    if Has(m, k) then m[..IndexOf(m, k)] + m[IndexOf(m, k) + 1..] else m
  }

  predicate DistinctKeys<K(==), V>(m: seq<(K, V)>) {
    forall i, j :: 0 <= i < j < |m| ==> m[i].0 != m[j].0
  }

  lemma HasExactlyWhen<K, V>(m: seq<(K, V)>, k: K)
    ensures Has(m, k) <==> exists i :: 0 <= i < |m| && m[i].0 == k
  {
  }

  lemma PutKeepsDistinct<K, V>(m: seq<(K, V)>, k: K, v: V)
    requires DistinctKeys(m)
    ensures DistinctKeys(Put(m, k, v))
    ensures forall x :: Has(Put(m, k, v), x) <==> Has(m, x) || x == k
    ensures Get(Put(m, k, v), k) == v
  {
    var p := Put(m, k, v);
    if Has(m, k) {
      assert p[IndexOf(m, k)].0 == k;
    } else {
      assert p[|m|].0 == k;
    }
    forall x | Has(m, x) ensures Has(p, x) {
      assert p[IndexOf(m, x)].0 == x;
    }
    forall x | Has(p, x) && x != k ensures Has(m, x) {
      assert m[IndexOf(p, x)].0 == x;
    }
  }

  lemma DropKeepsDistinct<K, V>(m: seq<(K, V)>, k: K)
    requires DistinctKeys(m)
    ensures DistinctKeys(Drop(m, k))
    ensures forall x :: Has(Drop(m, k), x) <==> Has(m, x) && x != k
  {
    var d, i := Drop(m, k), IndexOf(m, k);
    forall x | Has(m, x) && x != k ensures Has(d, x) {
      var j := IndexOf(m, x);
      assert Has(m, k) ==> d[if j < i then j else j - 1].0 == x;
    }
    forall x | Has(d, x) ensures Has(m, x) && x != k {
      var j := IndexOf(d, x);
      assert Has(m, k) ==> m[if j < i then j else j + 1].0 == x;
    }
  }
}
