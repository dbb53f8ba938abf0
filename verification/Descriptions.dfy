/** The pending activities a server describes: for each name, what it said last. */
module Descriptions {
  import opened Outcomes
  import opened Stages
  import opened StageFacts
  import opened Plans
  import OrderedMaps

  /** The last description of an activity of this name. */
  function LastDescribed(pending: seq<Pending>, name: string): Option<Pending> {
    if pending == [] then None
    else if pending[|pending| - 1].activity == Some(name) then Some(pending[|pending| - 1])
    else LastDescribed(pending[..|pending| - 1], name)
  }

  /** The attempt it gives, no less than 1 and no more than 100. */
  function DescribedAttempt(pending: seq<Pending>, name: string): Option<int> {
    var last := LastDescribed(pending, name);
    if last.None? || last.value.attempt.None? then None
    else if last.value.attempt.value < 1 then Some(1)
    else if last.value.attempt.value > 100 then Some(100)
    else last.value.attempt
  }

  /** The names described, in the order in which they first are. */
  function DescribedNames(pending: seq<Pending>): seq<string> {
    if pending == [] then []
    else
      var before, last := DescribedNames(pending[..|pending| - 1]), pending[|pending| - 1].activity;
      if last.None? || last.value in before then before else before + [last.value]
  }

  // ---------------------------------------------------------------- the map of pending values

  function NameOf(entry: (string, Option<int>)): string {
    entry.0
  }

  lemma PutGets(m: PendingMap, k: string, v: Option<int>, x: string)
    ensures var p := OrderedMaps.Put(m, k, v);
            && (OrderedMaps.Has(p, x) <==> OrderedMaps.Has(m, x) || x == k)
            && (OrderedMaps.Has(p, x) ==>
                  OrderedMaps.Get(p, x) == if x == k then v else OrderedMaps.Get(m, x))
  {
    var p := OrderedMaps.Put(m, k, v);
    if OrderedMaps.Has(m, k) {
      var at := OrderedMaps.IndexOf(m, k);
      assert forall i :: 0 <= i < |m| ==> p[i].0 == m[i].0;
      SameIndex(m, p, x);
    } else {
      IndexInLonger(m, (k, v), x);
    }
  }

  lemma {:induction false} SameIndex(m: PendingMap, p: PendingMap, x: string)
    requires |m| == |p| && forall i :: 0 <= i < |m| ==> p[i].0 == m[i].0
    ensures OrderedMaps.IndexOf(m, x) == OrderedMaps.IndexOf(p, x)
  {
  }

  lemma {:induction false} IndexInLonger(m: PendingMap, e: (string, Option<int>), x: string)
    ensures OrderedMaps.IndexOf(m + [e], x) ==
            if OrderedMaps.Has(m, x) then OrderedMaps.IndexOf(m, x) else if e.0 == x then |m| else |m| + 1
  {
    if m != [] {
      assert (m + [e])[1..] == m[1..] + [e];
      IndexInLonger(m[1..], e, x);
    } else {
      assert [] + [e] == [e];
    }
  }

  lemma {:induction false} DescribedIsKept(pending: seq<Pending>, name: string)
    ensures PendingAttempts(PendingValues(pending), name) == DescribedAttempt(pending, name)
    ensures OrderedMaps.Has(PendingValues(pending), name) <==> LastDescribed(pending, name).Some?
  {
    if pending != [] {
      var init, last := pending[..|pending| - 1], pending[|pending| - 1];
      DescribedIsKept(init, name);
      if last.activity.Some? {
        hide OrderedMaps.Put, OrderedMaps.Has, OrderedMaps.Get;
        PutGets(PendingValues(init), last.activity.value,
                if last.attempt.Some? then Some(Clamp(last.attempt.value)) else None, name);
      }
    }
  }

  lemma PutNames(m: PendingMap, k: string, v: Option<int>)
    ensures Map(OrderedMaps.Put(m, k, v), NameOf) ==
            if k in Map(m, NameOf) then Map(m, NameOf) else Map(m, NameOf) + [k]
  {
    var names := Map(m, NameOf);
    if OrderedMaps.Has(m, k) {
      assert names[OrderedMaps.IndexOf(m, k)] == k;
      assert Map(OrderedMaps.Put(m, k, v), NameOf) == names;
    } else {
      assert forall i :: 0 <= i < |m| ==> names[i] == m[i].0;
      MapConcat(m, [(k, v)], NameOf);
    }
  }

  lemma {:induction false} NamesAreKept(pending: seq<Pending>)
    ensures Map(PendingValues(pending), NameOf) == DescribedNames(pending)
  {
    if pending != [] {
      var init, last := pending[..|pending| - 1], pending[|pending| - 1];
      NamesAreKept(init);
      if last.activity.Some? {
        hide OrderedMaps.Put;
        PutNames(PendingValues(init), last.activity.value,
                 if last.attempt.Some? then Some(Clamp(last.attempt.value)) else None);
      }
    }
  }

  lemma ValuesAreDescribed(pending: seq<Pending>, i: nat)
    requires i < |PendingValues(pending)|
    ensures PendingValues(pending)[i].1 == DescribedAttempt(pending, PendingValues(pending)[i].0)
  {
    var values := PendingValues(pending);
    PendingNamesAreDistinct(pending);
    DescribedIsKept(pending, values[i].0);
    hide DescribedAttempt, PendingValues;
    assert OrderedMaps.IndexOf(values, values[i].0) == i;
  }
}
