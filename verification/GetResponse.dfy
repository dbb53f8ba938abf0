/**
 Reading one leaf out of a gNMI Get response. The response is untrusted data; the
 normaliser either finds the one value for the requested path, reports its absence,
 or rejects the whole response.
 */
module GetResponse {
  import opened Outcomes
  import opened Gather
  import opened Sorting
  import opened DeviceErrors
  import opened GnmiPath

  /** Data as decoded from JSON. */
  datatype Value =
    | Null
    | Flag(flag: bool)
    | Whole(whole: int)
    | Text(text: string)
    | Items(items: seq<Value>)
    | Mapping(entries: map<string, Value>)
    | Other

  predicate IsLeaf(v: Value) {
    v.Flag? || v.Whole? || v.Text?
  }

  datatype Update = Update(path: Path, value: Value)

  /** One update: a parsable path, relative or absolute, and a leaf value. */
  function ReadUpdate(u: Value): Option<seq<Update>> {
    if !u.Mapping? || "path" !in u.entries || "val" !in u.entries then None
    else if !u.entries["path"].Text? then None
    else
      var path :- Parse(u.entries["path"].text, true);
      if IsLeaf(u.entries["val"]) then Some([Update(path, u.entries["val"])]) else None
  }

  /** The updates a notification carries; a notification without any is empty. */
  function UpdatesOf(n: Value): Option<seq<Value>> {
    if !n.Mapping? then None
    else if "update" !in n.entries then Some([])
    else if n.entries["update"].Items? then Some(n.entries["update"].items)
    else None
  }

  function ReadNotification(n: Value): Option<seq<Update>> {
    var updates :- UpdatesOf(n);
    ReadAll(updates, ReadUpdate)
  }

  function Notifications(response: Value): Option<seq<Value>> {
    if response.Mapping? && "notification" in response.entries && response.entries["notification"].Items?
    then Some(response.entries["notification"].items) else None
  }

  /** Every update of the response, or None when any part of it is malformed. */
  function Flatten(response: Value): Option<seq<Update>> {
    var notifications :- Notifications(response);
    ReadAll(notifications, ReadNotification)
  }

  predicate DistinctPaths(us: seq<Update>) {
    forall i, j :: 0 <= i < j < |us| ==> us[i].path != us[j].path
  }

  /** The values whose path is the requested one. */
  function Hits(us: seq<Update>, requested: Path): seq<Value> {
    if us == [] then []
    else Hits(us[..|us| - 1], requested) + (if us[|us| - 1].path == requested then [us[|us| - 1].value] else [])
  }

  function Normalize(response: Value, requestedPath: string): Result<Option<Value>, DeviceError> {
    var requested := Parse(requestedPath, false);
    var updates := Flatten(response);
    if requested.None? then Err(PathError)
    else if updates.None? || !DistinctPaths(updates.value) then Err(ResponseError)
    else
      var hits := Hits(updates.value, requested.value);
      if |hits| > 1 then Err(ResponseError)
      else Ok(if hits == [] then None else Some(hits[0]))
  }

  lemma {:induction false} HitsAreTheMatches(us: seq<Update>, requested: Path)
    ensures forall v :: v in Hits(us, requested) <==> Update(requested, v) in us
    ensures Hits(us, requested) != [] <==> exists i :: 0 <= i < |us| && us[i].path == requested
    ensures DistinctPaths(us) ==> |Hits(us, requested)| <= 1
  {
    if us != [] {
      var init, last := us[..|us| - 1], us[|us| - 1];
      assert us == init + [last];
      HitsAreTheMatches(init, requested);
      assert forall k :: 0 <= k < |init| ==> init[k] == us[k];
    }
  }

  /**
   The value is found exactly when the whole response is well formed, no two updates
   name one path, and some update pairs the requested path with that value. Absence is
   reported exactly when none does. A bad requested path and a bad response are told
   apart, and the final guard on several values never fires.
   */
  lemma NormalizeFindsTheLeaf(response: Value, requestedPath: string, v: Value)
    ensures
      var requested := Parse(requestedPath, false);
      var updates := Flatten(response);
      var accepted := updates.Some? && DistinctPaths(updates.value);
      var r := Normalize(response, requestedPath);
      && (requested.None? <==> r == Err(PathError))
      && (requested.Some? && !accepted <==> r == Err(ResponseError))
      && (requested.Some? && accepted && Update(requested.value, v) in updates.value <==> r == Ok(Some(v)))
      && ((requested.Some? && accepted && (forall u :: u in updates.value ==> u.path != requested.value))
          <==> r == Ok(None))
  {
    var requested, updates := Parse(requestedPath, false), Flatten(response);
    if requested.Some? && updates.Some? && DistinctPaths(updates.value) {
      HitsAreTheMatches(updates.value, requested.value);
      var hits := Hits(updates.value, requested.value);
      if hits != [] {
        assert hits[0] in hits;
      }
      forall u | u in updates.value && u.path == requested.value ensures u.value in hits {
        assert u == Update(requested.value, u.value);
      }
    }
  }

  lemma DistinctPathsForgetOrder(us: seq<Update>, ws: seq<Update>)
    requires multiset(us) == multiset(ws) && DistinctPaths(us)
    ensures DistinctPaths(ws)
  {
    SameBagSameElements(us, ws);
    forall i, j | 0 <= i < j < |ws| ensures ws[i].path != ws[j].path {
      assert ws[i] in Elements(us) && ws[j] in Elements(us);
      if ws[i] == ws[j] {
        TwiceInBag(ws, i, j);
        var a, b := TwiceInSequence(us, ws[i]);
      }
    }
  }

  /** The outcome depends only on which updates arrive, not on how they are ordered or grouped. */
  lemma SameUpdatesSameOutcome(one: Value, two: Value, requestedPath: string)
    requires Flatten(one).Some? <==> Flatten(two).Some?
    requires Flatten(one).Some? ==> multiset(Flatten(one).value) == multiset(Flatten(two).value)
    ensures Normalize(one, requestedPath) == Normalize(two, requestedPath)
  {
    if Flatten(one).Some? && Parse(requestedPath, false).Some? {
      var us, ws := Flatten(one).value, Flatten(two).value;
      var requested := Parse(requestedPath, false).value;
      SameBagSameElements(us, ws);
      if DistinctPaths(us) { DistinctPathsForgetOrder(us, ws); }
      if DistinctPaths(ws) { DistinctPathsForgetOrder(ws, us); }
      HitsAreTheMatches(us, requested);
      HitsAreTheMatches(ws, requested);
      var h, k := Hits(us, requested), Hits(ws, requested);
      forall v ensures v in h <==> v in k {
        assert Update(requested, v) in us <==> Update(requested, v) in Elements(us);
        assert Update(requested, v) in ws <==> Update(requested, v) in Elements(ws);
      }
      if h != [] { assert h[0] in k; }
      if k != [] { assert k[0] in h; }
    }
  }

  function Response(notifications: seq<Value>): Value {
    Mapping(map["notification" := Items(notifications)])
  }

  lemma ReorderNotifications(ns: seq<Value>, ms: seq<Value>, requestedPath: string)
    requires multiset(ns) == multiset(ms)
    ensures Normalize(Response(ns), requestedPath) == Normalize(Response(ms), requestedPath)
  {
    ReadAllForgetsOrder(ns, ms, ReadNotification);
    SameUpdatesSameOutcome(Response(ns), Response(ms), requestedPath);
  }

  lemma SwapNotification(before: seq<Value>, n: Value, m: Value, after: seq<Value>, requestedPath: string)
    requires ReadNotification(n).Some? <==> ReadNotification(m).Some?
    requires ReadNotification(n).Some? ==>
               multiset(ReadNotification(n).value) == multiset(ReadNotification(m).value)
    ensures Normalize(Response(before + [n] + after), requestedPath) ==
              Normalize(Response(before + [m] + after), requestedPath)
  {
    ReadAllInMiddle(before, n, after, ReadNotification);
    ReadAllInMiddle(before, m, after, ReadNotification);
    SameUpdatesSameOutcome(Response(before + [n] + after), Response(before + [m] + after), requestedPath);
  }

  lemma ReorderUpdates(before: seq<Value>, us: seq<Value>, ws: seq<Value>, after: seq<Value>, requestedPath: string)
    requires multiset(us) == multiset(ws)
    ensures
      var n, m := Mapping(map["update" := Items(us)]), Mapping(map["update" := Items(ws)]);
      Normalize(Response(before + [n] + after), requestedPath) ==
        Normalize(Response(before + [m] + after), requestedPath)
  {
    var n, m := Mapping(map["update" := Items(us)]), Mapping(map["update" := Items(ws)]);
    ReadAllForgetsOrder(us, ws, ReadUpdate);
    assert ReadNotification(n) == ReadAll(us, ReadUpdate) && ReadNotification(m) == ReadAll(ws, ReadUpdate);
    SwapNotification(before, n, m, after, requestedPath);
  }

  // ---------------------------------------------------------------- the nested loops

  ghost function PathsOf(us: seq<Update>): set<Path> {
    set u | u in us :: u.path
  }

  /** What is still to be read: the rest of one notification, then the rest of the response. */
  ghost function Remaining(us: seq<Value>, ns: seq<Value>): Option<seq<Update>> {
    Both(ReadAll(us, ReadUpdate), ReadAll(ns, ReadNotification))
  }

  lemma RemainingStep(us: seq<Value>, ns: seq<Value>, read: seq<Update>)
    requires us != []
    ensures Prepend(read, Remaining(us, ns)) ==
              if ReadUpdate(us[0]).None? then None
              else Prepend(read + ReadUpdate(us[0]).value, Remaining(us[1..], ns))
  {
    BothAssociates(ReadUpdate(us[0]), ReadAll(us[1..], ReadUpdate), ReadAll(ns, ReadNotification));
    if ReadUpdate(us[0]).Some? {
      PrependTwice(read, ReadUpdate(us[0]).value, Remaining(us[1..], ns));
    }
  }

  lemma RepeatedPathIsRejected(read: seq<Update>, u: Update, rest: Option<seq<Update>>)
    requires u.path in PathsOf(read)
    ensures Prepend(read + [u], rest).None? || !DistinctPaths(Prepend(read + [u], rest).value)
  {
    var i :| 0 <= i < |read| && read[i].path == u.path;
    if rest.Some? {
      var all := read + [u] + rest.value;
      assert all[i].path == all[|read|].path;
    }
  }

  lemma TakeUpdate(read: seq<Update>, u: Update, requested: Path)
    requires DistinctPaths(read) && u.path !in PathsOf(read)
    ensures DistinctPaths(read + [u]) && PathsOf(read + [u]) == PathsOf(read) + {u.path}
    ensures Hits(read + [u], requested) == Hits(read, requested) + if u.path == requested then [u.value] else []
  {
    assert (read + [u])[..|read|] == read;
    assert forall k :: 0 <= k < |read| ==> read[k] in read;
  }

  method NormalizeGetResponse(response: Value, requestedPath: string) returns (r: Result<Option<Value>, DeviceError>)
    ensures r == Normalize(response, requestedPath)
  {
    var requested := ParsePath(requestedPath, false);
    if requested.None? {
      return Err(PathError);
    }
    if !response.Mapping? || "notification" !in response.entries || !response.entries["notification"].Items? {
      return Err(ResponseError);
    }
    var notifications := response.entries["notification"].items;

    var values: seq<Value> := [];
    var seen: set<Path> := {};
    ghost var read: seq<Update> := [];
    ghost var goal := ReadAll(notifications, ReadNotification);
    PrependNothing(goal);
    assert notifications[0..] == notifications;
    for i := 0 to |notifications|
      invariant goal == Prepend(read, ReadAll(notifications[i..], ReadNotification))
      invariant seen == PathsOf(read) && DistinctPaths(read) && values == Hits(read, requested.value)
    {
      var notification := notifications[i];
      ghost var later := notifications[i + 1..];
      assert notifications[i..][1..] == later;
      if !notification.Mapping? {
        return Err(ResponseError);
      }
      var updates := [];
      if "update" in notification.entries {
        if !notification.entries["update"].Items? {
          return Err(ResponseError);
        }
        updates := notification.entries["update"].items;
      }
      assert UpdatesOf(notification) == Some(updates);
      assert updates[0..] == updates;
      for j := 0 to |updates|
        invariant goal == Prepend(read, Remaining(updates[j..], later))
        invariant seen == PathsOf(read) && DistinctPaths(read) && values == Hits(read, requested.value)
      {
        var update := updates[j];
        assert updates[j..][0] == update && updates[j..][1..] == updates[j + 1..];
        RemainingStep(updates[j..], later, read);
        if !update.Mapping? || "path" !in update.entries || !update.entries["path"].Text? || "val" !in update.entries {
          return Err(ResponseError);
        }
        var normalized := ParsePath(update.entries["path"].text, true);
        if normalized.None? {
          return Err(ResponseError);
        }
        ghost var u := Update(normalized.value, update.entries["val"]);
        if normalized.value in seen {
          RepeatedPathIsRejected(read, u, Remaining(updates[j + 1..], later));
          return Err(ResponseError);
        }
        seen := seen + {normalized.value};
        var value := update.entries["val"];
        if !IsLeaf(value) {
          return Err(ResponseError);
        }
        TakeUpdate(read, u, requested.value);
        read := read + [u];
        if normalized.value == requested.value {
          values := values + [value];
        }
      }
      PrependNothing(ReadAll(later, ReadNotification));
    }
    PrependToNothing(read);
    r := if |values| > 1 then Err(ResponseError) else Ok(if values == [] then None else Some(values[0]));
  }
}
