/**
 The response normaliser held against the JSON itself: which responses it takes, and what it
 answers, by the positions of the updates in the response.
 */
module ResponsePositions {
  import opened Outcomes
  import opened Gather
  import opened DeviceErrors
  import opened GnmiPath
  import opened GetResponse

  /** A member of a JSON object. */
  predicate HasMember(v: Value, name: string) {
    v.Mapping? && name in v.entries
  }

  /** The updates listed in a notification; none when it lists none. */
  function Listed(n: Value): seq<Value> {
    if HasMember(n, "update") && n.entries["update"].Items? then n.entries["update"].items else []
  }

  function NotificationsOf(response: Value): seq<Value> {
    if HasMember(response, "notification") && response.entries["notification"].Items?
    then response.entries["notification"].items else []
  }

  /** The parsed path of an update, where it has one. */
  function PathOf(u: Value): Option<Path> {
    if HasMember(u, "path") && u.entries["path"].Text? then Parse(u.entries["path"].text, true) else None
  }

  /** An object with a path that parses and a text, a whole number or a boolean. */
  predicate GoodUpdate(u: Value) {
    && PathOf(u).Some? && HasMember(u, "val")
    && (u.entries["val"].Text? || u.entries["val"].Whole? || u.entries["val"].Flag?)
  }

  /** An object that lists only good updates, or lists none. */
  predicate GoodNotification(n: Value) {
    && n.Mapping?
    && ("update" in n.entries ==>
          n.entries["update"].Items? && forall u :: u in n.entries["update"].items ==> GoodUpdate(u))
  }

  predicate GoodResponse(response: Value) {
    && HasMember(response, "notification") && response.entries["notification"].Items?
    && forall n :: n in response.entries["notification"].items ==> GoodNotification(n)
  }

  /** Update j of notification i has this path and this value. */
  predicate Stands(ns: seq<Value>, i: nat, j: nat, u: Update) {
    && i < |ns| && j < |Listed(ns[i])|
    && PathOf(Listed(ns[i])[j]) == Some(u.path)
    && HasMember(Listed(ns[i])[j], "val") && Listed(ns[i])[j].entries["val"] == u.value
  }

  /** Update j of notification i and update l of notification k are one and the same, or have different paths. */
  predicate Apart(ns: seq<Value>, i: nat, j: nat, k: nat, l: nat) {
    i < |ns| && j < |Listed(ns[i])| && k < |ns| && l < |Listed(ns[k])| && (i != k || j != l) ==>
      PathOf(Listed(ns[i])[j]) != PathOf(Listed(ns[k])[l])
  }

  /** No two updates of the response have the same path, wherever they stand. */
  ghost predicate PathsApart(ns: seq<Value>) {
    forall i: nat, j: nat, k: nat, l: nat :: Apart(ns, i, j, k, l)
  }

  // ---------------------------------------------------------------- what is read of the parts

  lemma UpdateRead(u: Value)
    ensures ReadUpdate(u).Some? <==> GoodUpdate(u)
    ensures GoodUpdate(u) ==> ReadUpdate(u) == Some([Update(PathOf(u).value, u.entries["val"])])
  {
    hide Parse;
  }

  lemma {:induction false} UpdatesRead(us: seq<Value>)
    ensures ReadAll(us, ReadUpdate).Some? <==> forall u :: u in us ==> GoodUpdate(u)
    ensures ReadAll(us, ReadUpdate).Some? ==>
              && |ReadAll(us, ReadUpdate).value| == |us|
              && forall j :: 0 <= j < |us| ==>
                   && GoodUpdate(us[j])
                   && ReadAll(us, ReadUpdate).value[j] == Update(PathOf(us[j]).value, us[j].entries["val"])
  {
    if us != [] {
      hide ReadUpdate, PathOf;
      UpdateRead(us[0]);
      UpdatesRead(us[1..]);
      assert forall u :: u in us <==> u == us[0] || u in us[1..];
    }
  }

  lemma NotificationRead(n: Value)
    ensures ReadNotification(n).Some? <==> GoodNotification(n)
    ensures GoodNotification(n) ==>
              && |ReadNotification(n).value| == |Listed(n)|
              && forall j :: 0 <= j < |Listed(n)| ==>
                   && GoodUpdate(Listed(n)[j])
                   && ReadNotification(n).value[j]
                      == Update(PathOf(Listed(n)[j]).value, Listed(n)[j].entries["val"])
  {
    hide ReadUpdate, PathOf, GoodUpdate, ReadAll;
    UpdatesRead(Listed(n));
  }

  lemma PathsAcross(a: seq<Update>, b: seq<Update>)
    ensures DistinctPaths(a + b) <==>
              && DistinctPaths(a) && DistinctPaths(b)
              && forall i, j :: 0 <= i < |a| && 0 <= j < |b| ==> a[i].path != b[j].path
  {
    var all := a + b;
    assert forall i :: 0 <= i < |a| ==> all[i] == a[i];
    assert forall j :: 0 <= j < |b| ==> all[|a| + j] == b[j];
  }

  /** Of a list of notifications, what is read is what stands somewhere, and it is distinct by position. */
  ghost predicate ReadsPositions(ns: seq<Value>, us: seq<Update>) {
    && (forall u :: u in us <==> exists i: nat, j: nat :: Stands(ns, i, j, u))
    && (DistinctPaths(us) <==> PathsApart(ns))
  }

  /** `us` is what the updates of this notification say, one by one. */
  predicate Says(n: Value, us: seq<Update>) {
    && |us| == |Listed(n)|
    && forall j :: 0 <= j < |us| ==>
         && PathOf(Listed(n)[j]) == Some(us[j].path)
         && HasMember(Listed(n)[j], "val") && Listed(n)[j].entries["val"] == us[j].value
  }

  lemma StandsFirst(n: Value, us: seq<Update>, rest: seq<Value>, j: nat, u: Update)
    requires Says(n, us)
    ensures Stands([n] + rest, 0, j, u) <==> j < |us| && us[j] == u
  {
    hide PathOf;
  }

  lemma StandsLater(n: Value, rest: seq<Value>, i: nat, j: nat, u: Update)
    ensures Stands([n] + rest, i + 1, j, u) <==> Stands(rest, i, j, u)
  {
    hide PathOf;
    assert i < |rest| ==> ([n] + rest)[i + 1] == rest[i];
  }

  lemma StandsSomewhere(n: Value, us: seq<Update>, rest: seq<Value>, ws: seq<Update>, u: Update)
    requires Says(n, us) && (u in ws <==> exists i: nat, j: nat :: Stands(rest, i, j, u))
    ensures u in us + ws <==> exists i: nat, j: nat :: Stands([n] + rest, i, j, u)
  {
    hide Stands, Says;
    if i: nat, j: nat :| Stands([n] + rest, i, j, u) {
      if i == 0 {
        StandsFirst(n, us, rest, j, u);
      } else {
        StandsLater(n, rest, i - 1, j, u);
      }
    }
    if u in us {
      var j :| 0 <= j < |us| && us[j] == u;
      StandsFirst(n, us, rest, j, u);
    } else if u in ws {
      var i: nat, j: nat :| Stands(rest, i, j, u);
      StandsLater(n, rest, i, j, u);
    }
  }

  lemma ApartUnshifts(n: Value, rest: seq<Value>, i: nat, j: nat, k: nat, l: nat)
    requires Apart([n] + rest, i + 1, j, k + 1, l)
    ensures Apart(rest, i, j, k, l)
  {
    hide PathOf;
  }

  lemma ApartLater(n: Value, rest: seq<Value>)
    requires PathsApart([n] + rest)
    ensures PathsApart(rest)
  {
    hide Apart;
    forall i: nat, j: nat, k: nat, l: nat ensures Apart(rest, i, j, k, l) {
      assert Apart([n] + rest, i + 1, j, k + 1, l);
      ApartUnshifts(n, rest, i, j, k, l);
    }
  }

  lemma ApartFirst(n: Value, us: seq<Update>, rest: seq<Value>)
    requires Says(n, us) && PathsApart([n] + rest)
    ensures DistinctPaths(us)
    ensures forall j, k: nat, l: nat, w :: 0 <= j < |us| && Stands(rest, k, l, w) ==> us[j].path != w.path
  {
    hide PathOf;
    forall j, l | 0 <= j < l < |us| ensures us[j].path != us[l].path {
      assert Apart([n] + rest, 0, j, 0, l);
    }
    forall j, k: nat, l: nat, w | 0 <= j < |us| && Stands(rest, k, l, w) ensures us[j].path != w.path {
      assert Apart([n] + rest, 0, j, k + 1, l);
    }
  }

  lemma ApartShifts(n: Value, rest: seq<Value>, i: nat, j: nat, k: nat, l: nat)
    requires Apart(rest, i, j, k, l)
    ensures Apart([n] + rest, i + 1, j, k + 1, l)
  {
    hide PathOf;
  }

  lemma ApartWithin(n: Value, us: seq<Update>, rest: seq<Value>, j: nat, l: nat)
    requires Says(n, us) && DistinctPaths(us)
    ensures Apart([n] + rest, 0, j, 0, l)
  {
    hide PathOf;
    if j < |us| && l < |us| && j != l {
      assert us[j].path != us[l].path;
    }
  }

  lemma ApartAcross(n: Value, us: seq<Update>, rest: seq<Value>, ws: seq<Update>, j: nat, k: nat, l: nat)
    requires Says(n, us) && (k < |rest| ==> GoodNotification(rest[k]))
    requires forall w, k: nat, l: nat :: Stands(rest, k, l, w) ==> w in ws
    requires forall u, w :: u in us && w in ws ==> u.path != w.path
    ensures Apart([n] + rest, 0, j, k + 1, l) && Apart([n] + rest, k + 1, l, 0, j)
  {
    hide PathOf, Stands, GoodNotification;
    if j < |us| && k < |rest| && l < |Listed(rest[k])| {
      FirstApartFromLater(n, us, rest, ws, j, k, l);
    }
  }

  lemma ApartTogether(n: Value, us: seq<Update>, rest: seq<Value>, ws: seq<Update>, i: nat, j: nat, k: nat, l: nat)
    requires Says(n, us) && DistinctPaths(us) && PathsApart(rest)
    requires forall w, k: nat, l: nat :: Stands(rest, k, l, w) ==> w in ws
    requires forall u, w :: u in us && w in ws ==> u.path != w.path
    requires forall m :: m in rest ==> GoodNotification(m)
    ensures Apart([n] + rest, i, j, k, l)
  {
    hide Says, Stands, Apart, GoodNotification, DistinctPaths;
    if i > 0 && k > 0 {
      assert Apart(rest, i - 1, j, k - 1, l);
      ApartShifts(n, rest, i - 1, j, k - 1, l);
    } else if i == 0 && k == 0 {
      ApartWithin(n, us, rest, j, l);
    } else if i == 0 {
      ApartAcross(n, us, rest, ws, j, k - 1, l);
    } else {
      ApartAcross(n, us, rest, ws, l, i - 1, j);
    }
  }

  lemma FirstApartFromLater(n: Value, us: seq<Update>, rest: seq<Value>, ws: seq<Update>, j: nat, k: nat, l: nat)
    requires Says(n, us) && j < |us| && k < |rest| && l < |Listed(rest[k])| && GoodNotification(rest[k])
    requires forall w, k: nat, l: nat :: Stands(rest, k, l, w) ==> w in ws
    requires forall u, w :: u in us && w in ws ==> u.path != w.path
    ensures PathOf(Listed(n)[j]) != PathOf(Listed(rest[k])[l])
  {
    var u := Listed(rest[k])[l];
    assert GoodUpdate(u);
    hide PathOf;
    var w := Update(PathOf(u).value, u.entries["val"]);
    assert Stands(rest, k, l, w);
    assert us[j] in us && w in ws;
  }

  lemma DistinctByPosition(n: Value, us: seq<Update>, rest: seq<Value>, ws: seq<Update>)
    requires Says(n, us) && ReadsPositions(rest, ws) && forall m :: m in rest ==> GoodNotification(m)
    ensures DistinctPaths(us + ws) <==> PathsApart([n] + rest)
  {
    hide Says, Stands, Apart, PathOf, GoodNotification;
    PathsAcross(us, ws);
    if PathsApart([n] + rest) {
      ApartLater(n, rest);
      ApartFirst(n, us, rest);
      forall j, m | 0 <= j < |us| && 0 <= m < |ws| ensures us[j].path != ws[m].path {
        assert ws[m] in ws;
        var k: nat, l: nat :| Stands(rest, k, l, ws[m]);
      }
    }
    if DistinctPaths(us + ws) {
      forall i: nat, j: nat, k: nat, l: nat ensures Apart([n] + rest, i, j, k, l) {
        ApartTogether(n, us, rest, ws, i, j, k, l);
      }
    }
  }

  lemma {:induction false} NotificationsRead(ns: seq<Value>)
    ensures ReadAll(ns, ReadNotification).Some? <==> forall n :: n in ns ==> GoodNotification(n)
    ensures ReadAll(ns, ReadNotification).Some? ==> ReadsPositions(ns, ReadAll(ns, ReadNotification).value)
  {
    hide GoodNotification, Stands, Apart, Says, ReadNotification;
    if ns != [] {
      var n, rest := ns[0], ns[1..];
      assert ns == [n] + rest;
      NotificationRead(n);
      NotificationsRead(rest);
      assert forall m :: m in ns <==> m == n || m in rest;
      if ReadAll(ns, ReadNotification).Some? {
        var us, ws := ReadNotification(n).value, ReadAll(rest, ReadNotification).value;
        NotificationSays(n);
        forall u ensures u in us + ws <==> exists i: nat, j: nat :: Stands(ns, i, j, u) {
          StandsSomewhere(n, us, rest, ws, u);
        }
        DistinctByPosition(n, us, rest, ws);
      }
    } else {
      NothingRead();
    }
  }

  lemma NotificationSays(n: Value)
    requires GoodNotification(n)
    ensures ReadNotification(n).Some? && Says(n, ReadNotification(n).value)
  {
    NotificationRead(n);
    hide ReadNotification, PathOf;
  }

  lemma NothingRead()
    ensures ReadsPositions([], [])
  {
  }

  // ---------------------------------------------------------------- the answer

  /**
   A response is taken exactly when it is an object whose notifications are objects that list,
   if they list any, updates with a path that parses and a text, number or boolean, and no two
   paths in it are the same. The answer is then the value that stands with the requested path,
   and absence exactly when none does.
   */
  lemma AnswersByPosition(response: Value, requestedPath: string, v: Value)
    ensures
      var requested, ns := Parse(requestedPath, false), NotificationsOf(response);
      var accepted := GoodResponse(response) && PathsApart(ns);
      var r := Normalize(response, requestedPath);
      && (requested.None? <==> r == Err(PathError))
      && (requested.Some? && !accepted <==> r == Err(ResponseError))
      && (requested.Some? && accepted && (exists i: nat, j: nat :: Stands(ns, i, j, Update(requested.value, v)))
          <==> r == Ok(Some(v)))
      && (requested.Some? && accepted
          && (forall i: nat, j: nat, w :: !Stands(ns, i, j, Update(requested.value, w)))
          <==> r == Ok(None))
  {
    NormalizeFindsTheLeaf(response, requestedPath, v);
    NotificationsRead(NotificationsOf(response));
    hide Normalize, Parse, Stands, Apart, GoodNotification, ReadNotification, ReadAll;
    var requested, ns := Parse(requestedPath, false), NotificationsOf(response);
    assert Flatten(response) == if HasMember(response, "notification") && response.entries["notification"].Items?
                                then ReadAll(ns, ReadNotification) else None;
    if requested.Some? && GoodResponse(response) && PathsApart(ns) {
      var us := Flatten(response).value;
      forall w ensures Update(requested.value, w) in us <==>
                       exists i: nat, j: nat :: Stands(ns, i, j, Update(requested.value, w))
      {
      }
      forall u | u in us && u.path == requested.value ensures u == Update(requested.value, u.value) {
      }
    }
  }

  /** A notification that lists no updates says nothing: alone, it means absence. */
  lemma SilentNotification(requestedPath: string)
    requires Parse(requestedPath, false).Some?
    ensures Normalize(Response([Mapping(map[])]), requestedPath) == Ok(None)
  {
    var response := Response([Mapping(map[])]);
    var ns := NotificationsOf(response);
    assert ns == [Mapping(map[])] && Listed(ns[0]) == [];
    AnswersByPosition(response, requestedPath, Null);
    hide Normalize, Parse;
  }
}
