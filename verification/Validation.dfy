/**
 Post-deployment validation: one bounded read of every planned leaf, one check for each,
 and the split of a failed result into retryable and permanent. Which characters print
 is left to the Unicode tables, as a parameter.
 */
module Validation {
  import opened Outcomes
  import opened Text
  import opened Leaves
  import opened Plans
  import opened GetResponse
  import opened ExpectedStates
  import opened CheckKeys

  datatype Check = Check(name: string, passed: bool, expected: Value, observed: Value)

  datatype Failure = BadPath | MissingPath | InvalidModel

  datatype ValidationResult = ValidationResult(passed: bool, checks: seq<Check>)

  /** What the state model stores as text: 1 to 128 printable characters once trimmed. */
  predicate SafeText(t: string, printable: char -> bool) {
    1 <= |Trim(t)| <= 128 && All(Trim(t), printable)
  }

  predicate SafeScalar(v: Value, printable: char -> bool) {
    IsLeaf(v) && (v.Text? ==> SafeText(v.text, printable))
  }

  function MakeCheck(x: Expectation, observed: Value, printable: char -> bool): Result<Check, Failure> {
    if SafeText(CheckName(x.leaf), printable) && SafeScalar(x.expected, printable)
       && (observed == Null || SafeScalar(observed, printable))
    then Ok(Check(CheckName(x.leaf), observed == x.expected, x.expected, observed))
    else Err(InvalidModel)
  }

  /** Look the leaf up in what was read, and check it. */
  function CheckLeaf(x: Expectation, state: map<string, Value>, printable: char -> bool): Result<Check, Failure> {
    var path := LeafPath(x.leaf);
    if path.None? then Err(BadPath)
    else if path.value !in state then Err(MissingPath)
    else MakeCheck(x, state[path.value], printable)
  }

  function Checker(state: map<string, Value>, printable: char -> bool): Expectation -> Result<Check, Failure> {
    x => CheckLeaf(x, state, printable)
  }

  predicate AllPassed(checks: seq<Check>) {
    forall c :: c in checks ==> c.passed
  }

  predicate DistinctChecks(checks: seq<Check>) {
    forall i, j :: 0 <= i < j < |checks| ==> checks[i].name != checks[j].name
  }

  function Validate(
    e: ExpectedState, state: map<string, Value>, printable: char -> bool): Result<ValidationResult, Failure> {
    var checks :- MapAll(ValidationPlan(e), Checker(state, printable));
    if 1 <= |checks| <= 64 && DistinctChecks(checks) then Ok(ValidationResult(AllPassed(checks), checks))
    else Err(InvalidModel)
  }

  /** Append one check; a failure, once met, is carried along as a raised exception would be. */
  method AppendCheck(checks: Result<seq<Check>, Failure>, x: Expectation, state: map<string, Value>,
                     printable: char -> bool, ghost done: seq<Expectation>)
    returns (r: Result<seq<Check>, Failure>)
    requires checks == MapAll(done, Checker(state, printable))
    ensures r == MapAll(done + [x], Checker(state, printable))
  {
    MapAllGrows(done, x, Checker(state, printable));
    if checks.Err? {
      return checks;
    }
    var path := LeafPath(x.leaf);
    if path.None? {
      return Err(BadPath);
    }
    if path.value !in state {
      return Err(MissingPath);
    }
    var check := MakeCheck(x, state[path.value], printable);
    r := if check.Err? then Err(check.error) else Ok(checks.value + [check.value]);
  }

  lemma FiveMore<T>(s: seq<T>, a: T, b: T, c: T, d: T, e: T)
    ensures s + [a] + [b] + [c] + [d] + [e] == s + [a, b, c, d, e]
  {
  }

  lemma ThreeMore<T>(s: seq<T>, a: T, b: T, c: T)
    ensures s + [a] + [b] + [c] == s + [a, b, c]
  {
  }

  lemma InterfacePlanEntries(i: Interface, admin: Expectation, oper: Expectation, subAdmin: Expectation,
                             subOper: Expectation, address: Expectation)
    requires admin == Expectation(InterfaceAdmin(i.name), Text("enable"))
    requires oper == Expectation(InterfaceOper(i.name), Text("up"))
    requires subAdmin == Expectation(SubinterfaceAdmin(i.name), Text("enable"))
    requires subOper == Expectation(SubinterfaceOper(i.name), Text("up"))
    requires address == Expectation(AddressStatus(i.name, i.prefix), Text("preferred"))
    ensures InterfacePlan(i) ==
              if i.requireUp then [admin, oper, subAdmin, subOper, address] else [admin, subAdmin, address]
  {
  }

  /** The five checks of an interface that must be up, the three of one that need not be. */
  method AppendInterface(checks: Result<seq<Check>, Failure>, i: Interface, state: map<string, Value>,
                         printable: char -> bool, ghost done: seq<Expectation>)
    returns (r: Result<seq<Check>, Failure>)
    requires checks == MapAll(done, Checker(state, printable))
    ensures r == MapAll(done + InterfacePlan(i), Checker(state, printable))
  {
    var admin := Expectation(InterfaceAdmin(i.name), Text("enable"));
    var oper := Expectation(InterfaceOper(i.name), Text("up"));
    var subAdmin := Expectation(SubinterfaceAdmin(i.name), Text("enable"));
    var subOper := Expectation(SubinterfaceOper(i.name), Text("up"));
    var address := Expectation(AddressStatus(i.name, i.prefix), Text("preferred"));
    InterfacePlanEntries(i, admin, oper, subAdmin, subOper, address);
    r := AppendCheck(checks, admin, state, printable, done);
    if i.requireUp {
      r := AppendCheck(r, oper, state, printable, done + [admin]);
      r := AppendCheck(r, subAdmin, state, printable, done + [admin] + [oper]);
      r := AppendCheck(r, subOper, state, printable, done + [admin] + [oper] + [subAdmin]);
      r := AppendCheck(r, address, state, printable, done + [admin] + [oper] + [subAdmin] + [subOper]);
      FiveMore(done, admin, oper, subAdmin, subOper, address);
    } else {
      r := AppendCheck(r, subAdmin, state, printable, done + [admin]);
      r := AppendCheck(r, address, state, printable, done + [admin] + [subAdmin]);
      ThreeMore(done, admin, subAdmin, address);
    }
  }

  method AppendNeighbors(checks: Result<seq<Check>, Failure>, neighbors: seq<Neighbor>, state: map<string, Value>,
                         printable: char -> bool, ghost before: seq<Expectation>)
    returns (r: Result<seq<Check>, Failure>)
    requires checks == MapAll(before, Checker(state, printable))
    ensures r == MapAll(before + FlatMap(neighbors, NeighborPlan), Checker(state, printable))
  {
    ghost var done := before;
    r := checks;
    assert before + FlatMap(neighbors[..0], NeighborPlan) == before;
    hide MapAll, Checker, FlatMap;
    for k := 0 to |neighbors|
      invariant r == MapAll(done, Checker(state, printable))
      invariant done == before + FlatMap(neighbors[..k], NeighborPlan)
    {
      var peerAs := Expectation(PeerAs(neighbors[k].address), Whole(neighbors[k].remoteAsn));
      var session := Expectation(SessionState(neighbors[k].address), Text("established"));
      r := AppendCheck(r, peerAs, state, printable, done);
      r := AppendCheck(r, session, state, printable, done + [peerAs]);
      done := done + [peerAs] + [session];
      FlatMapGrows(neighbors, k, NeighborPlan);
    }
    assert neighbors[..|neighbors|] == neighbors;
  }

  method ValidateState(e: ExpectedState, state: map<string, Value>, printable: char -> bool)
    returns (r: Result<ValidationResult, Failure>)
    ensures r == Validate(e, state, printable)
  {
    hide LeafPath, InterfacePlan;
    var host, asn := Expectation(Hostname, Text(e.deviceName)), Expectation(LocalAsn, Whole(e.localAsn));
    ghost var done: seq<Expectation> := [];
    var checks := AppendCheck(Ok([]), host, state, printable, done);
    done := done + [host];
    var interfaces := e.Interfaces();
    for k := 0 to |interfaces|
      invariant checks == MapAll(done, Checker(state, printable))
      invariant done == [host] + FlatMap(interfaces[..k], InterfacePlan)
    {
      checks := AppendInterface(checks, interfaces[k], state, printable, done);
      FlatMapGrows(interfaces, k, InterfacePlan);
      done := done + InterfacePlan(interfaces[k]);
    }
    assert interfaces[..|interfaces|] == interfaces;
    checks := AppendCheck(checks, asn, state, printable, done);
    checks := AppendNeighbors(checks, e.neighbors, state, printable, done + [asn]);
    assert done + [asn] + FlatMap(e.neighbors, NeighborPlan) == ValidationPlan(e);
    if checks.Err? {
      return Err(checks.error);
    }
    r := if 1 <= |checks.value| <= 64 && DistinctChecks(checks.value)
         then Ok(ValidationResult(AllPassed(checks.value), checks.value))
         else Err(InvalidModel);
  }

  // ---------------------------------------------------------------- the read before it

  function PathOf(x: Expectation): Result<string, Failure> {
    if LeafPath(x.leaf).None? then Err(BadPath) else Ok(LeafPath(x.leaf).value)
  }

  /** Append the path of one leaf; a rejected key, once met, is carried along. */
  method AppendPath(paths: Result<seq<string>, Failure>, leaf: Leaf, ghost x: Expectation, ghost done: seq<Expectation>)
    returns (r: Result<seq<string>, Failure>)
    requires paths == MapAll(done, PathOf) && x.leaf == leaf
    ensures r == MapAll(done + [x], PathOf)
  {
    hide LeafPath;
    MapAllGrows(done, x, PathOf);
    if paths.Err? {
      return paths;
    }
    var path := LeafPath(leaf);
    r := if path.None? then Err(BadPath) else Ok(paths.value + [path.value]);
  }

  method AppendInterfacePaths(paths: Result<seq<string>, Failure>, i: Interface, ghost done: seq<Expectation>)
    returns (r: Result<seq<string>, Failure>)
    requires paths == MapAll(done, PathOf)
    ensures r == MapAll(done + InterfacePlan(i), PathOf)
  {
    ghost var admin := Expectation(InterfaceAdmin(i.name), Text("enable"));
    ghost var oper := Expectation(InterfaceOper(i.name), Text("up"));
    ghost var subAdmin := Expectation(SubinterfaceAdmin(i.name), Text("enable"));
    ghost var subOper := Expectation(SubinterfaceOper(i.name), Text("up"));
    ghost var address := Expectation(AddressStatus(i.name, i.prefix), Text("preferred"));
    InterfacePlanEntries(i, admin, oper, subAdmin, subOper, address);
    hide InterfacePlan, MapAll, PathOf;
    ghost var next := done + [admin];
    r := AppendPath(paths, InterfaceAdmin(i.name), admin, done);
    if i.requireUp {
      r := AppendPath(r, InterfaceOper(i.name), oper, next);
      next := next + [oper];
    }
    r := AppendPath(r, SubinterfaceAdmin(i.name), subAdmin, next);
    next := next + [subAdmin];
    if i.requireUp {
      r := AppendPath(r, SubinterfaceOper(i.name), subOper, next);
      next := next + [subOper];
    }
    r := AppendPath(r, AddressStatus(i.name, i.prefix), address, next);
    if i.requireUp {
      FiveMore(done, admin, oper, subAdmin, subOper, address);
    } else {
      ThreeMore(done, admin, subAdmin, address);
    }
  }

  method AppendPathsOfNeighbor(paths: Result<seq<string>, Failure>, n: Neighbor, ghost done: seq<Expectation>)
    returns (r: Result<seq<string>, Failure>)
    requires paths == MapAll(done, PathOf)
    ensures r == MapAll(done + NeighborPlan(n), PathOf)
  {
    hide MapAll, PathOf;
    ghost var peerAs := Expectation(PeerAs(n.address), Whole(n.remoteAsn));
    ghost var session := Expectation(SessionState(n.address), Text("established"));
    r := AppendPath(paths, PeerAs(n.address), peerAs, done);
    r := AppendPath(r, SessionState(n.address), session, done + [peerAs]);
    assert done + [peerAs] + [session] == done + NeighborPlan(n);
  }

  method AppendNeighborPaths(
    paths: Result<seq<string>, Failure>, neighbors: seq<Neighbor>, ghost before: seq<Expectation>)
    returns (r: Result<seq<string>, Failure>)
    requires paths == MapAll(before, PathOf)
    ensures r == MapAll(before + FlatMap(neighbors, NeighborPlan), PathOf)
  {
    ghost var done := before;
    r := paths;
    assert before + FlatMap(neighbors[..0], NeighborPlan) == before;
    hide MapAll, PathOf, FlatMap, NeighborPlan;
    for k := 0 to |neighbors|
      invariant r == MapAll(done, PathOf)
      invariant done == before + FlatMap(neighbors[..k], NeighborPlan)
    {
      r := AppendPathsOfNeighbor(r, neighbors[k], done);
      FlatMapGrows(neighbors, k, NeighborPlan);
      done := done + NeighborPlan(neighbors[k]);
    }
    assert neighbors[..|neighbors|] == neighbors;
  }

  /** The paths to read, collected leaf by leaf: they are those of the checks, in the order of the checks. */
  method ValidationPaths(e: ExpectedState) returns (r: Result<seq<string>, Failure>)
    ensures r == MapAll(ValidationPlan(e), PathOf)
  {
    hide LeafPath, InterfacePlan, NeighborPlan;
    ghost var host, asn := Expectation(Hostname, Text(e.deviceName)), Expectation(LocalAsn, Whole(e.localAsn));
    ghost var done := [host];
    assert [] + [host] == done;
    r := AppendPath(Ok([]), Hostname, host, []);
    var interfaces := e.Interfaces();
    for k := 0 to |interfaces|
      invariant r == MapAll(done, PathOf) && done == [host] + FlatMap(interfaces[..k], InterfacePlan)
    {
      r := AppendInterfacePaths(r, interfaces[k], done);
      FlatMapGrows(interfaces, k, InterfacePlan);
      done := done + InterfacePlan(interfaces[k]);
    }
    assert interfaces[..|interfaces|] == interfaces;
    r := AppendPath(r, LocalAsn, asn, done);
    r := AppendNeighborPaths(r, e.neighbors, done + [asn]);
    assert done + [asn] + FlatMap(e.neighbors, NeighborPlan) == ValidationPlan(e);
  }

  /** Read every path once, in order; the first device error ends the read. `asked` lists the reads made. */
  method ReadNativeState<E>(paths: seq<string>, get: string -> Result<Value, E>)
    returns (r: Result<map<string, Value>, E>, asked: seq<string>)
    ensures asked <= paths && (r.Ok? ==> asked == paths)
    ensures r.Ok? ==> r.value.Keys == (set p | p in paths) && forall p :: p in paths ==> get(p) == Ok(r.value[p])
    ensures r.Err? <==> exists p :: p in paths && get(p).Err?
    ensures r.Err? ==> asked != [] && get(asked[|asked| - 1]) == Err(r.error)
    ensures r.Err? ==> forall k :: 0 <= k < |asked| - 1 ==> get(asked[k]).Ok?
  {
    var state: map<string, Value> := map[];
    asked := [];
    for k := 0 to |paths|
      invariant asked == paths[..k]
      invariant state.Keys == set p | p in paths[..k]
      invariant forall p :: p in paths[..k] ==> get(p) == Ok(state[p])
    {
      assert paths[..k + 1] == paths[..k] + [paths[k]];
      var value := get(paths[k]);
      asked := asked + [paths[k]];
      if value.Err? {
        return Err(value.error), asked;
      }
      state := state[paths[k] := value.value];
    }
    assert paths[..|paths|] == paths;
    return Ok(state), asked;
  }

  /** After the read, validation looks up no path that is missing, nor builds a bad one. */
  lemma ReadCoversValidation(e: ExpectedState, paths: seq<string>, state: map<string, Value>, printable: char -> bool)
    requires MapAll(ValidationPlan(e), PathOf) == Ok(paths)
    requires state.Keys == set p | p in paths
    ensures forall x :: x in ValidationPlan(e) ==> LeafPath(x.leaf).Some? && LeafPath(x.leaf).value in state
    ensures Validate(e, state, printable) != Err(MissingPath) && Validate(e, state, printable) != Err(BadPath)
  {
    hide LeafPath, CheckName, InterfacePlan;
    var plan := ValidationPlan(e);
    MapAllIsPointwise(plan, PathOf);
    forall i | 0 <= i < |plan| ensures LeafPath(plan[i].leaf).Some? && LeafPath(plan[i].leaf).value in state {
      assert PathOf(plan[i]) == Ok(paths[i]) && paths[i] in paths;
    }
    MapAllIsPointwise(plan, Checker(state, printable));
  }

  // ---------------------------------------------------------------- retry or give up

  /** The check names that may still settle. */
  predicate Converging(name: string) {
    EndsWith(name, ".oper_state") || EndsWith(name, ".status") || EndsWith(name, ".session_state")
  }

  /** Every failed check is of absent state or of state that may still settle. */
  predicate Retryable(checks: seq<Check>) {
    forall c :: c in checks && !c.passed ==> c.observed == Null || Converging(c.name)
  }

  lemma EndsDifferently(s: string, suffix: string, k: nat)
    requires 1 <= k <= |suffix| && k <= |s| && s[|s| - k] != suffix[|suffix| - k]
    ensures !EndsWith(s, suffix)
  {
    if |suffix| <= |s| {
      assert s[|s| - |suffix|..][|suffix| - k] == s[|s| - k];
    }
  }

  lemma AppendedEndsWith(before: string, suffix: string)
    ensures EndsWith(before + suffix, suffix)
  {
  }

  /** The endings of the settings' names are none of the three converging ones. */
  lemma NotConverging(s: string)
    requires |s| >= 8
    requires s[|s| - 1] == 'n' || (s[|s| - 1] == 'e' && s[|s| - 2] == 'm') || (s[|s| - 1] == 's' && s[|s| - 2] == 'a')
             || (s[|s| - 1] == 'e' && s[|s| - 7] == 'n' && s[|s| - 8] == 'i')
    ensures !Converging(s)
  {
    if s[|s| - 1] == 'n' {
      EndsDifferently(s, ".oper_state", 1);
      EndsDifferently(s, ".session_state", 1);
      EndsDifferently(s, ".status", 1);
    } else if s[|s| - 1] == 's' {
      EndsDifferently(s, ".oper_state", 1);
      EndsDifferently(s, ".session_state", 1);
      EndsDifferently(s, ".status", 2);
    } else if s[|s| - 2] == 'm' {
      EndsDifferently(s, ".oper_state", 2);
      EndsDifferently(s, ".session_state", 2);
      EndsDifferently(s, ".status", 1);
    } else {
      EndsDifferently(s, ".oper_state", 7);
      EndsDifferently(s, ".session_state", 8);
      EndsDifferently(s, ".status", 1);
    }
  }

  lemma AppendedAdminDoesNot(before: string)
    requires |before| >= 1
    ensures !Converging(before + "admin_state")
  {
    var s := before + "admin_state";
    assert s[|s| - 11..] == "admin_state";
    assert s[|s| - 1] == 'e' && s[|s| - 7] == 'n' && s[|s| - 8] == 'i';
    NotConverging(s);
  }

  lemma SettingsDoNotConverge(leaf: Leaf)
    requires Setting(leaf)
    ensures !Converging(CheckName(leaf))
  {
    var s := CheckName(leaf);
    hide Converging;
    match leaf {
      case Hostname | LocalAsn => NotConverging(s);
      case InterfaceAdmin(n) =>
        assert s == ("interface." + n + ".") + "admin_state";
        AppendedAdminDoesNot("interface." + n + ".");
      case SubinterfaceAdmin(n) =>
        assert s == ("subinterface." + n + ".0.") + "admin_state";
        AppendedAdminDoesNot("subinterface." + n + ".0.");
      case PeerAs(a) =>
        assert s[|s| - 8..] == ".peer_as";
        NotConverging(s);
    }
  }

  lemma StatesConverge(leaf: Leaf)
    requires !Setting(leaf)
    ensures Converging(CheckName(leaf))
  {
    var s := CheckName(leaf);
    match leaf {
      case InterfaceOper(n) => AppendedEndsWith("interface." + n, ".oper_state");
      case SubinterfaceOper(n) => assert s == ("subinterface." + n + ".0") + ".oper_state";
      case AddressStatus(n, p) => AppendedEndsWith("address." + n + "." + p, ".status");
      case SessionState(a) => AppendedEndsWith("routing.bgp.neighbor." + a, ".session_state");
    }
  }

  /** What the last letters of a check name say, whatever the interface is called. */
  lemma ConvergingNames(leaf: Leaf)
    ensures Converging(CheckName(leaf)) <==> !Setting(leaf)
  {
    hide Converging, CheckName;
    if Setting(leaf) {
      SettingsDoNotConverge(leaf);
    } else {
      StatesConverge(leaf);
    }
  }

  /** The leaf was read with the value wanted. */
  predicate Satisfied(x: Expectation, state: map<string, Value>) {
    LeafPath(x.leaf).Some? && LeafPath(x.leaf).value in state && state[LeafPath(x.leaf).value] == x.expected
  }

  /** The leaf holds a setting that is there and is wrong. */
  predicate Contradicted(x: Expectation, state: map<string, Value>) {
    && Setting(x.leaf) && LeafPath(x.leaf).Some? && LeafPath(x.leaf).value in state
    && state[LeafPath(x.leaf).value] != Null && state[LeafPath(x.leaf).value] != x.expected
  }

  /** A check that may not be retried. */
  predicate Hopeless(c: Check) {
    !c.passed && c.observed != Null && !Converging(c.name)
  }

  /** What each check of a result records. */
  lemma ChecksRecordThePlan(e: ExpectedState, state: map<string, Value>, printable: char -> bool)
    requires Validate(e, state, printable).Ok?
    ensures
      var plan, checks := ValidationPlan(e), Validate(e, state, printable).value.checks;
      && |checks| == |plan|
      && forall i :: 0 <= i < |plan| ==>
           && (checks[i].passed <==> Satisfied(plan[i], state))
           && (Hopeless(checks[i]) <==> Contradicted(plan[i], state))
  {
    hide LeafPath, ValidationPlan;
    var plan, checks := ValidationPlan(e), Validate(e, state, printable).value.checks;
    MapAllIsPointwise(plan, Checker(state, printable));
    forall i | 0 <= i < |plan|
      ensures checks[i].passed <==> Satisfied(plan[i], state)
      ensures Hopeless(checks[i]) <==> Contradicted(plan[i], state)
    {
      assert CheckLeaf(plan[i], state, printable) == Ok(checks[i]);
      ConvergingNames(plan[i].leaf);
    }
  }

  /**
   A result passes exactly when every planned leaf reads as expected. A failed one is
   permanent exactly when some hostname, admin state, local or peer AS number is present
   and different; any other failure is retried.
   */
  lemma PermanentExactlyWhen(e: ExpectedState, state: map<string, Value>, printable: char -> bool)
    requires Validate(e, state, printable).Ok?
    ensures
      var r := Validate(e, state, printable).value;
      && (r.passed <==> forall x :: x in ValidationPlan(e) ==> Satisfied(x, state))
      && (!Retryable(r.checks) <==> exists x :: x in ValidationPlan(e) && Contradicted(x, state))
  {
    hide LeafPath, CheckName, ValidationPlan;
    var checks, plan := Validate(e, state, printable).value.checks, ValidationPlan(e);
    ChecksRecordThePlan(e, state, printable);
    forall x | x in plan && AllPassed(checks) ensures Satisfied(x, state) {
      var i :| 0 <= i < |plan| && plan[i] == x;
      assert checks[i] in checks;
    }
    if !Retryable(checks) {
      var c :| c in checks && Hopeless(c);
      var i :| 0 <= i < |checks| && checks[i] == c;
      assert plan[i] in plan;
    }
    if x :| x in plan && Contradicted(x, state) {
      var i :| 0 <= i < |plan| && plan[i] == x;
      assert checks[i] in checks && Hopeless(checks[i]);
    }
  }
}
