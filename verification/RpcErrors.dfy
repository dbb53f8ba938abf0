/** Naming a gNMI failure by walking the chain of exceptions behind it, which may loop. */
module RpcErrors {
  import opened Outcomes
  import opened DeviceErrors

  datatype StatusCode =
    | Unavailable | DeadlineExceeded | Unauthenticated | PermissionDenied | InvalidArgument | OtherStatus

  /** One exception: its gRPC status if it is an RPC error, whether it is a connection or OS error, and its links. */
  datatype Exception = Exception(status: Option<StatusCode>, connection: bool, cause: Option<nat>, context: Option<nat>)

  datatype Operation = Get | Set

  type Graph = seq<Exception>

  /** Every link leads to an exception. */
  predicate Closed(g: Graph) {
    forall i :: 0 <= i < |g| ==>
      && (g[i].cause.Some? ==> g[i].cause.value < |g|) && (g[i].context.Some? ==> g[i].context.value < |g|)
  }

  /** The cause if there is one, else the context. */
  function NextOf(e: Exception): Option<nat> {
    if e.cause.Some? then e.cause else e.context
  }

  /** What an exception is recognised as, if it is. */
  function Recognised(e: Exception, operation: Operation): Option<DeviceError> {
    if e.status in {Some(Unavailable), Some(DeadlineExceeded)} then Some(ConnectionError)
    else if e.status in {Some(Unauthenticated), Some(PermissionDenied)} then Some(AuthenticationError)
    else if operation == Get && e.status == Some(InvalidArgument) then Some(PathError)
    else if e.connection then Some(ConnectionError)
    else None
  }

  function Fallback(operation: Operation): DeviceError {
    if operation == Set then ConfigurationError else ResponseError
  }

  /** The exception reached after n links, where the chain is that long. */
  function Reached(g: Graph, start: nat, n: nat): (r: Option<nat>)
    requires Closed(g) && start < |g|
    ensures r.Some? ==> r.value < |g|
  {
    if n == 0 then Some(start)
    else
      var before := Reached(g, start, n - 1);
      if before.None? then None else NextOf(g[before.value])
  }

  /** The n-th exception of the chain is recognised, and none before it is. */
  ghost predicate FirstRecognised(g: Graph, start: nat, operation: Operation, n: nat, error: DeviceError)
    requires Closed(g) && start < |g|
  {
    && Reached(g, start, n).Some? && Recognised(g[Reached(g, start, n).value], operation) == Some(error)
    && forall m :: 0 <= m < n ==>
        Reached(g, start, m).Some? && Recognised(g[Reached(g, start, m).value], operation).None?
  }

  /** No exception of the chain is recognised, however far it goes. */
  ghost predicate NoneRecognised(g: Graph, start: nat, operation: Operation)
    requires Closed(g) && start < |g|
  {
    forall n: nat :: Reached(g, start, n).Some? ==> Recognised(g[Reached(g, start, n).value], operation).None?
  }

  // ---------------------------------------------------------------- the walk

  lemma {:induction false} ChainEnds(g: Graph, start: nat, n: nat, m: nat)
    requires Closed(g) && start < |g| && n <= m && Reached(g, start, n).None?
    ensures Reached(g, start, m).None?
  {
    if n < m {
      ChainEnds(g, start, n, m - 1);
    }
  }

  /** Once the chain returns to an exception it has been at, it stays among those it has seen. */
  lemma {:induction false} ChainLoops(g: Graph, start: nat, m: nat, n: nat, k: nat)
    requires Closed(g) && start < |g| && m < n && Reached(g, start, n).Some?
             && Reached(g, start, m) == Reached(g, start, n)
    ensures exists j :: 0 <= j < n && Reached(g, start, j) == Reached(g, start, k)
  {
    if k >= n {
      ChainLoops(g, start, m, n, k - 1);
      var j :| 0 <= j < n && Reached(g, start, j) == Reached(g, start, k - 1);
      assert Reached(g, start, j + 1) == Reached(g, start, k);
      if j + 1 == n {
        assert Reached(g, start, m) == Reached(g, start, k);
      }
    }
  }

  lemma {:induction false} SeenIsBounded(seen: set<nat>, n: nat)
    requires forall i :: i in seen ==> i < n
    ensures |seen| <= n
  {
    if n == 0 {
      assert seen == {};
    } else if n - 1 in seen {
      SeenIsBounded(seen - {n - 1}, n - 1);
    } else {
      SeenIsBounded(seen, n - 1);
    }
  }

  /** What the walk has seen after n links. */
  ghost predicate SeenSoFar(g: Graph, start: nat, n: nat, seen: set<nat>)
    requires Closed(g) && start < |g|
  {
    && (forall i :: i in seen ==> i < |g| && exists m :: 0 <= m < n && Reached(g, start, m) == Some(i))
    && (forall m :: 0 <= m < n ==> Reached(g, start, m).Some? && Reached(g, start, m).value in seen)
  }

  ghost predicate QuietSoFar(g: Graph, start: nat, operation: Operation, n: nat)
    requires Closed(g) && start < |g|
  {
    forall m :: 0 <= m < n ==> Reached(g, start, m).Some? && Recognised(g[Reached(g, start, m).value], operation).None?
  }

  lemma WalkedOut(g: Graph, start: nat, operation: Operation, n: nat)
    requires Closed(g) && start < |g| && QuietSoFar(g, start, operation, n) && Reached(g, start, n).None?
    ensures NoneRecognised(g, start, operation)
  {
    forall k: nat | Reached(g, start, k).Some? ensures Recognised(g[Reached(g, start, k).value], operation).None? {
      if n <= k {
        ChainEnds(g, start, n, k);
      }
    }
  }

  lemma WalkedRound(g: Graph, start: nat, operation: Operation, n: nat, seen: set<nat>)
    requires Closed(g) && start < |g| && QuietSoFar(g, start, operation, n) && SeenSoFar(g, start, n, seen)
    requires Reached(g, start, n).Some? && Reached(g, start, n).value in seen
    ensures NoneRecognised(g, start, operation)
  {
    var m :| 0 <= m < n && Reached(g, start, m) == Some(Reached(g, start, n).value);
    forall k: nat | Reached(g, start, k).Some? ensures Recognised(g[Reached(g, start, k).value], operation).None? {
      ChainLoops(g, start, m, n, k);
    }
  }

  lemma WalkStep(g: Graph, start: nat, operation: Operation, n: nat, seen: set<nat>, current: nat)
    requires Closed(g) && start < |g| && SeenSoFar(g, start, n, seen) && QuietSoFar(g, start, operation, n)
    requires Reached(g, start, n) == Some(current) && current !in seen
    ensures |seen| < |seen + {current}| <= |g| && SeenSoFar(g, start, n + 1, seen + {current})
    ensures Reached(g, start, n + 1) == NextOf(g[current])
    ensures match Recognised(g[current], operation)
            case None => QuietSoFar(g, start, operation, n + 1)
            case Some(error) => FirstRecognised(g, start, operation, n, error)
  {
    hide Recognised, NextOf;
    SeenIsBounded(seen + {current}, |g|);
  }

  /**
   Walks the chain until an exception is recognised, the chain ends or an exception comes up
   again, and always names an error: the first one recognised on the chain, else the
   operation's own.
   */
  method SafeRpcError(g: Graph, start: nat, operation: Operation) returns (error: DeviceError)
    requires Closed(g) && start < |g|
    ensures (exists n :: FirstRecognised(g, start, operation, n, error))
            || (NoneRecognised(g, start, operation)
                && error == if operation == Set then ConfigurationError else ResponseError)
  {
    var current: Option<nat> := Some(start);
    var seen: set<nat> := {};
    ghost var n := 0;
    assert SeenSoFar(g, start, n, seen) && QuietSoFar(g, start, operation, n) && current == Reached(g, start, n);
    hide SeenSoFar, QuietSoFar, FirstRecognised, NoneRecognised, Reached, Recognised, NextOf;
    while current.Some? && current.value !in seen
      invariant current == Reached(g, start, n)
      invariant SeenSoFar(g, start, n, seen) && QuietSoFar(g, start, operation, n)
      decreases |g| - |seen|
    {
      WalkStep(g, start, operation, n, seen, current.value);
      seen := seen + {current.value};
      var recognised := Recognised(g[current.value], operation);
      if recognised.Some? {
        return recognised.value;
      }
      current := NextOf(g[current.value]);
      n := n + 1;
    }
    if current.None? {
      WalkedOut(g, start, operation, n);
    } else {
      WalkedRound(g, start, operation, n, seen);
    }
    return Fallback(operation);
  }

  /** The name is unique: no two errors can both be the first recognised. */
  lemma FirstIsUnique(g: Graph, start: nat, operation: Operation, m: nat, n: nat, a: DeviceError, b: DeviceError)
    requires Closed(g) && start < |g|
    requires FirstRecognised(g, start, operation, m, a) && FirstRecognised(g, start, operation, n, b)
    ensures m == n && a == b
  {
  }

  // ---------------------------------------------------------------- what the names stand for

  /** Which exceptions have which name; a status says more than being a connection error does. */
  lemma NamesExactlyWhen(e: Exception, operation: Operation)
    ensures var r := Recognised(e, operation);
            && (r == Some(ConnectionError) <==>
                  || e.status in {Some(Unavailable), Some(DeadlineExceeded)}
                  || (e.connection && e.status !in {Some(Unauthenticated), Some(PermissionDenied)}
                      && !(operation == Get && e.status == Some(InvalidArgument))))
            && (r == Some(AuthenticationError) <==> e.status in {Some(Unauthenticated), Some(PermissionDenied)})
            && (r == Some(PathError) <==> operation == Get && e.status == Some(InvalidArgument))
            && (r.Some? ==> r.value in {ConnectionError, AuthenticationError, PathError})
  {
  }

  /** An exception that says nothing itself is named by its cause, whatever its context, or else by its context. */
  lemma CauseBeforeContext(g: Graph, start: nat, operation: Operation, error: DeviceError)
    requires Closed(g) && start < |g| && Recognised(g[start], operation).None?
    requires g[start].cause.Some? || g[start].context.Some?
    requires var next := if g[start].cause.Some? then g[start].cause.value else g[start].context.value;
             Recognised(g[next], operation) == Some(error)
    ensures FirstRecognised(g, start, operation, 1, error)
  {
    hide Recognised;
    assert Reached(g, start, 0) == Some(start);
    assert Reached(g, start, 1) == NextOf(g[start]);
  }

  /** An exception without links ends its chain. */
  lemma ChainStops(g: Graph, start: nat, operation: Operation)
    requires Closed(g) && start < |g| && Recognised(g[start], operation).None?
    requires g[start].cause.None? && g[start].context.None?
    ensures NoneRecognised(g, start, operation)
  {
    hide Recognised;
    assert Reached(g, start, 0) == Some(start) && Reached(g, start, 1).None?;
    forall n: nat | Reached(g, start, n).Some? ensures Recognised(g[Reached(g, start, n).value], operation).None? {
      if n >= 1 {
        ChainEnds(g, start, 1, n);
      }
    }
  }
}
