/** Temporal's activity retries: backoff arithmetic, and the loop over attempts under a policy's limits. */
module Retry {
  import opened Outcomes
  import opened DeploymentModels

  datatype Policy = Policy(initial: real, coefficient: real, maximum: real, attempts: nat, nonRetryable: set<Kind>)

  datatype Limits = Limits(startToClose: real, scheduleToClose: Option<real>)

  /** Why an attempt failed: what the activity raised, or a timeout of the attempt. */
  datatype Failure =
    | Application(kind: Kind, message: string, permanent: bool)
    | TimedOut

  /** How long an attempt takes and how it ends, as the environment decides. */
  datatype Attempt<T> = Attempt(seconds: real, result: Result<T, Failure>)

  /** The result, the outcome of every attempt in order, and the time from scheduling to closing. */
  datatype Course<T> = Course(result: Result<T, Failure>, outcomes: seq<Result<T, Failure>>, elapsed: real)

  predicate ValidPolicy(p: Policy) {
    0.0 < p.initial <= p.maximum && p.coefficient >= 1.0 && p.attempts >= 1
  }

  predicate ValidLimits(l: Limits) {
    0.0 < l.startToClose && (l.scheduleToClose.Some? ==> 0.0 < l.scheduleToClose.value)
  }

  // ---------------------------------------------------------------- backoff

  function Power(c: real, k: nat): real {
    if k == 0 then 1.0 else c * Power(c, k - 1)
  }

  function Wait(p: Policy, k: nat): real {
    p.initial * Power(p.coefficient, k)
  }

  /** The wait after failed attempt k + 1: initial · coefficient^k, capped. */
  function Backoff(p: Policy, k: nat): real {
    if Wait(p, k) < p.maximum then Wait(p, k) else p.maximum
  }

  function TotalBackoff(p: Policy, n: nat): real {
    if n == 0 then 0.0 else TotalBackoff(p, n - 1) + Backoff(p, n - 1)
  }

  lemma {:induction false} PowerGrows(c: real, k: nat)
    requires c >= 1.0
    ensures Power(c, k) >= 1.0 && Power(c, k + 1) >= Power(c, k)
  {
    if k > 0 {
      PowerGrows(c, k - 1);
      assert Power(c, k) == c * Power(c, k - 1) >= Power(c, k - 1);
    }
    assert Power(c, k + 1) - Power(c, k) == (c - 1.0) * Power(c, k) >= 0.0;
  }

  lemma BackoffIsPositive(p: Policy, k: nat)
    requires ValidPolicy(p)
    ensures p.initial <= Backoff(p, k) <= p.maximum
  {
    WaitGrows(p, 0, k);
    assert Wait(p, 0) == p.initial;
  }

  /** Waits only grow from one retry to the next. */
  lemma BackoffNeverShrinks(p: Policy, k: nat)
    requires ValidPolicy(p)
    ensures Backoff(p, k) <= Backoff(p, k + 1)
  {
    WaitGrows(p, k, k + 1);
  }

  /** The sum of n waits as if there were no cap. */
  function Uncapped(p: Policy, n: nat): real {
    if n == 0 then 0.0 else Uncapped(p, n - 1) + Wait(p, n - 1)
  }

  /** x added up n times. */
  function Multiple(n: nat, x: real): real {
    if n == 0 then 0.0 else Multiple(n - 1, x) + x
  }

  lemma {:induction false} MultipleIsProduct(n: nat, x: real)
    ensures Multiple(n, x) == n as real * x
  {
    if n > 0 {
      MultipleIsProduct(n - 1, x);
      assert n as real * x == (n - 1) as real * x + x;
    }
  }

  lemma GeometricStep(c: real, initial: real, power: real, sum: real)
    requires (c - 1.0) * sum == initial * (power - 1.0)
    ensures (c - 1.0) * (sum + initial * power) == initial * (c * power - 1.0)
  {
    calc {
      (c - 1.0) * (sum + initial * power);
    ==
      (c - 1.0) * sum + (c - 1.0) * (initial * power);
    ==
      initial * (power - 1.0) + (c - 1.0) * (initial * power);
    ==
      initial * (c * power - 1.0);
    }
  }

  /** The closed form of the geometric sum. */
  lemma {:induction false} UncappedIsGeometric(p: Policy, n: nat)
    ensures (p.coefficient - 1.0) * Uncapped(p, n) == p.initial * (Power(p.coefficient, n) - 1.0)
  {
    if n > 0 {
      UncappedIsGeometric(p, n - 1);
      assert Uncapped(p, n) == Uncapped(p, n - 1) + p.initial * Power(p.coefficient, n - 1);
      assert Power(p.coefficient, n) == p.coefficient * Power(p.coefficient, n - 1);
      hide Power, Uncapped;
      GeometricStep(p.coefficient, p.initial, Power(p.coefficient, n - 1), Uncapped(p, n - 1));
    }
  }

  /** The sum of n waits is bounded by the uncapped geometric sum and by n capped waits. */
  lemma {:induction false} TotalBackoffBound(p: Policy, n: nat)
    requires ValidPolicy(p)
    ensures TotalBackoff(p, n) <= Uncapped(p, n)
    ensures Multiple(n, p.initial) <= TotalBackoff(p, n) <= Multiple(n, p.maximum)
  {
    if n > 0 {
      TotalBackoffBound(p, n - 1);
      BackoffIsPositive(p, n - 1);
    }
  }

  /** The cap is reached once and for all: before wait `m` the sum is geometric, from then on it is linear. */
  lemma {:induction false} TotalBackoffExact(p: Policy, m: nat, n: nat)
    requires ValidPolicy(p)
    requires m == 0 || Wait(p, m - 1) <= p.maximum
    requires p.maximum <= Wait(p, m)
    ensures n <= m ==> TotalBackoff(p, n) == Uncapped(p, n)
    ensures n >= m ==> TotalBackoff(p, n) == Uncapped(p, m) + Multiple(n - m, p.maximum)
  {
    hide Wait;
    if n > m {
      TotalBackoffExact(p, m, n - 1);
      WaitGrows(p, m, n - 1);
    } else if n > 0 {
      TotalBackoffExact(p, m, n - 1);
      WaitGrows(p, n - 1, m - 1);
    }
  }

  lemma {:induction false} WaitGrows(p: Policy, m: nat, n: nat)
    requires ValidPolicy(p) && m <= n
    ensures Wait(p, m) <= Wait(p, n)
  {
    if m < n {
      WaitGrows(p, m, n - 1);
      PowerGrows(p.coefficient, n - 1);
      assert Wait(p, n) - Wait(p, n - 1) == p.initial * (Power(p.coefficient, n) - Power(p.coefficient, n - 1)) >= 0.0;
    }
  }

  // ---------------------------------------------------------------- one activity

  predicate Retryable(p: Policy, f: Failure) {
    f.TimedOut? || (!f.permanent && f.kind !in p.nonRetryable)
  }

  /** The time left for one attempt that starts at `elapsed`. */
  function Allowance(l: Limits, elapsed: real): real {
    if l.scheduleToClose.Some? && l.scheduleToClose.value - elapsed < l.startToClose
    then l.scheduleToClose.value - elapsed else l.startToClose
  }

  /** An attempt as the server sees it: cut off when its allowance is used up. */
  function Cut<T>(attempt: Attempt<T>, allowance: real): Attempt<T> {
    if attempt.seconds > allowance then Attempt(allowance, Err(TimedOut))
    else if attempt.seconds < 0.0 then attempt.(seconds := 0.0)
    else attempt
  }

  /** The attempts from number k + 1 on; each retry waits its backoff, as long as that ends before the deadline. */
  function ExecuteFrom<T>(
    p: Policy, l: Limits, script: nat -> Attempt<T>, before: seq<Result<T, Failure>>, elapsed: real): Course<T>
    decreases if |before| < p.attempts then p.attempts - |before| else 0
  {
    var k := |before|;
    var attempt := Cut(script(k), Allowance(l, elapsed));
    var now := elapsed + attempt.seconds;
    if IsLast(p, l, k, attempt.result, now) then Course(attempt.result, before + [attempt.result], now)
    else ExecuteFrom(p, l, script, before + [attempt.result], now + Backoff(p, k))
  }

  /** Whether attempt k + 1, ending at `now`, is the last. */
  predicate IsLast<T>(p: Policy, l: Limits, k: nat, result: Result<T, Failure>, now: real) {
    || result.Ok? || !Retryable(p, result.error) || k + 1 >= p.attempts
    || (l.scheduleToClose.Some? && now + Backoff(p, k) >= l.scheduleToClose.value)
  }

  function Execute<T>(p: Policy, l: Limits, script: nat -> Attempt<T>): Course<T> {
    ExecuteFrom(p, l, script, [], 0.0)
  }

  /** Time enough for `n` attempts and the waits between them. */
  function Spent(p: Policy, l: Limits, n: nat): real {
    Multiple(n, l.startToClose) + TotalBackoff(p, n)
  }

  /** The longest an activity can take from its first attempt to its last. */
  function WorstCase(p: Policy, l: Limits): real
    requires p.attempts >= 1
  {
    var retries := Spent(p, l, p.attempts - 1) + l.startToClose;
    if l.scheduleToClose.Some? && l.scheduleToClose.value < retries then l.scheduleToClose.value else retries
  }

  lemma {:induction false} SpentGrows(p: Policy, l: Limits, m: nat, n: nat)
    requires ValidPolicy(p) && ValidLimits(l) && m <= n
    ensures Spent(p, l, m) <= Spent(p, l, n)
  {
    if m < n {
      SpentGrows(p, l, m, n - 1);
      BackoffIsPositive(p, n - 1);
      hide Backoff;
    }
  }

  lemma {:induction false} ExecuteFromBounds<T>(
    p: Policy, l: Limits, script: nat -> Attempt<T>, before: seq<Result<T, Failure>>, elapsed: real)
    requires ValidPolicy(p) && ValidLimits(l) && |before| < p.attempts
    requires 0.0 <= elapsed <= Spent(p, l, |before|)
    requires l.scheduleToClose.Some? ==> elapsed < l.scheduleToClose.value
    ensures var e := ExecuteFrom(p, l, script, before, elapsed);
            && |before| < |e.outcomes| <= p.attempts
            && 0.0 <= e.elapsed <= WorstCase(p, l)
    decreases p.attempts - |before|
  {
    var k := |before|;
    var attempt := Cut(script(k), Allowance(l, elapsed));
    var now := elapsed + attempt.seconds;
    assert 0.0 <= attempt.seconds <= l.startToClose;
    BackoffIsPositive(p, k);
    SpentGrows(p, l, k, p.attempts - 1);
    hide Backoff, Retryable;
    if !IsLast(p, l, k, attempt.result, now) {
      ExecuteFromBounds(p, l, script, before + [attempt.result], now + Backoff(p, k));
    }
  }

  /** Whatever the attempts do, they are no more than the policy allows and end within the worst case. */
  lemma ExecuteBounds<T>(p: Policy, l: Limits, script: nat -> Attempt<T>)
    requires ValidPolicy(p) && ValidLimits(l)
    ensures var e := Execute(p, l, script);
            1 <= |e.outcomes| <= p.attempts && 0.0 <= e.elapsed <= WorstCase(p, l)
  {
    ExecuteFromBounds(p, l, script, [], 0.0);
  }

  /**
   Every attempt but the last ended in a failure worth retrying, the last is the result, and
   each is what the environment made of it unless it ran out of time.
   */
  lemma {:induction false} ExecuteFromRetries<T>(
    p: Policy, l: Limits, script: nat -> Attempt<T>, before: seq<Result<T, Failure>>, elapsed: real)
    ensures var e := ExecuteFrom(p, l, script, before, elapsed);
            && before < e.outcomes && e.outcomes[|e.outcomes| - 1] == e.result
            && (forall i :: |before| <= i < |e.outcomes| - 1 ==>
               e.outcomes[i].Err? && Retryable(p, e.outcomes[i].error))
            && (forall i :: |before| <= i < |e.outcomes| ==>
               e.outcomes[i] == script(i).result || e.outcomes[i] == Err(TimedOut))
    decreases if |before| < p.attempts then p.attempts - |before| else 0
  {
    var attempt := Cut(script(|before|), Allowance(l, elapsed));
    var now := elapsed + attempt.seconds;
    hide Backoff, Allowance, Retryable;
    if !IsLast(p, l, |before|, attempt.result, now) {
      ExecuteFromRetries(p, l, script, before + [attempt.result], now + Backoff(p, |before|));
    }
  }

  lemma OnlyTransientFailuresAreRetried<T>(p: Policy, l: Limits, script: nat -> Attempt<T>)
    ensures var e := Execute(p, l, script);
            && e.outcomes != [] && e.outcomes[|e.outcomes| - 1] == e.result
            && (forall i :: 0 <= i < |e.outcomes| - 1 ==> e.outcomes[i].Err? && Retryable(p, e.outcomes[i].error))
            && (forall i :: 0 <= i < |e.outcomes| ==>
                e.outcomes[i] == script(i).result || e.outcomes[i] == Err(TimedOut))
  {
    ExecuteFromRetries(p, l, script, [], 0.0);
  }

  lemma {:induction false} ExhaustedFrom<T>(
    p: Policy, l: Limits, script: nat -> Attempt<T>, before: seq<Result<T, Failure>>, elapsed: real)
    requires l.scheduleToClose.None? && |before| < p.attempts
    ensures var e := ExecuteFrom(p, l, script, before, elapsed);
            e.result.Err? && Retryable(p, e.result.error) ==> |e.outcomes| == p.attempts
    decreases p.attempts - |before|
  {
    var attempt := Cut(script(|before|), Allowance(l, elapsed));
    var now := elapsed + attempt.seconds;
    hide Backoff, Allowance, Retryable;
    if !IsLast(p, l, |before|, attempt.result, now) {
      ExhaustedFrom(p, l, script, before + [attempt.result], now + Backoff(p, |before|));
    }
  }

  /** Without a deadline, an activity that ends in a transient failure has used up its attempts. */
  lemma TransientEndsExhausted<T>(p: Policy, l: Limits, script: nat -> Attempt<T>)
    requires l.scheduleToClose.None? && p.attempts >= 1
    ensures var e := Execute(p, l, script);
            e.result.Err? && Retryable(p, e.result.error) ==> |e.outcomes| == p.attempts
  {
    ExhaustedFrom(p, l, script, [], 0.0);
  }
}
