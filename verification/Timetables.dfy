/** What executing an activity means, attempt by attempt: when each begins, ends and is the last. */
module Timetables {
  import opened Outcomes
  import opened DeploymentModels
  import opened Retry

  /** An attempt from `start` to `end`: it ends when it is done, or is cut off at its limit or at the deadline. */
  ghost predicate Attempted<T>(l: Limits, attempt: Attempt<T>, start: real, end: real, outcome: Result<T, Failure>) {
    var late := attempt.seconds > l.startToClose
             || (l.scheduleToClose.Some? && start + attempt.seconds > l.scheduleToClose.value);
    && start <= end <= start + l.startToClose && (l.scheduleToClose.Some? ==> end <= l.scheduleToClose.value)
    && (if late then
          && outcome == Err(TimedOut)
          && (end == start + l.startToClose || (l.scheduleToClose.Some? && end == l.scheduleToClose.value))
        else
          && outcome == attempt.result
          && end == if attempt.seconds < 0.0 then start else start + attempt.seconds)
  }

  /** A timeout, or a failure that is neither permanent nor of a kind the policy never retries. */
  ghost predicate Transient<T>(p: Policy, outcome: Result<T, Failure>) {
    && outcome.Err?
    && (outcome.error.TimedOut? || (!outcome.error.permanent && outcome.error.kind !in p.nonRetryable))
  }

  /** Another attempt may begin: there is one left, and the wait ends before the deadline. */
  ghost predicate GoesOn<T>(p: Policy, l: Limits, k: nat, outcome: Result<T, Failure>, end: real) {
    && Transient(p, outcome) && k + 1 < p.attempts
    && (l.scheduleToClose.Some? ==> end + Backoff(p, k) < l.scheduleToClose.value)
  }

  /** When each attempt began and ended: the first at once, each later one after the wait, the last for good. */
  ghost predicate Timetable<T>(
    p: Policy, l: Limits, script: nat -> Attempt<T>, c: Course<T>, starts: seq<real>, ends: seq<real>)
  {
    var n := |c.outcomes|;
    && n >= 1 && |starts| == |ends| == n && starts[0] == 0.0
    && (forall i :: 0 <= i < n ==> Attempted(l, script(i), starts[i], ends[i], c.outcomes[i]))
    && (forall i :: 0 <= i < n - 1 ==>
          GoesOn(p, l, i, c.outcomes[i], ends[i]) && starts[i + 1] == ends[i] + Backoff(p, i))
    && !GoesOn(p, l, n - 1, c.outcomes[n - 1], ends[n - 1])
    && c.result == c.outcomes[n - 1] && c.elapsed == ends[n - 1]
  }

  lemma CutIsAttempted<T>(l: Limits, attempt: Attempt<T>, start: real)
    requires ValidLimits(l) && (l.scheduleToClose.Some? ==> start < l.scheduleToClose.value)
    ensures var c := Cut(attempt, Allowance(l, start));
            Attempted(l, attempt, start, start + c.seconds, c.result)
  {
  }

  lemma AttemptedIsCut<T>(l: Limits, attempt: Attempt<T>, start: real, end: real, outcome: Result<T, Failure>)
    requires ValidLimits(l) && (l.scheduleToClose.Some? ==> start < l.scheduleToClose.value)
    requires Attempted(l, attempt, start, end, outcome)
    ensures var c := Cut(attempt, Allowance(l, start)); c.result == outcome && start + c.seconds == end
  {
  }

  lemma LastOrGoesOn<T>(p: Policy, l: Limits, k: nat, outcome: Result<T, Failure>, end: real)
    ensures IsLast(p, l, k, outcome, end) <==> !GoesOn(p, l, k, outcome, end)
  {
    hide Backoff;
  }

  lemma OneAttempt<T>(
    p: Policy, l: Limits, script: nat -> Attempt<T>, before: seq<Result<T, Failure>>, now: real)
    ensures
      var attempt := Cut(script(|before|), Allowance(l, now));
      ExecuteFrom(p, l, script, before, now) ==
        if IsLast(p, l, |before|, attempt.result, now + attempt.seconds)
        then Course(attempt.result, before + [attempt.result], now + attempt.seconds)
        else ExecuteFrom(p, l, script, before + [attempt.result], now + attempt.seconds + Backoff(p, |before|))
  {
    hide IsLast, Cut, Allowance, Backoff;
  }

  lemma BeginsInTime<T>(
    p: Policy, l: Limits, script: nat -> Attempt<T>, c: Course<T>, starts: seq<real>, ends: seq<real>, k: nat)
    requires ValidLimits(l) && Timetable(p, l, script, c, starts, ends) && k < |c.outcomes|
    ensures l.scheduleToClose.Some? ==> starts[k] < l.scheduleToClose.value
  {
    hide Attempted, Backoff;
    if k > 0 {
      assert GoesOn(p, l, k - 1, c.outcomes[k - 1], ends[k - 1]);
    }
  }

  lemma TimetableStep<T>(
    p: Policy, l: Limits, script: nat -> Attempt<T>, c: Course<T>, starts: seq<real>, ends: seq<real>, k: nat)
    requires ValidLimits(l) && Timetable(p, l, script, c, starts, ends) && k < |c.outcomes|
    ensures
      var attempt := Cut(script(k), Allowance(l, starts[k]));
      && attempt.result == c.outcomes[k] && starts[k] + attempt.seconds == ends[k]
      && (IsLast(p, l, k, c.outcomes[k], ends[k]) <==> k == |c.outcomes| - 1)
  {
    BeginsInTime(p, l, script, c, starts, ends, k);
    hide Attempted, Backoff, Cut, Allowance, GoesOn, IsLast;
    AttemptedIsCut(l, script(k), starts[k], ends[k], c.outcomes[k]);
    LastOrGoesOn(p, l, k, c.outcomes[k], ends[k]);
  }

  lemma TimetableNext<T>(
    p: Policy, l: Limits, script: nat -> Attempt<T>, c: Course<T>, starts: seq<real>, ends: seq<real>, k: nat)
    requires Timetable(p, l, script, c, starts, ends) && k < |c.outcomes|
    ensures k < |c.outcomes| - 1 ==> starts[k + 1] == ends[k] + Backoff(p, k)
    ensures k == |c.outcomes| - 1 ==> c.result == c.outcomes[k] && c.elapsed == ends[k]
  {
    hide Attempted, Backoff, GoesOn;
  }

  lemma PrefixGrows<T>(s: seq<T>, k: nat)
    requires k < |s|
    ensures s[..k] + [s[k]] == s[..k + 1] && (k == |s| - 1 ==> s[..k] + [s[k]] == s)
  {
  }

  lemma TimetableLength<T>(
    p: Policy, l: Limits, script: nat -> Attempt<T>, c: Course<T>, starts: seq<real>, ends: seq<real>)
    requires Timetable(p, l, script, c, starts, ends)
    ensures 1 <= |starts| == |ends| == |c.outcomes| && starts[0] == 0.0
  {
  }

  lemma {:induction false} TimetableFrom<T>(
    p: Policy, l: Limits, script: nat -> Attempt<T>, c: Course<T>, starts: seq<real>, ends: seq<real>, k: nat)
    requires ValidLimits(l) && Timetable(p, l, script, c, starts, ends) && k < |c.outcomes|
    ensures k < |starts| && ExecuteFrom(p, l, script, c.outcomes[..k], starts[k]) == c
    decreases |c.outcomes| - k
  {
    hide Timetable, Backoff, Cut, Allowance, IsLast, ExecuteFrom;
    TimetableLength(p, l, script, c, starts, ends);
    TimetableStep(p, l, script, c, starts, ends, k);
    TimetableNext(p, l, script, c, starts, ends, k);
    OneAttempt(p, l, script, c.outcomes[..k], starts[k]);
    PrefixGrows(c.outcomes, k);
    if k < |c.outcomes| - 1 {
      TimetableFrom(p, l, script, c, starts, ends, k + 1);
    }
  }

  /** Only one course has a timetable. */
  lemma TimetableIsExecuted<T>(
    p: Policy, l: Limits, script: nat -> Attempt<T>, c: Course<T>, starts: seq<real>, ends: seq<real>)
    requires ValidLimits(l) && Timetable(p, l, script, c, starts, ends)
    ensures c == Execute(p, l, script)
  {
    TimetableFrom(p, l, script, c, starts, ends, 0);
    assert c.outcomes[..0] == [];
  }

  /** A timetable up to where attempt |starts| + 1 begins. */
  ghost predicate Underway<T>(
    p: Policy, l: Limits, script: nat -> Attempt<T>, outcomes: seq<Result<T, Failure>>, starts: seq<real>,
    ends: seq<real>, next: real)
  {
    var n := |outcomes|;
    && |starts| == |ends| == n
    && (forall i :: 0 <= i < n ==> Attempted(l, script(i), starts[i], ends[i], outcomes[i]))
    && (forall i :: 0 <= i < n ==>
          GoesOn(p, l, i, outcomes[i], ends[i])
          && (if i + 1 < n then starts[i + 1] else next) == ends[i] + Backoff(p, i))
    && (if n == 0 then next else starts[0]) == 0.0
  }

  lemma UnderwayInTime<T>(
    p: Policy, l: Limits, script: nat -> Attempt<T>, before: seq<Result<T, Failure>>, now: real, starts: seq<real>,
    ends: seq<real>)
    requires ValidLimits(l) && Underway(p, l, script, before, starts, ends, now)
    ensures l.scheduleToClose.Some? ==> now < l.scheduleToClose.value
  {
    var k := |before|;
    hide Attempted, Backoff;
    if k > 0 {
      assert GoesOn(p, l, k - 1, before[k - 1], ends[k - 1]);
    }
  }

  lemma OneMoreUnderway<T>(
    p: Policy, l: Limits, script: nat -> Attempt<T>, before: seq<Result<T, Failure>>, now: real, starts: seq<real>,
    ends: seq<real>, outcome: Result<T, Failure>, end: real)
    requires Underway(p, l, script, before, starts, ends, now)
    requires Attempted(l, script(|before|), now, end, outcome) && GoesOn(p, l, |before|, outcome, end)
    ensures Underway(p, l, script, before + [outcome], starts + [now], ends + [end], end + Backoff(p, |before|))
  {
    hide Attempted, Backoff, GoesOn;
  }

  lemma LastUnderway<T>(
    p: Policy, l: Limits, script: nat -> Attempt<T>, before: seq<Result<T, Failure>>, now: real, starts: seq<real>,
    ends: seq<real>, outcome: Result<T, Failure>, end: real)
    requires Underway(p, l, script, before, starts, ends, now)
    requires Attempted(l, script(|before|), now, end, outcome) && !GoesOn(p, l, |before|, outcome, end)
    ensures Timetable(p, l, script, Course(outcome, before + [outcome], end), starts + [now], ends + [end])
  {
    hide Attempted, Backoff, GoesOn;
  }

  lemma {:induction false} ExecuteFromTimetable<T>(
    p: Policy, l: Limits, script: nat -> Attempt<T>, before: seq<Result<T, Failure>>, now: real, starts: seq<real>,
    ends: seq<real>)
    returns (allStarts: seq<real>, allEnds: seq<real>)
    requires ValidLimits(l) && Underway(p, l, script, before, starts, ends, now)
    ensures Timetable(p, l, script, ExecuteFrom(p, l, script, before, now), allStarts, allEnds)
    decreases if |before| < p.attempts then p.attempts - |before| else 0
  {
    hide Attempted, Backoff, Cut, Allowance, GoesOn, Underway, Timetable, ExecuteFrom, IsLast;
    var attempt := Cut(script(|before|), Allowance(l, now));
    var end := now + attempt.seconds;
    UnderwayInTime(p, l, script, before, now, starts, ends);
    CutIsAttempted(l, script(|before|), now);
    LastOrGoesOn(p, l, |before|, attempt.result, end);
    OneAttempt(p, l, script, before, now);
    allStarts, allEnds := starts + [now], ends + [end];
    if IsLast(p, l, |before|, attempt.result, end) {
      LastUnderway(p, l, script, before, now, starts, ends, attempt.result, end);
    } else {
      BeginNext(p, l, |before|, attempt.result, end);
      OneMoreUnderway(p, l, script, before, now, starts, ends, attempt.result, end);
      allStarts, allEnds := ExecuteFromTimetable(
        p, l, script, before + [attempt.result], end + Backoff(p, |before|), allStarts, allEnds);
    }
  }

  lemma BeginNext<T>(p: Policy, l: Limits, k: nat, outcome: Result<T, Failure>, end: real)
    requires GoesOn(p, l, k, outcome, end)
    ensures k + 1 < p.attempts
  {
  }

  /**
   What executing an activity means: the first attempt begins at once, each ends as the
   environment has it unless cut off at its limit or the deadline, a transient failure is retried
   after the wait while an attempt is left and the wait ends in time, and nothing else is retried.
   */
  lemma ExecutionHasTimetable<T>(p: Policy, l: Limits, script: nat -> Attempt<T>)
    returns (starts: seq<real>, ends: seq<real>)
    requires ValidLimits(l)
    ensures Timetable(p, l, script, Execute(p, l, script), starts, ends)
  {
    starts, ends := ExecuteFromTimetable(p, l, script, [], 0.0, [], []);
  }

  /** An activity that ends in a transient failure before its attempts are used up has run into its deadline. */
  lemma GivesUpOnlyAtDeadline<T>(p: Policy, l: Limits, script: nat -> Attempt<T>)
    requires ValidLimits(l)
    ensures
      var c := Execute(p, l, script);
      && 1 <= |c.outcomes|
      && (c.result.Err? && |c.outcomes| < p.attempts
          && (c.result.error.TimedOut? || (!c.result.error.permanent && c.result.error.kind !in p.nonRetryable)) ==>
            && l.scheduleToClose.Some?
            && c.elapsed + Backoff(p, |c.outcomes| - 1) >= l.scheduleToClose.value)
  {
    var starts, ends := ExecutionHasTimetable(p, l, script);
    hide Backoff, Execute;
  }
}
