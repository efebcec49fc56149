/**
 * What a run does, said on the answers of the outside alone.
 *
 * Module Retry decides each attempt from the list of failures so far.  Here nothing of that is
 * mentioned: attempts are described by what the operation, the clock and the callbacks answered.
 */
module RetryLaws {
  import opened Basics
  import opened Retry
  import opened RetryAgreement
  import opened RetryTraces
  import opened RetryLimits

  // ---------------------------------------------------------------- attempts by their answers

  /** The operation raised, or the result classifier calls what it returned a failure. */
  predicate Fails(op: OpResult) {
    op.Raised? || (op.Returned? && op.failureClass.Some?)
  }

  function ClassOf(op: OpResult): ErrorClass
    requires Fails(op)
  {
    if op.Raised? then op.exc.klass else op.failureClass.value
  }

  predicate FailsAs(env: Env, j: nat, k: ErrorClass) {
    Fails(env(j).op) && ClassOf(env(j).op) == k
  }

  /** How many of the attempts 1..n failed with class k. */
  function SoFar(env: Env, n: nat, k: ErrorClass): nat {
    if n == 0 then 0 else SoFar(env, n - 1, k) + (if FailsAs(env, n, k) then 1 else 0)
  }

  ghost predicate OverClassLimit(p: RetryPolicy, env: Env, n: nat, k: ErrorClass) {
    k in p.perClassLimit && SoFar(env, n, k) > p.perClassLimit[k]
  }

  ghost predicate OverUnknownLimit(p: RetryPolicy, env: Env, n: nat, k: ErrorClass) {
    k == UNKNOWN && p.maxUnknown.Some? && SoFar(env, n, k) > p.maxUnknown.value
  }

  predicate Permanent(k: ErrorClass) { k in {PERMANENT, AUTH, PERMISSION} }

  predicate HasNoStrategy(p: RetryPolicy, k: ErrorClass) { k !in p.strategies && !p.hasDefaultStrategy }

  /** Attempt n failed and its failure got on record. */
  predicate FailureRecorded(env: Env, n: nat) {
    !env(n).abortBefore && Fails(env(n).op) && !env(n).abortOnFailure
  }

  /** Everything a retry after attempt n takes. */
  ghost predicate PlansRetry(p: RetryPolicy, start: real, env: Env, n: nat) {
    && FailureRecorded(env, n)
    && var s, k := env(n), ClassOf(env(n).op);
       && !OverClassLimit(p, env, n, k) && !Permanent(k) && !OverUnknownLimit(p, env, n, k)
       && s.checkedAt - start <= p.deadline && s.plannedAt - start < p.deadline
       && (k in p.strategies || p.hasDefaultStrategy)
       && n < p.maxAttempts
       && (p.hasBudget ==> s.budgetGrants)
  }

  /** And what it takes to get from there to the next attempt. */
  ghost predicate GoesOn(p: RetryPolicy, start: real, env: Env, n: nat) {
    && PlansRetry(p, start, env, n)
    && !env(n).abortOnRetry && env(n).sleep.Slept? && env(n).wokeAt - start <= p.deadline
  }

  /** The condition under which a failure on record stops the run for this reason. */
  ghost predicate StopsFor(p: RetryPolicy, start: real, env: Env, n: nat, reason: StopReason)
    requires Fails(env(n).op)
  {
    var s, k := env(n), ClassOf(env(n).op);
    var counted := !OverClassLimit(p, env, n, k) && !Permanent(k) && !OverUnknownLimit(p, env, n, k);
    var checked := counted && s.checkedAt - start <= p.deadline;
    var timely := checked && !HasNoStrategy(p, k) && s.plannedAt - start < p.deadline;
    match reason
    case MAX_ATTEMPTS_PER_CLASS => OverClassLimit(p, env, n, k)
    case NON_RETRYABLE_CLASS => !OverClassLimit(p, env, n, k) && Permanent(k)
    case MAX_UNKNOWN_ATTEMPTS => !OverClassLimit(p, env, n, k) && OverUnknownLimit(p, env, n, k)
    case DEADLINE_EXCEEDED =>
      || (counted && s.checkedAt - start > p.deadline)
      || (checked && !HasNoStrategy(p, k) && s.plannedAt - start >= p.deadline)
    case NO_STRATEGY => checked && HasNoStrategy(p, k)
    case MAX_ATTEMPTS_GLOBAL => timely && n >= p.maxAttempts
    case BUDGET_EXHAUSTED => timely && n < p.maxAttempts && p.hasBudget && !s.budgetGrants
    case SCHEDULED => false
    case ABORTED => false
  }

  /** The event that announces a stop. */
  function EventFor(reason: StopReason): EventName {
    match reason
    case MAX_ATTEMPTS_GLOBAL => MAX_ATTEMPTS_EXCEEDED
    case MAX_ATTEMPTS_PER_CLASS => MAX_ATTEMPTS_EXCEEDED
    case DEADLINE_EXCEEDED => DEADLINE_PASSED
    case MAX_UNKNOWN_ATTEMPTS => MAX_UNKNOWN_ATTEMPTS_EXCEEDED
    case NON_RETRYABLE_CLASS => PERMANENT_FAIL
    case NO_STRATEGY => NO_STRATEGY_CONFIGURED
    case BUDGET_EXHAUSTED => BUDGET_SPENT
    case SCHEDULED => RETRY_SCHEDULED
    case ABORTED => RETRY_ABORTED
  }

  /** The failure says what the operation answered. */
  predicate Carries(f: Failure, op: OpResult) {
    match op
    case Raised(e) => f == Failure(ByException, Some(e), None, e.klass)
    case Returned(v, Some(k)) => f == Failure(ByResult, None, Some(v), k)
    case _ => false
  }

  lemma JudgedCarries(p: RetryPolicy, start: real, past: seq<Slot>, s: Script)
    ensures var e := Judge(p, start, past, s);
            OnFailure(e) ==> Carries(e.failure, s.op) && Fails(s.op) && e.failure.klass == ClassOf(s.op)
  {
    hide FirstStop, Delay, FollowPlan;
  }

  /** Every retried attempt failed, and its slot holds the failure the operation answered. */
  lemma PastCarries(p: RetryPolicy, start: real, env: Env, past: seq<Slot>)
    requires Judged(p, start, env, past)
    ensures forall i :: 0 <= i < |past| ==>
              && Carries(past[i].failure, env(i + 1).op) && Fails(env(i + 1).op)
              && past[i].failure.klass == ClassOf(env(i + 1).op)
  {
    hide Judge, Carries;
    forall i | 0 <= i < |past|
      ensures Carries(past[i].failure, env(i + 1).op) && Fails(env(i + 1).op)
      ensures past[i].failure.klass == ClassOf(env(i + 1).op)
    {
      assert JudgedAt(p, start, env, past, i);
      JudgedCarries(p, start, past[..i], env(i + 1));
    }
  }

  lemma {:induction false} CountedSoFar(p: RetryPolicy, start: real, env: Env, past: seq<Slot>, k: ErrorClass)
    requires Judged(p, start, env, past)
    ensures CountClass(past, k) == SoFar(env, |past|, k)
  {
    hide Judge, Judged, Carries;
    if past != [] {
      var n := |past|;
      JudgedPrefix(p, start, env, past, n - 1);
      CountedSoFar(p, start, env, past[..n - 1], k);
      PastCarries(p, start, env, past);
    }
  }

  /** How an attempt can end, by the answers it got. */
  ghost predicate Fits(p: RetryPolicy, start: real, env: Env, n: nat, e: AttemptEnd) {
    var s := env(n);
    && (HasPlan(e) ==> PlansRetry(p, start, env, n) && e.delay == Delay(p, start, s))
    && (OnFailure(e) ==> Carries(e.failure, s.op))
    && match e
       case NotStarted => s.abortBefore
       case Escaped(signal) => !s.abortBefore && s.op == Escaping(signal)
       case Succeeded(v) => !s.abortBefore && s.op == Returned(v, None)
       case AbortedByOperation => !s.abortBefore && s.op == AbortSignal
       case AbortedOnFailure(_) => !s.abortBefore && Fails(s.op) && s.abortOnFailure
       case Refused(_, stop) =>
         && FailureRecorded(env, n) && !PlansRetry(p, start, env, n)
         && StopsFor(p, start, env, n, stop.reason) && stop.name == EventFor(stop.reason)
       case AbortedOnRetry(_, _) => s.abortOnRetry
       case Deferred(_, _) => !s.abortOnRetry && s.sleep.Defer?
       case AbortedBySleepHandler(_, _) => !s.abortOnRetry && s.sleep.AbortSleep?
       case EscapedInSleep(_, _, signal) => !s.abortOnRetry && s.sleep == Interrupted(signal)
       case Overslept(_, _) => !s.abortOnRetry && s.sleep.Slept? && s.wokeAt - start > p.deadline
       case Again(_, _) => !s.abortOnRetry && s.sleep.Slept? && s.wokeAt - start <= p.deadline
  }

  /** The ordered conditions of FirstStop come to StopsFor, and to none exactly when a retry is planned. */
  lemma FirstStopMeans(p: RetryPolicy, start: real, env: Env, past: seq<Slot>)
    requires var n := |past| + 1; FailureRecorded(env, n) && CountClass(past, ClassOf(env(n).op)) + 1 == SoFar(env, n, ClassOf(env(n).op))
    ensures var n := |past| + 1;
            var stop := FirstStop(p, start, past, ClassOf(env(n).op), env(n));
            if stop.None? then PlansRetry(p, start, env, n)
            else !PlansRetry(p, start, env, n) && StopsFor(p, start, env, n, stop.value.reason)
                 && stop.value.name == EventFor(stop.value.reason)
  {
    hide CountClass, SoFar;
  }

  lemma JudgeFits(p: RetryPolicy, start: real, env: Env, past: seq<Slot>)
    requires Judged(p, start, env, past)
    ensures Fits(p, start, env, |past| + 1, Judge(p, start, past, env(|past| + 1)))
  {
    hide FirstStop, StopsFor, PlansRetry, CountClass, Delay;
    var n := |past| + 1;
    var s := env(n);
    if FailureRecorded(env, n) {
      var k := ClassOf(s.op);
      CountedSoFar(p, start, env, past, k);
      assert SoFar(env, n, k) == SoFar(env, n - 1, k) + 1;
      FirstStopMeans(p, start, env, past);
    }
  }

  // ---------------------------------------------------------------- how far a run gets

  lemma FitsExclusive(p: RetryPolicy, start: real, env: Env, n: nat, e: AttemptEnd)
    requires Fits(p, start, env, n, e)
    ensures HasPlan(e) <==> PlansRetry(p, start, env, n)
    ensures e.Again? <==> GoesOn(p, start, env, n)
  {
    hide SoFar, Delay;
  }

  /** The attempts of a run that were retried, and the one that ended it. */
  lemma RunFits(p: RetryPolicy, start: real, env: Env)
    requires p.maxAttempts >= 1
    ensures var r := Run(p, start, env);
            && (forall i :: 1 <= i <= |r.past| ==> GoesOn(p, start, env, i))
            && !GoesOn(p, start, env, |r.past| + 1)
            && Fits(p, start, env, |r.past| + 1, r.last)
            && (forall i :: 0 <= i < |r.past| ==> Carries(r.past[i].failure, env(i + 1).op))
  {
    hide Judge, RunFrom, Fits, GoesOn, Carries;
    var r := Run(p, start, env);
    RunIsJudged(p, start, env);
    forall i | 1 <= i <= |r.past| ensures GoesOn(p, start, env, i) {
      assert JudgedAt(p, start, env, r.past, i - 1);
      JudgedPrefix(p, start, env, r.past, i - 1);
      JudgeFits(p, start, env, r.past[..i - 1]);
      FitsExclusive(p, start, env, i, Judge(p, start, r.past[..i - 1], env(i)));
    }
    JudgeFits(p, start, env, r.past);
    FitsExclusive(p, start, env, |r.past| + 1, r.last);
    PastCarries(p, start, env, r.past);
  }

  /** The attempt that ends the run: the first that does not go on. */
  ghost predicate LastAttempt(p: RetryPolicy, start: real, env: Env, m: nat) {
    m >= 1 && !GoesOn(p, start, env, m) && forall i :: 1 <= i < m ==> GoesOn(p, start, env, i)
  }

  /** A run ends at attempt m exactly when all before it go on and m does not. */
  lemma ReachedExactly(p: RetryPolicy, start: real, env: Env, m: nat)
    requires p.maxAttempts >= 1
    ensures |Run(p, start, env).past| + 1 == m <==> LastAttempt(p, start, env, m)
    ensures LastAttempt(p, start, env, m) ==> 1 <= m <= p.maxAttempts
  {
    hide RunFrom, GoesOn;
    var r := Run(p, start, env);
    RunFits(p, start, env);
    RunIsJudged(p, start, env);
    if LastAttempt(p, start, env, m) && |r.past| + 1 < m {
      assert false;
    }
  }

  /** Attempt n plans a retry exactly when PlansRetry says so, and that is what the retry events count. */
  lemma RetriesExactly(p: RetryPolicy, start: real, env: Env, style: Style)
    requires p.maxAttempts >= 1
    ensures var r := Run(p, start, env);
            var m := |r.past| + 1;
            && LastAttempt(p, start, env, m)
            && (HasPlan(r.last) <==> PlansRetry(p, start, env, m))
            && CountRetries(Events(Trace(p, env, r, style)))
               == m - 1 + (if PlansRetry(p, start, env, m) then 1 else 0)
  {
    hide RunFrom, GoesOn, PlansRetry, Fits, Trace, Events, CountRetries;
    var r := Run(p, start, env);
    RunFits(p, start, env);
    FitsExclusive(p, start, env, |r.past| + 1, r.last);
    RetriesOf(p, start, env, style);
  }

  // ---------------------------------------------------------------- work from below

  /** Nothing but a limit on its class keeps attempt n from being retried. */
  predicate OnlyLimitsStop(p: RetryPolicy, start: real, s: Script) {
    && !s.abortBefore && Fails(s.op) && !s.abortOnFailure && !s.abortOnRetry && s.sleep.Slept?
    && s.checkedAt - start <= p.deadline && s.plannedAt - start < p.deadline && s.wokeAt - start <= p.deadline
    && (ClassOf(s.op) in p.strategies || p.hasDefaultStrategy)
    && (p.hasBudget ==> s.budgetGrants)
  }

  predicate Uncapped(p: RetryPolicy, k: ErrorClass) {
    k !in p.perClassLimit && !Permanent(k) && (k == UNKNOWN ==> p.maxUnknown.None?)
  }

  /** Failing all the way with classes without a limit uses every attempt there is. */
  lemma EveryAttemptIsUsed(p: RetryPolicy, start: real, env: Env)
    requires p.maxAttempts >= 1
    requires forall n: nat :: OnlyLimitsStop(p, start, env(n)) && Uncapped(p, ClassOf(env(n).op))
    ensures Invocations(Run(p, start, env)) == p.maxAttempts
  {
    hide SoFar, RunFrom;
    var r := Run(p, start, env);
    var n := |r.past| + 1;
    RunFits(p, start, env);
    RunIsJudged(p, start, env);
    assert OnlyLimitsStop(p, start, env(n)) && Uncapped(p, ClassOf(env(n).op));
  }

  /** How many failures of class k can be retried: the least of the limits that apply to it. */
  ghost predicate CapOf(p: RetryPolicy, k: ErrorClass, cap: nat) {
    && (Permanent(k) ==> cap == 0)
    && (k in p.perClassLimit ==> cap <= AtLeastZero(p.perClassLimit[k]))
    && (k == UNKNOWN && p.maxUnknown.Some? ==> cap <= AtLeastZero(p.maxUnknown.value))
    && (|| Permanent(k)
        || (k in p.perClassLimit && cap == AtLeastZero(p.perClassLimit[k]))
        || (k == UNKNOWN && p.maxUnknown.Some? && cap == AtLeastZero(p.maxUnknown.value)))
  }

  lemma {:induction false} AllOfClass(env: Env, n: nat, k: ErrorClass)
    requires forall j: nat :: FailsAs(env, j, k)
    ensures SoFar(env, n, k) == n
  {
    if n > 0 { AllOfClass(env, n - 1, k); }
  }

  /** Failing all the way with one class uses one attempt more than its cap, if there are as many. */
  lemma CapIsUsedUp(p: RetryPolicy, start: real, env: Env, k: ErrorClass, cap: nat)
    requires p.maxAttempts >= 1 && CapOf(p, k, cap)
    requires forall n: nat :: OnlyLimitsStop(p, start, env(n)) && FailsAs(env, n, k)
    ensures Invocations(Run(p, start, env)) == if p.maxAttempts <= 1 + cap then p.maxAttempts else 1 + cap
  {
    hide SoFar, RunFrom;
    var r := Run(p, start, env);
    var n := |r.past| + 1;
    RunFits(p, start, env);
    RunIsJudged(p, start, env);
    assert OnlyLimitsStop(p, start, env(n)) && FailsAs(env, n, k);
    AllOfClass(env, n, k);
    if n > 1 {
      AllOfClass(env, n - 1, k);
      assert FailsAs(env, n - 1, k);
      assert GoesOn(p, start, env, n - 1);
    }
  }

  // ---------------------------------------------------------------- how a run ends

  /** `call` returns a value, and `execute` an ok outcome, exactly when the last attempt's operation did. */
  lemma ValueExactly(p: RetryPolicy, start: real, env: Env, v: int)
    requires p.maxAttempts >= 1
    ensures var r := Run(p, start, env);
            var s := env(|r.past| + 1);
            && (CallView(r) == Value(v) <==> !s.abortBefore && s.op == Returned(v, None))
            && (ExecuteView(r).Returns? && ExecuteView(r).outcome.ok && ExecuteView(r).outcome.value == Some(v)
                <==> !s.abortBefore && s.op == Returned(v, None))
            && (ExecuteView(r).Returns? && !ExecuteView(r).outcome.ok ==> ExecuteView(r).outcome.value.None?)
  {
    hide RunFrom, GoesOn, PlansRetry, StopsFor;
    RunFits(p, start, env);
  }

  /** The reasons for a run to be aborted. */
  ghost predicate Aborts(p: RetryPolicy, start: real, env: Env, n: nat) {
    var s := env(n);
    || s.abortBefore
    || s.op.AbortSignal?
    || (Fails(s.op) && s.abortOnFailure)
    || (PlansRetry(p, start, env, n) && (s.abortOnRetry || s.sleep.AbortSleep?))
  }

  lemma AbortExactly(p: RetryPolicy, start: real, env: Env)
    requires p.maxAttempts >= 1
    ensures var r := Run(p, start, env);
            var n := |r.past| + 1;
            && (CallView(r) == RaisedAbort <==> Aborts(p, start, env, n))
            && (ExecuteView(r).Returns? && ExecuteView(r).outcome.stop == Some(ABORTED) <==> Aborts(p, start, env, n))
  {
    hide RunFrom, GoesOn, PlansRetry, StopsFor, Delay;
    var r := Run(p, start, env);
    var n := |r.past| + 1;
    RunFits(p, start, env);
    FitsExclusive(p, start, env, n, r.last);
    RecordedWhenPlanned(p, start, env, n);
    if r.last.Refused? { NoStopForThese(p, start, env, n); }
    assert Aborts(p, start, env, n) <==>
             || r.last.NotStarted? || r.last.AbortedByOperation? || r.last.AbortedOnFailure?
             || r.last.AbortedOnRetry? || r.last.AbortedBySleepHandler?;
  }

  /** A signal gets out of the operation or the sleep, and as it is. */
  lemma SignalExactly(p: RetryPolicy, start: real, env: Env, signal: Signal)
    requires p.maxAttempts >= 1
    ensures var r := Run(p, start, env);
            var n := |r.past| + 1;
            var s := env(n);
            var escapes := || (!s.abortBefore && s.op == Escaping(signal))
                           || (PlansRetry(p, start, env, n) && !s.abortOnRetry && s.sleep == Interrupted(signal));
            && (CallView(r) == CallSignal(signal) <==> escapes)
            && (ExecuteView(r) == ExecuteSignal(signal) <==> escapes)
  {
    hide RunFrom, GoesOn, OverClassLimit, OverUnknownLimit, SoFar;
    RunFits(p, start, env);
  }

  ghost predicate Defers(p: RetryPolicy, start: real, env: Env, n: nat) {
    PlansRetry(p, start, env, n) && !env(n).abortOnRetry && env(n).sleep.Defer?
  }

  /** Deferring schedules, reports the delay as the next sleep, and nothing else reports one. */
  lemma ScheduledExactly(p: RetryPolicy, start: real, env: Env)
    requires p.maxAttempts >= 1
    ensures var r, n := Run(p, start, env), |Run(p, start, env).past| + 1;
            var s, defers := env(n), Defers(p, start, env, n);
            && (ExecuteView(r).Returns? && ExecuteView(r).outcome.stop == Some(SCHEDULED) <==> defers)
            && (ExecuteView(r).Returns? ==>
                  ExecuteView(r).outcome.nextSleep == if defers then Some(Delay(p, start, s)) else None)
            && (defers ==>
                  CallView(r) == RaisedExhausted(SCHEDULED, n, Some(ClassOf(s.op)),
                                                 if s.op.Raised? then Some(s.op.exc) else None,
                                                 if s.op.Raised? then None else Some(s.op.value),
                                                 Some(Delay(p, start, s))))
  {
    hide RunFrom, GoesOn, PlansRetry, StopsFor, Delay;
    var r := Run(p, start, env);
    var n := |r.past| + 1;
    RunFits(p, start, env);
    FitsExclusive(p, start, env, n, r.last);
    if r.last.Refused? { NoStopForThese(p, start, env, n); }
    RecordedWhenPlanned(p, start, env, n);
    var s, defers := env(n), Defers(p, start, env, n);
    assert defers <==> r.last.Deferred?;
    assert defers ==>
        && r.last.failure.klass == ClassOf(s.op)
        && r.last.failure.exc == (if s.op.Raised? then Some(s.op.exc) else None)
        && r.last.failure.value == (if s.op.Raised? then None else Some(s.op.value));
  }

  /** A stop is for one reason only. */
  lemma OneReason(p: RetryPolicy, start: real, env: Env, n: nat, a: StopReason, b: StopReason)
    requires Fails(env(n).op) && StopsFor(p, start, env, n, a) && StopsFor(p, start, env, n, b)
    ensures a == b && !PlansRetry(p, start, env, n)
  {
    hide OverClassLimit, OverUnknownLimit;
    assert Permanent(ClassOf(env(n).op)) ==> ClassOf(env(n).op) != UNKNOWN;
    assert OverUnknownLimit(p, env, n, ClassOf(env(n).op)) ==> ClassOf(env(n).op) == UNKNOWN by {
      UnknownOnly(p, env, n, ClassOf(env(n).op));
    }
  }

  lemma UnknownOnly(p: RetryPolicy, env: Env, n: nat, k: ErrorClass)
    ensures OverUnknownLimit(p, env, n, k) ==> k == UNKNOWN
  {
  }

  lemma NoStopForThese(p: RetryPolicy, start: real, env: Env, n: nat)
    requires Fails(env(n).op)
    ensures !StopsFor(p, start, env, n, SCHEDULED) && !StopsFor(p, start, env, n, ABORTED)
  {
  }

  /** What stops the run for a reason other than scheduling and aborting, a late awakening included. */
  ghost predicate Stops(p: RetryPolicy, start: real, env: Env, n: nat, reason: StopReason) {
    var s := env(n);
    || (FailureRecorded(env, n) && StopsFor(p, start, env, n, reason))
    || (reason == DEADLINE_EXCEEDED && PlansRetry(p, start, env, n)
        && !s.abortOnRetry && s.sleep.Slept? && s.wokeAt - start > p.deadline)
  }

  /**
   * Each stop reason is reported exactly when its condition ends the run; `call` then raises the
   * exception of the last attempt, or an error with its result.
   */
  lemma StopExactly(p: RetryPolicy, start: real, env: Env, reason: StopReason)
    requires p.maxAttempts >= 1 && reason != SCHEDULED && reason != ABORTED
    ensures var r := Run(p, start, env);
            var n := |r.past| + 1;
            var s := env(n);
            && (ExecuteView(r).Returns? && ExecuteView(r).outcome.stop == Some(reason)
                <==> Stops(p, start, env, n, reason))
            && (Stops(p, start, env, n, reason) ==>
                  CallView(r) == if s.op.Raised? then Reraised(s.op.exc)
                                 else RaisedExhausted(reason, n, Some(ClassOf(s.op)), None, Some(s.op.value), None))
  {
    hide RunFrom, GoesOn, PlansRetry, StopsFor, Delay;
    var r := Run(p, start, env);
    var n := |r.past| + 1;
    RunFits(p, start, env);
    FitsExclusive(p, start, env, n, r.last);
    if FailureRecorded(env, n) && StopsFor(p, start, env, n, reason) {
      OneReason(p, start, env, n, reason, reason);
      if r.last.Refused? { OneReason(p, start, env, n, reason, r.last.stop.reason); }
    }
    RecordedWhenPlanned(p, start, env, n);
  }

  /** The attempt whose failure is on record when the run ends at attempt n; none if zero. */
  ghost function RecordedAttempt(env: Env, n: nat): nat
    requires n >= 1
  {
    if FailureRecorded(env, n) then n else n - 1
  }

  /** The outcome reports what this operation answered. */
  predicate Reports(o: Outcome, op: OpResult) {
    match op
    case Raised(e) => o.lastClass == Some(e.klass) && o.lastExc == Some(e) && o.lastValue.None? && o.cause == Some(ByException)
    case Returned(v, Some(k)) => o.lastClass == Some(k) && o.lastExc.None? && o.lastValue == Some(v) && o.cause == Some(ByResult)
    case _ => false
  }

  predicate ReportsNothing(o: Outcome) {
    o.lastClass.None? && o.lastExc.None? && o.lastValue.None? && o.cause.None?
  }

  /**
   * An outcome that is not ok reports the failure of the last attempt, or of the one before when
   * the last was aborted before its own got on record.
   */
  lemma OutcomeReports(p: RetryPolicy, start: real, env: Env)
    requires p.maxAttempts >= 1 && ExecuteView(Run(p, start, env)).Returns?
    ensures var r := Run(p, start, env);
            var o := ExecuteView(r).outcome;
            var k := RecordedAttempt(env, |r.past| + 1);
            && (if o.ok || k == 0 then ReportsNothing(o) else Reports(o, env(k).op))
            && o.attempts == |r.past| + (if env(|r.past| + 1).abortBefore then 0 else 1)
  {
    hide RunFrom, GoesOn, PlansRetry, StopsFor, Delay;
    var r := Run(p, start, env);
    RunFits(p, start, env);
    FitsExclusive(p, start, env, |r.past| + 1, r.last);
    RecordedWhenPlanned(p, start, env, |r.past| + 1);
    if r.past != [] { assert Carries(r.past[|r.past| - 1].failure, env(|r.past|).op); }
  }

  lemma RecordedWhenPlanned(p: RetryPolicy, start: real, env: Env, n: nat)
    ensures PlansRetry(p, start, env, n) ==> FailureRecorded(env, n)
  {
  }

  // ---------------------------------------------------------------- delays and events

  /**
   * The delay of a planned retry: what the strategy answers, cut to the remaining time; nothing for
   * an answer that is negative or not finite.
   */
  lemma DelayExactly(p: RetryPolicy, start: real, env: Env, n: nat)
    requires PlansRetry(p, start, env, n)
    ensures var s := env(n);
            var delay, remaining := Delay(p, start, s), start + p.deadline - s.plannedAt;
            && (s.delay.NotFinite? ==> delay == 0.0)
            && (s.delay.Finite? && s.delay.s < 0.0 ==> delay == 0.0)
            && (s.delay.Finite? && 0.0 <= s.delay.s <= remaining ==> delay == s.delay.s)
            && (s.delay.Finite? && s.delay.s > remaining ==> delay == remaining)
  {
    hide OverClassLimit, OverUnknownLimit;
  }

  /** The event of the retry after attempt n: its class and its delay. */
  predicate TellsRetry(p: RetryPolicy, start: real, env: Env, n: nat, event: Event) {
    && Fails(env(n).op)
    && event == Event(RETRY, n, Delay(p, start, env(n)), Some(ClassOf(env(n).op)), None)
  }

  /**
   * The events of a run that returns an outcome: for each retry its attempt's class and delay, and
   * last the event that goes with the outcome's stop reason, class and next sleep.
   */
  lemma EventsTell(p: RetryPolicy, start: real, env: Env, style: Style)
    requires p.maxAttempts >= 1 && ExecuteView(Run(p, start, env)).Returns?
    ensures var events := Events(Trace(p, env, Run(p, start, env), style));
            var o := ExecuteView(Run(p, start, env)).outcome;
            && |events| >= 1
            && var k := |events| - 1;
               && (forall i :: 0 <= i < k ==> TellsRetry(p, start, env, i + 1, events[i]))
               && (o.ok || o.stop.Some?)
               && events[k] == Event(if o.ok then SUCCESS else EventFor(o.stop.value), o.attempts,
                                     if o.nextSleep.Some? then o.nextSleep.value else 0.0,
                                     if o.ok || o.stop == Some(ABORTED) then None else o.lastClass, o.stop)
  {
    hide RunFrom, Fits, PlansRetry, Delay, Judge, Trace, Events, GoesOn, Carries;
    var r := Run(p, start, env);
    var n := |r.past| + 1;
    RunIsJudged(p, start, env);
    TraceSeen(p, env, r, style);
    JudgeFits(p, start, env, r.past);
    LastEventTells(p, start, env, n, r);
    RetriesTell(p, start, env);
    assert Events(Trace(p, env, r, style)) == RetriesSeen(r) + Terminal(n, r.last);
  }

  /** The retry events of a run, a last planned retry included. */
  function RetriesSeen(r: Ending): seq<Event> {
    RetryEvents(r.past) + Announced(|r.past| + 1, r.last)
  }

  lemma RetriesTell(p: RetryPolicy, start: real, env: Env)
    requires p.maxAttempts >= 1
    ensures var retries := RetriesSeen(Run(p, start, env));
            forall i :: 0 <= i < |retries| ==> TellsRetry(p, start, env, i + 1, retries[i])
  {
    hide RunFrom, Delay, Judge, Carries;
    var r := Run(p, start, env);
    RunIsJudged(p, start, env);
    PastCarries(p, start, env, r.past);
    JudgedCarries(p, start, r.past, env(|r.past| + 1));
    forall i | 0 <= i < |PlannedSlots(r)| ensures PlannedSlots(r)[i].delay == Delay(p, start, env(i + 1)) {
      PlannedAt(p, start, env, i);
    }
    var retries := RetriesSeen(r);
    forall i | 0 <= i < |retries| ensures TellsRetry(p, start, env, i + 1, retries[i]) {
      assert PlannedSlots(r)[i].delay == Delay(p, start, env(i + 1));
    }
  }

  lemma LastEventTells(p: RetryPolicy, start: real, env: Env, n: nat, r: Ending)
    requires Fits(p, start, env, n, r.last) && n == |r.past| + 1 && !r.last.Again? && ExecuteView(r).Returns?
    ensures var o := ExecuteView(r).outcome;
            && (o.ok || o.stop.Some?)
            && Terminal(n, r.last) == [Event(if o.ok then SUCCESS else EventFor(o.stop.value), o.attempts,
                                             if o.nextSleep.Some? then o.nextSleep.value else 0.0,
                                             if o.ok || o.stop == Some(ABORTED) then None else o.lastClass, o.stop)]
  {
    hide PlansRetry, Delay, Carries;
    if r.last.Refused? { NoStopForThese(p, start, env, n); }
  }

  /** What a planned retry leaves in the trace before it is followed. */
  function PlanSeen(p: RetryPolicy, n: nat, s: Script, f: Failure, delay: real): seq<Item> {
    (if p.hasBudget then [Token(s.budgetAt)] else []) + [Emitted(Event(RETRY, n, delay, Some(f.klass), None))]
  }

  function AbortSeen(n: int): Item { Emitted(Event(RETRY_ABORTED, n, 0.0, None, Some(ABORTED))) }

  /** What an attempt whose operation was invoked leaves in the trace after that, in order. */
  function SeenAfter(p: RetryPolicy, n: nat, s: Script, e: AttemptEnd, style: Style): seq<Item> {
    var lateEnd := if style == Execute then [Ended(n, DoneAborted, Some(ABORTED))] else [];
    match e
    case NotStarted => []
    case Escaped(_) => []
    case Succeeded(_) => [Emitted(Event(SUCCESS, n, 0.0, None, None)), Ended(n, DoneOk, None)]
    case AbortedByOperation => [Ended(n, DoneAborted, Some(ABORTED)), AbortSeen(n)]
    case AbortedOnFailure(_) => [AbortSeen(n)] + lateEnd
    case Refused(f, stop) =>
      [Emitted(Event(stop.name, n, 0.0, Some(f.klass), Some(stop.reason))), Ended(n, DoneRaise, Some(stop.reason))]
    case AbortedOnRetry(f, delay) => PlanSeen(p, n, s, f, delay) + [AbortSeen(n)] + lateEnd
    case Deferred(f, delay) =>
      PlanSeen(p, n, s, f, delay)
      + [Emitted(Event(RETRY_SCHEDULED, n, delay, Some(f.klass), Some(SCHEDULED))), Ended(n, DoneScheduled, Some(SCHEDULED))]
    case AbortedBySleepHandler(f, delay) =>
      PlanSeen(p, n, s, f, delay) + [AbortSeen(n), Ended(n, DoneAborted, Some(ABORTED))]
    case EscapedInSleep(f, delay, _) => PlanSeen(p, n, s, f, delay)
    case Overslept(f, delay) =>
      PlanSeen(p, n, s, f, delay)
      + [Asleep(delay), Emitted(Event(DEADLINE_PASSED, n, 0.0, Some(f.klass), Some(DEADLINE_EXCEEDED))),
         Ended(n, DoneRaise, Some(DEADLINE_EXCEEDED))]
    case Again(f, delay) => PlanSeen(p, n, s, f, delay) + [Asleep(delay), Ended(n, DoneRetry, None)]
  }

  /**
   * The trace of an attempt, in order: an abort before it leaves only its event; else hooks outside,
   * the token before the retry event, that before the sleep, and the last event before the end hook
   * unless the operation itself aborted.
   */
  lemma AttemptInOrder(p: RetryPolicy, n: nat, s: Script, e: AttemptEnd, style: Style)
    requires n >= 1
    ensures AttemptTrace(p, n, s, e, style)
         == if e.NotStarted? then [AbortSeen(n - 1)] else [Started(n), Invoked(n)] + SeenAfter(p, n, s, e, style)
  {
  }
}
