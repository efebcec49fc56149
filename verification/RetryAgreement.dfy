/** `call` and `execute` are two ways of watching the same run. */
module RetryAgreement {
  import opened Basics
  import opened Retry
  import opened RetryLoops

  /** What a caller of `call` got is what a caller of `execute` would have been told. */
  ghost predicate Matches(c: CallEnd, e: ExecuteEnd) {
    match c
    case CallSignal(signal) => e == ExecuteSignal(signal)
    case Value(v) => e.Returns? && e.outcome.ok && e.outcome.value == Some(v) && e.outcome.stop.None?
    case Reraised(exc) =>
      && e.Returns? && !e.outcome.ok
      && e.outcome.cause == Some(ByException) && e.outcome.lastExc == Some(exc)
      && e.outcome.lastClass == Some(exc.klass) && e.outcome.nextSleep.None?
      && e.outcome.stop.Some? && e.outcome.stop.value != ABORTED && e.outcome.stop.value != SCHEDULED
    case RaisedAbort => e.Returns? && !e.outcome.ok && e.outcome.stop == Some(ABORTED)
    case RaisedExhausted(stop, attempts, lastClass, lastExc, lastValue, nextSleep) =>
      && e.Returns? && !e.outcome.ok
      && e.outcome.stop == Some(stop) && stop != ABORTED && e.outcome.attempts == attempts
      && e.outcome.lastClass == lastClass && e.outcome.lastExc == lastExc
      && e.outcome.lastValue == lastValue && e.outcome.nextSleep == nextSleep
    case RaisedRuntimeError => false
  }

  /** A trace without the attempt-end hook. */
  function WithoutEndHooks(trace: seq<Item>): seq<Item> {
    if trace == [] then []
    else (if trace[0].Ended? then [] else [trace[0]]) + WithoutEndHooks(trace[1..])
  }

  lemma {:induction false} WithoutEndHooksConcat(a: seq<Item>, b: seq<Item>)
    ensures WithoutEndHooks(a + b) == WithoutEndHooks(a) + WithoutEndHooks(b)
  {
    if a == [] {
      assert a + b == b;
    } else {
      assert (a + b)[1..] == a[1..] + b;
      WithoutEndHooksConcat(a[1..], b);
    }
  }

  /** A late abort: abort_if fired after the operation had failed. */
  predicate AbortedLate(e: AttemptEnd) { e.AbortedOnFailure? || e.AbortedOnRetry? }

  lemma StylesDiffer(p: RetryPolicy, env: Env, r: Ending)
    ensures var n := |r.past| + 1;
            Trace(p, env, r, Execute)
            == Trace(p, env, r, Call) + (if AbortedLate(r.last) then [Ended(n, DoneAborted, Some(ABORTED))] else [])
  {
    hide Work, PastTrace;
    var n := |r.past| + 1;
    var c, e := AttemptTrace(p, n, env(n), r.last, Call), AttemptTrace(p, n, env(n), r.last, Execute);
    var extra := if AbortedLate(r.last) then [Ended(n, DoneAborted, Some(ABORTED))] else [];
    assert e == c + extra;
    assert PastTrace(p, env, r.past) + (c + extra) == (PastTrace(p, env, r.past) + c) + extra;
  }

  /** What the stop conditions can answer. */
  lemma StopsAreFinal(p: RetryPolicy, start: real, past: seq<Slot>, k: ErrorClass, s: Script)
    ensures var stop := FirstStop(p, start, past, k, s);
            stop.Some? ==>
              && stop.value.reason != ABORTED && stop.value.reason != SCHEDULED
              && stop.value.name != RETRY && stop.value.name != SUCCESS
  {
  }

  /** The last attempt of a run was judged after the retried ones. */
  lemma {:induction false} RunEnds(p: RetryPolicy, start: real, env: Env, past: seq<Slot>)
    requires |past| < p.maxAttempts
    ensures var r := RunFrom(p, start, env, past);
            && past <= r.past && |r.past| < p.maxAttempts && !r.last.Again?
            && r.last == Judge(p, start, r.past, env(|r.past| + 1))
            && (forall i :: |past| <= i < |r.past| ==>
                  Judge(p, start, r.past[..i], env(i + 1)) == Again(r.past[i].failure, r.past[i].delay))
    decreases p.maxAttempts - |past|
  {
    hide JudgeFailure;
    var e := Judge(p, start, past, env(|past| + 1));
    var r := RunFrom(p, start, env, past);
    if e.Again? {
      var longer := past + [Slot(e.failure, e.delay)];
      RunEnds(p, start, env, longer);
      assert r.past[..|past|] == past && r.past[|past|] == longer[|past|];
    }
  }

  lemma ViewsMatch(p: RetryPolicy, start: real, env: Env, r: Ending)
    requires r.last == Judge(p, start, r.past, env(|r.past| + 1)) && !r.last.Again?
    ensures Matches(CallView(r), ExecuteView(r))
  {
    hide FirstStop, Delay;
    var s := env(|r.past| + 1);
    if FailureOf(s.op).Some? {
      StopsAreFinal(p, start, r.past, FailureOf(s.op).value.klass, s);
    }
  }

  /**
   * Run on the same answers, the two loops agree on the result, and on everything observable but
   * the attempt-end hook, exactly when at least one attempt is allowed.
   */
  method RunBoth(p: RetryPolicy, start: real, env: Env)
    returns (c: CallEnd, e: ExecuteEnd, ghost ct: seq<Item>, ghost et: seq<Item>)
    ensures Matches(c, e) <==> p.maxAttempts >= 1
    ensures WithoutEndHooks(ct) == WithoutEndHooks(et)
  {
    hide *;
    c, ct := RunSyncCall(p, start, env);
    e, et := RunSyncExecute(p, start, env);
    if p.maxAttempts >= 1 {
      CallAndExecuteAgree(p, start, env);
    } else {
      NoAttemptsDisagree();
    }
  }

  lemma NoAttemptsDisagree()
    ensures !Matches(RaisedRuntimeError, Returns(NoAttemptsOutcome))
  {
  }

  /** The agreement, stated on the runs both loops are proved to perform. */
  lemma CallAndExecuteAgree(p: RetryPolicy, start: real, env: Env)
    requires p.maxAttempts >= 1
    ensures var r := Run(p, start, env);
            && Matches(CallView(r), ExecuteView(r))
            && WithoutEndHooks(Trace(p, env, r, Call)) == WithoutEndHooks(Trace(p, env, r, Execute))
  {
    hide Judge, Trace, RunFrom, Matches, CallView, ExecuteView;
    var r := Run(p, start, env);
    var n := |r.past| + 1;
    RunEnds(p, start, env, []);
    ViewsMatch(p, start, env, r);
    StylesDiffer(p, env, r);
    WithoutEndHooksConcat(Trace(p, env, r, Call), [Ended(n, DoneAborted, Some(ABORTED))]);
    assert WithoutEndHooks([Ended(n, DoneAborted, Some(ABORTED))]) == WithoutEndHooks([]);
    assert Trace(p, env, r, Call) + [] == Trace(p, env, r, Call);
  }
}
