/**
 * One budget, many executions: the limit on retries holds across all of them.
 *
 * A log is the list of operations on a shared budget in lock order, each with the execution that
 * performed it.  Anyone else may use the budget too, under a number no execution has.
 */
module SharedBudget {
  import opened Basics
  import opened RollingWindow
  import Budgets
  import opened Retry
  import opened RetryAgreement
  import opened RetryTraces
  import opened RetryLimits

  datatype Execution = Execution(p: RetryPolicy, start: real, env: Env)

  datatype Owned = Owned(who: nat, op: Budgets.Op)

  /** A request for one token: the reading it was made at, and the answer. */
  datatype Request = Request(at: real, granted: bool)

  ghost function RunOf(x: Execution): Ending
    requires x.p.maxAttempts >= 1
  {
    Run(x.p, x.start, x.env)
  }

  /** The budget requests of a run, with the answers its script gives. */
  ghost function Requests(x: Execution): seq<Request>
    requires x.p.maxAttempts >= 1
  {
    var r := RunOf(x);
    if !x.p.hasBudget then []
    else
      seq(|PlannedSlots(r)|, i requires 0 <= i => Request(x.env(i + 1).budgetAt, x.env(i + 1).budgetGrants))
      + (if r.last.Refused? && r.last.stop.reason == BUDGET_EXHAUSTED
         then [Request(x.env(|r.past| + 1).budgetAt, x.env(|r.past| + 1).budgetGrants)] else [])
  }

  function GrantedTimes(requests: seq<Request>): seq<real> {
    if requests == [] then []
    else
      GrantedTimes(requests[..|requests| - 1])
      + (if requests[|requests| - 1].granted then [requests[|requests| - 1].at] else [])
  }

  function Ops(log: seq<Owned>): seq<Budgets.Op> {
    if log == [] then [] else Ops(log[..|log| - 1]) + [log[|log| - 1].op]
  }

  /** What the budget answered execution `who`, in order. */
  function Served(lim: Budgets.Limits, log: seq<Owned>, who: nat): seq<Request> {
    if log == [] then []
    else
      var init, last := log[..|log| - 1], log[|log| - 1];
      Served(lim, init, who)
      + (if last.who == who && last.op.Consume?
         then [Request(last.op.now, Budgets.Grants(lim, Budgets.Queue(lim, Ops(init)), last.op))] else [])
  }

  /** The executions ran against this budget: each was answered what the budget answered it. */
  ghost predicate Against(lim: Budgets.Limits, log: seq<Owned>, xs: seq<Execution>) {
    && (forall i :: 0 <= i < |log| && log[i].who < |xs| && log[i].op.Consume? ==> log[i].op.cost == 1)
    && (forall e :: 0 <= e < |xs| ==> AnsweredBy(lim, log, e, xs[e]))
  }

  ghost predicate AnsweredBy(lim: Budgets.Limits, log: seq<Owned>, who: nat, x: Execution) {
    x.p.maxAttempts >= 1 && Requests(x) == Served(lim, log, who)
  }

  /** The times in (lo, hi] at which the first n executions decided to retry. */
  ghost function RetriesIn(xs: seq<Execution>, n: nat, lo: real, hi: real): nat
    requires n <= |xs| && forall e :: 0 <= e < |xs| ==> xs[e].p.maxAttempts >= 1
  {
    if n == 0 then 0
    else
      RetriesIn(xs, n - 1, lo, hi)
      + CountIn(Tokens(Trace(xs[n - 1].p, xs[n - 1].env, RunOf(xs[n - 1]), Execute)), lo, hi)
  }

  /** The same, read off the log. */
  function ServedIn(lim: Budgets.Limits, log: seq<Owned>, n: nat, lo: real, hi: real): nat {
    if n == 0 then 0
    else ServedIn(lim, log, n - 1, lo, hi) + CountIn(GrantedTimes(Served(lim, log, n - 1)), lo, hi)
  }

  // ---------------------------------------------------------------- the log adds up

  lemma GrantedSnoc(requests: seq<Request>, last: Request)
    ensures GrantedTimes(requests + [last]) == GrantedTimes(requests) + (if last.granted then [last.at] else [])
  {
    assert (requests + [last])[..|requests|] == requests;
  }

  /** What the last operation of a log adds to the grants of execution `who`. */
  lemma ServedSnoc(lim: Budgets.Limits, init: seq<Owned>, last: Owned, who: nat, lo: real, hi: real)
    requires last.who == who && last.op.Consume? ==> last.op.cost == 1
    ensures var tokens := Budgets.Tokens(lim, Budgets.Queue(lim, Ops(init)), last.op);
            CountIn(GrantedTimes(Served(lim, init + [last], who)), lo, hi)
            == CountIn(GrantedTimes(Served(lim, init, who)), lo, hi)
               + (if last.who == who then CountIn(tokens, lo, hi) else 0)
  {
    hide Budgets.Queue, Budgets.Pruned;
    assert (init + [last])[..|init|] == init;
    var granted := Budgets.Grants(lim, Budgets.Queue(lim, Ops(init)), last.op);
    if last.who == who && last.op.Consume? {
      GrantedSnoc(Served(lim, init, who), Request(last.op.now, granted));
      CountInConcat(GrantedTimes(Served(lim, init, who)), if granted then [last.op.now] else [], lo, hi);
      assert Repeat(last.op.now, 1) == [last.op.now];
    } else {
      assert Served(lim, init, who) + [] == Served(lim, init, who);
    }
  }

  lemma {:induction false} ServedInSnoc(lim: Budgets.Limits, init: seq<Owned>, last: Owned, n: nat, lo: real, hi: real)
    requires last.who < n && last.op.Consume? ==> last.op.cost == 1
    ensures var tokens := Budgets.Tokens(lim, Budgets.Queue(lim, Ops(init)), last.op);
            ServedIn(lim, init + [last], n, lo, hi)
            == ServedIn(lim, init, n, lo, hi) + (if last.who < n then CountIn(tokens, lo, hi) else 0)
  {
    hide Budgets.Tokens, Served;
    if n > 0 {
      ServedInSnoc(lim, init, last, n - 1, lo, hi);
      ServedSnoc(lim, init, last, n - 1, lo, hi);
    }
  }

  lemma {:induction false} ServedInEmpty(lim: Budgets.Limits, n: nat, lo: real, hi: real)
    ensures ServedIn(lim, [], n, lo, hi) == 0
  {
    if n > 0 { ServedInEmpty(lim, n - 1, lo, hi); }
  }

  /** Together the executions were granted no more than the budget granted in all. */
  lemma {:induction false} ServedWithinGrants(lim: Budgets.Limits, log: seq<Owned>, n: nat, lo: real, hi: real)
    requires forall i :: 0 <= i < |log| && log[i].who < n && log[i].op.Consume? ==> log[i].op.cost == 1
    ensures ServedIn(lim, log, n, lo, hi) <= CountIn(Budgets.GrantLog(lim, Ops(log)), lo, hi)
  {
    hide Budgets.Tokens, Budgets.Queue, ServedIn;
    if log == [] {
      ServedInEmpty(lim, n, lo, hi);
    } else {
      var init, last := log[..|log| - 1], log[|log| - 1];
      assert log == init + [last];
      ServedWithinGrants(lim, init, n, lo, hi);
      ServedInSnoc(lim, init, last, n, lo, hi);
      var ops := Ops(log);
      assert ops == Ops(init) + [last.op];
      assert ops[..|ops| - 1] == Ops(init);
      CountInConcat(Budgets.GrantLog(lim, Ops(init)),
                    Budgets.Tokens(lim, Budgets.Queue(lim, Ops(init)), last.op), lo, hi);
    }
  }

  // ---------------------------------------------------------------- runs and requests

  lemma {:induction false} GrantedAll(requests: seq<Request>, times: seq<real>)
    requires |times| == |requests|
    requires forall i :: 0 <= i < |requests| ==> requests[i] == Request(times[i], true)
    ensures GrantedTimes(requests) == times
  {
    if requests != [] {
      var n := |requests| - 1;
      GrantedAll(requests[..n], times[..n]);
      assert times == times[..n] + [times[n]];
    }
  }

  lemma StopsForBudget(p: RetryPolicy, start: real, past: seq<Slot>, k: ErrorClass, s: Script)
    requires p.hasBudget
    ensures var stop := FirstStop(p, start, past, k, s);
            && (stop.None? ==> s.budgetGrants)
            && (stop.Some? && stop.value.reason == BUDGET_EXHAUSTED ==> !s.budgetGrants)
  {
    hide CountClass, RemainingTime;
  }

  lemma RefusedBy(p: RetryPolicy, start: real, past: seq<Slot>, s: Script)
    ensures var e := Judge(p, start, past, s);
            e.Refused? ==> FirstStop(p, start, past, e.failure.klass, s) == Some(e.stop)
  {
    hide FirstStop, Delay;
  }

  /** A retry was planned for the i-th failure because the budget granted it. */
  lemma PlannedWasGranted(x: Execution, i: nat)
    requires x.p.maxAttempts >= 1 && x.p.hasBudget && i < |PlannedSlots(RunOf(x))|
    ensures x.env(i + 1).budgetGrants
  {
    hide Judge, FirstStop, Retry.RunFrom;
    var r := RunOf(x);
    RunIsJudged(x.p, x.start, x.env);
    var before := if i < |r.past| then r.past[..i] else r.past;
    if i < |r.past| { assert JudgedAt(x.p, x.start, x.env, r.past, i); }
    PlanMeansNoStop(x.p, x.start, before, x.env(i + 1));
    StopsForBudget(x.p, x.start, before, PlannedSlots(r)[i].failure.klass, x.env(i + 1));
  }

  /** The tokens in a run's trace are the requests it was granted. */
  lemma TokensAreGrantedRequests(x: Execution)
    requires x.p.maxAttempts >= 1
    ensures Tokens(Trace(x.p, x.env, RunOf(x), Execute)) == GrantedTimes(Requests(x))
  {
    hide Judge, FirstStop, Retry.RunFrom, Trace, Tokens, Hooks, Events, Terminal, EndHook, CountInvoked;
    var r := RunOf(x);
    var n := |r.past| + 1;
    RunIsJudged(x.p, x.start, x.env);
    TraceSeen(x.p, x.env, r, Execute);
    if x.p.hasBudget {
      var k := |PlannedSlots(r)|;
      var times := RetryTokens(x.p, x.env, |r.past|) + Spent(x.p, x.env(n), r.last);
      var planned := seq(k, i requires 0 <= i => Request(x.env(i + 1).budgetAt, x.env(i + 1).budgetGrants));
      forall i | 0 <= i < k ensures planned[i] == Request(times[i], true) {
        PlannedWasGranted(x, i);
      }
      GrantedAll(planned, times);
      if r.last.Refused? && r.last.stop.reason == BUDGET_EXHAUSTED {
        RefusedBy(x.p, x.start, r.past, x.env(n));
        StopsForBudget(x.p, x.start, r.past, r.last.failure.klass, x.env(n));
        GrantedSnoc(planned, Request(x.env(n).budgetAt, x.env(n).budgetGrants));
      } else {
        assert planned + [] == planned;
      }
    }
  }

  lemma {:induction false} RetriesAreServed(lim: Budgets.Limits, log: seq<Owned>, xs: seq<Execution>, n: nat, lo: real, hi: real)
    requires Against(lim, log, xs) && n <= |xs|
    requires forall e :: 0 <= e < |xs| ==> xs[e].p.maxAttempts >= 1
    ensures RetriesIn(xs, n, lo, hi) == ServedIn(lim, log, n, lo, hi)
  {
    hide Served, Requests, Trace, Tokens, Retry.Run;
    if n > 0 {
      RetriesAreServed(lim, log, xs, n - 1, lo, hi);
      assert AnsweredBy(lim, log, n - 1, xs[n - 1]);
      TokensAreGrantedRequests(xs[n - 1]);
    }
  }

  /**
   * Any number of executions, interleaved in any way on one budget: when clock readings lag by at
   * most `lag`, all the retries they decide in a window of `windowS - lag` together number at most
   * `maxRetries`.
   */
  lemma {:induction false} RetriesAcrossExecutions(lim: Budgets.Limits, log: seq<Owned>, xs: seq<Execution>, lag: real, lo: real)
    requires Against(lim, log, xs) && 0.0 <= lag && Budgets.LagAtMost(Ops(log), lag)
    requires forall e :: 0 <= e < |xs| ==> xs[e].p.maxAttempts >= 1
    ensures RetriesIn(xs, |xs|, lo, lo + (lim.windowS - lag)) <= lim.maxRetries
  {
    hide AnsweredBy, Budgets.GrantLog, RetriesIn, ServedIn;
    var hi := lo + (lim.windowS - lag);
    RetriesAreServed(lim, log, xs, |xs|, lo, hi);
    ServedWithinGrants(lim, log, |xs|, lo, hi);
    Budgets.LaggedWindowBound(lim, Ops(log), lag, lo);
  }
}
