/** How much work and how much sleeping a run can do. */
module RetryLimits {
  import opened Basics
  import opened Retry
  import opened RetryAgreement
  import opened RetryTraces

  // ---------------------------------------------------------------- attempts

  function AtLeastZero(n: int): nat { if n < 0 then 0 else n }

  /** How many failures of class k can be retried, when there is a limit. */
  function Cap(p: RetryPolicy, k: ErrorClass): Option<nat> {
    var limit := if k in p.perClassLimit then Some(AtLeastZero(p.perClassLimit[k])) else None;
    var unknown := if k == UNKNOWN && p.maxUnknown.Some? then Some(AtLeastZero(p.maxUnknown.value)) else None;
    if NeverRetried(k) then Some(0)
    else if limit.Some? && unknown.Some? then Some(if limit.value <= unknown.value then limit.value else unknown.value)
    else if limit.Some? then limit
    else unknown
  }

  /** The retries of class k a run planned. */
  function RetriesOfClass(r: Ending, k: ErrorClass): nat {
    CountClass(r.past, k) + (if HasPlan(r.last) && r.last.failure.klass == k then 1 else 0)
  }

  lemma StopBeyondCap(p: RetryPolicy, start: real, past: seq<Slot>, k: ErrorClass, s: Script)
    requires FirstStop(p, start, past, k, s).None?
    ensures Cap(p, k).Some? ==> CountClass(past, k) + 1 <= Cap(p, k).value
  {
    hide CountClass, RemainingTime;
  }

  /** A planned retry comes from a failure no stop condition applied to. */
  lemma PlanMeansNoStop(p: RetryPolicy, start: real, past: seq<Slot>, s: Script)
    ensures var e := Judge(p, start, past, s);
            HasPlan(e) ==>
              && FirstStop(p, start, past, e.failure.klass, s).None?
              && e.delay == Delay(p, start, s)
              && (e.Again? ==> s.wokeAt - start <= p.deadline)
  {
    hide FirstStop, Delay;
  }

  /** Every retried attempt was judged on the ones before it. */
  ghost predicate Judged(p: RetryPolicy, start: real, env: Env, past: seq<Slot>) {
    forall i :: 0 <= i < |past| ==> JudgedAt(p, start, env, past, i)
  }

  ghost predicate JudgedAt(p: RetryPolicy, start: real, env: Env, past: seq<Slot>, i: nat)
    requires i < |past|
  {
    Judge(p, start, past[..i], env(i + 1)) == Again(past[i].failure, past[i].delay)
  }

  lemma RunIsJudged(p: RetryPolicy, start: real, env: Env)
    requires p.maxAttempts >= 1
    ensures var r := Run(p, start, env);
            && Judged(p, start, env, r.past) && |r.past| < p.maxAttempts
            && r.last == Judge(p, start, r.past, env(|r.past| + 1)) && !r.last.Again?
  {
    hide Judge, RunFrom;
    RunEnds(p, start, env, []);
  }

  lemma JudgedPrefix(p: RetryPolicy, start: real, env: Env, past: seq<Slot>, k: nat)
    requires Judged(p, start, env, past) && k <= |past|
    ensures Judged(p, start, env, past[..k])
  {
    hide Judge;
    forall i | 0 <= i < k ensures JudgedAt(p, start, env, past[..k], i) {
      assert JudgedAt(p, start, env, past, i);
      assert past[..k][..i] == past[..i];
    }
  }

  lemma {:induction false} PastWithinCap(p: RetryPolicy, start: real, env: Env, past: seq<Slot>, k: ErrorClass)
    requires Judged(p, start, env, past) && Cap(p, k).Some?
    ensures CountClass(past, k) <= Cap(p, k).value
  {
    hide Judge, FirstStop, Cap;
    if past != [] {
      var n := |past| - 1;
      JudgedPrefix(p, start, env, past, n);
      PastWithinCap(p, start, env, past[..n], k);
      assert JudgedAt(p, start, env, past, n);
      PlanMeansNoStop(p, start, past[..n], env(n + 1));
      StopBeyondCap(p, start, past[..n], past[n].failure.klass, env(n + 1));
    }
  }

  /** All the per-class counts together. */
  function SumCounts(past: seq<Slot>): nat {
    CountClass(past, AUTH) + CountClass(past, PERMISSION) + CountClass(past, PERMANENT)
    + CountClass(past, CONCURRENCY) + CountClass(past, RATE_LIMIT) + CountClass(past, SERVER_ERROR)
    + CountClass(past, TRANSIENT) + CountClass(past, UNKNOWN)
  }

  ghost predicate AllCapped(p: RetryPolicy) {
    forall k :: Cap(p, k).Some?
  }

  ghost function SumCaps(p: RetryPolicy): nat
    requires AllCapped(p)
  {
    Cap(p, AUTH).value + Cap(p, PERMISSION).value + Cap(p, PERMANENT).value
    + Cap(p, CONCURRENCY).value + Cap(p, RATE_LIMIT).value + Cap(p, SERVER_ERROR).value
    + Cap(p, TRANSIENT).value + Cap(p, UNKNOWN).value
  }

  /** The per-class counts add up to the failures that were retried. */
  lemma {:induction false} CountsAddUp(past: seq<Slot>)
    ensures SumCounts(past) == |past|
  {
    if past != [] {
      CountsAddUp(past[..|past| - 1]);
    }
  }

  lemma SumWithinCaps(p: RetryPolicy, start: real, env: Env, past: seq<Slot>)
    requires Judged(p, start, env, past) && AllCapped(p)
    ensures SumCounts(past) <= SumCaps(p)
  {
    hide Judge, Cap, CountClass, Judged;
    PastWithinCap(p, start, env, past, AUTH);
    PastWithinCap(p, start, env, past, PERMISSION);
    PastWithinCap(p, start, env, past, PERMANENT);
    PastWithinCap(p, start, env, past, CONCURRENCY);
    PastWithinCap(p, start, env, past, RATE_LIMIT);
    PastWithinCap(p, start, env, past, SERVER_ERROR);
    PastWithinCap(p, start, env, past, TRANSIENT);
    PastWithinCap(p, start, env, past, UNKNOWN);
  }

  /**
   * Bounded work: a run invokes the operation at most `maxAttempts` times; retries of a capped
   * class are at most its cap; and when every class is capped the operation is invoked at most
   * once more than the caps add up to.
   */
  lemma BoundedWork(p: RetryPolicy, start: real, env: Env)
    requires p.maxAttempts >= 1
    ensures var r := Run(p, start, env);
            && Invocations(r) <= p.maxAttempts
            && (forall k :: Cap(p, k).Some? ==> RetriesOfClass(r, k) <= Cap(p, k).value)
            && SumCounts(r.past) == |r.past|
            && (AllCapped(p) ==> Invocations(r) <= 1 + SumCaps(p))
  {
    hide Judge, FirstStop, Cap, RunFrom;
    var r := Run(p, start, env);
    RunIsJudged(p, start, env);
    forall k | Cap(p, k).Some? ensures RetriesOfClass(r, k) <= Cap(p, k).value {
      PastWithinCap(p, start, env, r.past, k);
      if HasPlan(r.last) && r.last.failure.klass == k {
        PlanMeansNoStop(p, start, r.past, env(|r.past| + 1));
        StopBeyondCap(p, start, r.past, k, env(|r.past| + 1));
      }
    }
    CountsAddUp(r.past);
    if AllCapped(p) {
      SumWithinCaps(p, start, env, r.past);
    }
  }

  // ---------------------------------------------------------------- time

  function SumDelays(past: seq<Slot>): real {
    if past == [] then 0.0 else SumDelays(past[..|past| - 1]) + past[|past| - 1].delay
  }

  /** All the sleeping a run schedules, the last planned sleep included. */
  function ScheduledSleep(r: Ending): real {
    SumDelays(r.past) + (if HasPlan(r.last) then r.last.delay else 0.0)
  }

  /**
   * Time passes: each sleep takes at least what was asked for, and later readings are later.  It
   * speaks only of the readings of attempts whose retry was planned.
   */
  ghost predicate TimePasses(start: real, env: Env, past: seq<Slot>) {
    forall i :: 0 <= i < |past| ==> PassesAt(start, env, past, i)
  }

  ghost predicate PassesAt(start: real, env: Env, past: seq<Slot>, i: nat)
    requires i < |past|
  {
    && env(i + 1).plannedAt >= (if i == 0 then start else env(i).wokeAt)
    && env(i + 1).wokeAt >= env(i + 1).plannedAt + past[i].delay
  }

  /** The same for a whole run, whose last attempt may have planned a sleep it did not finish. */
  ghost predicate RunTimePasses(start: real, env: Env, r: Ending) {
    && TimePasses(start, env, r.past)
    && (HasPlan(r.last) ==> env(|r.past| + 1).plannedAt >= LastWoke(start, env, |r.past|))
  }

  function LastWoke(start: real, env: Env, n: nat): real {
    if n == 0 then start else env(n).wokeAt
  }

  lemma TimePassesPrefix(start: real, env: Env, past: seq<Slot>, k: nat)
    requires TimePasses(start, env, past) && k <= |past|
    ensures TimePasses(start, env, past[..k])
  {
    forall i | 0 <= i < k ensures PassesAt(start, env, past[..k], i) {
      assert PassesAt(start, env, past, i);
    }
  }

  /** By the time a retried attempt's sleep is over, all the scheduled sleep has passed. */
  lemma {:induction false} SleptBy(start: real, env: Env, past: seq<Slot>)
    requires TimePasses(start, env, past)
    ensures SumDelays(past) <= LastWoke(start, env, |past|) - start
  {
    if past != [] {
      var n := |past| - 1;
      TimePassesPrefix(start, env, past, n);
      SleptBy(start, env, past[..n]);
      assert PassesAt(start, env, past, n);
    }
  }

  lemma DelayWithinRemaining(p: RetryPolicy, start: real, past: seq<Slot>, k: ErrorClass, s: Script)
    requires FirstStop(p, start, past, k, s).None?
    ensures 0.0 <= Delay(p, start, s) <= RemainingTime(p, start, s) && RemainingTime(p, start, s) > 0.0
  {
    hide CountClass;
  }

  /**
   * Deadline conservation: if time passes, all scheduled sleep together fits the deadline, and
   * every invocation but the first follows a reading, taken after a sleep, within the deadline.
   */
  lemma SleepWithinDeadline(p: RetryPolicy, start: real, env: Env)
    requires p.maxAttempts >= 1
    ensures var r := Run(p, start, env);
            && (forall i :: 1 <= i <= |r.past| ==> env(i).wokeAt - start <= p.deadline)
            && (RunTimePasses(start, env, r) ==> ScheduledSleep(r) <= Max(0.0, p.deadline))
  {
    hide Judge, FirstStop, RunFrom, Delay;
    var r := Run(p, start, env);
    RunIsJudged(p, start, env);
    forall i | 1 <= i <= |r.past| ensures env(i).wokeAt - start <= p.deadline {
      assert JudgedAt(p, start, env, r.past, i - 1);
      PlanMeansNoStop(p, start, r.past[..i - 1], env(i));
    }
    if RunTimePasses(start, env, r) {
      SleptBy(start, env, r.past);
      if HasPlan(r.last) {
        var s := env(|r.past| + 1);
        PlanMeansNoStop(p, start, r.past, s);
        DelayWithinRemaining(p, start, r.past, r.last.failure.klass, s);
      }
    }
  }

  // ---------------------------------------------------------------- cut sleeps and jitter

  /** The failures of a run whose retry was planned, in order, with the delays planned for them. */
  function PlannedSlots(r: Ending): seq<Slot> {
    if HasPlan(r.last) then r.past + [Slot(r.last.failure, r.last.delay)] else r.past
  }

  /** What planning the i-th retry of a run was based on. */
  lemma PlannedAt(p: RetryPolicy, start: real, env: Env, i: nat)
    requires p.maxAttempts >= 1 && i < |PlannedSlots(Run(p, start, env))|
    ensures var slot := PlannedSlots(Run(p, start, env))[i];
            && slot.delay == Delay(p, start, env(i + 1))
            && 0.0 <= slot.delay <= RemainingTime(p, start, env(i + 1))
            && RemainingTime(p, start, env(i + 1)) > 0.0
  {
    hide Judge, FirstStop, RunFrom, Delay;
    var r := Run(p, start, env);
    RunIsJudged(p, start, env);
    if i < |r.past| {
      assert JudgedAt(p, start, env, r.past, i);
      PlanMeansNoStop(p, start, r.past[..i], env(i + 1));
      DelayWithinRemaining(p, start, r.past[..i], r.past[i].failure.klass, env(i + 1));
    } else {
      PlanMeansNoStop(p, start, r.past, env(i + 1));
      DelayWithinRemaining(p, start, r.past, r.last.failure.klass, env(i + 1));
    }
  }

  /** A sleep cut down to the remaining time is never followed by another retry. */
  lemma CutSleepIsLast(p: RetryPolicy, start: real, env: Env, i: nat)
    requires p.maxAttempts >= 1 && RunTimePasses(start, env, Run(p, start, env))
    requires i < |PlannedSlots(Run(p, start, env))|
    requires PlannedSlots(Run(p, start, env))[i].delay == RemainingTime(p, start, env(i + 1))
    ensures i == |PlannedSlots(Run(p, start, env))| - 1
  {
    hide Judge, RunFrom, Delay;
    var r := Run(p, start, env);
    var slots := PlannedSlots(r);
    if i + 1 < |slots| {
      assert slots[i] == r.past[i];
      assert PassesAt(start, env, r.past, i);
      if i + 1 < |r.past| { assert PassesAt(start, env, r.past, i + 1); }
      PlannedAt(p, start, env, i + 1);
      assert false;
    }
  }

  /** base * 3^k */
  function Tripled(base: real, k: nat): real { if k == 0 then base else 3.0 * Tripled(base, k - 1) }

  /** `x` could come from random.uniform(a, b), which takes its bounds in either order. */
  predicate Between(x: real, a: real, b: real) { Min(a, b) <= x <= Max(a, b) }

  /** What decorrelated_jitter triples: the previous sleep, or the base when there was none. */
  function JitterFrom(base: real, prev: Option<real>): real {
    if prev.Some? && prev.value != 0.0 then prev.value else base
  }

  /** `answer` could come from decorrelated_jitter(base, most) after a previous sleep `prev`. */
  ghost predicate DecorrelatedJitter(answer: StrategyValue, base: real, most: real, prev: Option<real>) {
    exists u :: Between(u, base, JitterFrom(base, prev) * 3.0) && answer == Finite(Min(most, u))
  }

  /** The draw u may lie below the base, where the range the docstring gives begins. */
  ghost predicate DrawsBelow(base: real, most: real, prev: Option<real>, u: real, answer: StrategyValue) {
    Between(u, base, JitterFrom(base, prev) * 3.0) && answer == Finite(Min(most, u)) && u < base
  }

  /**
   * Some draw lies below the range [base, previous * 3] of the docstring exactly when three times
   * the previous sleep is less than the base; and some answer lies below min(base, max) exactly when
   * it is less than that.
   */
  lemma DocumentedRange(base: real, most: real, prev: Option<real>)
    ensures (exists u, answer :: DrawsBelow(base, most, prev, u, answer)) <==> 3.0 * JitterFrom(base, prev) < base
    ensures (exists answer ::
               DecorrelatedJitter(answer, base, most, prev) && answer.s < Min(base, most))
            <==> 3.0 * JitterFrom(base, prev) < Min(base, most)
  {
    var low := 3.0 * JitterFrom(base, prev);
    if low < base {
      assert DrawsBelow(base, most, prev, low, Finite(Min(most, low)));
    }
    if low < Min(base, most) {
      assert Between(low, base, JitterFrom(base, prev) * 3.0);
      assert DecorrelatedJitter(Finite(low), base, most, prev);
    }
  }

  /** decorrelated_jitter answers for every planned retry of a run. */
  ghost predicate OnlyJitter(env: Env, r: Ending, base: real, most: real) {
    forall i :: 0 <= i < |PlannedSlots(r)| ==> JitterAt(env, r, base, most, i)
  }

  ghost predicate JitterAt(env: Env, r: Ending, base: real, most: real, i: nat)
    requires i < |PlannedSlots(r)|
  {
    DecorrelatedJitter(env(i + 1).delay, base, most,
                       if i == 0 then None else Some(PlannedSlots(r)[i - 1].delay))
  }

  lemma {:induction false} TripledGrows(base: real, k: nat)
    requires 0.0 <= base
    ensures base <= Tripled(base, k)
  {
    if k > 0 { TripledGrows(base, k - 1); }
  }

  /** One step of decorrelated jitter keeps the growing bound. */
  lemma JitterStep(answer: StrategyValue, base: real, most: real, prev: Option<real>, bound: real)
    requires 0.0 <= base && 0.0 <= most && base <= bound
    requires DecorrelatedJitter(answer, base, most, prev)
    requires prev.Some? ==> Min(base, most) <= prev.value <= Min(most, bound)
    ensures answer.Finite? && Min(base, most) <= answer.s <= Min(most, 3.0 * bound)
  {
    var from := JitterFrom(base, prev);
    var u :| Between(u, base, from * 3.0) && answer == Finite(Min(most, u));
    assert from <= bound;
    if base <= most {
      assert from >= base;
    } else {
      assert u >= most;
    }
  }

  /** With sensible settings the k-th sleep that is not cut keeps to the growing bound. */
  lemma {:induction false} JitterGrows(p: RetryPolicy, start: real, env: Env, base: real, most: real, k: nat)
    requires p.maxAttempts >= 1 && 0.0 <= base && 0.0 <= most
    requires var r := Run(p, start, env);
             && RunTimePasses(start, env, r) && OnlyJitter(env, r, base, most)
             && 1 <= k <= |PlannedSlots(r)|
    ensures var sleep, remaining := PlannedSlots(Run(p, start, env))[k - 1].delay, RemainingTime(p, start, env(k));
            Min(Min(base, most), remaining) <= sleep <= Min(Min(most, Tripled(base, k)), remaining)
    decreases k
  {
    hide Run, RunTimePasses, PlannedSlots, RemainingTime, DecorrelatedJitter;
    var r := Run(p, start, env);
    var slots := PlannedSlots(r);
    var s := env(k);
    PlannedAt(p, start, env, k - 1);
    assert JitterAt(env, r, base, most, k - 1);
    TripledGrows(base, k - 1);
    var prev := if k == 1 then None else Some(slots[k - 2].delay);
    if k > 1 {
      JitterGrows(p, start, env, base, most, k - 1);
      if slots[k - 2].delay == RemainingTime(p, start, env(k - 1)) {
        CutSleepIsLast(p, start, env, k - 2);
        assert false;
      }
    }
    JitterStep(s.delay, base, most, prev, Tripled(base, k - 1));
  }

  /** With a negative base or maximum nothing is ever slept. */
  lemma {:induction false} NegativeJitter(p: RetryPolicy, start: real, env: Env, base: real, most: real, k: nat)
    requires p.maxAttempts >= 1 && (base < 0.0 || most < 0.0)
    requires OnlyJitter(env, Run(p, start, env), base, most) && 1 <= k <= |PlannedSlots(Run(p, start, env))|
    ensures PlannedSlots(Run(p, start, env))[k - 1].delay == 0.0
    decreases k
  {
    hide Run, PlannedSlots, RemainingTime;
    var r := Run(p, start, env);
    PlannedAt(p, start, env, k - 1);
    assert JitterAt(env, r, base, most, k - 1);
    if k > 1 { NegativeJitter(p, start, env, base, most, k - 1); }
    assert env(k).delay.Finite? && env(k).delay.s < 0.0;
  }

  lemma {:induction false} TripledSign(base: real, k: nat)
    ensures base < 0.0 ==> Tripled(base, k) < 0.0
  {
    if k > 0 { TripledSign(base, k - 1); }
  }

  function Positive(x: real): real { Max(0.0, x) }

  /**
   * With decorrelated jitter as the only strategy and sleeps that take at least what was asked
   * for, the k-th scheduled sleep is between min(base, max) and min(max, base * 3^k), negative
   * bounds counting as zero, unless the remaining time is shorter, which it then uses up.
   */
  lemma JitterBounds(p: RetryPolicy, start: real, env: Env, base: real, most: real, k: nat)
    requires p.maxAttempts >= 1
    requires var r := Run(p, start, env);
             && RunTimePasses(start, env, r) && OnlyJitter(env, r, base, most)
             && 1 <= k <= |PlannedSlots(r)|
    ensures var sleep, remaining := PlannedSlots(Run(p, start, env))[k - 1].delay, RemainingTime(p, start, env(k));
            && Min(Positive(Min(base, most)), remaining) <= sleep
            && sleep <= Min(Positive(Min(most, Tripled(base, k))), remaining)
  {
    hide Run, RunTimePasses, PlannedSlots, RemainingTime, OnlyJitter, Tripled;
    if base < 0.0 || most < 0.0 {
      PlannedAt(p, start, env, k - 1);
      NegativeJitter(p, start, env, base, most, k);
      TripledSign(base, k);
    } else {
      JitterGrows(p, start, env, base, most, k);
      TripledGrows(base, k);
    }
  }
}
