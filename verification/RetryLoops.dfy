/**
 * The retry engine as it runs: a state object updated step by step and the two hand-written
 * loops, `call` and `execute`, each proved to do what the reference of module Retry says.
 */
module RetryLoops {
  import opened Basics
  import opened Retry

  datatype Decision = RetryAfter(sleepS: real) | Raise

  datatype AttemptOutcome = AttemptOutcome(
    decision: AttemptDecision, stop: Option<StopReason>, sleepS: Option<real>)

  /** What handling a failure ends in: an outcome, or a signal raised while sleeping. */
  datatype Handled = Settled(outcome: AttemptOutcome) | Signalled(signal: Signal)

  datatype LoopAction =
    | ContinueAction
    | AbortAction
    | RaiseAction
    | ScheduledAction(stop: StopReason, attempts: int, lastClass: Option<ErrorClass>,
                      lastExc: Option<Exn>, lastValue: Option<int>, nextSleep: Option<real>)

  /** What handling an attempt that ended as `e` comes to. */
  function HandledAs(e: AttemptEnd): Handled {
    if e.EscapedInSleep? then Signalled(e.signal)
    else Settled(AttemptOutcome(DecisionOf(e), StopOf(e), if e.Deferred? || e.Again? then Some(e.delay) else None))
  }

  function OrElse(first: Option<StopReason>, second: Option<StopReason>, last: StopReason): StopReason {
    if first.Some? then first.value else if second.Some? then second.value else last
  }

  /** The state one run keeps; its counters stand for the list of retried attempts. */
  class RetryState {
    const p: RetryPolicy
    const start: real
    var prevSleep: Option<real>
    var lastExc: Option<Exn>
    var lastValue: Option<int>
    var lastClass: Option<ErrorClass>
    var lastCause: Option<Cause>
    var lastStop: Option<StopReason>
    var unknownAttempts: nat
    var perClassCounts: map<ErrorClass, nat>
    /** Everything observable so far. */
    ghost var trace: seq<Item>

    constructor (p: RetryPolicy, start: real)
      ensures this.p == p && this.start == start && trace == [] && Remembers([])
    {
      this.p, this.start := p, start;
      prevSleep, lastExc, lastValue, lastClass, lastCause, lastStop := None, None, None, None, None, None;
      unknownAttempts, perClassCounts := 0, map[];
      trace := [];
    }

    /** The failure on record is `f`. */
    ghost predicate Records(f: Option<Failure>) reads this {
      if f.None? then lastExc.None? && lastValue.None? && lastClass.None? && lastCause.None?
      else
        && lastExc == f.value.exc && lastValue == f.value.value
        && lastClass == Some(f.value.klass) && lastCause == Some(f.value.cause)
    }

    ghost predicate Counts(past: seq<Slot>) reads this {
      && perClassCounts == Tally(past)
      && unknownAttempts == CountClass(past, UNKNOWN)
      && prevSleep == (if past == [] then None else Some(past[|past| - 1].delay))
    }

    /** The fields say what the list of retried attempts says. */
    ghost predicate Remembers(past: seq<Slot>) reads this {
      && Counts(past)
      && Records(if past == [] then None else Some(past[|past| - 1].failure))
      && lastStop.None?
    }

    ghost method Observe(item: Item)
      modifies this`trace
      ensures trace == old(trace) + [item]
    {
      trace := trace + [item];
    }

    ghost method Emit(name: EventName, attempt: int, sleepS: real, klass: Option<ErrorClass>, stop: Option<StopReason>)
      modifies this`trace
      ensures trace == old(trace) + [Emitted(Event(name, attempt, sleepS, klass, stop))]
    {
      Observe(Emitted(Event(name, attempt, sleepS, klass, stop)));
    }

    method CheckAbort(answer: bool, attempt: int) returns (raised: bool)
      modifies this`lastStop, this`trace
      ensures raised == answer
      ensures answer ==> lastStop == Some(ABORTED) && trace == old(trace) + [Aborted(attempt)]
      ensures !answer ==> lastStop == old(lastStop) && trace == old(trace)
    {
      if !answer {
        return false;
      }
      lastStop := Some(ABORTED);
      Emit(RETRY_ABORTED, attempt, 0.0, None, Some(ABORTED));
      return true;
    }

    method RecordFailure(f: Failure)
      requires WellFormed(f)
      modifies this`lastExc, this`lastValue, this`lastClass, this`lastCause
      ensures Records(Some(f))
    {
      lastClass := Some(f.klass);
      lastCause := Some(f.cause);
      if f.cause == ByException {
        lastExc, lastValue := f.exc, None;
      } else {
        lastValue, lastExc := f.value, None;
      }
    }

    method Halt(stop: Stop, attempt: nat, k: ErrorClass) returns (d: Decision)
      modifies this`lastStop, this`trace
      ensures d == Raise && lastStop == Some(stop.reason)
      ensures trace == old(trace) + [Halted(stop, attempt, k)]
    {
      lastStop := Some(stop.reason);
      Emit(stop.name, attempt, 0.0, Some(k), Some(stop.reason));
      return Raise;
    }

    /** Puts a failure on record and counts its class. */
    method CountFailure(f: Failure, ghost past: seq<Slot>, ghost slot: Slot) returns (seen: nat)
      requires Remembers(past) && WellFormed(f) && slot.failure == f
      modifies this`lastExc, this`lastValue, this`lastClass, this`lastCause, this`perClassCounts
      ensures Records(Some(f)) && perClassCounts == Tally(past + [slot])
      ensures seen == CountClass(past, f.klass) + 1
    {
      assert (past + [slot])[..|past|] == past;
      TallyCounts(past, f.klass);
      RecordFailure(f);
      seen := (if f.klass in perClassCounts then perClassCounts[f.klass] else 0) + 1;
      perClassCounts := perClassCounts[f.klass := seen];
    }

    /** Counts a failure of an unknown class; true when there have been too many. */
    method CountUnknown(k: ErrorClass, ghost past: seq<Slot>, ghost slot: Slot) returns (tooMany: bool)
      requires unknownAttempts == CountClass(past, UNKNOWN) && slot.failure.klass == k
      modifies this`unknownAttempts
      ensures unknownAttempts == CountClass(past + [slot], UNKNOWN)
      ensures tooMany <==>
                k == UNKNOWN && p.maxUnknown.Some? && CountClass(past, k) + 1 > p.maxUnknown.value
    {
      assert (past + [slot])[..|past|] == past;
      if k != UNKNOWN {
        return false;
      }
      unknownAttempts := unknownAttempts + 1;
      return p.maxUnknown.Some? && unknownAttempts > p.maxUnknown.value;
    }

    /** The tail of handling a failure: compute the delay, consume a token, announce the retry. */
    method PlanRetry(f: Failure, attempt: nat, s: Script, remaining: real) returns (d: Decision)
      requires remaining == RemainingTime(p, start, s)
      modifies this`prevSleep, this`lastStop, this`trace
      ensures if p.hasBudget && !s.budgetGrants then
                && d == Raise && lastStop == Some(BUDGET_EXHAUSTED)
                && trace == old(trace) + [Halted(Stop(BUDGET_EXHAUSTED, BUDGET_SPENT), attempt, f.klass)]
              else
                var delay := Delay(p, start, s);
                && d == RetryAfter(delay) && lastStop == old(lastStop) && prevSleep == Some(delay)
                && trace == old(trace) + Planned(p, attempt, s, f, delay)
    {
      var sleepS := if s.delay.Finite? then s.delay.s else 0.0;
      sleepS := Max(0.0, sleepS);
      sleepS := Min(sleepS, remaining);
      if p.hasBudget {
        if !s.budgetGrants {
          d := Halt(Stop(BUDGET_EXHAUSTED, BUDGET_SPENT), attempt, f.klass);
          return;
        }
        Observe(Token(s.budgetAt));
      }
      prevSleep := Some(sleepS);
      Emit(RETRY, attempt, sleepS, Some(f.klass), None);
      d := RetryAfter(sleepS);
    }

    /** The ordered stop conditions, counting as it goes; the last one consumes a budget token. */
    method HandleFailure(f: Failure, attempt: nat, s: Script, ghost past: seq<Slot>) returns (d: Decision)
      requires Remembers(past) && attempt == |past| + 1 && WellFormed(f)
      modifies this
      ensures Records(Some(f))
      ensures var stop := FirstStop(p, start, past, f.klass, s);
              if stop.Some? then
                && d == Raise && lastStop == Some(stop.value.reason)
                && trace == old(trace) + [Halted(stop.value, attempt, f.klass)]
              else
                var delay := Delay(p, start, s);
                && d == RetryAfter(delay) && lastStop.None?
                && trace == old(trace) + Planned(p, attempt, s, f, delay)
                && Counts(past + [Slot(f, delay)])
    {
      ghost var slot := Slot(f, Delay(p, start, s));
      var klass := f.klass;
      var seen := CountFailure(f, past, slot);
      if klass in p.perClassLimit && seen > p.perClassLimit[klass] {
        d := Halt(Stop(MAX_ATTEMPTS_PER_CLASS, MAX_ATTEMPTS_EXCEEDED), attempt, klass);
        return;
      }
      if klass == PERMANENT || klass == AUTH || klass == PERMISSION {
        d := Halt(Stop(NON_RETRYABLE_CLASS, PERMANENT_FAIL), attempt, klass);
        return;
      }
      var tooMany := CountUnknown(klass, past, slot);
      if tooMany {
        d := Halt(Stop(MAX_UNKNOWN_ATTEMPTS, MAX_UNKNOWN_ATTEMPTS_EXCEEDED), attempt, klass);
        return;
      }
      if s.checkedAt - start > p.deadline {
        d := Halt(Stop(DEADLINE_EXCEEDED, DEADLINE_PASSED), attempt, klass);
        return;
      }
      if !HasStrategy(p, klass) {
        d := Halt(Stop(NO_STRATEGY, NO_STRATEGY_CONFIGURED), attempt, klass);
        return;
      }
      var remaining := p.deadline - (s.plannedAt - start);
      if remaining <= 0.0 {
        d := Halt(Stop(DEADLINE_EXCEEDED, DEADLINE_PASSED), attempt, klass);
        return;
      }
      if attempt >= p.maxAttempts {
        d := Halt(Stop(MAX_ATTEMPTS_GLOBAL, MAX_ATTEMPTS_EXCEEDED), attempt, klass);
        return;
      }
      d := PlanRetry(f, attempt, s, remaining);
    }

    /** Sleeps, defers or aborts as the sleep handler says; a signal can come out instead. */
    method SleepAction(sleepS: real, attempt: nat, s: Script, ghost f: Failure) returns (answer: SleepAnswer)
      requires Records(Some(f)) && lastStop.None?
      modifies this`lastStop, this`trace
      ensures answer == s.sleep
      ensures match answer
              case Slept => lastStop.None? && trace == old(trace) + [Asleep(sleepS)]
              case Defer =>
                && lastStop == Some(SCHEDULED)
                && trace == old(trace)
                            + [Emitted(Event(RETRY_SCHEDULED, attempt, sleepS, Some(f.klass), Some(SCHEDULED)))]
              case AbortSleep => lastStop == Some(ABORTED) && trace == old(trace) + [Aborted(attempt)]
              case Interrupted(_) => trace == old(trace)
    {
      answer := s.sleep;
      match answer {
        case Slept =>
          Observe(Asleep(sleepS));
        case Defer =>
          lastStop := Some(SCHEDULED);
          Emit(RETRY_SCHEDULED, attempt, sleepS, lastClass, Some(SCHEDULED));
        case AbortSleep =>
          if lastStop != Some(ABORTED) {
            lastStop := Some(ABORTED);
            Emit(RETRY_ABORTED, attempt, 0.0, None, Some(ABORTED));
          }
        case Interrupted(_) =>
      }
    }

    /** Follows a planned retry: sleep, defer or abort, then check the deadline once more. */
    method FailureOutcome(d: Decision, attempt: nat, s: Script, ghost f: Failure) returns (h: Handled)
      requires Records(Some(f)) && (d.RetryAfter? ==> lastStop.None? && !s.abortOnRetry)
      modifies this`lastStop, this`trace
      ensures d.Raise? ==>
                && h == Settled(AttemptOutcome(DoneRaise, lastStop, None))
                && lastStop == old(lastStop) && trace == old(trace)
      ensures d.RetryAfter? ==>
                var e := FollowPlan(p, start, f, d.sleepS, s);
                && h == HandledAs(e) && trace == old(trace) + PlanWork(attempt, e)
                && (!e.EscapedInSleep? ==> lastStop == StopOf(e))
    {
      if d.Raise? {
        return Settled(AttemptOutcome(DoneRaise, lastStop, None));
      }
      var answer := SleepAction(d.sleepS, attempt, s, f);
      match answer {
        case Interrupted(signal) =>
          return Signalled(signal);
        case Defer =>
          return Settled(AttemptOutcome(DoneScheduled, Some(SCHEDULED), Some(d.sleepS)));
        case AbortSleep =>
          return Settled(AttemptOutcome(DoneAborted, Some(ABORTED), None));
        case Slept =>
          if s.wokeAt - start > p.deadline {
            var _ := Halt(Stop(DEADLINE_EXCEEDED, DEADLINE_PASSED), attempt, lastClass.value);
            return Settled(AttemptOutcome(DoneRaise, Some(DEADLINE_EXCEEDED), None));
          }
          return Settled(AttemptOutcome(DoneRetry, None, Some(d.sleepS)));
      }
    }

    function DetermineAction(o: AttemptOutcome, attempt: int, forResult: bool): LoopAction reads this {
      match o.decision
      case DoneRetry => ContinueAction
      case DoneAborted => AbortAction
      case DoneScheduled =>
        ScheduledAction(OrElse(o.stop, lastStop, SCHEDULED), attempt, lastClass,
                        if forResult then None else lastExc, if forResult then lastValue else None, o.sleepS)
      case _ =>
        if forResult
        then ScheduledAction(OrElse(o.stop, lastStop, MAX_ATTEMPTS_GLOBAL), attempt, lastClass, None, lastValue, None)
        else RaiseAction
    }

    /** How `call` ends when the loop runs out; an exception never raised has no traceback. */
    method RaiseExhausted(hasTraceback: bool) returns (end: CallEnd)
      modifies this`lastStop, this`trace
      ensures trace == old(trace)
                       + [Emitted(Event(MAX_ATTEMPTS_EXCEEDED, p.maxAttempts, 0.0, lastClass, Some(MAX_ATTEMPTS_GLOBAL)))]
      ensures lastCause != Some(ByResult) ==>
                end == (if lastExc.Some? && hasTraceback then Reraised(lastExc.value) else RaisedRuntimeError)
      ensures lastCause == Some(ByResult) ==>
                end == RaisedExhausted(MAX_ATTEMPTS_GLOBAL, p.maxAttempts, lastClass, None, lastValue, None)
    {
      EmitMaxAttemptsExceeded();
      if lastCause == Some(ByResult) {
        return RaisedExhausted(MAX_ATTEMPTS_GLOBAL, p.maxAttempts, lastClass, None, lastValue, None);
      }
      if lastExc.Some? && hasTraceback {
        return Reraised(lastExc.value);
      }
      return RaisedRuntimeError;
    }

    /** Emits the abort event and stops, unless an abort is already on record. */
    method NoteAbort(attempts: int)
      modifies this`lastStop, this`trace
      ensures lastStop == Some(ABORTED)
      ensures trace == old(trace) + (if old(lastStop) == Some(ABORTED) then [] else [Aborted(attempts)])
    {
      if lastStop != Some(ABORTED) {
        lastStop := Some(ABORTED);
        Emit(RETRY_ABORTED, attempts, 0.0, None, Some(ABORTED));
      }
    }

    method BuildOutcome(ok: bool, value: Option<int>, attempts: nat, nextSleep: Option<real>,
                        ghost recorded: Option<Failure>)
      returns (o: Outcome)
      requires Records(recorded) && (recorded.Some? ==> WellFormed(recorded.value))
      ensures ok ==> o == Outcome(true, value, None, attempts, None, None, None, None, nextSleep)
      ensures !ok ==> o == Failed(recorded, lastStop, attempts, nextSleep)
    {
      var exc, result := None, None;
      if !ok && lastCause == Some(ByException) { exc := lastExc; }
      if !ok && lastCause == Some(ByResult) { result := lastValue; }
      o := Outcome(ok, if ok then value else None, if ok then None else lastStop, attempts,
                   if ok then None else lastClass, exc, result, if ok then None else lastCause, nextSleep);
    }

    method AbortOutcome(attempts: nat, ghost recorded: Option<Failure>) returns (o: Outcome)
      requires Records(recorded) && (recorded.Some? ==> WellFormed(recorded.value))
      modifies this`lastStop, this`trace
      ensures trace == old(trace) + (if old(lastStop) == Some(ABORTED) then [] else [Aborted(attempts)])
      ensures lastStop == Some(ABORTED) && o == Failed(recorded, Some(ABORTED), attempts, None)
    {
      NoteAbort(attempts);
      o := BuildOutcome(false, None, attempts, None, recorded);
    }

    method EmitMaxAttemptsExceeded()
      modifies this`lastStop, this`trace
      ensures lastStop == Some(MAX_ATTEMPTS_GLOBAL)
      ensures trace == old(trace)
                       + [Emitted(Event(MAX_ATTEMPTS_EXCEEDED, p.maxAttempts, 0.0, lastClass, Some(MAX_ATTEMPTS_GLOBAL)))]
    {
      Emit(MAX_ATTEMPTS_EXCEEDED, p.maxAttempts, 0.0, lastClass, Some(MAX_ATTEMPTS_GLOBAL));
      lastStop := Some(MAX_ATTEMPTS_GLOBAL);
    }
  }

  /** The per-class counts a list of retried attempts amounts to. */
  function Tally(past: seq<Slot>): map<ErrorClass, nat> {
    if past == [] then map[]
    else
      var before, k := Tally(past[..|past| - 1]), past[|past| - 1].failure.klass;
      before[k := (if k in before then before[k] else 0) + 1]
  }

  lemma {:induction false} TallyCounts(past: seq<Slot>, k: ErrorClass)
    ensures (if k in Tally(past) then Tally(past)[k] else 0) == CountClass(past, k)
  {
    if past != [] { TallyCounts(past[..|past| - 1], k); }
  }

  /** A failure carries an exception or a result, as its cause says. */
  ghost predicate WellFormed(f: Failure) {
    if f.cause == ByException then f.exc.Some? && f.value.None? else f.exc.None? && f.value.Some?
  }

  // ---------------------------------------------------------------- handling a failed attempt

  /** What handling a failure comes to before the end hook: abort_if raised, or it was handled. */
  datatype Progress = AbortRaised | Done(handled: Handled)

  /**
   * Follows a planned retry: abort_if once more, then sleeping and the last deadline check.
   */
  method FollowRetry(st: RetryState, f: Failure, delay: real, attempt: nat, s: Script) returns (r: Progress)
    requires st.Records(Some(f)) && st.lastStop.None?
    modifies st`lastStop, st`trace
    ensures var e := FollowPlan(st.p, st.start, f, delay, s);
            && st.trace == old(st.trace) + PlanWork(attempt, e)
            && (r.AbortRaised? <==> e.AbortedOnRetry?)
            && (r.Done? ==> r.handled == HandledAs(e))
            && (!e.EscapedInSleep? ==> st.lastStop == StopOf(e))
  {
    var raised := st.CheckAbort(s.abortOnRetry, attempt);
    if raised {
      return AbortRaised;
    }
    var h := st.FailureOutcome(RetryAfter(delay), attempt, s, f);
    return Done(h);
  }

  /**
   * The steps both loops take on a failure: abort_if, the stop conditions, abort_if again when a
   * retry is planned, then sleeping and the last deadline check.
   */
  method ProcessFailure(st: RetryState, f: Failure, attempt: nat, s: Script, ghost past: seq<Slot>)
    returns (r: Progress)
    requires st.Remembers(past) && attempt == |past| + 1 && WellFormed(f)
    modifies st
    ensures var e := JudgeFailure(st.p, st.start, past, f, s);
            && st.trace == old(st.trace) + Work(st.p, attempt, s, e)
            && (r.AbortRaised? <==> e.AbortedOnFailure? || e.AbortedOnRetry?)
            && (r.Done? ==> r.handled == HandledAs(e))
            && st.Records(LastFailure(Ending(past, e)))
            && (!e.EscapedInSleep? ==> st.lastStop == StopOf(e))
            && (e.Again? ==> st.Remembers(past + [Slot(f, e.delay)]))
  {
    hide FirstStop, Delay, CountClass, Tally, Planned, FollowPlan, PlanWork;
    var raised := st.CheckAbort(s.abortOnFailure, attempt);
    if raised {
      return AbortRaised;
    }
    var d := st.HandleFailure(f, attempt, s, past);
    if d.RetryAfter? {
      r := FollowRetry(st, f, d.sleepS, attempt, s);
    } else {
      var h := st.FailureOutcome(d, attempt, s, f);
      r := Done(h);
    }
  }

  /** Failures that come from an operation carry what their cause says. */
  lemma FailureWellFormed(op: OpResult)
    ensures FailureOf(op).Some? ==> WellFormed(FailureOf(op).value)
  {
  }

  // ---------------------------------------------------------------- call

  /** `call` on a failed attempt: nothing when another attempt follows, else how the run ends. */
  method CallFailure(st: RetryState, f: Failure, attempt: nat, s: Script, ghost past: seq<Slot>)
    returns (end: Option<CallEnd>)
    requires st.Remembers(past) && attempt == |past| + 1 && WellFormed(f)
    modifies st
    ensures var e := JudgeFailure(st.p, st.start, past, f, s);
            && st.trace == old(st.trace) + Aftermath(st.p, attempt, s, e, Call)
            && (if e.Again? then end.None? && st.Remembers(past + [Slot(f, e.delay)])
                else end == Some(CallView(Ending(past, e))))
  {
    hide JudgeFailure, Work, CountClass, Tally;
    var r := ProcessFailure(st, f, attempt, s, past);
    if r.AbortRaised? {
      return Some(RaisedAbort);
    }
    if r.handled.Signalled? {
      return Some(CallSignal(r.handled.signal));
    }
    var o := r.handled.outcome;
    st.Observe(Ended(attempt, o.decision, o.stop));
    var action := st.DetermineAction(o, attempt, f.cause == ByResult);
    match action {
      case ContinueAction =>
        end := None;
      case AbortAction =>
        end := Some(RaisedAbort);
      case ScheduledAction(stop, attempts, lastClass, lastExc, lastValue, nextSleep) =>
        end := Some(RaisedExhausted(stop, attempts, lastClass, lastExc, lastValue, nextSleep));
      case RaiseAction =>
        end := Some(Reraised(f.exc.value));
    }
  }

  lemma Associate(a: seq<Item>, b: seq<Item>, c: seq<Item>)
    ensures (a + b) + c == a + (b + c)
  {
  }

  /** `call` once the operation has answered. */
  method CallAnswered(st: RetryState, attempt: nat, s: Script, ghost past: seq<Slot>)
    returns (end: Option<CallEnd>)
    requires st.Remembers(past) && attempt == |past| + 1 && !s.abortBefore
    modifies st
    ensures var e := Judge(st.p, st.start, past, s);
            && st.trace == old(st.trace) + Aftermath(st.p, attempt, s, e, Call)
            && (if e.Again? then end.None? && st.Remembers(past + [Slot(e.failure, e.delay)])
                else end == Some(CallView(Ending(past, e))))
  {
    hide JudgeFailure, Planned, CountClass, Tally;
    match s.op {
      case AbortSignal =>
        st.Observe(Ended(attempt, DoneAborted, Some(ABORTED)));
        st.NoteAbort(attempt);
        return Some(RaisedAbort);
      case Escaping(signal) =>
        return Some(CallSignal(signal));
      case Returned(v, None) =>
        st.Emit(SUCCESS, attempt, 0.0, None, None);
        st.Observe(Ended(attempt, DoneOk, None));
        return Some(Value(v));
      case _ =>
        FailureWellFormed(s.op);
        end := CallFailure(st, FailureOf(s.op).value, attempt, s, past);
    }
  }

  /** One turn of the loop of `call`. */
  method CallAttempt(st: RetryState, attempt: nat, s: Script, ghost past: seq<Slot>)
    returns (end: Option<CallEnd>)
    requires st.Remembers(past) && attempt == |past| + 1
    modifies st
    ensures var e := Judge(st.p, st.start, past, s);
            && st.trace == old(st.trace) + AttemptTrace(st.p, attempt, s, e, Call)
            && (if e.Again? then end.None? && st.Remembers(past + [Slot(e.failure, e.delay)])
                else end == Some(CallView(Ending(past, e))))
  {
    hide JudgeFailure, Work, Aftermath, CountClass, Tally;
    var aborted := st.CheckAbort(s.abortBefore, attempt - 1);
    if aborted {
      return Some(RaisedAbort);
    }
    st.Observe(Started(attempt));
    st.Observe(Invoked(attempt));
    assert st.trace == old(st.trace) + [Started(attempt), Invoked(attempt)];
    end := CallAnswered(st, attempt, s, past);
    ghost var e := Judge(st.p, st.start, past, s);
    Associate(old(st.trace), [Started(attempt), Invoked(attempt)], Aftermath(st.p, attempt, s, e, Call));
    assert AttemptTrace(st.p, attempt, s, e, Call)
        == [Started(attempt), Invoked(attempt)] + Aftermath(st.p, attempt, s, e, Call);
  }

  /** Run func with retries, raising on failure. */
  method RunSyncCall(p: RetryPolicy, start: real, env: Env) returns (end: CallEnd, ghost trace: seq<Item>)
    ensures end == (if p.maxAttempts >= 1 then CallView(Run(p, start, env)) else RaisedRuntimeError)
    ensures trace == (if p.maxAttempts >= 1 then Trace(p, env, Run(p, start, env), Call) else NoAttemptsTrace(p))
  {
    hide Judge, Work, Aftermath, CountClass, Tally, CallView;
    var st := new RetryState(p, start);
    ghost var past: seq<Slot> := [];
    var attempt := 1;
    while attempt <= p.maxAttempts
      invariant fresh(st) && st.p == p && st.start == start
      invariant attempt == |past| + 1 && (past == [] || |past| < p.maxAttempts)
      invariant st.Remembers(past) && st.trace == PastTrace(p, env, past)
      invariant p.maxAttempts >= 1 ==> Run(p, start, env) == RunFrom(p, start, env, past)
      decreases p.maxAttempts - attempt
    {
      var done := CallAttempt(st, attempt, env(attempt), past);
      if done.Some? {
        return done.value, st.trace;
      }
      past := Longer(p, start, env, past);
      attempt := attempt + 1;
    }
    assert p.maxAttempts < 1 && past == [];
    end := st.RaiseExhausted(true);
    trace := st.trace;
  }

  /** The list of retried attempts after one more, and what that does to the run and its trace. */
  lemma Longer(p: RetryPolicy, start: real, env: Env, past: seq<Slot>) returns (longer: seq<Slot>)
    requires |past| < p.maxAttempts && Judge(p, start, past, env(|past| + 1)).Again?
    ensures var e := Judge(p, start, past, env(|past| + 1));
            && longer == past + [Slot(e.failure, e.delay)] && |longer| < p.maxAttempts
            && PastTrace(p, env, longer)
               == PastTrace(p, env, past) + AttemptTrace(p, |past| + 1, env(|past| + 1), e, Execute)
            && AttemptTrace(p, |past| + 1, env(|past| + 1), e, Call)
               == AttemptTrace(p, |past| + 1, env(|past| + 1), e, Execute)
            && RunFrom(p, start, env, past) == RunFrom(p, start, env, longer)
  {
    hide Judge, Planned;
    var e := Judge(p, start, past, env(|past| + 1));
    longer := past + [Slot(e.failure, e.delay)];
    assert longer[..|past|] == past;
  }

  // ---------------------------------------------------------------- execute

  /** What a failed attempt leaves in the trace when `execute` handles it. */
  lemma ExecuteFailureTrace(p: RetryPolicy, n: nat, s: Script, e: AttemptEnd)
    requires OnFailure(e)
    ensures Aftermath(p, n, s, e, Execute)
         == Work(p, n, s, e) + (if e.EscapedInSleep? then [] else [Ended(n, DecisionOf(e), StopOf(e))])
  {
    hide Work;
  }

  /** What `execute` makes of a failed attempt that ends the run. */
  lemma ExecuteFailureView(past: seq<Slot>, e: AttemptEnd)
    requires OnFailure(e)
    ensures ExecuteView(Ending(past, e))
         == if e.EscapedInSleep? then ExecuteSignal(e.signal)
            else Returns(Failed(LastFailure(Ending(past, e)), StopOf(e), |past| + 1,
                                if e.Deferred? then Some(e.delay) else None))
  {
  }

  lemma RecordedWellFormed(past: seq<Slot>, e: AttemptEnd)
    requires OnFailure(e) && WellFormed(e.failure)
    requires past != [] ==> WellFormed(past[|past| - 1].failure)
    ensures var recorded := LastFailure(Ending(past, e));
            recorded.Some? ==> WellFormed(recorded.value)
  {
  }

  /** `execute` once a failure has been handled: the end hook, and what follows from the outcome. */
  method ExecuteHandled(st: RetryState, o: AttemptOutcome, attempt: nat, forResult: bool,
                        ghost recorded: Option<Failure>, ghost e: AttemptEnd)
    returns (end: Option<ExecuteEnd>)
    requires !e.EscapedInSleep? && HandledAs(e) == Settled(o) && st.lastStop == StopOf(e) && OnFailure(e)
    requires st.Records(recorded) && (recorded.Some? ==> WellFormed(recorded.value))
    modifies st`trace, st`lastStop
    ensures st.trace == old(st.trace) + [Ended(attempt, DecisionOf(e), StopOf(e))]
    ensures st.lastStop == old(st.lastStop)
    ensures e.Again? ==> end.None?
    ensures !e.Again? ==>
              end == Some(Returns(Failed(recorded, StopOf(e), attempt, if e.Deferred? then Some(e.delay) else None)))
  {
    st.Observe(Ended(attempt, o.decision, o.stop));
    var action := st.DetermineAction(o, attempt, forResult);
    if action.ContinueAction? {
      return None;
    }
    if action.AbortAction? {
      var aborted := st.AbortOutcome(attempt, recorded);
      return Some(Returns(aborted));
    }
    var nextSleep := if o.decision == DoneScheduled then o.sleepS else None;
    var outcome := st.BuildOutcome(false, None, attempt, nextSleep, recorded);
    return Some(Returns(outcome));
  }

  /** `execute` on a failed attempt. */
  method ExecuteFailure(st: RetryState, f: Failure, attempt: nat, s: Script, ghost past: seq<Slot>)
    returns (end: Option<ExecuteEnd>)
    requires st.Remembers(past) && attempt == |past| + 1 && WellFormed(f)
    requires past != [] ==> WellFormed(past[|past| - 1].failure)
    modifies st
    ensures var e := JudgeFailure(st.p, st.start, past, f, s);
            && st.trace == old(st.trace) + Aftermath(st.p, attempt, s, e, Execute)
            && (if e.Again? then end.None? && st.Remembers(past + [Slot(f, e.delay)])
                else end == Some(ExecuteView(Ending(past, e))))
  {
    hide JudgeFailure, Work, Aftermath, ExecuteView, LastFailure, CountClass, Tally;
    ghost var e := JudgeFailure(st.p, st.start, past, f, s);
    ghost var recorded := LastFailure(Ending(past, e));
    ExecuteFailureTrace(st.p, attempt, s, e);
    ExecuteFailureView(past, e);
    RecordedWellFormed(past, e);
    var r := ProcessFailure(st, f, attempt, s, past);
    if r.AbortRaised? {
      st.Observe(Ended(attempt, DoneAborted, Some(ABORTED)));
      var aborted := st.AbortOutcome(attempt, recorded);
      return Some(Returns(aborted));
    }
    if r.handled.Signalled? {
      return Some(ExecuteSignal(r.handled.signal));
    }
    end := ExecuteHandled(st, r.handled.outcome, attempt, f.cause == ByResult, recorded, e);
  }

  /** `execute` once the operation has answered. */
  method ExecuteAnswered(st: RetryState, attempt: nat, s: Script, ghost past: seq<Slot>)
    returns (end: Option<ExecuteEnd>)
    requires st.Remembers(past) && attempt == |past| + 1 && !s.abortBefore
    requires past != [] ==> WellFormed(past[|past| - 1].failure)
    modifies st
    ensures var e := Judge(st.p, st.start, past, s);
            && st.trace == old(st.trace) + Aftermath(st.p, attempt, s, e, Execute)
            && (if e.Again? then
                  end.None? && WellFormed(e.failure) && st.Remembers(past + [Slot(e.failure, e.delay)])
                else end == Some(ExecuteView(Ending(past, e))))
  {
    hide JudgeFailure, Planned, CountClass, Tally;
    ghost var recorded := if past == [] then None else Some(past[|past| - 1].failure);
    match s.op {
      case AbortSignal =>
        st.Observe(Ended(attempt, DoneAborted, Some(ABORTED)));
        var outcome := st.AbortOutcome(attempt, recorded);
        return Some(Returns(outcome));
      case Escaping(signal) =>
        return Some(ExecuteSignal(signal));
      case Returned(v, None) =>
        st.Emit(SUCCESS, attempt, 0.0, None, None);
        st.Observe(Ended(attempt, DoneOk, None));
        var outcome := st.BuildOutcome(true, Some(v), attempt, None, recorded);
        return Some(Returns(outcome));
      case _ =>
        FailureWellFormed(s.op);
        end := ExecuteFailure(st, FailureOf(s.op).value, attempt, s, past);
    }
  }

  /** One turn of the loop of `execute`. */
  method ExecuteAttempt(st: RetryState, attempt: nat, s: Script, ghost past: seq<Slot>)
    returns (end: Option<ExecuteEnd>)
    requires st.Remembers(past) && attempt == |past| + 1
    requires past != [] ==> WellFormed(past[|past| - 1].failure)
    modifies st
    ensures var e := Judge(st.p, st.start, past, s);
            && st.trace == old(st.trace) + AttemptTrace(st.p, attempt, s, e, Execute)
            && (if e.Again? then
                  end.None? && WellFormed(e.failure) && st.Remembers(past + [Slot(e.failure, e.delay)])
                else end == Some(ExecuteView(Ending(past, e))))
  {
    hide JudgeFailure, Work, Aftermath, CountClass, Tally;
    var aborted := st.CheckAbort(s.abortBefore, attempt - 1);
    if aborted {
      var outcome := st.AbortOutcome(attempt - 1, if past == [] then None else Some(past[|past| - 1].failure));
      return Some(Returns(outcome));
    }
    st.Observe(Started(attempt));
    st.Observe(Invoked(attempt));
    assert st.trace == old(st.trace) + [Started(attempt), Invoked(attempt)];
    end := ExecuteAnswered(st, attempt, s, past);
    ghost var e := Judge(st.p, st.start, past, s);
    Associate(old(st.trace), [Started(attempt), Invoked(attempt)], Aftermath(st.p, attempt, s, e, Execute));
    assert AttemptTrace(st.p, attempt, s, e, Execute)
        == [Started(attempt), Invoked(attempt)] + Aftermath(st.p, attempt, s, e, Execute);
  }

  /** Run func with retries, returning an outcome. */
  method RunSyncExecute(p: RetryPolicy, start: real, env: Env) returns (end: ExecuteEnd, ghost trace: seq<Item>)
    ensures end == (if p.maxAttempts >= 1 then ExecuteView(Run(p, start, env)) else Returns(NoAttemptsOutcome))
    ensures trace == (if p.maxAttempts >= 1 then Trace(p, env, Run(p, start, env), Execute) else NoAttemptsTrace(p))
  {
    hide Judge, Work, Aftermath, CountClass, Tally, ExecuteView, AttemptTrace;
    var st := new RetryState(p, start);
    ghost var past: seq<Slot> := [];
    var attempt := 1;
    while attempt <= p.maxAttempts
      invariant fresh(st) && st.p == p && st.start == start
      invariant attempt == |past| + 1 && (past == [] || |past| < p.maxAttempts)
      invariant past != [] ==> WellFormed(past[|past| - 1].failure)
      invariant st.Remembers(past) && st.trace == PastTrace(p, env, past)
      invariant p.maxAttempts >= 1 ==> Run(p, start, env) == RunFrom(p, start, env, past)
      decreases p.maxAttempts - attempt
    {
      var done := ExecuteAttempt(st, attempt, env(attempt), past);
      if done.Some? {
        return done.value, st.trace;
      }
      past := Longer(p, start, env, past);
      attempt := attempt + 1;
    }
    assert p.maxAttempts < 1 && past == [];
    st.EmitMaxAttemptsExceeded();
    var outcome := st.BuildOutcome(false, None, 0, None, None);
    return Returns(outcome), st.trace;
  }

  /** What a run with no attempts leaves behind: `maxAttempts` below one. */
  function NoAttemptsTrace(p: RetryPolicy): seq<Item> {
    [Emitted(Event(MAX_ATTEMPTS_EXCEEDED, p.maxAttempts, 0.0, None, Some(MAX_ATTEMPTS_GLOBAL)))]
  }

  const NoAttemptsOutcome := Outcome(false, None, Some(MAX_ATTEMPTS_GLOBAL), 0, None, None, None, None, None)
}
