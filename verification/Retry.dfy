/**
 * Retrying, as a function of what the outside world answers.
 *
 * Everything a run asks the outside (operation, classifiers, abort predicate, clock, strategy,
 * budget, sleep handler, sleeper) is asked at most once per attempt, so an environment is one
 * `Script` per attempt.  `RunFrom` is the reference the two loops of module RetryLoops are proved
 * against: it decides from the list of failures so far and keeps no counters.
 */
module Retry {
  import opened Basics

  /** An exception, the class the retry's classifier gives it, and whether it is a CircuitOpenError. */
  datatype Exn = Exn(id: int, klass: ErrorClass, circuitOpen: bool)

  /** What passes through the retry loop untouched. */
  datatype Signal =
    | Interrupt(id: int)       // keyboard interrupt, process exit
    | Cancellation(id: int)    // any other exception outside Exception
    | ForeignExhausted(id: int, lastClass: Option<ErrorClass>)  // a RetryExhaustedError of the operation's own

  datatype OpResult =
    | Returned(value: int, failureClass: Option<ErrorClass>)  // with the result classifier's answer
    | Raised(exc: Exn)
    | AbortSignal          // AbortRetryError
    | Escaping(signal: Signal)

  datatype StrategyValue = Finite(s: real) | NotFinite

  datatype SleepAnswer = Slept | Defer | AbortSleep | Interrupted(signal: Signal)

  datatype Script = Script(
    abortBefore: bool,      // abort_if before the attempt
    op: OpResult,
    abortOnFailure: bool,   // abort_if once the failure is seen
    checkedAt: real,        // clock at the deadline check
    plannedAt: real,        // clock when the remaining time is computed
    delay: StrategyValue,
    budgetGrants: bool,     // the budget's answer, and the reading it was given at
    budgetAt: real,
    abortOnRetry: bool,     // abort_if once the retry is planned
    sleep: SleepAnswer,
    wokeAt: real)           // clock after the sleep

  datatype RetryPolicy = RetryPolicy(
    maxAttempts: int,
    deadline: real,
    perClassLimit: map<ErrorClass, int>,
    maxUnknown: Option<int>,
    strategies: set<ErrorClass>,
    hasDefaultStrategy: bool,
    hasBudget: bool)

  datatype Cause = ByException | ByResult

  datatype Failure = Failure(cause: Cause, exc: Option<Exn>, value: Option<int>, klass: ErrorClass)

  /** A failed attempt that was followed by another one, and the delay planned in between. */
  datatype Slot = Slot(failure: Failure, delay: real)

  datatype EventName =
    | SUCCESS | RETRY | PERMANENT_FAIL | DEADLINE_PASSED | MAX_ATTEMPTS_EXCEEDED
    | MAX_UNKNOWN_ATTEMPTS_EXCEEDED | NO_STRATEGY_CONFIGURED | BUDGET_SPENT
    | RETRY_SCHEDULED | RETRY_ABORTED

  datatype Stop = Stop(reason: StopReason, name: EventName)

  /** How an attempt ended; `Again` is the only one that is followed by another attempt. */
  datatype AttemptEnd =
    | NotStarted
    | Escaped(signal: Signal)
    | Succeeded(value: int)
    | AbortedByOperation
    | AbortedOnFailure(failure: Failure)
    | Refused(failure: Failure, stop: Stop)
    | AbortedOnRetry(failure: Failure, delay: real)
    | Deferred(failure: Failure, delay: real)
    | AbortedBySleepHandler(failure: Failure, delay: real)
    | EscapedInSleep(failure: Failure, delay: real, signal: Signal)
    | Overslept(failure: Failure, delay: real)
    | Again(failure: Failure, delay: real)

  type Env = nat -> Script

  // ---------------------------------------------------------------- deciding one attempt

  function FailureOf(op: OpResult): Option<Failure> {
    match op
    case Returned(v, Some(k)) => Some(Failure(ByResult, None, Some(v), k))
    case Raised(e) => Some(Failure(ByException, Some(e), None, e.klass))
    case _ => None
  }

  /** How many of the failures so far were of class k. */
  function CountClass(past: seq<Slot>, k: ErrorClass): nat {
    if past == [] then 0
    else CountClass(past[..|past| - 1], k) + (if past[|past| - 1].failure.klass == k then 1 else 0)
  }

  predicate NeverRetried(k: ErrorClass) { k == PERMANENT || k == AUTH || k == PERMISSION }

  predicate HasStrategy(p: RetryPolicy, k: ErrorClass) { k in p.strategies || p.hasDefaultStrategy }

  function RemainingTime(p: RetryPolicy, start: real, s: Script): real {
    p.deadline - (s.plannedAt - start)
  }

  /** The first reason, in order, not to retry a failure of class k. */
  function FirstStop(p: RetryPolicy, start: real, past: seq<Slot>, k: ErrorClass, s: Script): Option<Stop> {
    var seen := CountClass(past, k) + 1;
    if k in p.perClassLimit && seen > p.perClassLimit[k]
    then Some(Stop(MAX_ATTEMPTS_PER_CLASS, MAX_ATTEMPTS_EXCEEDED))
    else if NeverRetried(k)
    then Some(Stop(NON_RETRYABLE_CLASS, PERMANENT_FAIL))
    else if k == UNKNOWN && p.maxUnknown.Some? && seen > p.maxUnknown.value
    then Some(Stop(MAX_UNKNOWN_ATTEMPTS, MAX_UNKNOWN_ATTEMPTS_EXCEEDED))
    else if s.checkedAt - start > p.deadline
    then Some(Stop(DEADLINE_EXCEEDED, DEADLINE_PASSED))
    else if !HasStrategy(p, k)
    then Some(Stop(NO_STRATEGY, NO_STRATEGY_CONFIGURED))
    else if RemainingTime(p, start, s) <= 0.0
    then Some(Stop(DEADLINE_EXCEEDED, DEADLINE_PASSED))
    else if |past| + 1 >= p.maxAttempts
    then Some(Stop(MAX_ATTEMPTS_GLOBAL, MAX_ATTEMPTS_EXCEEDED))
    else if p.hasBudget && !s.budgetGrants
    then Some(Stop(BUDGET_EXHAUSTED, BUDGET_SPENT))
    else None
  }

  /** The strategy's answer made finite, non-negative and no longer than the remaining time. */
  function Delay(p: RetryPolicy, start: real, s: Script): real {
    Min(Max(0.0, if s.delay.Finite? then s.delay.s else 0.0), RemainingTime(p, start, s))
  }

  /** What becomes of a planned retry. */
  function FollowPlan(p: RetryPolicy, start: real, f: Failure, delay: real, s: Script): (e: AttemptEnd)
    ensures HasPlan(e) && e.failure == f && e.delay == delay
  {
    if s.abortOnRetry then AbortedOnRetry(f, delay)
    else match s.sleep
      case Defer => Deferred(f, delay)
      case AbortSleep => AbortedBySleepHandler(f, delay)
      case Interrupted(signal) => EscapedInSleep(f, delay, signal)
      case Slept => if s.wokeAt - start > p.deadline then Overslept(f, delay) else Again(f, delay)
  }

  /** The ends of attempts for which a retry was planned and announced. */
  predicate HasPlan(e: AttemptEnd) {
    || e.AbortedOnRetry? || e.Deferred? || e.AbortedBySleepHandler?
    || e.EscapedInSleep? || e.Overslept? || e.Again?
  }

  /** The ends of attempts whose operation failed. */
  predicate OnFailure(e: AttemptEnd) { e.AbortedOnFailure? || e.Refused? || HasPlan(e) }

  function JudgeFailure(p: RetryPolicy, start: real, past: seq<Slot>, f: Failure, s: Script): (e: AttemptEnd)
    ensures e.Again? ==> |past| + 1 < p.maxAttempts
    ensures OnFailure(e) && e.failure == f
  {
    var stop := FirstStop(p, start, past, f.klass, s);
    if s.abortOnFailure then AbortedOnFailure(f)
    else if stop.Some? then Refused(f, stop.value)
    else FollowPlan(p, start, f, Delay(p, start, s), s)
  }

  function Judge(p: RetryPolicy, start: real, past: seq<Slot>, s: Script): (e: AttemptEnd)
    ensures e.Again? ==> |past| + 1 < p.maxAttempts
  {
    if s.abortBefore then NotStarted
    else match s.op
      case Escaping(signal) => Escaped(signal)
      case AbortSignal => AbortedByOperation
      case Returned(v, None) => Succeeded(v)
      case _ => JudgeFailure(p, start, past, FailureOf(s.op).value, s)
  }

  // ---------------------------------------------------------------- whole runs

  /** A run: the attempts that were retried, and how the one after them ended. */
  datatype Ending = Ending(past: seq<Slot>, last: AttemptEnd)

  function RunFrom(p: RetryPolicy, start: real, env: Env, past: seq<Slot>): Ending
    requires |past| < p.maxAttempts
    decreases p.maxAttempts - |past|
  {
    var e := Judge(p, start, past, env(|past| + 1));
    if e.Again?
    then RunFrom(p, start, env, past + [Slot(e.failure, e.delay)])
    else Ending(past, e)
  }

  function Run(p: RetryPolicy, start: real, env: Env): Ending
    requires p.maxAttempts >= 1
  {
    RunFrom(p, start, env, [])
  }

  /** The failure on record when the run ends. */
  function LastFailure(r: Ending): Option<Failure> {
    match r.last
    case Refused(f, _) => Some(f)
    case AbortedOnRetry(f, _) => Some(f)
    case Deferred(f, _) => Some(f)
    case AbortedBySleepHandler(f, _) => Some(f)
    case EscapedInSleep(f, _, _) => Some(f)
    case Overslept(f, _) => Some(f)
    case Again(f, _) => Some(f)
    case _ => if r.past == [] then None else Some(r.past[|r.past| - 1].failure)
  }

  function StopOf(e: AttemptEnd): Option<StopReason> {
    match e
    case Refused(_, stop) => Some(stop.reason)
    case Deferred(_, _) => Some(SCHEDULED)
    case Overslept(_, _) => Some(DEADLINE_EXCEEDED)
    case NotStarted => Some(ABORTED)
    case AbortedByOperation => Some(ABORTED)
    case AbortedOnFailure(_) => Some(ABORTED)
    case AbortedOnRetry(_, _) => Some(ABORTED)
    case AbortedBySleepHandler(_, _) => Some(ABORTED)
    case _ => None
  }

  /** How often the operation was invoked. */
  function Invocations(r: Ending): nat {
    |r.past| + (if r.last.NotStarted? then 0 else 1)
  }

  // ---------------------------------------------------------------- what callers get

  datatype Outcome = Outcome(
    ok: bool,
    value: Option<int>,
    stop: Option<StopReason>,
    attempts: nat,
    lastClass: Option<ErrorClass>,
    lastExc: Option<Exn>,
    lastValue: Option<int>,
    cause: Option<Cause>,
    nextSleep: Option<real>)

  /** What `execute` does: return an outcome, or let a signal through. */
  datatype ExecuteEnd = Returns(outcome: Outcome) | ExecuteSignal(signal: Signal)

  /** What `call` does: return the value or raise something. */
  datatype CallEnd =
    | Value(value: int)
    | Reraised(exc: Exn)
    | RaisedAbort
    | RaisedExhausted(stop: StopReason, attempts: int, lastClass: Option<ErrorClass>,
                      lastExc: Option<Exn>, lastValue: Option<int>, nextSleep: Option<real>)
    | RaisedRuntimeError
    | CallSignal(signal: Signal)

  function Failed(f: Option<Failure>, stop: Option<StopReason>, attempts: nat, nextSleep: Option<real>): Outcome {
    if f.None? then Outcome(false, None, stop, attempts, None, None, None, None, nextSleep)
    else Outcome(false, None, stop, attempts, Some(f.value.klass), f.value.exc, f.value.value,
                 Some(f.value.cause), nextSleep)
  }

  function ExecuteView(r: Ending): ExecuteEnd {
    match r.last
    case Succeeded(v) => Returns(Outcome(true, Some(v), None, Invocations(r), None, None, None, None, None))
    case Escaped(signal) => ExecuteSignal(signal)
    case EscapedInSleep(_, _, signal) => ExecuteSignal(signal)
    case Deferred(_, delay) => Returns(Failed(LastFailure(r), StopOf(r.last), Invocations(r), Some(delay)))
    case _ => Returns(Failed(LastFailure(r), StopOf(r.last), Invocations(r), None))
  }

  function CallView(r: Ending): CallEnd {
    var n := Invocations(r);
    match r.last
    case Succeeded(v) => Value(v)
    case Escaped(signal) => CallSignal(signal)
    case EscapedInSleep(_, _, signal) => CallSignal(signal)
    case Refused(f, stop) =>
      if f.exc.Some? then Reraised(f.exc.value)
      else RaisedExhausted(stop.reason, n, Some(f.klass), None, f.value, None)
    case Overslept(f, _) =>
      if f.exc.Some? then Reraised(f.exc.value)
      else RaisedExhausted(DEADLINE_EXCEEDED, n, Some(f.klass), None, f.value, None)
    case Deferred(f, delay) => RaisedExhausted(SCHEDULED, n, Some(f.klass), f.exc, f.value, Some(delay))
    case _ => RaisedAbort
  }

  // ---------------------------------------------------------------- what observers see

  datatype AttemptDecision = DoneOk | DoneRetry | DoneRaise | DoneScheduled | DoneAborted

  datatype Event = Event(
    name: EventName, attempt: int, sleepS: real, klass: Option<ErrorClass>, stop: Option<StopReason>)

  datatype Item =
    | Started(attempt: nat)                  // attempt-start hook
    | Invoked(attempt: nat)
    | Token(at: real)                        // a budget token consumed
    | Emitted(event: Event)
    | Asleep(s: real)
    | Ended(attempt: nat, decision: AttemptDecision, stop: Option<StopReason>)  // attempt-end hook

  /** Which of the two loops is being watched. */
  datatype Style = Call | Execute

  function Aborted(attempt: int): Item { Emitted(Event(RETRY_ABORTED, attempt, 0.0, None, Some(ABORTED))) }

  function Halted(stop: Stop, n: nat, k: ErrorClass): Item {
    Emitted(Event(stop.name, n, 0.0, Some(k), Some(stop.reason)))
  }

  /** What planning a retry leaves in the trace. */
  function Planned(p: RetryPolicy, n: nat, s: Script, f: Failure, delay: real): seq<Item> {
    (if p.hasBudget then [Token(s.budgetAt)] else [])
    + [Emitted(Event(RETRY, n, delay, Some(f.klass), None))]
  }

  /** What following a plan leaves in the trace. */
  function PlanWork(n: nat, e: AttemptEnd): seq<Item>
    requires HasPlan(e)
  {
    match e
    case AbortedOnRetry(_, _) => [Aborted(n)]
    case AbortedBySleepHandler(_, _) => [Aborted(n)]
    case Deferred(f, delay) => [Emitted(Event(RETRY_SCHEDULED, n, delay, Some(f.klass), Some(SCHEDULED)))]
    case EscapedInSleep(_, _, _) => []
    case Overslept(f, delay) => [Asleep(delay), Halted(Stop(DEADLINE_EXCEEDED, DEADLINE_PASSED), n, f.klass)]
    case Again(_, delay) => [Asleep(delay)]
  }

  /** What handling a failed attempt leaves in the trace before its end hook. */
  function Work(p: RetryPolicy, n: nat, s: Script, e: AttemptEnd): seq<Item> {
    if HasPlan(e) then Planned(p, n, s, e.failure, e.delay) + PlanWork(n, e)
    else match e
      case AbortedOnFailure(_) => [Aborted(n)]
      case Refused(f, stop) => [Halted(stop, n, f.klass)]
      case _ => []
  }

  function DecisionOf(e: AttemptEnd): AttemptDecision {
    match e
    case Succeeded(_) => DoneOk
    case Again(_, _) => DoneRetry
    case Deferred(_, _) => DoneScheduled
    case Refused(_, _) => DoneRaise
    case Overslept(_, _) => DoneRaise
    case _ => DoneAborted
  }

  /** Whether the attempt-end hook runs: `call` skips it when abort_if ends the run after a failure. */
  predicate EndHookRuns(e: AttemptEnd, style: Style) {
    && !e.NotStarted? && !e.Escaped? && !e.EscapedInSleep?
    && (style == Call ==> !e.AbortedOnFailure? && !e.AbortedOnRetry?)
  }

  function EndHook(n: nat, e: AttemptEnd, style: Style): seq<Item> {
    if EndHookRuns(e, style) then [Ended(n, DecisionOf(e), StopOf(e))] else []
  }

  /** What an attempt leaves in the trace after its operation was invoked. */
  function Aftermath(p: RetryPolicy, n: nat, s: Script, e: AttemptEnd, style: Style): seq<Item> {
    match e
    case Succeeded(_) => [Emitted(Event(SUCCESS, n, 0.0, None, None))] + EndHook(n, e, style)
    case AbortedByOperation => EndHook(n, e, style) + [Aborted(n)]
    case _ => Work(p, n, s, e) + EndHook(n, e, style)
  }

  function AttemptTrace(p: RetryPolicy, n: nat, s: Script, e: AttemptEnd, style: Style): seq<Item>
    requires n >= 1
  {
    if e.NotStarted? then [Aborted(n - 1)]
    else [Started(n), Invoked(n)] + Aftermath(p, n, s, e, style)
  }

  /** The trace of the retried attempts. */
  function PastTrace(p: RetryPolicy, env: Env, past: seq<Slot>): seq<Item> {
    if past == [] then []
    else
      var n := |past|;
      var slot := past[n - 1];
      PastTrace(p, env, past[..n - 1])
      + AttemptTrace(p, n, env(n), Again(slot.failure, slot.delay), Execute)
  }

  function Trace(p: RetryPolicy, env: Env, r: Ending, style: Style): seq<Item> {
    PastTrace(p, env, r.past) + AttemptTrace(p, |r.past| + 1, env(|r.past| + 1), r.last, style)
  }
}
