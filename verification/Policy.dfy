/**
 * Policy executions: taking an admission from the breaker, running, settling, and leaving.
 */
module Policies {
  import opened Basics
  import C = Circuit
  import opened CircuitBreakers
  import CircuitOwnership
  import CircuitLaws
  import opened Retry
  import opened RetryLoops
  import opened RetryAgreement
  import RetryTraces

  // ---------------------------------------------------------------- what the breaker is told

  function ClassOr(k: Option<ErrorClass>): ErrorClass { if k.Some? then k.value else UNKNOWN }

  /**
   * How `Policy.call` settles with the breaker, `runtimeClass` being the class of the RuntimeError
   * that a retry without attempts raises.  Whatever its handlers leave open, the exit cancels.
   */
  function CallSettlement(end: CallEnd, runtimeClass: ErrorClass): C.Outcome {
    match end
    case Value(_) => C.Success
    case RaisedAbort => C.Cancel
    case RaisedExhausted(_, _, lastClass, _, _, _) => C.Failure(ClassOr(lastClass))
    case Reraised(exc) => if exc.circuitOpen then C.Cancel else C.Failure(exc.klass)
    case RaisedRuntimeError => C.Failure(runtimeClass)
    case CallSignal(ForeignExhausted(_, lastClass)) => C.Failure(ClassOr(lastClass))
    case CallSignal(_) => C.Cancel
  }

  /** How `Policy.execute` settles with the breaker. */
  function ExecuteSettlement(end: ExecuteEnd): C.Outcome {
    match end
    case Returns(o) =>
      if o.ok then C.Success
      else if o.stop == Some(ABORTED) then C.Cancel
      else C.Failure(ClassOr(o.lastClass))
    case ExecuteSignal(_) => C.Cancel
  }

  /** The two kinds of errors from the operation that the two entry points treat differently. */
  predicate ForeignError(end: CallEnd) {
    || (end.Reraised? && end.exc.circuitOpen)
    || (end.CallSignal? && end.signal.ForeignExhausted?)
  }

  /** What a policy runs: the retry engine, or the bare operation once. */
  datatype Work =
    | WithRetry(p: RetryPolicy, start: real, env: Env)
    | Bare(op: OpResult)

  /** How the work ends inside `Policy.call`. */
  function CallBody(w: Work): CallEnd {
    match w
    case WithRetry(p, start, env) => if p.maxAttempts >= 1 then CallView(Run(p, start, env)) else RaisedRuntimeError
    case Bare(Returned(v, _)) => Value(v)
    case Bare(Raised(exc)) => Reraised(exc)
    case Bare(AbortSignal) => RaisedAbort
    case Bare(Escaping(signal)) => CallSignal(signal)
  }

  function BareFailure(exc: Exn): Outcome {
    Outcome(false, None, None, 1, Some(exc.klass), Some(exc), None, Some(ByException), None)
  }

  /** How the work ends inside `Policy.execute`; a bare RetryExhaustedError is an error like any. */
  function ExecuteBody(w: Work): ExecuteEnd {
    match w
    case WithRetry(p, start, env) =>
      if p.maxAttempts >= 1 then ExecuteView(Run(p, start, env)) else Returns(NoAttemptsOutcome)
    case Bare(Returned(v, _)) => Returns(Outcome(true, Some(v), None, 1, None, None, None, None, None))
    case Bare(Raised(exc)) => Returns(BareFailure(exc))
    case Bare(AbortSignal) => Returns(Outcome(false, None, Some(ABORTED), 0, None, None, None, None, None))
    case Bare(Escaping(ForeignExhausted(id, _))) => Returns(BareFailure(Exn(id, UNKNOWN, false)))
    case Bare(Escaping(signal)) => ExecuteSignal(signal)
  }

  /**
   * On the same work, `call` and `execute` tell the breaker the same thing, unless what came out
   * is a CircuitOpenError or RetryExhaustedError that the operation itself raised.
   */
  lemma SettlementsAgree(w: Work, runtimeClass: ErrorClass)
    requires w.WithRetry? ==> w.p.maxAttempts >= 1
    ensures CallSettlement(CallBody(w), runtimeClass) == ExecuteSettlement(ExecuteBody(w))
            <==> !ForeignError(CallBody(w)) || HarmlessExhaustion(w)
  {
    hide Judge, RunFrom, Trace, CallView, ExecuteView;
    if w.WithRetry? {
      var r := Run(w.p, w.start, w.env);
      CallAndExecuteAgree(w.p, w.start, w.env);
      assert Matches(CallView(r), ExecuteView(r));
    }
  }

  /** A bare operation's RetryExhaustedError that names no class but UNKNOWN makes no difference. */
  predicate HarmlessExhaustion(w: Work) {
    && w.Bare? && w.op.Escaping? && w.op.signal.ForeignExhausted?
    && ClassOr(w.op.signal.lastClass) == UNKNOWN
  }

  /** The result classifier, which only a retry has, finds nothing wrong with what is returned. */
  predicate Unclassified(op: OpResult) { op.Returned? ==> op.failureClass.None? }

  /**
   * Work without a retry ends as a retry of one attempt would that nothing aborts: in `call` the
   * same way, and in `execute` with the same result and failure on record.
   */
  lemma BareIsOneAttempt(op: OpResult, p: RetryPolicy, start: real, env: Env)
    requires p.maxAttempts == 1 && env(1).op == op && Unclassified(op)
    requires !env(1).abortBefore && !env(1).abortOnFailure
    ensures CallBody(Bare(op)) == CallBody(WithRetry(p, start, env))
    ensures !(op.Escaping? && op.signal.ForeignExhausted?) ==>
              match (ExecuteBody(Bare(op)), ExecuteBody(WithRetry(p, start, env)))
              case (Returns(o), Returns(o')) =>
                && o.ok == o'.ok && o.value == o'.value && o.cause == o'.cause && o.nextSleep == o'.nextSleep
                && o.lastClass == o'.lastClass && o.lastExc == o'.lastExc && o.lastValue == o'.lastValue
                && (o.stop == Some(ABORTED) <==> o'.stop == Some(ABORTED))
                && o.attempts == (if op.AbortSignal? then 0 else o'.attempts)
              case (ExecuteSignal(signal), ExecuteSignal(signal')) => signal == signal'
              case _ => false
  {
    hide FirstStop, Delay, RunFrom;
    RunEnds(p, start, env, []);
    var r := Run(p, start, env);
    assert r.past == [] && r.last == Judge(p, start, [], env(1));
    RetryTraces.PlanLeavesRoom(p, start, [], env(1));
    if FailureOf(op).Some? { StopsAreFinal(p, start, [], FailureOf(op).value.klass, env(1)); }
  }

  /** A RetryExhaustedError of the operation's own, without a retry, is a failure like any. */
  lemma BareExhaustionFails(id: int, lastClass: Option<ErrorClass>)
    ensures var end := ExecuteBody(Bare(Escaping(ForeignExhausted(id, lastClass))));
            && end.Returns? && !end.outcome.ok && end.outcome.stop.None? && end.outcome.attempts == 1
            && end.outcome.lastClass == Some(UNKNOWN)
            && end.outcome.lastExc.Some? && end.outcome.lastExc.value.id == id
  {
  }

  predicate OwnError(op: OpResult) {
    || (op.Raised? && op.exc.circuitOpen)
    || (op.Escaping? && op.signal.ForeignExhausted?)
  }

  /** Neither the operation nor the sleeper raises one of the two errors the policy itself raises. */
  ghost predicate RaisesNoPolicyError(w: Work) {
    match w
    case WithRetry(_, _, env) =>
      forall n: nat :: !OwnError(env(n).op) && !(env(n).sleep.Interrupted? && env(n).sleep.signal.ForeignExhausted?)
    case Bare(op) => !OwnError(op)
  }

  lemma NoForeignErrorFrom(w: Work)
    requires RaisesNoPolicyError(w) && (w.WithRetry? ==> w.p.maxAttempts >= 1)
    ensures !ForeignError(CallBody(w))
  {
    hide FirstStop, Delay, RunFrom;
    if w.WithRetry? {
      RunEnds(w.p, w.start, w.env, []);
      var r := Run(w.p, w.start, w.env);
      var s := w.env(|r.past| + 1);
      assert r.last == Judge(w.p, w.start, r.past, s);
      assert !OwnError(s.op);
    }
  }

  /** So with such work the breaker hears the same from both entry points. */
  lemma OrdinaryWorkSettlesAlike(w: Work, runtimeClass: ErrorClass)
    requires RaisesNoPolicyError(w) && (w.WithRetry? ==> w.p.maxAttempts >= 1)
    ensures CallSettlement(CallBody(w), runtimeClass) == ExecuteSettlement(ExecuteBody(w))
  {
    hide CallBody, ExecuteBody, CallSettlement, ExecuteSettlement;
    NoForeignErrorFrom(w);
    SettlementsAgree(w, runtimeClass);
  }

  // ---------------------------------------------------------------- one execution's steps

  /** The outcomes with which admission `id` was settled, in order. */
  function SettlementsOf(history: seq<C.Step>, id: nat): seq<C.Outcome> {
    if history == [] then []
    else
      var last := history[|history| - 1];
      SettlementsOf(history[..|history| - 1], id)
      + (if last.Complete? && last.id == id then [last.outcome] else [])
  }

  lemma SettlementsSnoc(history: seq<C.Step>, step: C.Step, id: nat)
    ensures SettlementsOf(history + [step], id)
         == SettlementsOf(history, id) + (if step.Complete? && step.id == id then [step.outcome] else [])
  {
    assert (history + [step])[..|history|] == history;
  }

  lemma {:induction false} NoSettlements(history: seq<C.Step>, id: nat)
    requires forall i :: 0 <= i < |history| ==> !(history[i].Complete? && history[i].id == id)
    ensures SettlementsOf(history, id) == []
  {
    if history != [] { NoSettlements(history[..|history| - 1], id); }
  }

  lemma {:induction false} SettlementsUnchanged(before: seq<C.Step>, after: seq<C.Step>, id: nat)
    requires before <= after
    requires forall i :: |before| <= i < |after| ==> !(after[i].Complete? && after[i].id == id)
    ensures SettlementsOf(after, id) == SettlementsOf(before, id)
    decreases |after|
  {
    if |after| > |before| {
      SettlementsUnchanged(before, after[..|after| - 1], id);
    } else {
      assert after == before;
    }
  }

  /**
   * Other threads get to run: they may do anything to the breaker, in any order, except settle an
   * admission they do not hold.  The body is the schedule in which none does; callers are proved
   * for every schedule the contract allows.
   */
  method Meanwhile(breaker: CircuitBreaker, ghost mine: BreakerAdmission?)
    requires breaker.Valid() && (mine != null ==> mine in breaker.issued)
    modifies breaker, set a | a in breaker.issued && a != mine
    ensures breaker.Valid()
    ensures old(breaker.history) <= breaker.history && old(breaker.issued) <= breaker.issued
    ensures forall a :: a in breaker.issued && a !in old(breaker.issued) ==> fresh(a)
    ensures mine != null ==>
              forall i :: |old(breaker.history)| <= i < |breaker.history| ==>
                !(breaker.history[i].Complete? && breaker.history[i].id == mine.id)
  {
  }

  /** The context of one execution: its breaker and, until it is settled, its admission. */
  class ExecutionContext {
    const breaker: CircuitBreaker?
    var held: BreakerAdmission?

    ghost predicate Valid()
      reads this, breaker, if breaker == null then [] else breaker.issued
    {
      if breaker == null then held == null
      else breaker.Valid() && (held != null ==> held in breaker.issued && !held.completed)
    }

    constructor (breaker: CircuitBreaker?)
      ensures this.breaker == breaker && held == null
    {
      this.breaker := breaker;
      held := null;
    }

    /**
     * Asks the breaker whether the execution may go on, then shows the event to an observer, which
     * lets a signal through if `observerSignals`.
     */
    method CheckBreaker(now: real, observerSignals: bool) returns (allowed: bool, signalled: bool)
      requires Valid() && held == null
      modifies this, breaker
      ensures Valid()
      ensures breaker == null ==> allowed && !signalled
      ensures breaker != null ==>
                && breaker.history == old(breaker.history) + [C.Allow(now)]
                && signalled == (observerSignals && C.Admit(breaker.cfg, old(breaker.Model()), now).event.Some?)
                && allowed == C.Admit(breaker.cfg, old(breaker.Model()), now).admitted.Some?
                && (held != null <==> allowed)
                && breaker.issued == old(breaker.issued) + (if held != null then [held] else [])
                && (held != null ==> fresh(held) && held.id == |old(breaker.issued)|)
    {
      if breaker == null {
        return true, false;
      }
      var d := breaker.Allow(now);
      held := if d.allowed then d.admission else null;
      return d.allowed, observerSignals && d.event.Some?;
    }

    /**
     * Settles the admission if it is still held.  The context lets go of it before an observer sees
     * the event, so a signal the observer lets through finds it settled.
     */
    method CompleteBreaker(outcome: C.Outcome, now: real, observerSignals: bool) returns (signalled: bool)
      requires Valid()
      modifies this, breaker, held
      ensures Valid() && held == null
      ensures old(held) == null && breaker != null ==>
                && breaker.history == old(breaker.history) && breaker.issued == old(breaker.issued)
                && breaker.Model() == old(breaker.Model())
      ensures old(held) != null ==>
                && breaker.issued == old(breaker.issued) && old(held).completed
                && breaker.history == old(breaker.history) + [C.Complete(old(held).id, outcome, now)]
      ensures signalled <==>
                && observerSignals && old(held) != null
                && C.Apply(breaker.cfg, old(breaker.Model()), C.Complete(old(held).id, outcome, now)).event.Some?
      ensures outcome.Cancel? ==> !signalled
    {
      if breaker == null || held == null {
        return false;
      }
      var event := breaker.Complete(held, outcome, now);
      held := null;
      return observerSignals && event.Some?;
    }

    /** Leaving the context cancels whatever has not been settled, which no observer is shown. */
    method Exit(now: real)
      requires Valid()
      modifies this, breaker, held
      ensures Valid() && held == null
      ensures old(held) == null && breaker != null ==>
                && breaker.history == old(breaker.history) && breaker.issued == old(breaker.issued)
                && breaker.Model() == old(breaker.Model())
      ensures old(held) != null ==>
                && breaker.issued == old(breaker.issued) && old(held).completed
                && breaker.history == old(breaker.history) + [C.Complete(old(held).id, C.Cancel, now)]
    {
      var _ := CompleteBreaker(C.Cancel, now, true);
    }
  }

  /**
   * What happens around the body of an execution: the readings its breaker operations bring, and
   * the places where an observer or hook lets a signal through: at the event of its admission or
   * rejection, anywhere from then until it settles, at the event of its settlement, and, without a
   * retry, at the end hook that `execute` runs after settling.
   */
  datatype Surroundings = Surroundings(
    preflightAbort: bool, allowAt: real, signalOnAdmission: bool, signalBeforeSettling: bool,
    settleAt: real, signalOnSettling: bool, signalInEndHook: bool, exitAt: real)

  datatype PolicyEnd<T> =
    | AbortedBefore
    | Rejected
    | SignalOnAdmission(admitted: bool)
    | SignalBeforeSettling
    | SignalAfterSettling
    | Through(end: T)

  /** What an execution that was let in has done to its breaker by the time it has left. */
  twostate predicate LeftSettled(breaker: CircuitBreaker, outcome: C.Outcome)
    reads breaker, breaker.issued
  {
    && breaker.Valid()
    && var id := old(|breaker.issued|);
       id < |breaker.issued| && breaker.issued[id].completed
       && SettlementsOf(breaker.history, id) == [outcome]
       && CircuitOwnership.Ended(breaker.cfg, breaker.history, id)
  }

  /**
   * That, and what became of the breaker: the execution asked it first, and if it was let in as the
   * probe and nobody else stepped in, its outcome decided the state.
   */
  twostate predicate Told(breaker: CircuitBreaker, s: Surroundings, outcome: C.Outcome)
    reads breaker, breaker.issued
  {
    && LeftSettled(breaker, outcome)
    && old(breaker.history) + [C.Allow(s.allowAt)] <= breaker.history
    && ((|breaker.history| == |old(breaker.history)| + 2
         && CircuitLaws.ReadyToProbe(breaker.cfg, old(breaker.Model()), s.allowAt))
        ==> CircuitLaws.DecidedBy(breaker.Model(), outcome))
  }

  /** If an execution let in as the probe is alone with the breaker, its one settlement decides. */
  lemma NobodyElse(cfg: C.Config, before: seq<C.Step>, after: seq<C.Step>, now: real, outcome: C.Outcome)
    requires before + [C.Allow(now)] <= after && |after| == |before| + 2
    requires CircuitLaws.ReadyToProbe(cfg, C.Run(cfg, before), now)
    requires var id := |C.Run(cfg, before).issued|;
             SettlementsOf(before, id) == [] && SettlementsOf(after, id) == [outcome]
    ensures CircuitLaws.DecidedBy(C.Run(cfg, after), outcome)
  {
    var asked, last, id := before + [C.Allow(now)], after[|before| + 1], |C.Run(cfg, before).issued|;
    assert after == asked + [last];
    SettlementsSnoc(before, C.Allow(now), id);
    SettlementsSnoc(asked, last, id);
    assert last.Complete? && last.id == id && [last.outcome][0] == [outcome][0];
    assert after[..|after| - 1] == asked && asked[..|asked| - 1] == before;
    C.InvRun(cfg, before);
    CircuitLaws.ProbeDecides(cfg, C.Run(cfg, before), now, outcome, last.now);
  }

  /** The same for one that was rejected: it asked, and nothing else. */
  twostate predicate LeftRejected(breaker: CircuitBreaker, now: real)
    reads breaker, breaker.issued
  {
    && breaker.Valid()
    && breaker.history == old(breaker.history) + [C.Allow(now)]
    && breaker.issued == old(breaker.issued)
    && breaker.Model().issued == old(breaker.Model().issued)
  }

  lemma AloneAtLast(breaker: CircuitBreaker, before: seq<C.Step>, now: real, outcome: C.Outcome)
    requires breaker.Valid() && before + [C.Allow(now)] <= breaker.history
    requires var id := |C.Run(breaker.cfg, before).issued|;
             SettlementsOf(before, id) == [] && SettlementsOf(breaker.history, id) == [outcome]
    ensures |breaker.history| == |before| + 2 && CircuitLaws.ReadyToProbe(breaker.cfg, C.Run(breaker.cfg, before), now)
            ==> CircuitLaws.DecidedBy(breaker.Model(), outcome)
  {
    if |breaker.history| == |before| + 2 && CircuitLaws.ReadyToProbe(breaker.cfg, C.Run(breaker.cfg, before), now) {
      NobodyElse(breaker.cfg, before, breaker.history, now, outcome);
    }
  }

  /** What a breaker says of an admission it has not issued yet. */
  lemma BeforeIssue(breaker: CircuitBreaker)
    requires breaker.Valid()
    ensures breaker.Model() == C.Run(breaker.cfg, breaker.history)
    ensures |C.Run(breaker.cfg, breaker.history).issued| == |breaker.issued|
    ensures SettlementsOf(breaker.history, |breaker.issued|) == []
  {
    UnsettledSoFar(breaker, |breaker.issued|);
  }

  lemma UnsettledSoFar(breaker: CircuitBreaker, id: nat)
    requires breaker.Valid() && id >= |breaker.issued|
    ensures SettlementsOf(breaker.history, id) == []
  {
    NoSettlements(breaker.history, id);
  }

  /** An admission that is marked completed belongs to an execution that has ended. */
  lemma CompletedMeansEnded(breaker: CircuitBreaker, id: nat)
    requires breaker.Valid() && id < |breaker.issued| && breaker.issued[id].completed
    ensures CircuitOwnership.Ended(breaker.cfg, breaker.history, id)
  {
    assert C.Run(breaker.cfg, breaker.history).issued[id].completed;
    CircuitOwnership.EndedIsCompleted(breaker.cfg, breaker.history, id);
  }

  /**
   * With every admission settled - and Left says that every execution that was let in has settled
   * its own - the breaker holds no probe, and a caller is admitted unless the breaker is open and
   * the recovery time has not passed.
   */
  lemma IdleBreakerHoldsNoProbe(breaker: CircuitBreaker, now: real)
    requires breaker.Valid() && forall a :: a in breaker.issued ==> a.completed
    ensures breaker.probe == null
    ensures breaker.state == C.Open ==> breaker.openedAt.Some?
    ensures C.Admit(breaker.cfg, breaker.Model(), now).admitted.Some?
            <==> (breaker.state == C.Open ==> now - breaker.openedAt.value >= breaker.cfg.recoveryS)
  {
    var b := C.Run(breaker.cfg, breaker.history);
    forall id | 0 <= id < |b.issued| ensures CircuitOwnership.Ended(breaker.cfg, breaker.history, id) {
      assert breaker.issued[id] in breaker.issued;
      CompletedMeansEnded(breaker, id);
    }
    CircuitOwnership.NoStrandedProbe(breaker.cfg, breaker.history, now);
  }

  /** What one more stretch of history says about the settlements of admission `id`. */
  lemma SettlementsGrow(before: seq<C.Step>, after: seq<C.Step>, outcome: Option<C.Outcome>, now: real, id: nat)
    requires outcome.Some? ==> after == before + [C.Complete(id, outcome.value, now)]
    requires outcome.None? ==> before <= after
    requires outcome.None? ==>
               forall i :: |before| <= i < |after| ==> !(after[i].Complete? && after[i].id == id)
    ensures SettlementsOf(after, id)
         == SettlementsOf(before, id) + (if outcome.Some? then [outcome.value] else [])
  {
    if outcome.Some? {
      SettlementsSnoc(before, C.Complete(id, outcome.value, now), id);
    } else {
      SettlementsUnchanged(before, after, id);
    }
  }

  lemma PlaceOf(breaker: CircuitBreaker, admission: BreakerAdmission)
    requires breaker.Valid() && admission in breaker.issued
    ensures admission.id < |breaker.issued| && breaker.issued[admission.id] == admission
  {
  }

  /** Other threads run and, when `settles`, this execution then settles. */
  method Proceed(ctx: ExecutionContext, settles: bool, outcome: C.Outcome, s: Surroundings)
    returns (signalled: bool)
    requires ctx.Valid() && ctx.breaker != null && ctx.held != null
    modifies ctx, ctx.breaker, ctx.breaker.issued
    ensures ctx.Valid() && ctx.held == (if settles then null else old(ctx.held))
    ensures old(ctx.breaker.issued) <= ctx.breaker.issued && old(ctx.breaker.history) <= ctx.breaker.history
    ensures forall a :: a in ctx.breaker.issued && a !in old(ctx.breaker.issued) ==> fresh(a)
    ensures settles ==> old(ctx.held).completed
    ensures SettlementsOf(ctx.breaker.history, old(ctx.held).id)
         == old(SettlementsOf(ctx.breaker.history, ctx.held.id)) + (if settles then [outcome] else [])
    ensures signalled ==> settles && s.signalOnSettling && !outcome.Cancel?
  {
    hide SettlementsOf, CircuitBreaker.Valid;
    var breaker, mine := ctx.breaker, ctx.held;
    ghost var h0 := breaker.history;
    Meanwhile(breaker, mine);
    ghost var h1 := breaker.history;
    SettlementsGrow(h0, h1, None, 0.0, mine.id);
    signalled := false;
    if settles {
      signalled := ctx.CompleteBreaker(outcome, s.settleAt, s.signalOnSettling);
      SettlementsGrow(h1, breaker.history, Some(outcome), s.settleAt, mine.id);
    }
  }

  /**
   * Runs while others do too, settles if a handler is reached, and leaves after others may have
   * run again.  However it goes, and whether or not an observer of the settlement lets a signal
   * through, the admission gets exactly one settlement.
   */
  method RunAndLeave(ctx: ExecutionContext, settles: bool, outcome: C.Outcome, s: Surroundings)
    returns (signalled: bool)
    requires ctx.Valid()
    requires ctx.breaker != null ==> ctx.held != null
    modifies ctx, ctx.breaker, if ctx.breaker == null then [] else ctx.breaker.issued
    ensures ctx.Valid() && ctx.held == null
    ensures ctx.breaker != null ==>
              var breaker, id := ctx.breaker, old(ctx.held.id);
              && id < |breaker.issued| && breaker.issued[id].completed
              && CircuitOwnership.Ended(breaker.cfg, breaker.history, id)
              && old(ctx.breaker.history) <= breaker.history
              && SettlementsOf(breaker.history, id)
                 == old(SettlementsOf(breaker.history, ctx.held.id)) + [if settles then outcome else C.Cancel]
    ensures signalled ==> settles && ctx.breaker != null && s.signalOnSettling && !outcome.Cancel?
  {
    hide SettlementsOf, CircuitBreaker.Valid, CircuitOwnership.Ended;
    if ctx.breaker == null {
      return false;
    }
    var breaker, mine := ctx.breaker, ctx.held;
    PlaceOf(breaker, mine);
    signalled := Proceed(ctx, settles, outcome, s);
    PlaceOf(breaker, mine);
    ghost var h0 := breaker.history;
    Meanwhile(breaker, mine);
    ghost var h1 := breaker.history;
    SettlementsGrow(h0, h1, None, 0.0, mine.id);
    ctx.Exit(s.exitAt);
    if !settles {
      SettlementsGrow(h1, breaker.history, Some(C.Cancel), s.exitAt, mine.id);
    }
    CompletedMeansEnded(breaker, mine.id);
  }

  method CallWork(w: Work) returns (body: CallEnd)
    ensures body == CallBody(w)
  {
    match w
    case WithRetry(p, start, env) =>
      ghost var trace;
      body, trace := RunSyncCall(p, start, env);
    case Bare(op) =>
      match op {
        case Returned(v, _) => body := Value(v);
        case Raised(exc) => body := Reraised(exc);
        case AbortSignal => body := RaisedAbort;
        case Escaping(signal) => body := CallSignal(signal);
      }
  }

  method ExecuteWork(w: Work) returns (body: ExecuteEnd)
    ensures body == ExecuteBody(w)
  {
    match w
    case WithRetry(p, start, env) =>
      ghost var trace;
      body, trace := RunSyncExecute(p, start, env);
    case Bare(op) =>
      match op {
        case Returned(v, _) => body := Returns(Outcome(true, Some(v), None, 1, None, None, None, None, None));
        case Raised(exc) => body := Returns(BareFailure(exc));
        case AbortSignal =>
          body := Returns(Outcome(false, None, Some(ABORTED), 0, None, None, None, None, None));
        case Escaping(signal) =>
          body := if signal.ForeignExhausted? then Returns(BareFailure(Exn(signal.id, UNKNOWN, false)))
                  else ExecuteSignal(signal);
      }
  }

  /** Whether one of the handlers of `Policy.call` settles; the exit does otherwise. */
  predicate HandlerSettles(end: CallEnd) {
    !(end.Reraised? && end.exc.circuitOpen) && !(end.CallSignal? && end.signal.Cancellation?)
  }

  /** What `call` tells the breaker, by what its caller sees. */
  twostate predicate CallTold(breaker: CircuitBreaker, s: Surroundings, end: CallEnd, runtimeClass: ErrorClass)
    reads breaker, breaker.issued
  {
    && (end.Value? ==> Told(breaker, s, C.Success))
    && (end.Reraised? ==> Told(breaker, s, if end.exc.circuitOpen then C.Cancel else C.Failure(end.exc.klass)))
    && (end.RaisedExhausted? ==>
          Told(breaker, s, C.Failure(if end.lastClass.Some? then end.lastClass.value else UNKNOWN)))
    && (end.RaisedAbort? ==> Told(breaker, s, C.Cancel))
    && (end.RaisedRuntimeError? ==> Told(breaker, s, C.Failure(runtimeClass)))
    && (end.CallSignal? && !end.signal.ForeignExhausted? ==> Told(breaker, s, C.Cancel))
    && (end.CallSignal? && end.signal.ForeignExhausted? ==>
          Told(breaker, s, C.Failure(if end.signal.lastClass.Some? then end.signal.lastClass.value else UNKNOWN)))
  }

  /** And `execute`. */
  twostate predicate ExecuteTold(breaker: CircuitBreaker, s: Surroundings, end: ExecuteEnd)
    reads breaker, breaker.issued
  {
    && (end.ExecuteSignal? ==> Told(breaker, s, C.Cancel))
    && (end.Returns? && end.outcome.ok ==> Told(breaker, s, C.Success))
    && (end.Returns? && !end.outcome.ok && end.outcome.stop == Some(ABORTED) ==> Told(breaker, s, C.Cancel))
    && (end.Returns? && !end.outcome.ok && end.outcome.stop != Some(ABORTED) ==>
          Told(breaker, s, C.Failure(if end.outcome.lastClass.Some? then end.outcome.lastClass.value else UNKNOWN)))
  }

  /** What an end of `call` stands for. */
  lemma CallTells(end: CallEnd, runtimeClass: ErrorClass)
    ensures var told := CallSettlement(end, runtimeClass);
            && (end.Value? ==> told == C.Success)
            && (end.Reraised? ==> told == if end.exc.circuitOpen then C.Cancel else C.Failure(end.exc.klass))
            && (end.RaisedExhausted? ==> told == C.Failure(if end.lastClass.Some? then end.lastClass.value else UNKNOWN))
            && (end.RaisedAbort? ==> told == C.Cancel)
            && (end.RaisedRuntimeError? ==> told == C.Failure(runtimeClass))
            && (end.CallSignal? && !end.signal.ForeignExhausted? ==> told == C.Cancel)
            && (end.CallSignal? && end.signal.ForeignExhausted? ==>
                  told == C.Failure(if end.signal.lastClass.Some? then end.signal.lastClass.value else UNKNOWN))
  {
  }

  /** And an end of `execute`. */
  lemma ExecuteTells(end: ExecuteEnd)
    ensures var told := ExecuteSettlement(end);
            && (end.ExecuteSignal? ==> told == C.Cancel)
            && (end.Returns? && end.outcome.ok ==> told == C.Success)
            && (end.Returns? && !end.outcome.ok && end.outcome.stop == Some(ABORTED) ==> told == C.Cancel)
            && (end.Returns? && !end.outcome.ok && end.outcome.stop != Some(ABORTED) ==>
                  told == C.Failure(if end.outcome.lastClass.Some? then end.outcome.lastClass.value else UNKNOWN))
  {
  }

  /** What no handler of either entry point settles stands for a cancellation. */
  lemma UnhandledIsCancelled()
    ensures forall c: CallEnd, k: ErrorClass :: !HandlerSettles(c) ==> CallSettlement(c, k).Cancel?
    ensures forall e: ExecuteEnd :: !e.Returns? ==> ExecuteSettlement(e).Cancel?
  {
  }

  /**
   * How an execution can end, and what its breaker has been told by then.  `settlement` is what the
   * end of its work stands for.  Whatever lets a signal out, and wherever, the admission has been
   * settled exactly once: as cancelled before that point, as the work ended after it.
   */
  twostate predicate Left<T>(breaker: CircuitBreaker?, s: Surroundings, end: PolicyEnd<T>, settlement: C.Outcome)
    reads breaker, if breaker == null then [] else breaker.issued
  {
    match end
    case AbortedBefore => breaker != null ==> breaker.Valid() && breaker.history == old(breaker.history)
    case Rejected => !s.signalOnAdmission && breaker != null && LeftRejected(breaker, s.allowAt)
    case SignalOnAdmission(admitted) =>
      && s.signalOnAdmission && breaker != null
      && if admitted then Told(breaker, s, C.Cancel) else LeftRejected(breaker, s.allowAt)
    case SignalBeforeSettling => s.signalBeforeSettling && (breaker != null ==> Told(breaker, s, C.Cancel))
    case SignalAfterSettling => breaker != null ==> Told(breaker, s, settlement)
    case Through(_) => breaker != null ==> Told(breaker, s, settlement)
  }

  /**
   * `Policy.call`.  Only the event of its settlement can let a signal out after settling, and a
   * cancelled admission has no such event.
   */
  method PolicyCall(breaker: CircuitBreaker?, s: Surroundings, w: Work, runtimeClass: ErrorClass)
    returns (end: PolicyEnd<CallEnd>)
    requires breaker != null ==> breaker.Valid()
    modifies breaker, if breaker == null then [] else breaker.issued
    ensures end.AbortedBefore? <==> w.Bare? && s.preflightAbort
    ensures Left(breaker, s, end, CallSettlement(CallBody(w), runtimeClass))
    ensures end.SignalAfterSettling? ==>
              breaker != null && s.signalOnSettling && !CallSettlement(CallBody(w), runtimeClass).Cancel?
    ensures end.Through? ==> end.end == CallBody(w) && !s.signalBeforeSettling
    ensures end.Through? && breaker != null ==> CallTold(breaker, s, end.end, runtimeClass)
  {
    hide SettlementsOf, CallBody, CallSettlement, HandlerSettles, CircuitOwnership.Ended, CircuitBreaker.Valid, CircuitBreaker.Model, CircuitLaws.DecidedBy, CircuitLaws.ReadyToProbe, C.Run;
    ghost var before := if breaker == null then [] else breaker.history;
    if breaker != null { BeforeIssue(breaker); }
    var ctx := new ExecutionContext(breaker);
    if w.Bare? && s.preflightAbort {
      ctx.Exit(s.exitAt);
      return AbortedBefore;
    }
    var allowed, signalled := Enter(ctx, s);
    if !allowed {
      ctx.Exit(s.exitAt);
      return if signalled then SignalOnAdmission(false) else Rejected;
    }
    var body := CallWork(w);
    var early := signalled || s.signalBeforeSettling;
    UnhandledIsCancelled();
    var late := RunAndLeave(ctx, !early && HandlerSettles(body), CallSettlement(body, runtimeClass), s);
    if breaker != null {
      ghost var told := if early then C.Cancel else CallSettlement(body, runtimeClass);
      AloneAtLast(breaker, before, s.allowAt, told);
      CallTells(body, runtimeClass);
    }
    return if signalled then SignalOnAdmission(true)
           else if s.signalBeforeSettling then SignalBeforeSettling
           else if late then SignalAfterSettling
           else Through(body);
  }

  /** The admission check both entry points make; a new admission has not been settled. */
  method Enter(ctx: ExecutionContext, s: Surroundings) returns (allowed: bool, signalled: bool)
    requires ctx.Valid() && ctx.held == null
    modifies ctx, ctx.breaker
    ensures ctx.Valid() && (ctx.breaker == null ==> allowed && !signalled)
    ensures signalled ==> s.signalOnAdmission
    ensures ctx.breaker != null ==>
              && (allowed <==> ctx.held != null)
              && (!allowed ==> LeftRejected(ctx.breaker, s.allowAt) && signalled == s.signalOnAdmission)
              && (allowed ==>
                    && fresh(ctx.held) && ctx.held.id == old(|ctx.breaker.issued|)
                    && ctx.breaker.issued == old(ctx.breaker.issued) + [ctx.held]
                    && ctx.breaker.history == old(ctx.breaker.history) + [C.Allow(s.allowAt)]
                    && SettlementsOf(ctx.breaker.history, ctx.held.id) == [])
  {
    if ctx.breaker != null {
      UnsettledSoFar(ctx.breaker, |ctx.breaker.issued|);
      SettlementsSnoc(ctx.breaker.history, C.Allow(s.allowAt), |ctx.breaker.issued|);
    }
    allowed, signalled := ctx.CheckBreaker(s.allowAt, s.signalOnAdmission);
  }

  /** `Policy.execute`.  Without a retry its end hook runs after it has settled. */
  method PolicyExecute(breaker: CircuitBreaker?, s: Surroundings, w: Work)
    returns (end: PolicyEnd<ExecuteEnd>)
    requires breaker != null ==> breaker.Valid()
    modifies breaker, if breaker == null then [] else breaker.issued
    ensures end.AbortedBefore? <==> w.Bare? && s.preflightAbort
    ensures Left(breaker, s, end, ExecuteSettlement(ExecuteBody(w)))
    ensures end.SignalAfterSettling? ==>
              || (breaker != null && s.signalOnSettling && !ExecuteSettlement(ExecuteBody(w)).Cancel?)
              || (w.Bare? && s.signalInEndHook)
    ensures end.Through? ==> end.end == ExecuteBody(w) && !s.signalBeforeSettling
    ensures end.Through? && breaker != null ==> ExecuteTold(breaker, s, end.end)
    ensures end.Through? && w.Bare? && s.signalInEndHook ==> end.end.ExecuteSignal?
  {
    hide SettlementsOf, ExecuteBody, ExecuteSettlement, CircuitOwnership.Ended, CircuitBreaker.Valid, CircuitBreaker.Model, CircuitLaws.DecidedBy, CircuitLaws.ReadyToProbe, C.Run;
    ghost var before := if breaker == null then [] else breaker.history;
    if breaker != null { BeforeIssue(breaker); }
    var ctx := new ExecutionContext(breaker);
    if w.Bare? && s.preflightAbort {
      ctx.Exit(s.exitAt);
      return AbortedBefore;
    }
    var allowed, signalled := Enter(ctx, s);
    if !allowed {
      ctx.Exit(s.exitAt);
      return if signalled then SignalOnAdmission(false) else Rejected;
    }
    var body := ExecuteWork(w);
    var early := signalled || s.signalBeforeSettling;
    UnhandledIsCancelled();
    var late := RunAndLeave(ctx, !early && body.Returns?, ExecuteSettlement(body), s);
    if breaker != null {
      ghost var told := if early then C.Cancel else ExecuteSettlement(body);
      AloneAtLast(breaker, before, s.allowAt, told);
      ExecuteTells(body);
    }
    return if signalled then SignalOnAdmission(true)
           else if s.signalBeforeSettling then SignalBeforeSettling
           else if late || (w.Bare? && body.Returns? && s.signalInEndHook) then SignalAfterSettling
           else Through(body);
  }
}
