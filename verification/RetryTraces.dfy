/** What metric hooks and attempt observers can see of a whole run. */
module RetryTraces {
  import opened Basics
  import opened Retry
  import opened RetryAgreement

  function EventOf(item: Item): seq<Event> { if item.Emitted? then [item.event] else [] }

  /** The emitted events of a trace, in order. */
  function Events(trace: seq<Item>): seq<Event> {
    if trace == [] then []
    else EventOf(trace[0]) + Events(trace[1..])
  }

  function HookOf(item: Item): seq<Item> { if item.Started? || item.Ended? then [item] else [] }

  /** The attempt hooks of a trace, in order. */
  function Hooks(trace: seq<Item>): seq<Item> {
    if trace == [] then []
    else HookOf(trace[0]) + Hooks(trace[1..])
  }

  function TokenOf(item: Item): seq<real> { if item.Token? then [item.at] else [] }

  /** The readings at which a trace consumed budget tokens. */
  function Tokens(trace: seq<Item>): seq<real> {
    if trace == [] then []
    else TokenOf(trace[0]) + Tokens(trace[1..])
  }

  function CountInvoked(trace: seq<Item>): nat {
    if trace == [] then 0 else (if trace[0].Invoked? then 1 else 0) + CountInvoked(trace[1..])
  }

  function CountRetries(events: seq<Event>): nat {
    if events == [] then 0 else (if events[0].name == RETRY then 1 else 0) + CountRetries(events[1..])
  }

  lemma {:induction false} SplitEvents(a: seq<Item>, b: seq<Item>)
    ensures Events(a + b) == Events(a) + Events(b)
  {
    hide EventOf;
    if a == [] {
      assert a + b == b;
    } else {
      assert (a + b)[1..] == a[1..] + b;
      SplitEvents(a[1..], b);
      assert EventOf(a[0]) + (Events(a[1..]) + Events(b)) == Events(a) + Events(b);
    }
  }

  lemma {:induction false} SplitHooks(a: seq<Item>, b: seq<Item>)
    ensures Hooks(a + b) == Hooks(a) + Hooks(b)
  {
    hide HookOf;
    if a == [] {
      assert a + b == b;
    } else {
      assert (a + b)[1..] == a[1..] + b;
      SplitHooks(a[1..], b);
      assert HookOf(a[0]) + (Hooks(a[1..]) + Hooks(b)) == Hooks(a) + Hooks(b);
    }
  }

  lemma {:induction false} SplitTokens(a: seq<Item>, b: seq<Item>)
    ensures Tokens(a + b) == Tokens(a) + Tokens(b)
  {
    hide TokenOf;
    if a == [] {
      assert a + b == b;
    } else {
      assert (a + b)[1..] == a[1..] + b;
      SplitTokens(a[1..], b);
      assert TokenOf(a[0]) + (Tokens(a[1..]) + Tokens(b)) == Tokens(a) + Tokens(b);
    }
  }

  lemma {:induction false} SplitInvoked(a: seq<Item>, b: seq<Item>)
    ensures CountInvoked(a + b) == CountInvoked(a) + CountInvoked(b)
  {
    if a == [] {
      assert a + b == b;
    } else {
      assert (a + b)[1..] == a[1..] + b;
      SplitInvoked(a[1..], b);
    }
  }

  lemma Split(a: seq<Item>, b: seq<Item>)
    ensures Events(a + b) == Events(a) + Events(b)
    ensures Hooks(a + b) == Hooks(a) + Hooks(b)
    ensures Tokens(a + b) == Tokens(a) + Tokens(b)
    ensures CountInvoked(a + b) == CountInvoked(a) + CountInvoked(b)
  {
    hide *;
    SplitEvents(a, b);
    SplitHooks(a, b);
    SplitTokens(a, b);
    SplitInvoked(a, b);
  }

  lemma Nothing()
    ensures Events([]) == [] && Hooks([]) == [] && Tokens([]) == [] && CountInvoked([]) == 0
  {
  }

  lemma One(item: Item)
    ensures Events([item]) == if item.Emitted? then [item.event] else []
    ensures Hooks([item]) == if item.Started? || item.Ended? then [item] else []
    ensures Tokens([item]) == if item.Token? then [item.at] else []
    ensures CountInvoked([item]) == if item.Invoked? then 1 else 0
  {
    assert [item][1..] == [];
  }

  lemma Two(x: Item, y: Item)
    ensures Events([x, y]) == Events([x]) + Events([y])
    ensures Hooks([x, y]) == Hooks([x]) + Hooks([y])
    ensures Tokens([x, y]) == Tokens([x]) + Tokens([y])
    ensures CountInvoked([x, y]) == CountInvoked([x]) + CountInvoked([y])
  {
    assert [x, y] == [x] + [y];
    Split([x], [y]);
  }

  // ---------------------------------------------------------------- one attempt

  /** The terminal event of an attempt that ends a run. */
  function Terminal(n: nat, e: AttemptEnd): seq<Event> {
    match e
    case Succeeded(_) => [Event(SUCCESS, n, 0.0, None, None)]
    case Refused(f, stop) => [Event(stop.name, n, 0.0, Some(f.klass), Some(stop.reason))]
    case Overslept(f, _) => [Event(DEADLINE_PASSED, n, 0.0, Some(f.klass), Some(DEADLINE_EXCEEDED))]
    case Deferred(f, delay) => [Event(RETRY_SCHEDULED, n, delay, Some(f.klass), Some(SCHEDULED))]
    case NotStarted => [Event(RETRY_ABORTED, n - 1, 0.0, None, Some(ABORTED))]
    case AbortedByOperation => [Event(RETRY_ABORTED, n, 0.0, None, Some(ABORTED))]
    case AbortedOnFailure(_) => [Event(RETRY_ABORTED, n, 0.0, None, Some(ABORTED))]
    case AbortedOnRetry(_, _) => [Event(RETRY_ABORTED, n, 0.0, None, Some(ABORTED))]
    case AbortedBySleepHandler(_, _) => [Event(RETRY_ABORTED, n, 0.0, None, Some(ABORTED))]
    case _ => []
  }

  function Announced(n: nat, e: AttemptEnd): seq<Event> {
    if HasPlan(e) then [Event(RETRY, n, e.delay, Some(e.failure.klass), None)] else []
  }

  function Spent(p: RetryPolicy, s: Script, e: AttemptEnd): seq<real> {
    if HasPlan(e) && p.hasBudget then [s.budgetAt] else []
  }

  lemma PlannedSeen(p: RetryPolicy, n: nat, s: Script, f: Failure, delay: real)
    ensures var t := Planned(p, n, s, f, delay);
            && Events(t) == [Event(RETRY, n, delay, Some(f.klass), None)]
            && Hooks(t) == [] && CountInvoked(t) == 0
            && Tokens(t) == if p.hasBudget then [s.budgetAt] else []
  {
    var announce := Emitted(Event(RETRY, n, delay, Some(f.klass), None));
    One(announce);
    if p.hasBudget {
      One(Token(s.budgetAt));
      Split([Token(s.budgetAt)], [announce]);
    } else {
      assert Planned(p, n, s, f, delay) == [announce];
    }
  }

  lemma PlanWorkSeen(n: nat, e: AttemptEnd)
    requires HasPlan(e)
    ensures var t := PlanWork(n, e);
            Events(t) == Terminal(n, e) && Hooks(t) == [] && CountInvoked(t) == 0 && Tokens(t) == []
  {
    hide Events, Hooks, Tokens, CountInvoked;
    var t := PlanWork(n, e);
    Nothing();
    if |t| == 1 { One(t[0]); assert t == [t[0]]; }
    if |t| == 2 { One(t[0]); One(t[1]); Two(t[0], t[1]); assert t == [t[0], t[1]]; }
  }

  lemma WorkSeen(p: RetryPolicy, n: nat, s: Script, e: AttemptEnd)
    requires !e.Succeeded? && !e.AbortedByOperation? && !e.NotStarted?
    ensures var t := Work(p, n, s, e);
            && Events(t) == Announced(n, e) + Terminal(n, e)
            && Hooks(t) == [] && CountInvoked(t) == 0 && Tokens(t) == Spent(p, s, e)
  {
    var t := Work(p, n, s, e);
    if HasPlan(e) {
      hide Planned, PlanWork, Events, Hooks, Tokens, CountInvoked;
      PlannedSeen(p, n, s, e.failure, e.delay);
      PlanWorkSeen(n, e);
      Split(Planned(p, n, s, e.failure, e.delay), PlanWork(n, e));
    } else if |t| == 1 {
      One(t[0]);
    }
  }

  lemma EndHookSeen(n: nat, e: AttemptEnd, style: Style)
    ensures var t := EndHook(n, e, style);
            && Events(t) == [] && Hooks(t) == t && CountInvoked(t) == 0 && Tokens(t) == []
  {
    if EndHookRuns(e, style) { One(Ended(n, DecisionOf(e), StopOf(e))); }
  }

  lemma AftermathSeen(p: RetryPolicy, n: nat, s: Script, e: AttemptEnd, style: Style)
    requires !e.NotStarted?
    ensures var t := Aftermath(p, n, s, e, style);
            && Events(t) == Announced(n, e) + Terminal(n, e)
            && Hooks(t) == EndHook(n, e, style) && CountInvoked(t) == 0 && Tokens(t) == Spent(p, s, e)
  {
    hide Work, EndHook, Events, Hooks, Tokens, CountInvoked;
    EndHookSeen(n, e, style);
    if e.Succeeded? {
      One(Emitted(Event(SUCCESS, n, 0.0, None, None)));
      Split([Emitted(Event(SUCCESS, n, 0.0, None, None))], EndHook(n, e, style));
    } else if e.AbortedByOperation? {
      One(Aborted(n));
      Split(EndHook(n, e, style), [Aborted(n)]);
    } else {
      WorkSeen(p, n, s, e);
      Split(Work(p, n, s, e), EndHook(n, e, style));
    }
  }

  lemma StartSeen(n: nat)
    ensures var t := [Started(n), Invoked(n)];
            Events(t) == [] && Hooks(t) == [Started(n)] && Tokens(t) == [] && CountInvoked(t) == 1
  {
    hide Events, Hooks, Tokens, CountInvoked;
    One(Started(n));
    One(Invoked(n));
    Two(Started(n), Invoked(n));
  }

  lemma AttemptSeen(p: RetryPolicy, n: nat, s: Script, e: AttemptEnd, style: Style)
    requires n >= 1
    ensures var t := AttemptTrace(p, n, s, e, style);
            && Events(t) == Announced(n, e) + Terminal(n, e)
            && Hooks(t) == (if e.NotStarted? then [] else [Started(n)] + EndHook(n, e, style))
            && CountInvoked(t) == (if e.NotStarted? then 0 else 1)
            && Tokens(t) == Spent(p, s, e)
  {
    hide Aftermath, EndHook, Events, Hooks, Tokens, CountInvoked;
    if e.NotStarted? {
      One(Aborted(n - 1));
    } else {
      StartSeen(n);
      AftermathSeen(p, n, s, e, style);
      Split([Started(n), Invoked(n)], Aftermath(p, n, s, e, style));
    }
  }

  // ---------------------------------------------------------------- the retried attempts

  function RetryEvents(past: seq<Slot>): seq<Event> {
    seq(|past|, i requires 0 <= i < |past| =>
                  Event(RETRY, i + 1, past[i].delay, Some(past[i].failure.klass), None))
  }

  function RetryHooks(k: nat): seq<Item> {
    if k == 0 then [] else RetryHooks(k - 1) + [Started(k), Ended(k, DoneRetry, None)]
  }

  function RetryTokens(p: RetryPolicy, env: Env, k: nat): seq<real> {
    if !p.hasBudget then [] else seq(k, i requires 0 <= i => env(i + 1).budgetAt)
  }

  lemma {:induction false} PastSeen(p: RetryPolicy, env: Env, past: seq<Slot>)
    ensures var t := PastTrace(p, env, past);
            && Events(t) == RetryEvents(past)
            && Hooks(t) == RetryHooks(|past|)
            && CountInvoked(t) == |past|
            && Tokens(t) == RetryTokens(p, env, |past|)
  {
    hide AttemptTrace, Events, Hooks, Tokens, CountInvoked;
    if past == [] {
      Nothing();
    } else {
      var n := |past|;
      var init, slot := past[..n - 1], past[n - 1];
      var e := Again(slot.failure, slot.delay);
      PastSeen(p, env, init);
      AttemptSeen(p, n, env(n), e, Execute);
      Split(PastTrace(p, env, init), AttemptTrace(p, n, env(n), e, Execute));
      assert RetryEvents(past) == RetryEvents(init) + Announced(n, e);
      assert RetryTokens(p, env, n) == RetryTokens(p, env, n - 1) + Spent(p, env(n), e);
    }
  }

  lemma TraceSeen(p: RetryPolicy, env: Env, r: Ending, style: Style)
    ensures var t, n := Trace(p, env, r, style), |r.past| + 1;
            && Events(t) == RetryEvents(r.past) + Announced(n, r.last) + Terminal(n, r.last)
            && Hooks(t) == RetryHooks(|r.past|)
                           + (if r.last.NotStarted? then [] else [Started(n)] + EndHook(n, r.last, style))
            && CountInvoked(t) == Invocations(r)
            && Tokens(t) == RetryTokens(p, env, |r.past|) + Spent(p, env(n), r.last)
  {
    hide AttemptTrace, PastTrace, Events, Hooks, Tokens, CountInvoked, RetryEvents, Announced, Terminal, Spent, RetryTokens, RetryHooks;
    var n := |r.past| + 1;
    PastSeen(p, env, r.past);
    AttemptSeen(p, n, env(n), r.last, style);
    Split(PastTrace(p, env, r.past), AttemptTrace(p, n, env(n), r.last, style));
  }

  // ---------------------------------------------------------------- main results

  /**
   * The event trace of every run that returns an outcome is retry@1 .. retry@k and then exactly
   * one terminal event, at attempt k or k + 1: the number of attempts the outcome reports, which
   * is the number of invocations.  The terminal event carries the outcome's stop reason, none
   * exactly on success.
   */
  lemma TraceGrammar(p: RetryPolicy, start: real, env: Env, style: Style)
    requires p.maxAttempts >= 1 && ExecuteView(Run(p, start, env)).Returns?
    ensures var trace := Trace(p, env, Run(p, start, env), style);
            var outcome := ExecuteView(Run(p, start, env)).outcome;
            var events := Events(trace);
            && |events| >= 1
            && var k := |events| - 1;
               && (forall i :: 0 <= i < k ==> events[i].name == RETRY && events[i].attempt == i + 1)
               && events[k].name != RETRY
               && events[k].attempt == outcome.attempts == CountInvoked(trace)
               && (outcome.attempts == k || outcome.attempts == k + 1)
               && events[k].stop == outcome.stop
               && (outcome.stop.None? <==> outcome.ok) && (outcome.ok <==> events[k].name == SUCCESS)
  {
    hide FirstStop, JudgeFailure, RunFrom, Trace, Terminal, Events, Hooks, Tokens, CountInvoked;
    var r := Run(p, start, env);
    RunEnds(p, start, env, []);
    TraceSeen(p, env, r, style);
    TerminalIsFinal(p, start, env, r);
  }

  lemma TerminalIsFinal(p: RetryPolicy, start: real, env: Env, r: Ending)
    requires r.last == Judge(p, start, r.past, env(|r.past| + 1)) && !r.last.Again?
    requires ExecuteView(r).Returns?
    ensures var n, outcome := |r.past| + 1, ExecuteView(r).outcome;
            var terminal := Terminal(n, r.last);
            && |terminal| == 1 && terminal[0].name != RETRY
            && terminal[0].attempt == outcome.attempts && terminal[0].stop == outcome.stop
            && (outcome.stop.None? <==> outcome.ok)
            && (outcome.ok <==> terminal[0].name == SUCCESS)
  {
    hide FirstStop, Delay;
    var s := env(|r.past| + 1);
    if FailureOf(s.op).Some? {
      StopsAreFinal(p, start, r.past, FailureOf(s.op).value.klass, s);
    }
  }

  /** The decision an outcome stands for. */
  function DecisionFor(o: Outcome): AttemptDecision {
    if o.ok then DoneOk
    else if o.stop == Some(ABORTED) then DoneAborted
    else if o.stop == Some(SCHEDULED) then DoneScheduled
    else DoneRaise
  }

  /**
   * In every run of `execute` that returns, attempt hooks come in pairs with matching numbers, all
   * but the last say RETRY, and the last one says what the outcome says - unless an abort before
   * the next attempt leaves a RETRY last.
   */
  lemma ObserversPaired(p: RetryPolicy, start: real, env: Env)
    requires p.maxAttempts >= 1 && ExecuteView(Run(p, start, env)).Returns?
    ensures var r := Run(p, start, env);
            var o := ExecuteView(r).outcome;
            var k := |r.past|;
            Hooks(Trace(p, env, r, Execute))
            == RetryHooks(k)
               + (if o.attempts == k then [] else [Started(k + 1), Ended(k + 1, DecisionFor(o), o.stop)])
            && (o.attempts == k || o.attempts == k + 1)
            && (o.attempts == k ==> o.stop == Some(ABORTED))
  {
    hide FirstStop, JudgeFailure, RunFrom, Trace, Terminal, EndHook, Events, Hooks, Tokens, CountInvoked;
    var r := Run(p, start, env);
    RunEnds(p, start, env, []);
    TraceSeen(p, env, r, Execute);
    if !r.last.NotStarted? {
      DecisionMatches(p, start, env, r);
    }
  }

  lemma DecisionMatches(p: RetryPolicy, start: real, env: Env, r: Ending)
    requires r.last == Judge(p, start, r.past, env(|r.past| + 1)) && !r.last.Again?
    requires ExecuteView(r).Returns? && !r.last.NotStarted?
    ensures var o := ExecuteView(r).outcome;
            EndHook(|r.past| + 1, r.last, Execute) == [Ended(|r.past| + 1, DecisionFor(o), o.stop)]
  {
    hide FirstStop, Delay;
    var s := env(|r.past| + 1);
    if FailureOf(s.op).Some? {
      StopsAreFinal(p, start, r.past, FailureOf(s.op).value.klass, s);
    }
  }

  // ---------------------------------------------------------------- tokens

  lemma {:induction false} CountRetriesConcat(a: seq<Event>, b: seq<Event>)
    ensures CountRetries(a + b) == CountRetries(a) + CountRetries(b)
  {
    if a == [] {
      assert a + b == b;
    } else {
      assert (a + b)[1..] == a[1..] + b;
      CountRetriesConcat(a[1..], b);
    }
  }

  lemma {:induction false} CountRetriesAll(events: seq<Event>)
    requires forall i :: 0 <= i < |events| ==> events[i].name == RETRY
    ensures CountRetries(events) == |events|
  {
    if events != [] {
      assert forall i :: 0 <= i < |events| - 1 ==> events[1..][i] == events[i + 1];
      CountRetriesAll(events[1..]);
    }
  }

  /** The retries a run announces: one for each retried attempt, and one if the last was planned. */
  lemma RetriesOf(p: RetryPolicy, start: real, env: Env, style: Style)
    requires p.maxAttempts >= 1
    ensures var r := Run(p, start, env);
            && CountRetries(Events(Trace(p, env, r, style))) == |r.past| + (if HasPlan(r.last) then 1 else 0)
            && |r.past| + (if HasPlan(r.last) then 1 else 0) <= p.maxAttempts - 1
  {
    hide FirstStop, RunFrom, Trace, Delay, Terminal, Events, Hooks, Tokens, CountInvoked;
    var r := Run(p, start, env);
    var n := |r.past| + 1;
    RunEnds(p, start, env, []);
    PlanLeavesRoom(p, start, r.past, env(n));
    TraceSeen(p, env, r, style);
    var retries, announced, terminal := RetryEvents(r.past), Announced(n, r.last), Terminal(n, r.last);
    CountRetriesConcat(retries + announced, terminal);
    CountRetriesConcat(retries, announced);
    CountRetriesAll(retries);
    CountRetriesAll(announced);
    TerminalsAreNotRetries(p, start, env, r);
  }

  lemma TerminalsAreNotRetries(p: RetryPolicy, start: real, env: Env, r: Ending)
    requires r.last == Judge(p, start, r.past, env(|r.past| + 1))
    ensures CountRetries(Terminal(|r.past| + 1, r.last)) == 0
  {
    hide FirstStop, Delay;
    var s := env(|r.past| + 1);
    if FailureOf(s.op).Some? {
      StopsAreFinal(p, start, r.past, FailureOf(s.op).value.klass, s);
    }
    var t := Terminal(|r.past| + 1, r.last);
    if |t| == 1 { assert t[1..] == []; }
  }

  /** A retry is planned only when another attempt is allowed. */
  lemma PlanLeavesRoom(p: RetryPolicy, start: real, past: seq<Slot>, s: Script)
    ensures HasPlan(Judge(p, start, past, s)) ==> |past| + 1 < p.maxAttempts
  {
    hide CountClass;
  }

  /**
   * With a budget, a run consumes exactly one token per retry event: at least one per invocation
   * but the first, and at most one per attempt but the last allowed.
   */
  lemma TokensPerRun(p: RetryPolicy, start: real, env: Env, style: Style)
    requires p.maxAttempts >= 1
    ensures var trace := Trace(p, env, Run(p, start, env), style);
            && (p.hasBudget ==> |Tokens(trace)| == CountRetries(Events(trace)))
            && (!p.hasBudget ==> Tokens(trace) == [])
            && CountInvoked(trace) - 1 <= CountRetries(Events(trace)) <= p.maxAttempts - 1
  {
    hide Judge, RunFrom, Trace, Terminal, Events, Hooks, Tokens, CountInvoked;
    var r := Run(p, start, env);
    TraceSeen(p, env, r, style);
    RetriesOf(p, start, env, style);
  }
}
