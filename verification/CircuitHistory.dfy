/** What a breaker's events look like over a whole run, and how long it stays shut. */
module CircuitHistory {
  import opened Basics
  import opened Circuit

  /** The events of a run other than rejections, in order. */
  function Transitions(cfg: Config, steps: seq<Step>): seq<Event> {
    if steps == [] then []
    else
      var e := Apply(cfg, Run(cfg, steps[..|steps| - 1]), steps[|steps| - 1]);
      Transitions(cfg, steps[..|steps| - 1])
      + (if e.event.Some? && e.event.value != Rejected then [e.event.value] else [])
  }

  /** One outage: opened, probed, reopened and probed again any number of times. */
  function Outage(reopenings: nat): seq<Event> {
    if reopenings == 0 then [Opened, HalfOpened]
    else Outage(reopenings - 1) + [Opened, HalfOpened]
  }

  /** A history of outages that each ended with the breaker closed. */
  function Outages(reopenings: seq<nat>): seq<Event> {
    if reopenings == [] then []
    else Outages(reopenings[..|reopenings| - 1]) + Outage(reopenings[|reopenings| - 1]) + [Reclosed]
  }

  /** What would bring the breaker back to closed. */
  function Ending(state: CircuitState): seq<Event> {
    match state
    case Closed => []
    case HalfOpen => [Reclosed]
    case Open => [HalfOpened, Reclosed]
  }

  /** `past` describes the outages a trace has seen; the last one may be unfinished. */
  ghost predicate Reads(trace: seq<Event>, state: CircuitState, past: seq<nat>) {
    && trace + Ending(state) == Outages(past)
    && (state != Closed ==> past != [])
  }

  lemma Extend(trace: seq<Event>, past: seq<nat>, k: nat)
    ensures Outages(past + [k]) == Outages(past) + Outage(k) + [Reclosed]
  {
    assert (past + [k])[..|past|] == past;
  }

  /** Which event goes with which change of state. */
  lemma EventsMoveState(cfg: Config, b: Breaker, step: Step)
    ensures var e := Apply(cfg, b, step);
            match e.event
            case Some(Opened) => b.state != Open && e.after.state == Open
            case Some(HalfOpened) => b.state == Open && e.after.state == HalfOpen
            case Some(Reclosed) => b.state == HalfOpen && e.after.state == Closed
            case _ => e.after.state == b.state
  {
  }

  lemma ReadsOpened(trace: seq<Event>, past: seq<nat>)
    requires Reads(trace, Closed, past)
    ensures Reads(trace + [Opened], Open, past + [0])
  {
    Extend(trace, past, 0);
    assert trace + [] == trace;
    assert trace + [Opened] + [HalfOpened, Reclosed] == trace + Outage(0) + [Reclosed];
  }

  lemma ReadsReopened(trace: seq<Event>, init: seq<nat>, k: nat)
    requires Reads(trace, HalfOpen, init + [k])
    ensures Reads(trace + [Opened], Open, init + [k + 1])
  {
    Extend(trace, init, k);
    Extend(trace, init, k + 1);
    assert trace == (trace + [Reclosed])[..|trace|];
    assert trace == Outages(init) + Outage(k);
    assert trace + [Opened] + [HalfOpened, Reclosed]
        == Outages(init) + (Outage(k) + [Opened, HalfOpened]) + [Reclosed];
  }

  lemma ReadsStep(cfg: Config, b: Breaker, step: Step, trace: seq<Event>, past: seq<nat>)
    returns (past': seq<nat>)
    requires Reads(trace, b.state, past)
    ensures var e := Apply(cfg, b, step);
            Reads(trace + (if e.event.Some? && e.event.value != Rejected then [e.event.value] else []),
                  e.after.state, past')
  {
    hide Apply, Outages;
    EventsMoveState(cfg, b, step);
    var e := Apply(cfg, b, step);
    past' := past;
    if e.event == Some(Opened) {
      if b.state == Closed {
        past' := past + [0];
        ReadsOpened(trace, past);
      } else {
        var init, k := past[..|past| - 1], past[|past| - 1];
        past' := init + [k + 1];
        assert past == init + [k];
        ReadsReopened(trace, init, k);
      }
    } else if e.event == Some(HalfOpened) {
      assert trace + [HalfOpened] + [Reclosed] == trace + [HalfOpened, Reclosed];
    } else if e.event == Some(Reclosed) {
      assert trace + [Reclosed] + [] == trace + [Reclosed];
    } else {
      assert trace + [] == trace;
    }
  }

  /**
   * Every trace is a beginning of a history of outages, and completing it as its final state
   * suggests ends one: opened half_open (opened half_open)* closed, any number of times.
   */
  lemma {:induction false} TraceIsOutages(cfg: Config, steps: seq<Step>) returns (past: seq<nat>)
    ensures Transitions(cfg, steps) + Ending(Run(cfg, steps).state) == Outages(past)
    ensures Reads(Transitions(cfg, steps), Run(cfg, steps).state, past)
  {
    if steps == [] {
      past := [];
    } else {
      var init, step := steps[..|steps| - 1], steps[|steps| - 1];
      var before := TraceIsOutages(cfg, init);
      past := ReadsStep(cfg, Run(cfg, init), step, Transitions(cfg, init), before);
    }
  }

  function CountEvents(trace: seq<Event>, event: Event): nat {
    if trace == [] then 0
    else CountEvents(trace[..|trace| - 1], event) + (if trace[|trace| - 1] == event then 1 else 0)
  }

  lemma CountSnoc(trace: seq<Event>, last: Event, event: Event)
    ensures CountEvents(trace + [last], event) == CountEvents(trace, event) + (if last == event then 1 else 0)
  {
    assert (trace + [last])[..|trace|] == trace;
  }

  lemma GenerationStep(cfg: Config, b: Breaker, step: Step)
    ensures var e := Apply(cfg, b, step);
            e.after.generation
            == b.generation + (if e.event == Some(Opened) || e.event == Some(Reclosed) then 1 else 0)
  {
  }

  /** The generation counts exactly the changes between protecting and not protecting. */
  lemma {:induction false} GenerationCountsChanges(cfg: Config, steps: seq<Step>)
    ensures var trace := Transitions(cfg, steps);
            Run(cfg, steps).generation == CountEvents(trace, Opened) + CountEvents(trace, Reclosed)
  {
    if steps != [] {
      var init, step := steps[..|steps| - 1], steps[|steps| - 1];
      var event := Apply(cfg, Run(cfg, init), step).event;
      var trace := Transitions(cfg, init);
      GenerationCountsChanges(cfg, init);
      GenerationStep(cfg, Run(cfg, init), step);
      if event.Some? && event.value != Rejected {
        CountSnoc(trace, event.value, Opened);
        CountSnoc(trace, event.value, Reclosed);
      } else {
        assert trace + [] == trace;
      }
    }
  }

  // ---------------------------------------------------------------- recovery time

  /** The reading an opening failure was stamped with. */
  function FailureReading(step: Step): Option<real> {
    match step
    case Complete(_, Failure(_), now) => Some(now)
    case RecordFailure(_, now) => Some(now)
    case _ => None
  }

  lemma OpenUntilAdmitted(cfg: Config, b: Breaker, step: Step, t: real)
    requires Inv(b) && b.state == Open && b.openedAt == Some(t)
    ensures var e := Apply(cfg, b, step);
            if e.admitted.Some? then step.Allow? && step.now - t >= cfg.recoveryS
            else e.after.state == Open && e.after.openedAt == Some(t)
  {
    if step.Complete? {
      assert !Live(b, step.id);
    }
  }

  lemma {:induction false} OpenWhileUnadmitted(cfg: Config, steps: seq<Step>, i: nat, j: nat, t: real)
    requires i < j <= |steps|
    requires EffectAt(cfg, steps, i).event == Some(Opened) && FailureReading(steps[i]) == Some(t)
    requires forall m :: i < m < j ==> EffectAt(cfg, steps, m).admitted.None?
    ensures Run(cfg, steps[..j]).state == Open && Run(cfg, steps[..j]).openedAt == Some(t)
    decreases j
  {
    var before := steps[..j - 1];
    assert steps[..j][..j - 1] == before;
    InvRun(cfg, before);
    if j > i + 1 {
      OpenWhileUnadmitted(cfg, steps, i, j - 1, t);
      assert EffectAt(cfg, steps, j - 1).admitted.None?;
      OpenUntilAdmitted(cfg, Run(cfg, before), steps[j - 1], t);
    }
  }

  /**
   * After a failure read at t opens the breaker, the next admission is granted only to a caller
   * whose own reading is at least the recovery time later.
   */
  lemma RecoveryTimeRespected(cfg: Config, steps: seq<Step>, i: nat, j: nat)
    requires i < j < |steps|
    requires EffectAt(cfg, steps, i).event == Some(Opened)
    requires EffectAt(cfg, steps, j).admitted.Some?
    requires forall m :: i < m < j ==> EffectAt(cfg, steps, m).admitted.None?
    ensures FailureReading(steps[i]).Some? && steps[j].Allow?
    ensures steps[j].now - FailureReading(steps[i]).value >= cfg.recoveryS
  {
    OpenWhileUnadmitted(cfg, steps, i, j, FailureReading(steps[i]).value);
    InvRun(cfg, steps[..j]);
    OpenUntilAdmitted(cfg, Run(cfg, steps[..j]), steps[j], FailureReading(steps[i]).value);
  }
}
