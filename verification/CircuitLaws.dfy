/**
 * What counts with a breaker, said on its fields: which callers are let in, which completions reach
 * the state machine and what they do there.
 */
module CircuitLaws {
  import opened Basics
  import opened RollingWindow
  import opened Circuit
  import opened CircuitErasure
  import opened CircuitTripping

  // ---------------------------------------------------------------- one step

  /** An admission nobody has completed, of the current generation and, while HALF_OPEN, the probe. */
  predicate Current(b: Breaker, id: nat) {
    && id < |b.issued|
    && b.issued[id] == Admission(b.generation, false)
    && (b.state == HalfOpen ==> b.probe == Some(id))
  }

  /** The manual call that reports the same outcome. */
  function ByHand(outcome: Outcome, now: real): Step {
    match outcome
    case Success => RecordSuccess
    case Failure(k) => RecordFailure(k, now)
    case Cancel => RecordCancel
  }

  /** Completing a current admission does what reporting by hand does; completing any other, nothing. */
  lemma CompletionExactly(cfg: Config, b: Breaker, id: nat, outcome: Outcome, now: real)
    ensures Seen(Apply(cfg, b, Complete(id, outcome, now)))
         == if Current(b, id) then Seen(Apply(cfg, b, ByHand(outcome, now)))
            else Observation(CoreOf(b), None, None)
  {
  }

  /**
   * Who is let in: everyone while CLOSED; while OPEN, from the recovery time on; while HALF_OPEN,
   * only when no probe is out.  Whoever is let in from OPEN or HALF_OPEN is the probe.
   */
  lemma AllowExactly(cfg: Config, b: Breaker, now: real)
    requires Inv(b)
    ensures var e := Apply(cfg, b, Allow(now));
            && (e.admitted.Some? <==> match b.state
                  case Closed => true
                  case Open => now - b.openedAt.value >= cfg.recoveryS
                  case HalfOpen => b.probe.None?)
            && (e.admitted.Some? ==>
                  && Current(e.after, e.admitted.value) && e.admitted == Some(|b.issued|)
                  && (b.state != Closed ==> e.after.state == HalfOpen && e.after.probe == e.admitted))
            && (e.admitted.None? ==> e.after == b)
            && e.event == (if e.admitted.None? then Some(Rejected)
                           else if b.state == Open then Some(HalfOpened) else None)
  {
  }

  /** A HALF_OPEN breaker opens again on a failure of any class, counted or not. */
  lemma HalfOpenFailureReopens(cfg: Config, b: Breaker, k: ErrorClass, now: real)
    requires b.state == HalfOpen
    ensures var e := Apply(cfg, b, RecordFailure(k, now));
            && e.event == Some(Opened) && e.after.state == Open && e.after.openedAt == Some(now)
            && e.after.probe.None? && e.after.generation == b.generation + 1
            && WindowsEmpty(e.after)
  {
  }

  /** The state in which a probe leaves the breaker when nobody else steps in. */
  ghost predicate DecidedBy(b: Breaker, outcome: Outcome) {
    match outcome
    case Success => b.state == Closed && b.probe.None?
    case Failure(_) => b.state == Open && b.probe.None?
    case Cancel => b.state == HalfOpen && b.probe.None?
  }

  /** The breaker lets the next caller in as its probe. */
  predicate ReadyToProbe(cfg: Config, b: Breaker, now: real) {
    match b.state
    case Closed => false
    case Open => b.openedAt.Some? && now - b.openedAt.value >= cfg.recoveryS
    case HalfOpen => b.probe.None?
  }

  /** Success closes, a failure of any class reopens, and a cancelled probe makes room for another. */
  lemma ProbeDecides(cfg: Config, b: Breaker, now: real, outcome: Outcome, later: real)
    requires Inv(b) && ReadyToProbe(cfg, b, now)
    ensures DecidedBy(Next(cfg, Next(cfg, b, Allow(now)), Complete(|b.issued|, outcome, later)), outcome)
  {
    AllowExactly(cfg, b, now);
    CompletionExactly(cfg, Next(cfg, b, Allow(now)), |b.issued|, outcome, later);
  }

  // ---------------------------------------------------------------- enough failures open

  /** The reading of a failure that counts while CLOSED. */
  function CountedAt(cfg: Config, b: Breaker, step: Step): Option<real> {
    match step
    case RecordFailure(k, now) => if k in cfg.tripOn then Some(now) else None
    case Complete(id, Failure(k), now) => if Current(b, id) && k in cfg.tripOn then Some(now) else None
    case _ => None
  }

  /** The readings of the failures a run counts from b on. */
  function CountedTimes(cfg: Config, b: Breaker, steps: seq<Step>): seq<real>
    decreases |steps|
  {
    if steps == [] then []
    else
      (if CountedAt(cfg, b, steps[0]).Some? then [CountedAt(cfg, b, steps[0]).value] else [])
      + CountedTimes(cfg, Next(cfg, b, steps[0]), steps[1..])
  }

  /** The breaker is CLOSED before, after and between these steps. */
  ghost predicate StaysClosed(cfg: Config, b: Breaker, steps: seq<Step>)
    decreases |steps|
  {
    b.state == Closed && (steps != [] ==> StaysClosed(cfg, Next(cfg, b, steps[0]), steps[1..]))
  }

  /** No two of these times are a window apart. */
  ghost predicate WithinWindow(cfg: Config, times: seq<real>) {
    forall s, t :: s in times && t in times ==> s - t < cfg.windowS
  }

  ghost predicate EndsWith(whole: seq<real>, end: seq<real>) {
    |end| <= |whole| && whole[|whole| - |end|..] == end
  }

  /** Times less than a window old are never pruned from the end of a queue. */
  lemma {:induction false} PruneKeepsEnd(window: seq<real>, end: seq<real>, cutoff: real)
    requires EndsWith(window, end) && forall i :: 0 <= i < |end| ==> end[i] > cutoff
    ensures EndsWith(Prune(window, Instant, cutoff), end)
  {
    if window != [] && Instant(window[0]) <= cutoff {
      var lead := |window| - |end|;
      assert |end| > 0 ==> end[0] == window[lead];
      assert window[1..][lead - 1..] == window[lead..];
      PruneKeepsEnd(window[1..], end, cutoff);
    }
  }

  lemma SlideKeepsEnd(cfg: Config, window: seq<real>, end: seq<real>, now: real)
    requires EndsWith(window, end) && WithinWindow(cfg, end + [now])
    ensures EndsWith(Slide(cfg, window, now), end + [now])
  {
    forall i | 0 <= i < |end| ensures end[i] > now - cfg.windowS {
      assert (end + [now])[i] in end + [now] && (end + [now])[|end|] in end + [now];
    }
    PruneKeepsEnd(window, end, now - cfg.windowS);
    var pruned := Prune(window, Instant, now - cfg.windowS);
    var slid := pruned + [now];
    assert slid[|slid| - |end| - 1..] == pruned[|pruned| - |end|..] + [now];
  }

  /** A step of a closed breaker that leaves it closed puts exactly the counted failure in its window. */
  lemma ClosedStep(cfg: Config, b: Breaker, step: Step)
    requires b.state == Closed && Next(cfg, b, step).state == Closed
    ensures var t := CountedAt(cfg, b, step);
            Next(cfg, b, step).failures == if t.Some? then Slide(cfg, b.failures, t.value) else b.failures
  {
    hide Slide;
  }

  /**
   * As long as a breaker stays CLOSED, in whatever interleaving, any failures it counts within one
   * window are fewer than the threshold.
   */
  lemma {:induction false} ClosedMeansFewFailures(cfg: Config, b: Breaker, steps: seq<Step>, seen: seq<real>)
    requires cfg.Valid() && Inv(b) && BelowThresholds(cfg, b) && StaysClosed(cfg, b, steps)
    requires EndsWith(b.failures, seen) && WithinWindow(cfg, seen + CountedTimes(cfg, b, steps))
    ensures |seen| + |CountedTimes(cfg, b, steps)| < cfg.failureThreshold
    decreases |steps|
  {
    hide Apply, BelowThresholds, Inv, Slide;
    if steps == [] {
      FewFailures(cfg, b);
    } else {
      var b', t := Next(cfg, b, steps[0]), CountedAt(cfg, b, steps[0]);
      var rest := CountedTimes(cfg, b', steps[1..]);
      ClosedStep(cfg, b, steps[0]);
      InvStep(cfg, b, steps[0]);
      BelowThresholdsStep(cfg, b, steps[0]);
      if t.Some? {
        assert seen + ([t.value] + rest) == (seen + [t.value]) + rest;
        WindowOfPrefix(cfg, seen + [t.value], rest);
        SlideKeepsEnd(cfg, b.failures, seen, t.value);
        ClosedMeansFewFailures(cfg, b', steps[1..], seen + [t.value]);
      } else {
        assert [] + rest == rest;
        ClosedMeansFewFailures(cfg, b', steps[1..], seen);
      }
    }
  }

  lemma FewFailures(cfg: Config, b: Breaker)
    requires BelowThresholds(cfg, b)
    ensures |b.failures| < cfg.failureThreshold
  {
  }

  /** These are completions, by different current admissions, of failures of classes that trip. */
  ghost predicate Failures(cfg: Config, b: Breaker, steps: seq<Step>) {
    && (forall i :: 0 <= i < |steps| ==> IsFailure(cfg, b, steps[i]))
    && (forall i, j :: 0 <= i < j < |steps| ==> steps[i].Complete? && steps[j].Complete? && steps[i].id != steps[j].id)
  }

  predicate IsFailure(cfg: Config, b: Breaker, step: Step) {
    step.Complete? && step.outcome.Failure? && step.outcome.klass in cfg.tripOn && Current(b, step.id)
  }

  function Readings(steps: seq<Step>): seq<real>
    requires forall i :: 0 <= i < |steps| ==> steps[i].Complete?
  {
    seq(|steps|, i requires 0 <= i < |steps| => steps[i].now)
  }

  /** Nothing an execution reports reaches an open breaker. */
  lemma {:induction false} OpenStaysOpen(cfg: Config, b: Breaker, steps: seq<Step>)
    requires Inv(b) && b.state == Open && forall i :: 0 <= i < |steps| ==> steps[i].Complete?
    ensures Last(cfg, b, steps).state == Open
    decreases |steps|
  {
    if steps != [] {
      CompletionExactly(cfg, b, steps[0].id, steps[0].outcome, steps[0].now);
      InvStep(cfg, b, steps[0]);
      OpenStaysOpen(cfg, Next(cfg, b, steps[0]), steps[1..]);
    }
  }

  /** While the breaker stays closed, completing one admission leaves the others current. */
  lemma OthersStayCurrent(cfg: Config, b: Breaker, step: Step, id: nat)
    requires step.Complete? && step.id != id && Current(b, id)
    requires b.state == Closed && Next(cfg, b, step).state == Closed
    ensures Current(Next(cfg, b, step), id)
  {
  }

  lemma ClosedOrOpen(cfg: Config, b: Breaker, step: Step)
    requires b.state == Closed && step.Complete?
    ensures Next(cfg, b, step).state == Closed || Next(cfg, b, step).state == Open
  {
  }

  lemma {:induction false} FailuresOpen(cfg: Config, b: Breaker, steps: seq<Step>, seen: seq<real>)
    requires cfg.Valid() && Inv(b) && BelowThresholds(cfg, b) && b.state == Closed
    requires Failures(cfg, b, steps) && EndsWith(b.failures, seen)
    requires WithinWindow(cfg, seen + Readings(steps)) && |seen| + |steps| >= cfg.failureThreshold
    ensures Last(cfg, b, steps).state == Open
    decreases |steps|
  {
    hide Apply, BelowThresholds, Inv, Slide, Current;
    FewFailures(cfg, b);
    assert |steps| > 0;
    var step, rest := steps[0], steps[1..];
    var b' := Next(cfg, b, step);
    assert IsFailure(cfg, b, step);
    InvStep(cfg, b, step);
    BelowThresholdsStep(cfg, b, step);
    ClosedOrOpen(cfg, b, step);
    forall i | 0 <= i < |rest| ensures rest[i].Complete? && rest[i] == steps[i + 1] {
      assert IsFailure(cfg, b, steps[i + 1]);
    }
    if b'.state == Open {
      OpenStaysOpen(cfg, b', rest);
    } else {
      ClosedStep(cfg, b, step);
      forall i | 0 <= i < |rest| ensures IsFailure(cfg, b', rest[i]) {
        assert IsFailure(cfg, b, steps[i + 1]) && steps[0].id != steps[i + 1].id;
        OthersStayCurrent(cfg, b, step, rest[i].id);
      }
      assert seen + Readings(steps) == (seen + [step.now]) + Readings(rest);
      WindowOfPrefix(cfg, seen + [step.now], Readings(rest));
      SlideKeepsEnd(cfg, b.failures, seen, step.now);
      FailuresOpen(cfg, b', rest, seen + [step.now]);
    }
  }

  lemma WindowOfPrefix(cfg: Config, a: seq<real>, b: seq<real>)
    requires WithinWindow(cfg, a + b)
    ensures WithinWindow(cfg, a)
  {
    forall s, t | s in a && t in a ensures s - t < cfg.windowS {
      assert s in a + b && t in a + b;
    }
  }

  /**
   * After any run that leaves the breaker CLOSED, as many executions as the threshold, let in since
   * it closed and failing within one window in classes that trip, leave it OPEN.
   */
  lemma ThresholdFailuresOpen(cfg: Config, before: seq<Step>, failures: seq<Step>)
    requires cfg.Valid() && Run(cfg, before).state == Closed
    requires Failures(cfg, Run(cfg, before), failures) && |failures| >= cfg.failureThreshold
    requires WithinWindow(cfg, Readings(failures))
    ensures Run(cfg, before + failures).state == Open
  {
    hide BelowThresholds;
    var b := Run(cfg, before);
    InvRun(cfg, before);
    WindowsBelowThresholds(cfg, before);
    assert b.failures[|b.failures|..] == [];
    assert [] + Readings(failures) == Readings(failures);
    FailuresOpen(cfg, b, failures, []);
    LastAfter(cfg, before, failures);
  }

  lemma {:induction false} LastAfter(cfg: Config, before: seq<Step>, steps: seq<Step>)
    ensures Run(cfg, before + steps) == Last(cfg, Run(cfg, before), steps)
    decreases |steps|
  {
    if steps == [] {
      assert before + steps == before;
    } else {
      var longer := before + [steps[0]];
      assert longer[..|before|] == before;
      assert longer + steps[1..] == before + steps;
      LastAfter(cfg, longer, steps[1..]);
    }
  }
}
