/**
 * Who owns the half-open probe.
 *
 * An execution performs `Allow`, and when admitted settles that admission; when it leaves without
 * having settled, its exit settles it as cancelled.  So an execution that has ended has a
 * `Complete` for its admission in the run.
 */
module CircuitOwnership {
  import opened Basics
  import opened Circuit
  import opened CircuitErasure

  /**
   * Whoever calls the public `record_cancel` does so while no probe is out.  Policy executions never
   * call it.
   */
  ghost predicate NoProbeCancelled(cfg: Config, steps: seq<Step>) {
    forall i :: 0 <= i < |steps| ==> CancelsNoProbe(cfg, steps, i)
  }

  ghost predicate CancelsNoProbe(cfg: Config, steps: seq<Step>, i: nat)
    requires i < |steps|
  {
    steps[i] == RecordCancel ==> Run(cfg, steps[..i]).probe.None?
  }

  /** The execution holding admission `id` has settled it, normally or on its way out. */
  ghost predicate Ended(cfg: Config, steps: seq<Step>, id: nat) {
    exists i :: EndsAt(cfg, steps, i, id)
  }

  ghost predicate EndsAt(cfg: Config, steps: seq<Step>, i: int, id: nat) {
    0 <= i < |steps| && steps[i].Complete? && steps[i].id == id && id < |Run(cfg, steps[..i]).issued|
  }

  /** Every admission of the current half-open period that is still out is the probe. */
  ghost predicate ProbeOnly(b: Breaker) {
    b.state == HalfOpen ==>
      forall id :: 0 <= id < |b.issued| && b.issued[id] == Admission(b.generation, false) ==>
        b.probe == Some(id)
  }

  lemma ProbeOnlyStep(cfg: Config, b: Breaker, step: Step)
    requires Inv(b) && ProbeOnly(b) && (step == RecordCancel ==> b.probe.None?)
    ensures ProbeOnly(Next(cfg, b, step))
  {
    var b' := Next(cfg, b, step);
    if b'.state == HalfOpen {
      forall id | 0 <= id < |b'.issued| && b'.issued[id] == Admission(b'.generation, false)
        ensures b'.probe == Some(id)
      {
        if id < |b.issued| {
          Monotone(cfg, b, step);
          assert b.issued[id].generation == b'.issued[id].generation;
        }
      }
    }
  }

  lemma CancelsOfPrefix(cfg: Config, steps: seq<Step>, k: nat)
    requires NoProbeCancelled(cfg, steps) && k <= |steps|
    ensures NoProbeCancelled(cfg, steps[..k])
  {
    forall i | 0 <= i < k ensures CancelsNoProbe(cfg, steps[..k], i) {
      assert CancelsNoProbe(cfg, steps, i);
      assert steps[..k][..i] == steps[..i];
    }
  }

  lemma {:induction false} ProbeOnlyRun(cfg: Config, steps: seq<Step>)
    requires NoProbeCancelled(cfg, steps)
    ensures ProbeOnly(Run(cfg, steps))
  {
    if steps != [] {
      var n := |steps| - 1;
      CancelsOfPrefix(cfg, steps, n);
      ProbeOnlyRun(cfg, steps[..n]);
      InvRun(cfg, steps[..n]);
      assert CancelsNoProbe(cfg, steps, n);
      ProbeOnlyStep(cfg, Run(cfg, steps[..n]), steps[n]);
    }
  }

  /**
   * In every state that policy executions can reach, and whoever else calls `record_success` or
   * `record_failure`, or `record_cancel` while no probe is out: while OPEN no admission carries the
   * current generation; while HALF_OPEN the only uncompleted one that does is the probe; and a
   * probe means HALF_OPEN and an execution that has not ended.
   */
  lemma ProbeUniqueness(cfg: Config, steps: seq<Step>)
    requires NoProbeCancelled(cfg, steps)
    ensures var b := Run(cfg, steps);
            && (b.state == Open ==> NoneCurrent(b))
            && ProbeOnly(b)
            && (b.probe.Some? ==> b.state == HalfOpen && !Ended(cfg, steps, b.probe.value))
  {
    InvRun(cfg, steps);
    ProbeOnlyRun(cfg, steps);
    if Run(cfg, steps).probe.Some? {
      EndedIsCompleted(cfg, steps, Run(cfg, steps).probe.value);
    }
  }

  /** Nothing but a probe is out while HALF_OPEN, all along the run. */
  ghost predicate ProbeOnlyThroughout(cfg: Config, steps: seq<Step>) {
    forall i :: 0 <= i <= |steps| ==> ProbeOnly(Run(cfg, steps[..i]))
  }

  /** Probe uniqueness holds all along a run exactly when nobody cancels by hand while a probe is out. */
  lemma ProbeUniquenessExactly(cfg: Config, steps: seq<Step>)
    ensures ProbeOnlyThroughout(cfg, steps) <==> NoProbeCancelled(cfg, steps)
  {
    if NoProbeCancelled(cfg, steps) {
      forall i | 0 <= i <= |steps| ensures ProbeOnly(Run(cfg, steps[..i])) {
        CancelsOfPrefix(cfg, steps, i);
        ProbeOnlyRun(cfg, steps[..i]);
      }
    }
    if ProbeOnlyThroughout(cfg, steps) {
      forall i | 0 <= i < |steps| ensures CancelsNoProbe(cfg, steps, i) {
        assert ProbeOnly(Run(cfg, steps[..i + 1]));
        assert steps[..i + 1][..i] == steps[..i];
        InvRun(cfg, steps[..i]);
        if steps[i] == RecordCancel && Run(cfg, steps[..i]).probe.Some? {
          CancelledProbeIsOut(cfg, Run(cfg, steps[..i]));
          assert false;
        }
      }
    }
  }

  /** A probe cancelled by hand is still out, and no longer the probe. */
  lemma CancelledProbeIsOut(cfg: Config, b: Breaker)
    requires Inv(b) && b.probe.Some?
    ensures !ProbeOnly(Next(cfg, b, RecordCancel))
  {
    var b' := Next(cfg, b, RecordCancel);
    assert b'.issued[b.probe.value] == Admission(b'.generation, false);
  }

  /** And the next caller is always let out beside it. */
  lemma ManualCancelAllowsSecondProbe(cfg: Config, b: Breaker, now: real)
    requires Inv(b) && b.probe.Some?
    ensures var cancelled := Next(cfg, b, RecordCancel);
            && Apply(cfg, cancelled, Allow(now)).admitted.Some?
            && !ProbeOnly(Next(cfg, cancelled, Allow(now)))
  {
    var b' := Next(cfg, Next(cfg, b, RecordCancel), Allow(now));
    assert b'.issued[b.probe.value] == Admission(b'.generation, false);
    assert b'.probe == Some(|b.issued|);
  }

  lemma CompletesAt(cfg: Config, b: Breaker, step: Step)
    requires step.Complete? && step.id < |b.issued|
    ensures step.id < |Next(cfg, b, step).issued| && Next(cfg, b, step).issued[step.id].completed
  {
  }

  lemma OnlyCompleteCompletes(cfg: Config, b: Breaker, step: Step, id: nat)
    requires id < |Next(cfg, b, step).issued| && Next(cfg, b, step).issued[id].completed
    requires id < |b.issued| ==> !b.issued[id].completed
    ensures step.Complete? && step.id == id && id < |b.issued|
  {
  }

  lemma EndedThenCompleted(cfg: Config, steps: seq<Step>, i: int, id: nat)
    requires EndsAt(cfg, steps, i, id)
    ensures id < |Run(cfg, steps).issued| && Run(cfg, steps).issued[id].completed
  {
    assert steps[..i + 1][..i] == steps[..i];
    CompletesAt(cfg, Run(cfg, steps[..i]), steps[i]);
    MonotoneRun(cfg, steps, i + 1);
  }

  lemma {:induction false} CompletedThenEnded(cfg: Config, steps: seq<Step>, id: nat)
    requires id < |Run(cfg, steps).issued| && Run(cfg, steps).issued[id].completed
    ensures Ended(cfg, steps, id)
  {
    var n := |steps| - 1;
    var before := steps[..n];
    var b := Run(cfg, before);
    if id < |b.issued| && b.issued[id].completed {
      CompletedThenEnded(cfg, before, id);
      var i :| EndsAt(cfg, before, i, id);
      assert before[..i] == steps[..i];
      assert EndsAt(cfg, steps, i, id);
    } else {
      OnlyCompleteCompletes(cfg, b, steps[n], id);
      assert EndsAt(cfg, steps, n, id);
    }
  }

  /** The completion mark records exactly that the owner has ended. */
  lemma EndedIsCompleted(cfg: Config, steps: seq<Step>, id: nat)
    requires id < |Run(cfg, steps).issued|
    ensures Run(cfg, steps).issued[id].completed <==> Ended(cfg, steps, id)
  {
    if Ended(cfg, steps, id) {
      var i :| EndsAt(cfg, steps, i, id);
      EndedThenCompleted(cfg, steps, i, id);
    }
    if Run(cfg, steps).issued[id].completed {
      CompletedThenEnded(cfg, steps, id);
    }
  }

  /** A completion that gets through to the breaker's state machine. */
  ghost predicate Effective(cfg: Config, steps: seq<Step>, i: int, id: nat) {
    0 <= i < |steps| && steps[i].Complete? && steps[i].id == id && Live(Run(cfg, steps[..i]), id)
  }

  /** However often it is settled, an admission affects the breaker at most once. */
  lemma EffectiveOnce(cfg: Config, steps: seq<Step>, i: int, j: int, id: nat)
    requires Effective(cfg, steps, i, id) && Effective(cfg, steps, j, id)
    ensures i == j
  {
    var first, second := if i < j then i else j, if i < j then j else i;
    if first < second {
      assert steps[..first + 1][..first] == steps[..first];
      CompletesAt(cfg, Run(cfg, steps[..first]), steps[first]);
      var part := steps[..second];
      assert part[..first + 1] == steps[..first + 1];
      MonotoneRun(cfg, part, first + 1);
      assert false;
    }
  }

  /**
   * No stranded probe: once every admitted execution has ended, nothing holds the probe, and a
   * caller who arrives when the recovery time has passed is admitted.
   */
  lemma NoStrandedProbe(cfg: Config, steps: seq<Step>, now: real)
    requires forall id :: 0 <= id < |Run(cfg, steps).issued| ==> Ended(cfg, steps, id)
    ensures var b := Run(cfg, steps);
            && b.probe.None?
            && (b.state == Open ==> b.openedAt.Some?)
            && (Apply(cfg, b, Allow(now)).admitted.Some?
                <==> (b.state == Open ==> now - b.openedAt.value >= cfg.recoveryS))
  {
    var b := Run(cfg, steps);
    InvRun(cfg, steps);
    if b.probe.Some? {
      EndedIsCompleted(cfg, steps, b.probe.value);
      assert false;
    }
  }
}
