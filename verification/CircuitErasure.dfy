/**
 * Late completions never matter.
 *
 * A completion is stale when its admission is already completed, belongs to an older generation,
 * or has been replaced as the half-open probe.  Deleting every stale completion from a run
 * changes nothing that can be observed.
 */
module CircuitErasure {
  import opened Basics
  import opened Circuit

  predicate StaleStep(b: Breaker, step: Step) {
    step.Complete? && !Live(b, step.id)
  }

  /** All of a breaker except which admissions are marked as completed. */
  datatype Core = Core(
    state: CircuitState,
    openedAt: Option<real>,
    generation: nat,
    probe: Option<nat>,
    failures: seq<real>,
    classFailures: map<ErrorClass, seq<real>>)

  function CoreOf(b: Breaker): Core {
    Core(b.state, b.openedAt, b.generation, b.probe, b.failures, b.classFailures)
  }

  /** What the world sees of one step. */
  datatype Observation = Observation(core: Core, event: Option<Event>, admitted: Option<nat>)

  function Seen(e: Effect): Observation {
    Observation(CoreOf(e.after), e.event, e.admitted)
  }

  function Observe(cfg: Config, b: Breaker, steps: seq<Step>): seq<Observation>
    decreases |steps|
  {
    if steps == [] then []
    else
      var e := Apply(cfg, b, steps[0]);
      [Seen(e)] + Observe(cfg, e.after, steps[1..])
  }

  /** The observations of the steps that are not stale when their turn comes. */
  function ObserveFresh(cfg: Config, b: Breaker, steps: seq<Step>): seq<Observation>
    decreases |steps|
  {
    if steps == [] then []
    else
      var e := Apply(cfg, b, steps[0]);
      (if StaleStep(b, steps[0]) then [] else [Seen(e)]) + ObserveFresh(cfg, e.after, steps[1..])
  }

  /** The run with its stale completions deleted. */
  function Erase(cfg: Config, b: Breaker, steps: seq<Step>): seq<Step>
    decreases |steps|
  {
    if steps == [] then []
    else
      (if StaleStep(b, steps[0]) then [] else [steps[0]])
      + Erase(cfg, Next(cfg, b, steps[0]), steps[1..])
  }

  function Last(cfg: Config, b: Breaker, steps: seq<Step>): Breaker
    decreases |steps|
  {
    if steps == [] then b else Last(cfg, Next(cfg, b, steps[0]), steps[1..])
  }

  /** Once a completion by an admission would be stale, it is stale for ever. */
  lemma StaleStaysStale(cfg: Config, b: Breaker, step: Step, id: nat)
    requires Inv(b) && id < |b.issued| && !Live(b, id)
    ensures !Live(Next(cfg, b, step), id)
  {
    Monotone(cfg, b, step);
    var b' := Next(cfg, b, step);
    if b.issued[id].generation == b.generation && !b.issued[id].completed {
      assert b.state == HalfOpen;
      assert b'.state == HalfOpen || b'.generation == b.generation + 1;
    }
  }

  lemma {:induction false} StaleForever(cfg: Config, b: Breaker, steps: seq<Step>, id: nat)
    requires Inv(b) && id < |b.issued| && !Live(b, id)
    ensures id < |Last(cfg, b, steps).issued| && !Live(Last(cfg, b, steps), id)
    decreases |steps|
  {
    if steps != [] {
      StaleStaysStale(cfg, b, steps[0], id);
      Monotone(cfg, b, steps[0]);
      InvStep(cfg, b, steps[0]);
      StaleForever(cfg, Next(cfg, b, steps[0]), steps[1..], id);
    }
  }

  /** A stale completion is invisible where it happens. */
  lemma StaleIsInvisible(cfg: Config, b: Breaker, step: Step)
    requires StaleStep(b, step)
    ensures Seen(Apply(cfg, b, step)) == Observation(CoreOf(b), None, None)
  {
  }

  /** Two breakers that differ at most in completion marks that no longer matter. */
  ghost predicate Alike(b: Breaker, c: Breaker) {
    && Inv(b) && Inv(c)
    && CoreOf(b) == CoreOf(c)
    && |b.issued| == |c.issued|
    && (forall id :: 0 <= id < |b.issued| ==>
          && b.issued[id].generation == c.issued[id].generation
          && (Live(b, id) <==> Live(c, id)))
  }

  lemma StaleKeepsAlike(cfg: Config, b: Breaker, c: Breaker, step: Step)
    requires Alike(b, c) && StaleStep(b, step)
    ensures Alike(Next(cfg, b, step), c)
  {
    InvStep(cfg, b, step);
  }

  /** Settling reads and writes the core only. */
  lemma SettleLooksAlike(cfg: Config, b: Breaker, c: Breaker, outcome: Outcome, now: real)
    requires CoreOf(b) == CoreOf(c)
    ensures Seen(Settle(cfg, b, outcome, now)) == Seen(Settle(cfg, c, outcome, now))
    ensures Settle(cfg, b, outcome, now).after.issued == b.issued
    ensures Settle(cfg, c, outcome, now).after.issued == c.issued
    ensures Settle(cfg, b, outcome, now).admitted.None?
  {
    assert c == b.(issued := c.issued);
    if outcome.Failure? && b.state == Closed && outcome.klass in cfg.tripOn {
      var noted := Noted(cfg, b, outcome.klass, now);
      assert Noted(cfg, c, outcome.klass, now) == noted.(issued := c.issued);
      assert Bucket(noted, outcome.klass) == Bucket(noted.(issued := c.issued), outcome.klass);
    }
  }

  lemma AdmitLooksAlike(cfg: Config, b: Breaker, c: Breaker, now: real)
    requires CoreOf(b) == CoreOf(c) && |b.issued| == |c.issued|
    ensures Seen(Admit(cfg, b, now)) == Seen(Admit(cfg, c, now))
    ensures if Admit(cfg, b, now).admitted.Some?
            then Admit(cfg, b, now).after.issued == Issue(b) && Admit(cfg, c, now).after.issued == Issue(c)
            else Admit(cfg, b, now).after.issued == b.issued && Admit(cfg, c, now).after.issued == c.issued
  {
  }

  lemma {:induction false} FreshLooksAlike(cfg: Config, b: Breaker, c: Breaker, step: Step)
    requires CoreOf(b) == CoreOf(c) && |b.issued| == |c.issued|
    requires step.Complete? ==> Live(b, step.id) && Live(c, step.id)
    ensures Seen(Apply(cfg, b, step)) == Seen(Apply(cfg, c, step))
    ensures |Next(cfg, b, step).issued| == |Next(cfg, c, step).issued|
    ensures |b.issued| < |Next(cfg, b, step).issued| ==>
              && |Next(cfg, b, step).issued| == |b.issued| + 1
              && Next(cfg, b, step).issued[|b.issued|] == Next(cfg, c, step).issued[|b.issued|]
  {
    match step
    case Allow(now) => AdmitLooksAlike(cfg, b, c, now);
    case Complete(_, outcome, now) => SettleLooksAlike(cfg, b, c, outcome, now);
    case RecordSuccess => SettleLooksAlike(cfg, b, c, Success, 0.0);
    case RecordFailure(k, now) => SettleLooksAlike(cfg, b, c, Failure(k), now);
    case RecordCancel => SettleLooksAlike(cfg, b, c, Cancel, 0.0);
  }

  /** A live admission stays so unless this step completes it or moves the breaker past it. */
  lemma LiveAfter(cfg: Config, b: Breaker, step: Step, id: nat)
    requires id < |b.issued| && Live(b, id)
    ensures var b' := Next(cfg, b, step);
            Live(b', id) <==>
              && !(step.Complete? && step.id == id)
              && b'.generation == b.generation
              && (b'.state == HalfOpen ==> b'.probe == Some(id))
  {
  }

  lemma FreshKeepsLive(cfg: Config, b: Breaker, c: Breaker, step: Step, id: nat)
    requires Alike(b, c) && !StaleStep(b, step) && id < |b.issued|
    requires CoreOf(Next(cfg, b, step)) == CoreOf(Next(cfg, c, step))
    ensures Live(Next(cfg, b, step), id) <==> Live(Next(cfg, c, step), id)
  {
    if Live(b, id) {
      LiveAfter(cfg, b, step, id);
      LiveAfter(cfg, c, step, id);
    } else {
      StaleStaysStale(cfg, b, step, id);
      StaleStaysStale(cfg, c, step, id);
    }
  }

  lemma {:induction false} FreshKeepsAlike(cfg: Config, b: Breaker, c: Breaker, step: Step)
    requires Alike(b, c) && !StaleStep(b, step)
    ensures Alike(Next(cfg, b, step), Next(cfg, c, step))
    ensures Seen(Apply(cfg, b, step)) == Seen(Apply(cfg, c, step))
  {
    InvStep(cfg, b, step);
    InvStep(cfg, c, step);
    FreshLooksAlike(cfg, b, c, step);
    var b', c' := Next(cfg, b, step), Next(cfg, c, step);
    forall id | 0 <= id < |b'.issued|
      ensures b'.issued[id].generation == c'.issued[id].generation
      ensures Live(b', id) <==> Live(c', id)
    {
      if id < |b.issued| {
        FreshKeepsLive(cfg, b, c, step, id);
        Monotone(cfg, b, step);
        Monotone(cfg, c, step);
      }
    }
  }

  lemma {:induction false} ErasureAlike(cfg: Config, b: Breaker, c: Breaker, steps: seq<Step>)
    requires Alike(b, c)
    ensures ObserveFresh(cfg, b, steps) == Observe(cfg, c, Erase(cfg, b, steps))
    ensures Alike(Last(cfg, b, steps), Last(cfg, c, Erase(cfg, b, steps)))
    decreases |steps|
  {
    if steps != [] {
      var rest := Erase(cfg, Next(cfg, b, steps[0]), steps[1..]);
      if StaleStep(b, steps[0]) {
        StaleKeepsAlike(cfg, b, c, steps[0]);
        ErasureAlike(cfg, Next(cfg, b, steps[0]), c, steps[1..]);
        assert Erase(cfg, b, steps) == rest;
      } else {
        FreshKeepsAlike(cfg, b, c, steps[0]);
        ErasureAlike(cfg, Next(cfg, b, steps[0]), Next(cfg, c, steps[0]), steps[1..]);
        assert ([steps[0]] + rest)[1..] == rest;
      }
    }
  }

  /**
   * Any interleaving of admissions, completions and manual calls shows the same states,
   * generations, windows, events and grants as the run without its stale completions; the stale
   * completions themselves show nothing; and the run without them has none left.
   */
  lemma Erasure(cfg: Config, steps: seq<Step>)
    ensures ObserveFresh(cfg, Initial, steps) == Observe(cfg, Initial, Erase(cfg, Initial, steps))
    ensures CoreOf(Last(cfg, Initial, steps)) == CoreOf(Last(cfg, Initial, Erase(cfg, Initial, steps)))
    ensures Erase(cfg, Initial, Erase(cfg, Initial, steps)) == Erase(cfg, Initial, steps)
  {
    ErasureAlike(cfg, Initial, Initial, steps);
    EraseTwice(cfg, Initial, Initial, steps);
  }

  lemma {:induction false} EraseTwice(cfg: Config, b: Breaker, c: Breaker, steps: seq<Step>)
    requires Alike(b, c)
    ensures Erase(cfg, c, Erase(cfg, b, steps)) == Erase(cfg, b, steps)
    decreases |steps|
  {
    if steps != [] {
      var rest := Erase(cfg, Next(cfg, b, steps[0]), steps[1..]);
      if StaleStep(b, steps[0]) {
        StaleKeepsAlike(cfg, b, c, steps[0]);
        EraseTwice(cfg, Next(cfg, b, steps[0]), c, steps[1..]);
        assert Erase(cfg, b, steps) == rest;
      } else {
        FreshKeepsAlike(cfg, b, c, steps[0]);
        EraseTwice(cfg, Next(cfg, b, steps[0]), Next(cfg, c, steps[0]), steps[1..]);
        assert ([steps[0]] + rest)[1..] == rest;
        assert !StaleStep(c, steps[0]);
      }
    }
  }

  /** The two ways of running a list of steps agree. */
  lemma {:induction false} LastIsRun(cfg: Config, steps: seq<Step>)
    ensures Last(cfg, Initial, steps) == Run(cfg, steps)
  {
    if steps != [] {
      var n := |steps| - 1;
      LastIsRun(cfg, steps[..n]);
      assert steps == steps[..n] + [steps[n]];
      LastSnoc(cfg, Initial, steps[..n], steps[n]);
    }
  }

  lemma {:induction false} LastSnoc(cfg: Config, b: Breaker, steps: seq<Step>, step: Step)
    ensures Last(cfg, b, steps + [step]) == Next(cfg, Last(cfg, b, steps), step)
    decreases |steps|
  {
    if steps == [] {
      assert [step][1..] == [];
    } else {
      assert (steps + [step])[1..] == steps[1..] + [step];
      LastSnoc(cfg, Next(cfg, b, steps[0]), steps[1..], step);
    }
  }
}
