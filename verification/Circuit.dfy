/**
 * The circuit breaker as a protocol on values.
 *
 * Any number of executions share one breaker.  An admission is named by its position in the list
 * of all admissions ever issued, so comparing positions is comparing admission objects.
 */
module Circuit {
  import opened Basics
  import opened RollingWindow

  datatype Config = Config(
    failureThreshold: int,
    windowS: real,
    recoveryS: real,
    tripOn: set<ErrorClass>,
    classThresholds: map<ErrorClass, int>)
  {
    /** What the constructor insists on. */
    predicate Valid() {
      && failureThreshold >= 1 && windowS > 0.0 && recoveryS > 0.0
      && (forall k :: k in classThresholds ==> classThresholds[k] >= 1)
      && classThresholds.Keys <= tripOn
    }
  }

  datatype CircuitState = Closed | Open | HalfOpen

  datatype Admission = Admission(generation: nat, completed: bool)

  datatype Breaker = Breaker(
    state: CircuitState,
    openedAt: Option<real>,
    generation: nat,
    probe: Option<nat>,
    failures: seq<real>,
    classFailures: map<ErrorClass, seq<real>>,
    issued: seq<Admission>)

  const Initial := Breaker(Closed, None, 0, None, [], map[], [])

  datatype Outcome = Success | Failure(klass: ErrorClass) | Cancel

  /**
   * The operations on a breaker in lock order.  `Complete` settles the admission `id`; the three
   * `Record` steps are the public methods, which anyone may call.
   */
  datatype Step =
    | Allow(now: real)
    | Complete(id: nat, outcome: Outcome, now: real)
    | RecordSuccess
    | RecordFailure(klass: ErrorClass, now: real)
    | RecordCancel

  datatype Event = Opened | HalfOpened | Reclosed | Rejected

  /** What a step leaves behind and returns. */
  datatype Effect = Effect(after: Breaker, event: Option<Event>, admitted: Option<nat>)

  // ---------------------------------------------------------------- transitions

  /** An admission whose completion still counts. */
  predicate Live(b: Breaker, id: nat) {
    && id < |b.issued|
    && !b.issued[id].completed
    && b.issued[id].generation == b.generation
    && (b.state == HalfOpen ==> b.probe == Some(id))
  }

  function Bucket(b: Breaker, k: ErrorClass): seq<real> {
    if k in b.classFailures then b.classFailures[k] else []
  }

  function Slide(cfg: Config, window: seq<real>, now: real): seq<real> {
    Prune(window, Instant, now - cfg.windowS) + [now]
  }

  /** Counts a failure in the windows without deciding anything. */
  function Noted(cfg: Config, b: Breaker, k: ErrorClass, now: real): Breaker {
    b.(failures := Slide(cfg, b.failures, now),
       classFailures := if k in cfg.classThresholds
                        then b.classFailures[k := Slide(cfg, Bucket(b, k), now)]
                        else b.classFailures)
  }

  /** Some window has reached its threshold after a failure of class k. */
  predicate Trips(cfg: Config, noted: Breaker, k: ErrorClass) {
    || (k in cfg.classThresholds && |Bucket(noted, k)| >= cfg.classThresholds[k])
    || |noted.failures| >= cfg.failureThreshold
  }

  function Tripped(b: Breaker, now: real): Breaker {
    Breaker(Open, Some(now), b.generation + 1, None, [], map[], b.issued)
  }

  function Succeed(b: Breaker): Effect {
    if b.state == HalfOpen
    then Effect(Breaker(Closed, None, b.generation + 1, None, [], map[], b.issued), Some(Reclosed), None)
    else Effect(b, None, None)
  }

  function Fail(cfg: Config, b: Breaker, k: ErrorClass, now: real): Effect {
    if b.state == HalfOpen then Effect(Tripped(b, now), Some(Opened), None)
    else if b.state == Open || k !in cfg.tripOn then Effect(b, None, None)
    else
      var noted := Noted(cfg, b, k, now);
      if Trips(cfg, noted, k) then Effect(Tripped(b, now), Some(Opened), None)
      else Effect(noted, None, None)
  }

  function Release(b: Breaker): Effect {
    Effect(if b.state == HalfOpen then b.(probe := None) else b, None, None)
  }

  function Settle(cfg: Config, b: Breaker, outcome: Outcome, now: real): Effect {
    match outcome
    case Success => Succeed(b)
    case Failure(k) => Fail(cfg, b, k, now)
    case Cancel => Release(b)
  }

  function Marked(b: Breaker, id: nat): Breaker
    requires id < |b.issued|
  {
    b.(issued := b.issued[id := b.issued[id].(completed := true)])
  }

  function Issue(b: Breaker): seq<Admission> {
    b.issued + [Admission(b.generation, false)]
  }

  function Admit(cfg: Config, b: Breaker, now: real): Effect {
    var id := |b.issued|;
    match b.state
    case Closed => Effect(b.(issued := Issue(b)), None, Some(id))
    case HalfOpen =>
      if b.probe.Some? then Effect(b, Some(Rejected), None)
      else Effect(b.(probe := Some(id), issued := Issue(b)), None, Some(id))
    case Open =>
      var openedAt := if b.openedAt.Some? then b.openedAt.value else now;
      if now - openedAt >= cfg.recoveryS
      then Effect(b.(state := HalfOpen, openedAt := Some(openedAt), probe := Some(id), issued := Issue(b)),
                  Some(HalfOpened), Some(id))
      else Effect(b.(openedAt := Some(openedAt)), Some(Rejected), None)
  }

  function Apply(cfg: Config, b: Breaker, step: Step): Effect {
    match step
    case Allow(now) => Admit(cfg, b, now)
    case Complete(id, outcome, now) =>
      if id >= |b.issued| || b.issued[id].completed then Effect(b, None, None)
      else if !Live(b, id) then Effect(Marked(b, id), None, None)
      else
        var e := Settle(cfg, b, outcome, now);
        e.(after := Marked(e.after, id))
    case RecordSuccess => Succeed(b)
    case RecordFailure(k, now) => Fail(cfg, b, k, now)
    case RecordCancel => Release(b)
  }

  function Next(cfg: Config, b: Breaker, step: Step): Breaker { Apply(cfg, b, step).after }

  /** The state after a run from the initial state. */
  function Run(cfg: Config, steps: seq<Step>): Breaker {
    if steps == [] then Initial
    else Next(cfg, Run(cfg, steps[..|steps| - 1]), steps[|steps| - 1])
  }

  /** What step i of a run did. */
  function EffectAt(cfg: Config, steps: seq<Step>, i: nat): Effect
    requires i < |steps|
  {
    Apply(cfg, Run(cfg, steps[..i]), steps[i])
  }

  // ---------------------------------------------------------------- what every step keeps

  ghost predicate WindowsEmpty(b: Breaker) {
    b.failures == [] && b.classFailures == map[]
  }

  /** No admission carries the current generation. */
  ghost predicate NoneCurrent(b: Breaker) {
    forall id :: 0 <= id < |b.issued| ==> b.issued[id].generation < b.generation
  }

  ghost predicate Inv(b: Breaker) {
    && (forall id :: 0 <= id < |b.issued| ==> b.issued[id].generation <= b.generation)
    && (b.state == Open ==> b.openedAt.Some? && NoneCurrent(b))
    && (b.state != Closed ==> WindowsEmpty(b))
    && (b.probe.Some? ==>
          && b.state == HalfOpen
          && b.probe.value < |b.issued|
          && b.issued[b.probe.value] == Admission(b.generation, false))
  }

  lemma InvStep(cfg: Config, b: Breaker, step: Step)
    requires Inv(b)
    ensures Inv(Next(cfg, b, step))
  {
    if step.Complete? && Live(b, step.id) && !step.outcome.Cancel? && b.state == HalfOpen {
      assert Next(cfg, b, step).generation == b.generation + 1;
    }
  }

  lemma {:induction false} InvRun(cfg: Config, steps: seq<Step>)
    ensures Inv(Run(cfg, steps))
  {
    if steps != [] {
      InvRun(cfg, steps[..|steps| - 1]);
      InvStep(cfg, Run(cfg, steps[..|steps| - 1]), steps[|steps| - 1]);
    }
  }

  /** Generations and the list of admissions only grow; an admission is never un-completed. */
  lemma Monotone(cfg: Config, b: Breaker, step: Step)
    ensures var b' := Next(cfg, b, step);
            && b.generation <= b'.generation
            && |b.issued| <= |b'.issued|
            && (forall id :: 0 <= id < |b.issued| ==>
                  && b'.issued[id].generation == b.issued[id].generation
                  && (b.issued[id].completed ==> b'.issued[id].completed))
  {
  }

  lemma {:induction false} MonotoneRun(cfg: Config, steps: seq<Step>, i: nat)
    requires i <= |steps|
    ensures var b, b' := Run(cfg, steps[..i]), Run(cfg, steps);
            && |b.issued| <= |b'.issued|
            && (forall id :: 0 <= id < |b.issued| && b.issued[id].completed ==> b'.issued[id].completed)
    decreases |steps| - i
  {
    if i < |steps| {
      MonotoneRun(cfg, steps, i + 1);
      assert steps[..i + 1][..i] == steps[..i];
      Monotone(cfg, Run(cfg, steps[..i]), steps[i]);
    } else {
      assert steps[..i] == steps;
    }
  }
}
