/** The breaker object, updated in place, following the protocol of module Circuit step by step. */
module CircuitBreakers {
  import opened Basics
  import opened RollingWindow
  import C = Circuit

  class BreakerAdmission {
    const generation: nat
    var completed: bool
    /** The position of this admission among all the breaker has issued. */
    ghost const id: nat

    constructor (generation: nat, ghost id: nat)
      ensures this.generation == generation && this.id == id && !completed
    {
      this.generation := generation;
      this.id := id;
      completed := false;
    }
  }

  /** What `allow` answers; a rejected caller gets no admission. */
  datatype Decision = Decision(
    allowed: bool,
    state: C.CircuitState,
    event: Option<C.Event>,
    admission: BreakerAdmission?)

  class CircuitBreaker {
    const cfg: C.Config
    var state: C.CircuitState
    var openedAt: Option<real>
    var generation: nat
    var probe: BreakerAdmission?
    var failures: seq<real>
    var classFailures: map<ErrorClass, seq<real>>

    ghost var issued: seq<BreakerAdmission>
    /** Every operation performed on this breaker, in lock order. */
    ghost var history: seq<C.Step>

    ghost predicate Shape() reads this, issued {
      && cfg.Valid()
      && (forall i :: 0 <= i < |issued| ==> issued[i].id == i)
      && (probe != null ==> probe in issued)
      && (forall i :: 0 <= i < |history| && history[i].Complete? ==> history[i].id < |issued|)
    }

    /** The protocol state this object stands for. */
    ghost function Model(): C.Breaker reads this, issued {
      C.Breaker(state, openedAt, generation,
                if probe == null then None else Some(probe.id),
                failures, classFailures,
                seq(|issued|, i requires 0 <= i < |issued| reads this, issued =>
                                C.Admission(issued[i].generation, issued[i].completed)))
    }

    ghost predicate Valid() reads this, issued {
      Shape() && Model() == C.Run(cfg, history)
    }

    constructor (cfg: C.Config)
      requires cfg.Valid()
      ensures Valid() && this.cfg == cfg && history == [] && issued == []
    {
      this.cfg := cfg;
      state, openedAt, generation, probe := C.Closed, None, 0, null;
      failures, classFailures := [], map[];
      issued, history := [], [];
    }

    /** The public constructor: it turns bad settings down and lets every thresholded class trip. */
    static method Create(failureThreshold: int, windowS: real, recoveryS: real,
                         tripOn: Option<set<ErrorClass>>, classThresholds: map<ErrorClass, int>)
      returns (breaker: Option<CircuitBreaker>)
      ensures breaker.Some? <==>
                && failureThreshold >= 1 && windowS > 0.0 && recoveryS > 0.0
                && forall k :: k in classThresholds ==> classThresholds[k] >= 1
      ensures breaker.Some? ==>
                var counted := if tripOn.Some? then tripOn.value else {TRANSIENT, SERVER_ERROR};
                && fresh(breaker.value) && breaker.value.Valid() && breaker.value.history == []
                && breaker.value.cfg == C.Config(failureThreshold, windowS, recoveryS,
                                                 counted + classThresholds.Keys, classThresholds)
    {
      if failureThreshold < 1 || windowS <= 0.0 || recoveryS <= 0.0 {
        return None;
      }
      var unchecked := classThresholds.Keys;
      while unchecked != {}
        invariant unchecked <= classThresholds.Keys
        invariant forall k :: k in classThresholds.Keys - unchecked ==> classThresholds[k] >= 1
        decreases |unchecked|
      {
        var k :| k in unchecked;
        if classThresholds[k] < 1 {
          return None;
        }
        unchecked := unchecked - {k};
      }
      var counted := if tripOn.Some? then tripOn.value else {TRANSIENT, SERVER_ERROR};
      var b := new CircuitBreaker(C.Config(failureThreshold, windowS, recoveryS,
                                           counted + classThresholds.Keys, classThresholds));
      return Some(b);
    }

    /** Records that a step has been taken. */
    ghost method Took(step: C.Step)
      requires Shape() && Model() == C.Next(cfg, C.Run(cfg, history), step)
      requires step.Complete? ==> step.id < |issued|
      modifies this`history
      ensures Valid() && history == old(history) + [step]
    {
      history := history + [step];
      assert history[..|history| - 1] == old(history);
    }

    method NewAdmission() returns (admission: BreakerAdmission)
      requires Shape()
      modifies this`issued
      ensures Shape() && fresh(admission) && issued == old(issued) + [admission]
      ensures admission.id == |old(issued)| && admission.generation == generation && !admission.completed
      ensures Model() == old(Model()).(issued := C.Issue(old(Model())))
    {
      admission := new BreakerAdmission(generation, |issued|);
      issued := issued + [admission];
    }

    method Allow(now: real) returns (d: Decision)
      requires Valid()
      modifies this
      ensures Valid() && history == old(history) + [C.Allow(now)]
      ensures var e := C.Admit(cfg, old(Model()), now);
              && d.allowed == e.admitted.Some? && d.event == e.event && d.state == state
              && (d.allowed <==> d.admission != null)
              && issued == old(issued) + (if d.admission != null then [d.admission] else [])
      ensures d.admission != null ==>
                fresh(d.admission) && d.admission.id == |old(issued)| && !d.admission.completed
    {
      ghost var before := Model();
      d := Decision(false, state, Some(C.Rejected), null);
      match state {
        case Open =>
          var since := now;
          if openedAt.Some? {
            since := openedAt.value;
          } else {
            openedAt := Some(now);
          }
          if now - since >= cfg.recoveryS {
            var admission := NewAdmission();
            state := C.HalfOpen;
            probe := admission;
            d := Decision(true, state, Some(C.HalfOpened), admission);
          }
        case HalfOpen =>
          if probe == null {
            var admission := NewAdmission();
            probe := admission;
            d := Decision(true, state, None, admission);
          }
        case Closed =>
          var admission := NewAdmission();
          d := Decision(true, state, None, admission);
      }
      assert Model() == C.Admit(cfg, before, now).after;
      Took(C.Allow(now));
    }

    method PruneBucket(bucket: seq<real>, now: real) returns (pruned: seq<real>)
      ensures pruned == Prune(bucket, Instant, now - cfg.windowS)
    {
      var cutoff := now - cfg.windowS;
      pruned := bucket;
      while pruned != [] && pruned[0] <= cutoff
        invariant Prune(pruned, Instant, cutoff) == Prune(bucket, Instant, cutoff)
        decreases |pruned|
      {
        pruned := pruned[1..];
      }
    }

    /** A bucket with one more failure in it. */
    method SlideBucket(bucket: seq<real>, now: real) returns (slid: seq<real>)
      ensures slid == C.Slide(cfg, bucket, now)
    {
      var pruned := PruneBucket(bucket, now);
      slid := pruned + [now];
    }

    /** Puts a failure in the bucket of its class, if that has one; true when the bucket is full. */
    method NoteInClass(klass: ErrorClass, now: real) returns (full: bool)
      requires Shape()
      modifies this`classFailures
      ensures Shape()
      ensures klass !in cfg.classThresholds ==> !full && classFailures == old(classFailures)
      ensures klass in cfg.classThresholds ==>
                var bucket := C.Slide(cfg, if klass in old(classFailures) then old(classFailures)[klass] else [], now);
                && classFailures == old(classFailures)[klass := bucket]
                && (full <==> |bucket| >= cfg.classThresholds[klass])
    {
      if klass !in cfg.classThresholds {
        return false;
      }
      var bucket := if klass in classFailures then classFailures[klass] else [];
      bucket := SlideBucket(bucket, now);
      classFailures := classFailures[klass := bucket];
      return |bucket| >= cfg.classThresholds[klass];
    }

    method NoteFailure(klass: ErrorClass, now: real) returns (shouldOpen: bool)
      requires Shape()
      modifies this`failures, this`classFailures
      ensures Shape() && Model() == C.Noted(cfg, old(Model()), klass, now)
      ensures shouldOpen == C.Trips(cfg, Model(), klass)
    {
      hide C.Run, C.Slide;
      ghost var noted := C.Noted(cfg, Model(), klass, now);
      failures := SlideBucket(failures, now);
      var full := NoteInClass(klass, now);
      assert failures == noted.failures && classFailures == noted.classFailures;
      return full || |failures| >= cfg.failureThreshold;
    }

    method RecordSuccessLocked() returns (event: Option<C.Event>)
      requires Shape()
      modifies this`state, this`openedAt, this`generation, this`probe, this`failures, this`classFailures
      ensures Shape()
      ensures Model() == C.Succeed(old(Model())).after && event == C.Succeed(old(Model())).event
    {
      if state == C.HalfOpen {
        state := C.Closed;
        generation := generation + 1;
        openedAt := None;
        probe := null;
        failures, classFailures := [], map[];
        return Some(C.Reclosed);
      }
      return None;
    }

    method RecordFailureLocked(klass: ErrorClass, now: real) returns (event: Option<C.Event>)
      requires Shape()
      modifies this`state, this`openedAt, this`generation, this`probe, this`failures, this`classFailures
      ensures Shape()
      ensures Model() == C.Fail(cfg, old(Model()), klass, now).after
      ensures event == C.Fail(cfg, old(Model()), klass, now).event
    {
      var shouldOpen := true;
      if state != C.HalfOpen {
        if state == C.Open || klass !in cfg.tripOn {
          return None;
        }
        shouldOpen := NoteFailure(klass, now);
      }
      if shouldOpen {
        state := C.Open;
        generation := generation + 1;
        openedAt := Some(now);
        probe := null;
        failures, classFailures := [], map[];
        return Some(C.Opened);
      }
      return None;
    }

    method RecordCancelLocked()
      requires Shape()
      modifies this`probe
      ensures Shape() && Model() == C.Release(old(Model())).after
    {
      if state == C.HalfOpen {
        probe := null;
      }
    }

    method RecordSuccess() returns (event: Option<C.Event>)
      requires Valid()
      modifies this
      ensures Valid() && history == old(history) + [C.RecordSuccess] && issued == old(issued)
      ensures event == C.Apply(cfg, old(Model()), C.RecordSuccess).event
    {
      event := RecordSuccessLocked();
      Took(C.RecordSuccess);
    }

    method RecordFailure(klass: ErrorClass, now: real) returns (event: Option<C.Event>)
      requires Valid()
      modifies this
      ensures Valid() && history == old(history) + [C.RecordFailure(klass, now)] && issued == old(issued)
      ensures event == C.Apply(cfg, old(Model()), C.RecordFailure(klass, now)).event
    {
      event := RecordFailureLocked(klass, now);
      Took(C.RecordFailure(klass, now));
    }

    method RecordCancel()
      requires Valid()
      modifies this
      ensures Valid() && history == old(history) + [C.RecordCancel] && issued == old(issued)
    {
      RecordCancelLocked();
      Took(C.RecordCancel);
    }

    /** Sets the completion mark of an issued admission. */
    method Mark(admission: BreakerAdmission)
      requires Shape() && admission in issued
      modifies admission
      ensures Shape() && admission.completed
      ensures admission.id < |issued| && Model() == C.Marked(old(Model()), admission.id)
    {
      assert issued[admission.id] == admission;
      admission.completed := true;
    }

    /** Settles an admission; the clock is read under the lock, and only when it counts. */
    method Complete(admission: BreakerAdmission, outcome: C.Outcome, now: real)
      returns (event: Option<C.Event>)
      requires Valid() && admission in issued
      modifies this, admission
      ensures Valid() && history == old(history) + [C.Complete(admission.id, outcome, now)]
      ensures issued == old(issued) && admission.completed
      ensures event == C.Apply(cfg, old(Model()), C.Complete(admission.id, outcome, now)).event
    {
      ghost var before := Model();
      ghost var step := C.Complete(admission.id, outcome, now);
      assert issued[admission.id] == admission;
      event := None;
      if admission.completed {
        Took(step);
        return;
      }
      if admission.generation != generation || (state == C.HalfOpen && probe != admission) {
        Mark(admission);
        Took(step);
        return;
      }
      assert C.Live(before, admission.id);
      match outcome {
        case Success => event := RecordSuccessLocked();
        case Failure(klass) => event := RecordFailureLocked(klass, now);
        case Cancel => RecordCancelLocked();
      }
      Mark(admission);
      Took(step);
    }
  }
}
