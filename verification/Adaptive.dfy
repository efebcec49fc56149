/** AdaptiveStrategy: a delay multiplier driven by the failure rate of a rolling window. */
module Adaptive {
  import opened Basics
  import opened RollingWindow

  datatype Settings = Settings(windowS: real, targetSuccess: real, minMultiplier: real, maxMultiplier: real)
  {
    /** What the `adaptive` factory insists on. */
    predicate Valid() {
      windowS > 0.0 && 0.0 < targetSuccess <= 1.0 && 1.0 <= minMultiplier <= maxMultiplier
    }

    function TargetFailure(): real { 1.0 - targetSuccess }
  }

  datatype Sample = Sample(at: real, success: bool)

  function Stamp(s: Sample): real { s.at }

  datatype Op =
    | Record(now: real, success: bool)
    | Query(now: real)

  function Failures(samples: seq<Sample>): nat {
    if samples == [] then 0 else (if samples[0].success then 0 else 1) + Failures(samples[1..])
  }

  /** The share of the way from the least to the greatest multiplier, kept in range. */
  function Blend(cfg: Settings, frac: real): real {
    Min(cfg.maxMultiplier,
        Max(cfg.minMultiplier, cfg.minMultiplier + Product(frac, cfg.maxMultiplier - cfg.minMultiplier)))
  }

  function Product(a: real, b: real): real { a * b }

  function Quotient(a: real, b: real): real
    requires b != 0.0
  {
    a / b
  }

  /** How far a failure rate is past the target, as a share of what is left. */
  function Excess(cfg: Settings, rate: real): real
    requires cfg.TargetFailure() < 1.0
  {
    Quotient(rate - cfg.TargetFailure(), 1.0 - cfg.TargetFailure())
  }

  /** The multiplier for a given failure rate. */
  function ByRate(cfg: Settings, rate: real): real {
    if rate <= cfg.TargetFailure() then cfg.minMultiplier
    else if cfg.TargetFailure() >= 1.0 then cfg.maxMultiplier
    else Blend(cfg, Excess(cfg, rate))
  }

  function Scale(cfg: Settings, failures: nat, total: nat): real {
    if total == 0 then cfg.minMultiplier else ByRate(cfg, Quotient(failures as real, total as real))
  }

  /** The queue after a run of operations: a record prunes after appending, a query just prunes. */
  function Queue(cfg: Settings, ops: seq<Op>): seq<Sample> {
    if ops == [] then []
    else
      var queue, op := Queue(cfg, ops[..|ops| - 1]), ops[|ops| - 1];
      var grown := if op.Record? then queue + [Sample(op.now, op.success)] else queue;
      Prune(grown, Stamp, op.now - cfg.windowS)
  }

  /** Every sample ever recorded. */
  function Log(ops: seq<Op>): seq<Sample> {
    if ops == [] then []
    else
      var op := ops[|ops| - 1];
      Log(ops[..|ops| - 1]) + (if op.Record? then [Sample(op.now, op.success)] else [])
  }

  ghost predicate ReadingsOrdered(ops: seq<Op>) {
    forall i, j :: 0 <= i < j < |ops| ==> ops[i].now <= ops[j].now
  }

  /** The samples a query at `now` finds after a run. */
  function Seen(cfg: Settings, ops: seq<Op>, now: real): seq<Sample> {
    Prune(Queue(cfg, ops), Stamp, now - cfg.windowS)
  }

  /** The multiplier a query at `now` returns after a run. */
  function MultiplierAt(cfg: Settings, ops: seq<Op>, now: real): real {
    Scale(cfg, Failures(Seen(cfg, ops, now)), |Seen(cfg, ops, now)|)
  }

  // ---------------------------------------------------------------- rates

  lemma Distribute(x: real, y: real, b: real)
    ensures (y - x) * b == y * b - x * b
  {
  }

  /** Multiplying by a positive number keeps the order. */
  lemma MulOrder(x: real, y: real, b: real)
    requires b > 0.0
    ensures x < y <==> x * b < y * b
    ensures x == y <==> x * b == y * b
  {
    Distribute(x, y, b);
    Distribute(y, x, b);
    if x < y {
      assert (y - x) * b > 0.0;
    } else if x > y {
      assert (x - y) * b > 0.0;
    }
  }

  lemma QuotientTimes(a: real, b: real)
    requires b != 0.0
    ensures Quotient(a, b) * b == a
  {
  }

  /** Comparing quotients is comparing cross products. */
  lemma CompareQuotients(a: real, b: real, c: real, d: real)
    requires b > 0.0 && d > 0.0
    ensures Quotient(a, b) < Quotient(c, d) <==> a * d < c * b
    ensures Quotient(a, b) == Quotient(c, d) <==> a * d == c * b
  {
    hide Quotient;
    var x, y, both := Quotient(a, b), Quotient(c, d), b * d;
    QuotientTimes(a, b);
    QuotientTimes(c, d);
    Regroup(x, b, d);
    Regroup(y, d, b);
    assert both > 0.0;
    MulOrder(x, y, both);
  }

  lemma Regroup(x: real, b: real, d: real)
    ensures (x * b) * d == x * (b * d) && b * d == d * b
  {
  }

  lemma ExcessOrder(cfg: Settings, rate: real, rate': real)
    requires cfg.Valid()
    ensures rate < rate' <==> Excess(cfg, rate) < Excess(cfg, rate')
    ensures Excess(cfg, 1.0) == 1.0 && Excess(cfg, cfg.TargetFailure()) == 0.0
  {
    var den := 1.0 - cfg.TargetFailure();
    ExcessEnds(cfg);
    hide Quotient;
    QuotientTimes(rate - cfg.TargetFailure(), den);
    QuotientTimes(rate' - cfg.TargetFailure(), den);
    MulOrder(Excess(cfg, rate), Excess(cfg, rate'), den);
  }

  lemma ExcessEnds(cfg: Settings)
    requires cfg.Valid()
    ensures Excess(cfg, 1.0) == 1.0 && Excess(cfg, cfg.TargetFailure()) == 0.0
  {
  }

  lemma MulMonotone(x: real, y: real, b: real)
    requires x <= y && b >= 0.0
    ensures Product(x, b) <= Product(y, b)
    ensures x < y && b > 0.0 ==> Product(x, b) < Product(y, b)
    ensures Product(0.0, b) == 0.0 && Product(1.0, b) == b
  {
    Distribute(x, y, b);
    var d := y - x;
    if d > 0.0 && b > 0.0 {
      assert d * b > 0.0;
    } else {
      assert d == 0.0 || b == 0.0;
      assert d * b == 0.0;
    }
  }

  lemma BlendOrder(cfg: Settings, frac: real, frac': real)
    requires cfg.Valid() && 0.0 <= frac <= frac' <= 1.0
    ensures cfg.minMultiplier <= Blend(cfg, frac) <= Blend(cfg, frac') <= cfg.maxMultiplier
    ensures cfg.minMultiplier < cfg.maxMultiplier && frac < frac' ==> Blend(cfg, frac) < Blend(cfg, frac')
    ensures Blend(cfg, 0.0) == cfg.minMultiplier && Blend(cfg, 1.0) == cfg.maxMultiplier
  {
    hide Product;
    var width := cfg.maxMultiplier - cfg.minMultiplier;
    MulMonotone(0.0, frac, width);
    MulMonotone(frac, frac', width);
    MulMonotone(frac', 1.0, width);
  }

  /** The multiplier stays in range, is least exactly within the target and greatest when all fail. */
  lemma ByRateRange(cfg: Settings, rate: real)
    requires cfg.Valid() && 0.0 <= rate <= 1.0
    ensures cfg.minMultiplier <= ByRate(cfg, rate) <= cfg.maxMultiplier
    ensures cfg.minMultiplier < cfg.maxMultiplier ==>
              && (ByRate(cfg, rate) == cfg.minMultiplier <==> rate <= cfg.TargetFailure())
              && (ByRate(cfg, rate) == cfg.maxMultiplier <==> rate == 1.0)
  {
    hide Blend, Excess, Quotient;
    ExcessOrder(cfg, rate, 1.0);
    ExcessOrder(cfg, cfg.TargetFailure(), rate);
    if rate > cfg.TargetFailure() {
      BlendOrder(cfg, 0.0, Excess(cfg, rate));
      BlendOrder(cfg, Excess(cfg, rate), 1.0);
    }
  }

  lemma ByRateMonotone(cfg: Settings, rate: real, rate': real)
    requires cfg.Valid() && 0.0 <= rate <= rate' <= 1.0
    ensures ByRate(cfg, rate) <= ByRate(cfg, rate')
  {
    hide Blend, Excess, Quotient;
    ByRateRange(cfg, rate');
    if rate > cfg.TargetFailure() {
      ExcessOrder(cfg, rate, rate');
      ExcessOrder(cfg, rate', 1.0);
      ExcessOrder(cfg, cfg.TargetFailure(), rate);
      BlendOrder(cfg, Excess(cfg, rate), Excess(cfg, rate'));
    }
  }

  lemma RateInUnit(failures: nat, total: nat)
    requires failures <= total && 0 < total
    ensures var rate := Quotient(failures as real, total as real);
            0.0 <= rate <= 1.0 && (rate == 1.0 <==> failures == total)
  {
    var f, t := failures as real, total as real;
    WholeQuotients();
    hide Quotient;
    CompareQuotients(f, t, 0.0, 1.0);
    CompareQuotients(f, t, 1.0, 1.0);
  }

  lemma WholeQuotients()
    ensures forall x {:trigger Quotient(x, 1.0)} :: Quotient(x, 1.0) == x
  {
  }

  lemma ByRateLeast(cfg: Settings)
    requires cfg.Valid()
    ensures ByRate(cfg, Quotient(0.0, 1.0)) == cfg.minMultiplier
  {
  }

  /** One more success never raises the multiplier and one more failure never lowers it. */
  lemma ScaleMonotone(cfg: Settings, failures: nat, total: nat)
    requires cfg.Valid() && failures <= total
    ensures Scale(cfg, failures, total + 1) <= Scale(cfg, failures, total) <= Scale(cfg, failures + 1, total + 1)
  {
    hide Quotient, ByRate;
    var f, t := failures as real, total as real;
    RateInUnit(failures, total + 1);
    RateInUnit(failures + 1, total + 1);
    if total == 0 {
      ByRateRange(cfg, Quotient(0.0, 1.0));
      ByRateRange(cfg, Quotient(1.0, 1.0));
      ByRateLeast(cfg);
    } else {
      RateInUnit(failures, total);
      assert f * t <= f * (t + 1.0);
      CompareQuotients(f, t, f, t + 1.0);
      assert f * (t + 1.0) <= (f + 1.0) * t;
      CompareQuotients(f + 1.0, t + 1.0, f, t);
      ByRateMonotone(cfg, Quotient(f, t + 1.0), Quotient(f, t));
      ByRateMonotone(cfg, Quotient(f, t), Quotient(f + 1.0, t + 1.0));
    }
  }

  // ---------------------------------------------------------------- the window refines the log

  lemma {:induction false} FailuresConcat(a: seq<Sample>, b: seq<Sample>)
    ensures Failures(a + b) == Failures(a) + Failures(b)
  {
    if a == [] {
      assert a + b == b;
    } else {
      assert (a + b)[1..] == a[1..] + b;
      FailuresConcat(a[1..], b);
    }
  }

  lemma {:induction false} FailuresAtMostAll(samples: seq<Sample>)
    ensures Failures(samples) <= |samples|
  {
    if samples != [] { FailuresAtMostAll(samples[1..]); }
  }

  lemma {:induction false} LogOrdered(ops: seq<Op>, now: real)
    requires ReadingsOrdered(ops) && forall i :: 0 <= i < |ops| ==> ops[i].now <= now
    ensures Ordered(Log(ops), Stamp) && UpTo(Log(ops), Stamp, now)
  {
    if ops != [] {
      var init, op := ops[..|ops| - 1], ops[|ops| - 1];
      LogOrdered(init, op.now);
      OrderedSnoc(Log(init), Sample(op.now, true));
      OrderedSnoc(Log(init), Sample(op.now, false));
      forall i | 0 <= i < |Log(init)| ensures Stamp(Log(init)[i]) <= now {
        assert Stamp(Log(init)[i]) <= op.now;
      }
    }
  }

  lemma OrderedSnoc(log: seq<Sample>, last: Sample)
    requires Ordered(log, Stamp) && UpTo(log, Stamp, last.at)
    ensures Ordered(log + [last], Stamp)
  {
    var all := log + [last];
    forall i, j | 0 <= i < j < |all| ensures Stamp(all[i]) <= Stamp(all[j]) {
      if j < |log| {
        assert Stamp(log[i]) <= Stamp(log[j]);
      } else {
        assert Stamp(log[i]) <= last.at;
      }
    }
  }

  /** With ordered readings, pruning the queue at a later reading gives the log of that window. */
  lemma {:induction false} WindowRefinesLog(cfg: Settings, ops: seq<Op>, now: real)
    requires cfg.windowS > 0.0 && ReadingsOrdered(ops)
    requires forall i :: 0 <= i < |ops| ==> ops[i].now <= now
    ensures Prune(Queue(cfg, ops), Stamp, now - cfg.windowS) == Since(Log(ops), Stamp, now - cfg.windowS)
  {
    if ops != [] {
      var init, op := ops[..|ops| - 1], ops[|ops| - 1];
      QueueStep(cfg, ops);
      LogOrdered(ops, now);
      PruneRefines(Queue(cfg, ops), Log(ops), Stamp, op.now - cfg.windowS, now - cfg.windowS);
    }
  }

  lemma {:induction false} QueueStep(cfg: Settings, ops: seq<Op>)
    requires cfg.windowS > 0.0 && ReadingsOrdered(ops) && ops != []
    ensures Queue(cfg, ops) == Since(Log(ops), Stamp, ops[|ops| - 1].now - cfg.windowS)
    decreases |ops|, 0
  {
    var init, op := ops[..|ops| - 1], ops[|ops| - 1];
    var queue, log, cutoff := Queue(cfg, init), Log(init), op.now - cfg.windowS;
    var added := if op.Record? then [Sample(op.now, op.success)] else [];
    LogOrdered(ops, op.now);
    LogOrdered(init, op.now);
    var earlier := QueueIsSince(cfg, init, cutoff);
    SinceConcat(log, added, Stamp, earlier);
    SinceAll(added, Stamp, earlier);
    assert queue + added == Since(log + added, Stamp, earlier);
    PruneRefines(queue + added, log + added, Stamp, earlier, cutoff);
    assert queue + [] == queue;
  }

  /** The queue holds the log since some cutoff, no later than a reading that is still to come. */
  lemma {:induction false} QueueIsSince(cfg: Settings, ops: seq<Op>, cutoff: real) returns (earlier: real)
    requires cfg.windowS > 0.0 && ReadingsOrdered(ops)
    requires forall i :: 0 <= i < |ops| ==> ops[i].now - cfg.windowS <= cutoff
    ensures earlier <= cutoff && Queue(cfg, ops) == Since(Log(ops), Stamp, earlier)
    decreases |ops|, 1
  {
    if ops == [] {
      earlier := cutoff;
    } else {
      QueueStep(cfg, ops);
      earlier := ops[|ops| - 1].now - cfg.windowS;
    }
  }

  // ---------------------------------------------------------------- main results

  /** The failures and samples recorded in (now - window, now], from the full log. */
  function WindowFailures(cfg: Settings, ops: seq<Op>, now: real): nat {
    Failures(Since(Log(ops), Stamp, now - cfg.windowS))
  }

  function WindowTotal(cfg: Settings, ops: seq<Op>, now: real): nat {
    |Since(Log(ops), Stamp, now - cfg.windowS)|
  }

  /**
   * For every recorded history, in whatever order its readings came, the multiplier stays in
   * [min, max], is min exactly when failures are within the target share of the samples seen, and
   * max exactly when samples are seen and all of them failed.  When readings are ordered the samples
   * seen are those of the full log in (now - window, now].
   */
  lemma MultiplierLaw(cfg: Settings, ops: seq<Op>, now: real)
    requires cfg.Valid()
    ensures var m, f, t := MultiplierAt(cfg, ops, now), Failures(Seen(cfg, ops, now)), |Seen(cfg, ops, now)|;
            && f <= t && cfg.minMultiplier <= m <= cfg.maxMultiplier
            && (cfg.minMultiplier < cfg.maxMultiplier ==>
                  && (m == cfg.minMultiplier <==> f as real <= cfg.TargetFailure() * t as real)
                  && (m == cfg.maxMultiplier <==> t > 0 && f == t))
            && (f as real >= cfg.TargetFailure() * t as real ==>
                  (m - cfg.minMultiplier) * (cfg.targetSuccess * t as real)
                  == (f as real - cfg.TargetFailure() * t as real) * (cfg.maxMultiplier - cfg.minMultiplier))
            && (ReadingsOrdered(ops + [Query(now)]) ==>
                  f == WindowFailures(cfg, ops, now) && t == WindowTotal(cfg, ops, now))
  {
    hide ByRate, Quotient, Since, Prune, Failures, Queue, Log, ReadingsOrdered;
    if ReadingsOrdered(ops + [Query(now)]) {
      BeforeQuery(ops, Query(now));
      WindowRefinesLog(cfg, ops, now);
    }
    var seen := Seen(cfg, ops, now);
    FailuresAtMostAll(seen);
    if seen != [] {
      RateInUnit(Failures(seen), |seen|);
      var f, t := Failures(seen) as real, |seen| as real;
      ByRateRange(cfg, Quotient(f, t));
      RateTest(f, t, cfg.TargetFailure());
      if f >= cfg.TargetFailure() * t { Proportion(cfg, f, t); }
    }
  }

  /** Past the target the multiplier grows in proportion to the excess. */
  lemma Proportion(cfg: Settings, f: real, t: real)
    requires cfg.Valid() && t > 0.0 && cfg.TargetFailure() * t <= f <= t
    ensures (ByRate(cfg, Quotient(f, t)) - cfg.minMultiplier) * (cfg.targetSuccess * t)
         == (f - cfg.TargetFailure() * t) * (cfg.maxMultiplier - cfg.minMultiplier)
  {
    hide Quotient, Blend, Excess;
    var rate, target, width := Quotient(f, t), cfg.TargetFailure(), cfg.maxMultiplier - cfg.minMultiplier;
    QuotientTimes(f, t);
    RateTest(f, t, target);
    RateTest(f, t, 1.0);
    Distribute(target, rate, t);
    var m, excess, part := ByRate(cfg, rate), rate - target, f - target * t;
    assert excess * t == part;
    if rate <= target {
      assert part == 0.0 && m - cfg.minMultiplier == 0.0;
      Zero(cfg.targetSuccess * t);
      Zero(width);
    } else {
      MultiplierPast(cfg, rate);
      Cross(Excess(cfg, rate), cfg.targetSuccess, excess, t, width);
      assert m - cfg.minMultiplier == Product(Excess(cfg, rate), width);
    }
  }

  lemma Zero(x: real)
    ensures 0.0 * x == 0.0
  {
  }

  lemma MultiplierPast(cfg: Settings, rate: real)
    requires cfg.Valid() && cfg.TargetFailure() < rate <= 1.0
    ensures Excess(cfg, rate) * cfg.targetSuccess == rate - cfg.TargetFailure()
    ensures ByRate(cfg, rate) == cfg.minMultiplier + Product(Excess(cfg, rate), cfg.maxMultiplier - cfg.minMultiplier)
  {
    QuotientTimes(rate - cfg.TargetFailure(), cfg.targetSuccess);
    hide Quotient, Blend, Product;
    ExcessOrder(cfg, rate, 1.0);
    ExcessOrder(cfg, cfg.TargetFailure(), rate);
    BlendInside(cfg, Excess(cfg, rate));
  }

  /** Between the ends nothing is cut off. */
  lemma BlendInside(cfg: Settings, frac: real)
    requires cfg.Valid() && 0.0 <= frac <= 1.0
    ensures Blend(cfg, frac) == cfg.minMultiplier + Product(frac, cfg.maxMultiplier - cfg.minMultiplier)
  {
    hide Product;
    MulMonotone(0.0, frac, cfg.maxMultiplier - cfg.minMultiplier);
    MulMonotone(frac, 1.0, cfg.maxMultiplier - cfg.minMultiplier);
  }

  lemma Cross(frac: real, share: real, excess: real, t: real, width: real)
    requires frac * share == excess
    ensures Product(frac, width) * (share * t) == (excess * t) * width
  {
    calc {
      Product(frac, width) * (share * t);
      ((frac * share) * t) * width;
      (excess * t) * width;
    }
  }

  /** Every sample of s was a full window old at some reading. */
  ghost predicate AllStale(cfg: Settings, ops: seq<Op>, s: seq<Sample>) {
    forall i :: 0 <= i < |s| ==> Stale(cfg, ops, s[i])
  }

  ghost predicate Stale(cfg: Settings, ops: seq<Op>, x: Sample) {
    exists m :: 0 <= m < |ops| && x.at <= ops[m].now - cfg.windowS
  }

  lemma StaleLater(cfg: Settings, ops: seq<Op>, op: Op, s: seq<Sample>)
    requires AllStale(cfg, ops, s)
    ensures AllStale(cfg, ops + [op], s)
  {
    forall i | 0 <= i < |s| ensures Stale(cfg, ops + [op], s[i]) {
      assert Stale(cfg, ops, s[i]);
      var m :| 0 <= m < |ops| && s[i].at <= ops[m].now - cfg.windowS;
      assert (ops + [op])[m] == ops[m];
    }
  }

  lemma PrunedIsStale(cfg: Settings, ops: seq<Op>, op: Op, s: seq<Sample>)
    requires forall i :: 0 <= i < |s| ==> s[i].at <= op.now - cfg.windowS
    ensures AllStale(cfg, ops + [op], s)
  {
    assert (ops + [op])[|ops|] == op;
  }

  /** The queue is the log without a stale prefix. */
  ghost predicate SuffixOf(cfg: Settings, ops: seq<Op>, queue: seq<Sample>, log: seq<Sample>, dropped: nat) {
    dropped <= |log| && queue == log[dropped..] && AllStale(cfg, ops, log[..dropped])
  }

  lemma SuffixStep(cfg: Settings, ops: seq<Op>, op: Op, queue: seq<Sample>, log: seq<Sample>, added: seq<Sample>, earlier: nat)
    returns (dropped: nat)
    requires SuffixOf(cfg, ops, queue, log, earlier)
    ensures SuffixOf(cfg, ops + [op], Prune(queue + added, Stamp, op.now - cfg.windowS), log + added, dropped)
  {
    hide AllStale, Prune;
    var grown := queue + added;
    var k := PruneDropsPrefix(grown, Stamp, op.now - cfg.windowS);
    dropped := earlier + k;
    assert grown == (log + added)[earlier..];
    assert grown[k..] == (log + added)[dropped..];
    assert (log + added)[..dropped] == log[..earlier] + grown[..k];
    StaleLater(cfg, ops, op, log[..earlier]);
    forall i | 0 <= i < k ensures grown[..k][i].at <= op.now - cfg.windowS {
      assert Stamp(grown[i]) <= op.now - cfg.windowS;
    }
    PrunedIsStale(cfg, ops, op, grown[..k]);
    StaleConcat(cfg, ops + [op], log[..earlier], grown[..k]);
  }

  lemma StaleConcat(cfg: Settings, ops: seq<Op>, a: seq<Sample>, b: seq<Sample>)
    requires AllStale(cfg, ops, a) && AllStale(cfg, ops, b)
    ensures AllStale(cfg, ops, a + b)
  {
  }

  /**
   * In whatever order the readings came, the deque is the full log without a prefix, every sample
   * of which was a full window old at some reading.
   */
  lemma {:induction false} QueueIsLogSuffix(cfg: Settings, ops: seq<Op>) returns (dropped: nat)
    ensures SuffixOf(cfg, ops, Queue(cfg, ops), Log(ops), dropped)
  {
    hide AllStale, Prune;
    if ops == [] {
      NothingStale(cfg);
      return 0;
    }
    var init, op := ops[..|ops| - 1], ops[|ops| - 1];
    var earlier := QueueIsLogSuffix(cfg, init);
    var added := if op.Record? then [Sample(op.now, op.success)] else [];
    assert ops == init + [op] && Queue(cfg, init) + [] == Queue(cfg, init);
    dropped := SuffixStep(cfg, init, op, Queue(cfg, init), Log(init), added, earlier);
  }

  lemma NothingStale(cfg: Settings)
    ensures AllStale(cfg, [], [])
  {
  }

  /** The deque as moves of a queue: a sample is never dropped by its own reading. */
  function Moves(cfg: Settings, ops: seq<Op>): seq<Move<Sample>> {
    if ops == [] then []
    else
      var op := ops[|ops| - 1];
      Moves(cfg, ops[..|ops| - 1])
      + [Move(op.now - cfg.windowS, if op.Record? then [Sample(op.now, op.success)] else [])]
  }

  lemma {:induction false} MovesAre(cfg: Settings, ops: seq<Op>)
    requires cfg.windowS > 0.0
    ensures |Moves(cfg, ops)| == |ops|
    ensures Kept(Moves(cfg, ops), Stamp) == Queue(cfg, ops) && Given(Moves(cfg, ops)) == Log(ops)
    ensures forall m :: 0 <= m < |ops| ==> Moves(cfg, ops)[m].cutoff == ops[m].now - cfg.windowS
  {
    hide Prune;
    if ops != [] {
      var init, op := ops[..|ops| - 1], ops[|ops| - 1];
      MovesAre(cfg, init);
      assert Moves(cfg, ops)[..|ops| - 1] == Moves(cfg, init);
      if op.Record? {
        PruneSnoc(Queue(cfg, init), Sample(op.now, op.success), Stamp, op.now - cfg.windowS);
      }
    }
  }

  lemma {:induction false} MovesPrefix(cfg: Settings, ops: seq<Op>, m: nat)
    requires cfg.windowS > 0.0 && m <= |ops|
    ensures m <= |Moves(cfg, ops)| && Moves(cfg, ops)[..m] == Moves(cfg, ops[..m])
    decreases |ops|
  {
    MovesAre(cfg, ops);
    if m < |ops| {
      assert ops[..|ops| - 1][..m] == ops[..m];
      MovesPrefix(cfg, ops[..|ops| - 1], m);
    } else {
      assert ops[..m] == ops;
    }
  }

  /** Some operation performed after the i-th sample was recorded read a time a full window past it. */
  ghost predicate SampleExpired(cfg: Settings, ops: seq<Op>, i: nat)
    requires i < |Log(ops)|
  {
    exists m :: 0 <= m < |ops| && i < |Log(ops[..m])| && Log(ops)[i].at <= ops[m].now - cfg.windowS
  }

  /** The first d samples have expired and the one after them has not. */
  ghost predicate SamplesExpired(cfg: Settings, ops: seq<Op>, d: nat) {
    && d <= |Log(ops)|
    && (forall i :: 0 <= i < d ==> SampleExpired(cfg, ops, i))
    && (d < |Log(ops)| ==> !SampleExpired(cfg, ops, d))
  }

  lemma ExpiredIsSampleExpired(cfg: Settings, ops: seq<Op>, i: nat)
    requires cfg.windowS > 0.0 && i < |Log(ops)|
    ensures |Given(Moves(cfg, ops))| == |Log(ops)|
    ensures Expired(Moves(cfg, ops), Stamp, i) <==> SampleExpired(cfg, ops, i)
  {
    hide Log, Queue, Moves, Given;
    MovesAre(cfg, ops);
    forall m | 0 <= m < |ops| ensures Given(Moves(cfg, ops)[..m]) == Log(ops[..m]) {
      MovesPrefix(cfg, ops, m);
      MovesAre(cfg, ops[..m]);
    }
    assert Stamp(Log(ops)[i]) == Log(ops)[i].at;
    if Expired(Moves(cfg, ops), Stamp, i) {
      var m :| 0 <= m < |ops| && i < |Given(Moves(cfg, ops)[..m])| && Stamp(Log(ops)[i]) <= Moves(cfg, ops)[m].cutoff;
      assert i < |Log(ops[..m])|;
    }
    if SampleExpired(cfg, ops, i) {
      var m :| 0 <= m < |ops| && i < |Log(ops[..m])| && Log(ops)[i].at <= ops[m].now - cfg.windowS;
      assert i < |Given(Moves(cfg, ops)[..m])|;
    }
  }

  /**
   * In whatever order readings come, a query sees the full log without its leading samples that the
   * readings so far and its own have expired.
   */
  lemma SeenExactly(cfg: Settings, ops: seq<Op>, now: real) returns (d: nat)
    requires cfg.windowS > 0.0
    ensures Log(ops + [Query(now)]) == Log(ops)
    ensures SamplesExpired(cfg, ops + [Query(now)], d) && Seen(cfg, ops, now) == Log(ops)[d..]
  {
    var asked := ops + [Query(now)];
    assert asked[..|asked| - 1] == ops;
    assert Queue(cfg, asked) == Seen(cfg, ops, now) && Log(asked) == Log(ops);
    hide Log, Queue, Moves, Given, Kept, Expired, SampleExpired, Seen;
    MovesAre(cfg, asked);
    d := KeptExactly(Moves(cfg, asked), Stamp);
    forall i | 0 <= i <= d && i < |Log(asked)|
      ensures Expired(Moves(cfg, asked), Stamp, i) <==> SampleExpired(cfg, asked, i)
    {
      ExpiredIsSampleExpired(cfg, asked, i);
    }
  }

  lemma RateTest(f: real, t: real, target: real)
    requires t > 0.0
    ensures Quotient(f, t) <= target <==> f <= target * t
  {
    WholeQuotients();
    hide Quotient;
    CompareQuotients(target, 1.0, f, t);
  }

  lemma BeforeQuery(ops: seq<Op>, last: Op)
    requires ReadingsOrdered(ops + [last])
    ensures ReadingsOrdered(ops) && forall i :: 0 <= i < |ops| ==> ops[i].now <= last.now
  {
    var all := ops + [last];
    forall i, j | 0 <= i < j < |ops| ensures ops[i].now <= ops[j].now {
      assert all[i] == ops[i] && all[j] == ops[j];
    }
    forall i | 0 <= i < |ops| ensures ops[i].now <= last.now {
      assert all[i] == ops[i] && all[|ops|] == last;
    }
  }

  /** What a query finds after one more sample that was not recorded later than the query reads. */
  lemma SeenOneMore(cfg: Settings, ops: seq<Op>, t: real, success: bool, now: real)
    requires t <= now
    ensures var seen, more := Seen(cfg, ops, now), Seen(cfg, ops + [Record(t, success)], now);
            more == seen || more == seen + [Sample(t, success)]
  {
    var longer, x := ops + [Record(t, success)], Sample(t, success);
    assert longer[..|ops|] == ops;
    PruneTwice(Queue(cfg, ops) + [x], Stamp, t - cfg.windowS, now - cfg.windowS);
    PruneSnoc(Queue(cfg, ops), x, Stamp, now - cfg.windowS);
  }

  /** One more success does not raise the multiplier; one more failure does not lower it. */
  ghost predicate MovesTheRightWay(cfg: Settings, ops: seq<Op>, t: real, success: bool, now: real) {
    var before, after := MultiplierAt(cfg, ops, now), MultiplierAt(cfg, ops + [Record(t, success)], now);
    if success then after <= before else before <= after
  }

  /**
   * After every history, whatever the order of its readings, recording one more success never raises
   * the multiplier and one more failure never lowers it.
   */
  lemma OneMoreSample(cfg: Settings, ops: seq<Op>, t: real, success: bool, now: real)
    requires cfg.Valid() && t <= now
    ensures MovesTheRightWay(cfg, ops, t, success, now)
  {
    hide Queue, Prune, Scale;
    var seen, x := Seen(cfg, ops, now), Sample(t, success);
    SeenOneMore(cfg, ops, t, success, now);
    FailuresConcat(seen, [x]);
    FailuresAtMostAll(seen);
    ScaleMonotone(cfg, Failures(seen), |seen|);
    assert [x][1..] == [];
  }

  /** Many failures stamped one window before t, then a success in between. */
  function Setback(cfg: Settings, t: real, k: nat): seq<Op> {
    seq(k, _ => Record(t - cfg.windowS, false)) + [Record(t - cfg.windowS / 2.0, true)]
  }

  lemma {:induction false} PruneKeeps(s: seq<Sample>, cutoff: real)
    requires s == [] || s[0].at > cutoff
    ensures Prune(s, Stamp, cutoff) == s
  {
  }

  lemma {:induction false} PruneDropsAll(k: nat, at: real, rest: seq<Sample>, cutoff: real)
    requires at <= cutoff
    ensures Prune(seq(k, _ => Sample(at, false)) + rest, Stamp, cutoff) == Prune(rest, Stamp, cutoff)
  {
    var s := seq(k, _ => Sample(at, false)) + rest;
    if k == 0 {
      assert s == rest;
    } else {
      assert s[1..] == seq(k - 1, _ => Sample(at, false)) + rest;
      PruneDropsAll(k - 1, at, rest, cutoff);
    }
  }

  lemma {:induction false} QueueOfFailures(cfg: Settings, at: real, k: nat)
    requires cfg.windowS > 0.0
    ensures Queue(cfg, seq(k, _ => Record(at, false))) == seq(k, _ => Sample(at, false))
  {
    if k > 0 {
      var ops := seq(k, _ => Record(at, false));
      assert ops[..k - 1] == seq(k - 1, _ => Record(at, false));
      QueueOfFailures(cfg, at, k - 1);
      assert seq(k - 1, _ => Sample(at, false)) + [Sample(at, false)] == seq(k, _ => Sample(at, false));
      PruneKeeps(seq(k, _ => Sample(at, false)), at - cfg.windowS);
    }
  }

  lemma {:induction false} FailuresOfFailures(at: real, k: nat)
    ensures Failures(seq(k, _ => Sample(at, false))) == k
  {
    if k > 0 {
      assert seq(k, _ => Sample(at, false))[1..] == seq(k - 1, _ => Sample(at, false));
      FailuresOfFailures(at, k - 1);
    }
  }

  /** What a query finds before and after a failure recorded at t, when it reads an earlier time. */
  lemma SetbackSeen(cfg: Settings, t: real, now: real, k: nat)
    requires cfg.windowS > 0.0 && now < t && k > 0
    ensures var seen := Seen(cfg, Setback(cfg, t, k), now);
            Failures(seen) == k && |seen| == k + 1
    ensures var seen := Seen(cfg, Setback(cfg, t, k) + [Record(t, false)], now);
            Failures(seen) == 1 && |seen| == 2
  {
    hide Prune;
    var first, mid, w := t - cfg.windowS, t - cfg.windowS / 2.0, cfg.windowS;
    var failures, success, failure := seq(k, _ => Sample(first, false)), Sample(mid, true), Sample(t, false);
    var ops := Setback(cfg, t, k);
    var longer := ops + [Record(t, false)];
    assert ops[..|ops| - 1] == seq(k, _ => Record(first, false));
    assert longer[..|longer| - 1] == ops;
    QueueOfFailures(cfg, first, k);
    PruneKeeps(failures + [success], mid - w);
    assert Queue(cfg, ops) == failures + [success];
    PruneKeeps(failures + [success], now - w);
    FailuresConcat(failures, [success]);
    FailuresOfFailures(first, k);
    assert [success][1..] == [] && [success, failure][1..] == [failure] && [failure][1..] == [];
    assert (failures + [success]) + [failure] == failures + [success, failure];
    PruneDropsAll(k, first, [success, failure], t - w);
    PruneKeeps([success, failure], t - w);
    assert Queue(cfg, longer) == [success, failure];
    PruneKeeps([success, failure], now - w);
  }

  lemma ByRateStrict(cfg: Settings, rate: real, rate': real)
    requires cfg.Valid() && cfg.minMultiplier < cfg.maxMultiplier
    requires 0.0 <= rate < rate' <= 1.0 && rate' > cfg.TargetFailure()
    ensures ByRate(cfg, rate) < ByRate(cfg, rate')
  {
    hide Blend, Excess, Quotient;
    ByRateRange(cfg, rate');
    if rate > cfg.TargetFailure() {
      ExcessOrder(cfg, rate, rate');
      ExcessOrder(cfg, rate', 1.0);
      ExcessOrder(cfg, cfg.TargetFailure(), rate);
      BlendOrder(cfg, Excess(cfg, rate), Excess(cfg, rate'));
    }
  }

  /** Enough failures to be past the target with one success among them. */
  function Enough(cfg: Settings): (k: nat)
    requires cfg.Valid()
    ensures k >= 2 && Product(cfg.TargetFailure(), k as real + 1.0) < k as real
  {
    var share := Quotient(1.0, cfg.targetSuccess);
    QuotientTimes(1.0, cfg.targetSuccess);
    EnoughOf(cfg.targetSuccess, share, share.Floor + 1);
    share.Floor + 1
  }

  lemma EnoughOf(target: real, share: real, k: int)
    requires 0.0 < target <= 1.0 && share * target == 1.0 && k == share.Floor + 1
    ensures k >= 2 && (1.0 - target) * (k as real + 1.0) < k as real
  {
    if share < 1.0 { MulOrder(share, 1.0, target); }
    var n := k as real + 1.0;
    MulOrder(share, n, target);
    Distribute(target, 1.0, n);
  }

  lemma SetbackLowers(cfg: Settings, t: real, now: real)
    requires cfg.Valid() && cfg.minMultiplier < cfg.maxMultiplier && now < t
    ensures !MovesTheRightWay(cfg, Setback(cfg, t, Enough(cfg)), t, false, now)
  {
    hide ByRate, Quotient, Setback;
    var k := Enough(cfg);
    SetbackSeen(cfg, t, now, k);
    RateInUnit(1, 2);
    RateInUnit(k, k + 1);
    CompareQuotients(1.0, 2.0, k as real, (k + 1) as real);
    WholeQuotients();
    CompareQuotients(cfg.TargetFailure(), 1.0, k as real, (k + 1) as real);
    ByRateStrict(cfg, Quotient(1.0, 2.0), Quotient(k as real, (k + 1) as real));
  }

  /**
   * And that is as far as it goes: every history answers to one more sample at t the right way
   * exactly when the query does not read a time before t, unless the multiplier is fixed anyway.
   */
  lemma OneMoreSampleExactly(cfg: Settings, t: real, now: real)
    requires cfg.Valid()
    ensures (forall ops, success :: MovesTheRightWay(cfg, ops, t, success, now))
            <==> t <= now || cfg.minMultiplier == cfg.maxMultiplier
  {
    hide MovesTheRightWay;
    if t <= now {
      forall ops, success ensures MovesTheRightWay(cfg, ops, t, success, now) {
        OneMoreSample(cfg, ops, t, success, now);
      }
    } else if cfg.minMultiplier == cfg.maxMultiplier {
      forall ops, success ensures MovesTheRightWay(cfg, ops, t, success, now) {
        FixedMultiplier(cfg, ops, t, success, now);
      }
    } else {
      SetbackLowers(cfg, t, now);
    }
  }

  lemma FixedMultiplier(cfg: Settings, ops: seq<Op>, t: real, success: bool, now: real)
    requires cfg.Valid() && cfg.minMultiplier == cfg.maxMultiplier
    ensures MovesTheRightWay(cfg, ops, t, success, now)
  {
    hide MultiplierAt, Seen, ReadingsOrdered;
    MultiplierLaw(cfg, ops, now);
    MultiplierLaw(cfg, ops + [Record(t, success)], now);
  }

  // ---------------------------------------------------------------- the object

  class AdaptiveStrategy {
    const cfg: Settings
    var events: seq<Sample>
    ghost var history: seq<Op>

    ghost predicate Valid() reads this {
      events == Queue(cfg, history)
    }

    constructor (cfg: Settings)
      ensures Valid() && this.cfg == cfg && history == []
    {
      this.cfg := cfg;
      events, history := [], [];
    }

    method PruneEvents(now: real)
      modifies this`events
      ensures events == Prune(old(events), Stamp, now - cfg.windowS)
    {
      var cutoff := now - cfg.windowS;
      while events != [] && events[0].at <= cutoff
        invariant Prune(events, Stamp, cutoff) == Prune(old(events), Stamp, cutoff)
        decreases |events|
      {
        events := events[1..];
      }
    }

    method RecordSample(success: bool, now: real)
      requires Valid()
      modifies this
      ensures Valid() && history == old(history) + [Record(now, success)]
    {
      history := history + [Record(now, success)];
      assert history[..|history| - 1] == old(history);
      events := events + [Sample(now, success)];
      PruneEvents(now);
    }

    method Multiplier(now: real) returns (m: real)
      requires Valid()
      modifies this
      ensures Valid() && history == old(history) + [Query(now)]
      ensures m == MultiplierAt(cfg, old(history), now)
    {
      history := history + [Query(now)];
      assert history[..|history| - 1] == old(history);
      PruneEvents(now);
      var total := |events|;
      if total == 0 {
        return cfg.minMultiplier;
      }
      var failures := 0;
      for i := 0 to |events|
        invariant failures + Failures(events[i..]) == Failures(events)
        invariant failures <= i
      {
        assert events[i..][1..] == events[i + 1..];
        if !events[i].success { failures := failures + 1; }
      }
      var rate := failures as real / total as real;
      var targetFailure := 1.0 - cfg.targetSuccess;
      if rate <= targetFailure {
        return cfg.minMultiplier;
      }
      if targetFailure >= 1.0 {
        return cfg.maxMultiplier;
      }
      var frac := (rate - targetFailure) / (1.0 - targetFailure);
      return Min(cfg.maxMultiplier,
               Max(cfg.minMultiplier, cfg.minMultiplier + frac * (cfg.maxMultiplier - cfg.minMultiplier)));
    }
  }
}
