/**
 * Budget: a limit on retry tokens per rolling window, shared by many executions.
 *
 * `consume` and `remaining` read the clock before they take the lock, so in lock order the
 * readings can run backwards.  An operation below carries the reading its caller brought; a list
 * of operations is in lock order.
 */
module Budgets {
  import opened Basics
  import opened RollingWindow

  datatype Limits = Limits(maxRetries: nat, windowS: real)

  datatype Op =
    | Consume(now: real, cost: nat)
    | Remaining(now: real)

  datatype Answer =
    | Granted
    | Refused
    | InvalidCost

  /** The queue an operation sees after pruning at its own reading. */
  function Pruned(lim: Limits, queue: seq<real>, now: real): seq<real> {
    Prune(queue, Instant, now - lim.windowS)
  }

  predicate Grants(lim: Limits, queue: seq<real>, op: Op) {
    op.Consume? && |Pruned(lim, queue, op.now)| + op.cost <= lim.maxRetries
  }

  /** The tokens an operation adds, each stamped with its reading. */
  function Tokens(lim: Limits, queue: seq<real>, op: Op): seq<real> {
    if Grants(lim, queue, op) then Repeat(op.now, op.cost) else []
  }

  /** The queue a run of operations leaves behind. */
  function Queue(lim: Limits, ops: seq<Op>): seq<real> {
    if ops == [] then []
    else
      var before := Queue(lim, ops[..|ops| - 1]);
      var op := ops[|ops| - 1];
      Pruned(lim, before, op.now) + Tokens(lim, before, op)
  }

  /** Every token a run has granted, never pruned. */
  function GrantLog(lim: Limits, ops: seq<Op>): seq<real> {
    if ops == [] then []
    else
      GrantLog(lim, ops[..|ops| - 1]) + Tokens(lim, Queue(lim, ops[..|ops| - 1]), ops[|ops| - 1])
  }

  /** No reading lags a reading that was locked earlier by more than `lag`. */
  ghost predicate LagAtMost(ops: seq<Op>, lag: real) {
    forall i, j :: 0 <= i < j < |ops| ==> ops[i].now - lag <= ops[j].now
  }

  lemma LagOfPrefix(ops: seq<Op>, lag: real)
    requires ops != [] && LagAtMost(ops, lag)
    ensures LagAtMost(ops[..|ops| - 1], lag)
    ensures forall i :: 0 <= i < |ops| - 1 ==> ops[i].now - lag <= ops[|ops| - 1].now
  {
  }

  // ---------------------------------------------------------------- readings out of order

  /** A stamp is stale once some reading is a full window past it. */
  ghost predicate Stale(lim: Limits, ops: seq<Op>, t: real) {
    exists m :: 0 <= m < |ops| && t <= ops[m].now - lim.windowS
  }

  ghost predicate AllStale(lim: Limits, ops: seq<Op>, s: seq<real>) {
    forall i :: 0 <= i < |s| ==> Stale(lim, ops, s[i])
  }

  /** The queue is the log without a stale prefix, and within the limit. */
  ghost predicate SuffixOf(lim: Limits, ops: seq<Op>, queue: seq<real>, log: seq<real>, dropped: nat) {
    && dropped <= |log|
    && queue == log[dropped..]
    && |queue| <= lim.maxRetries
    && AllStale(lim, ops, log[..dropped])
  }

  lemma StaleLater(lim: Limits, ops: seq<Op>, op: Op, s: seq<real>)
    requires AllStale(lim, ops, s)
    ensures AllStale(lim, ops + [op], s)
  {
    forall i | 0 <= i < |s| ensures Stale(lim, ops + [op], s[i]) {
      var m :| 0 <= m < |ops| && s[i] <= ops[m].now - lim.windowS;
      assert (ops + [op])[m] == ops[m];
    }
  }

  lemma PrunedIsStale(lim: Limits, ops: seq<Op>, op: Op, s: seq<real>)
    requires forall i :: 0 <= i < |s| ==> s[i] <= op.now - lim.windowS
    ensures AllStale(lim, ops + [op], s)
  {
    assert (ops + [op])[|ops|] == op;
  }

  lemma SuffixStep(lim: Limits, ops: seq<Op>, op: Op, queue: seq<real>, log: seq<real>, earlier: nat)
    returns (dropped: nat)
    requires SuffixOf(lim, ops, queue, log, earlier)
    ensures var tokens := Tokens(lim, queue, op);
            SuffixOf(lim, ops + [op], Pruned(lim, queue, op.now) + tokens, log + tokens, dropped)
  {
    var tokens := Tokens(lim, queue, op);
    var k := PruneDropsPrefix(queue, Instant, op.now - lim.windowS);
    forall i | 0 <= i < k ensures queue[..k][i] <= op.now - lim.windowS {
      assert Instant(queue[i]) <= op.now - lim.windowS;
    }
    dropped := earlier + k;
    assert queue[k..] == log[dropped..];
    assert (log + tokens)[dropped..] == log[dropped..] + tokens;
    assert (log + tokens)[..dropped] == log[..earlier] + queue[..k];
    StaleLater(lim, ops, op, log[..earlier]);
    PrunedIsStale(lim, ops, op, queue[..k]);
  }

  /**
   * The queue is always a suffix of the grant log, never longer than the limit, and whatever was
   * dropped was a full window older than some reading.
   */
  lemma {:induction false} QueueIsLogSuffix(lim: Limits, ops: seq<Op>) returns (dropped: nat)
    ensures SuffixOf(lim, ops, Queue(lim, ops), GrantLog(lim, ops), dropped)
  {
    if ops == [] {
      dropped := 0;
    } else {
      var init, op := ops[..|ops| - 1], ops[|ops| - 1];
      var earlier := QueueIsLogSuffix(lim, init);
      assert ops == init + [op];
      dropped := SuffixStep(lim, init, op, Queue(lim, init), GrantLog(lim, init), earlier);
    }
  }

  /** If the last reading falls in a window shorter by the lag, only the queue counts there. */
  lemma WindowIsInQueue(lim: Limits, ops: seq<Op>, lag: real, lo: real,
                        queue: seq<real>, log: seq<real>, dropped: nat)
    requires ops != [] && LagAtMost(ops, lag) && SuffixOf(lim, ops, queue, log, dropped)
    requires 0.0 <= lag && ops[|ops| - 1].now <= lo + (lim.windowS - lag)
    ensures CountIn(log, lo, lo + (lim.windowS - lag)) <= lim.maxRetries
  {
    var hi := lo + (lim.windowS - lag);
    assert log == log[..dropped] + log[dropped..];
    CountInConcat(log[..dropped], log[dropped..], lo, hi);
    forall i | 0 <= i < dropped ensures !(lo < log[..dropped][i] <= hi) {
      assert Stale(lim, ops, log[..dropped][i]);
      var m :| 0 <= m < |ops| && log[..dropped][i] <= ops[m].now - lim.windowS;
      assert ops[m].now - lag <= ops[|ops| - 1].now;
    }
    CountInNone(log[..dropped], lo, hi);
    CountInAtMostLength(log[dropped..], lo, hi);
  }

  /**
   * Readings that lag by at most `lag` keep the limit on every window shorter by that much.
   */
  lemma {:induction false} LaggedWindowBound(lim: Limits, ops: seq<Op>, lag: real, lo: real)
    requires 0.0 <= lag && LagAtMost(ops, lag)
    ensures CountIn(GrantLog(lim, ops), lo, lo + (lim.windowS - lag)) <= lim.maxRetries
  {
    if ops != [] {
      var hi := lo + (lim.windowS - lag);
      var init, op := ops[..|ops| - 1], ops[|ops| - 1];
      if lo < op.now <= hi {
        var dropped := QueueIsLogSuffix(lim, ops);
        WindowIsInQueue(lim, ops, lag, lo, Queue(lim, ops), GrantLog(lim, ops), dropped);
      } else {
        LagOfPrefix(ops, lag);
        LaggedWindowBound(lim, init, lag, lo);
        var tokens := Tokens(lim, Queue(lim, init), op);
        CountInNone(tokens, lo, hi);
        CountInConcat(GrantLog(lim, init), tokens, lo, hi);
      }
    }
  }

  /** A run that grants one token too many in a window only slightly longer than the bound above. */
  function LaggingRun(lim: Limits, lag: real): seq<Op> {
    var shift := Min(lag, lim.windowS);
    [Consume(0.0, lim.maxRetries), Remaining(lim.windowS), Consume(lim.windowS - shift, 1)]
  }

  lemma {:induction false} PruneOfRepeat(t: real, n: nat, cutoff: real)
    ensures Prune(Repeat(t, n), Instant, cutoff) == if t <= cutoff then [] else Repeat(t, n)
  {
    if n > 0 && t <= cutoff {
      assert Repeat(t, n)[1..] == Repeat(t, n - 1);
      PruneOfRepeat(t, n - 1, cutoff);
    }
  }

  lemma LaggingRunGrantsAll(lim: Limits, lag: real)
    requires lim.windowS > 0.0 && lim.maxRetries >= 1 && 0.0 <= lag
    ensures LagAtMost(LaggingRun(lim, lag), lag)
    ensures GrantLog(lim, LaggingRun(lim, lag))
         == Repeat(0.0, lim.maxRetries) + [lim.windowS - Min(lag, lim.windowS)]
  {
    var ops := LaggingRun(lim, lag);
    var first := ops[..1];
    var second := ops[..2];
    assert first == [ops[0]] && first[..0] == [];
    assert second[..1] == first && ops[..|ops| - 1] == second;
    assert Queue(lim, []) == [] && GrantLog(lim, []) == [];
    assert Queue(lim, first) == Repeat(0.0, lim.maxRetries);
    assert GrantLog(lim, first) == Repeat(0.0, lim.maxRetries);
    PruneOfRepeat(0.0, lim.maxRetries, 0.0);
    assert Queue(lim, second) == [];
    assert GrantLog(lim, second) == Repeat(0.0, lim.maxRetries);
    assert Tokens(lim, [], ops[2]) == [ops[2].now];
  }

  ghost predicate WindowHolds(lim: Limits, ops: seq<Op>, lo: real, length: real) {
    CountIn(GrantLog(lim, ops), lo, lo + length) <= lim.maxRetries
  }

  lemma {:induction false} NoRetriesNoGrants(lim: Limits, ops: seq<Op>)
    requires lim.maxRetries == 0
    ensures GrantLog(lim, ops) == []
  {
    if ops != [] { NoRetriesNoGrants(lim, ops[..|ops| - 1]); }
  }

  /**
   * What a caller may rely on when readings can lag: unless the limit is zero, exactly the windows
   * no longer than `windowS - lag` hold at most `maxRetries` tokens in every run.
   */
  lemma WindowGuarantee(lim: Limits, lag: real, length: real)
    requires lim.windowS > 0.0 && 0.0 <= lag
    ensures (forall ops, lo :: LagAtMost(ops, lag) ==> WindowHolds(lim, ops, lo, length))
        <==> lim.maxRetries == 0 || length <= Max(0.0, lim.windowS - lag)
  {
    if lim.maxRetries == 0 {
      forall ops, lo | LagAtMost(ops, lag) ensures WindowHolds(lim, ops, lo, length) {
        NoRetriesNoGrants(lim, ops);
      }
    } else if length <= Max(0.0, lim.windowS - lag) {
      forall ops, lo | LagAtMost(ops, lag) ensures WindowHolds(lim, ops, lo, length) {
        if length <= 0.0 {
          CountInNone(GrantLog(lim, ops), lo, lo + length);
        } else {
          LaggedWindowBound(lim, ops, lag, lo);
          CountInShorter(GrantLog(lim, ops), lo, lo + length, lo + (lim.windowS - lag));
        }
      }
    } else {
      var lo := LaggingRunOverflows(lim, lag, length);
      assert LagAtMost(LaggingRun(lim, lag), lag);
    }
  }

  lemma LaggingRunOverflows(lim: Limits, lag: real, length: real) returns (lo: real)
    requires lim.windowS > 0.0 && lim.maxRetries >= 1 && 0.0 <= lag
    requires length > Max(0.0, lim.windowS - lag)
    ensures LagAtMost(LaggingRun(lim, lag), lag) && !WindowHolds(lim, LaggingRun(lim, lag), lo, length)
  {
    var late := lim.windowS - Min(lag, lim.windowS);
    lo := late - length;
    LaggingRunGrantsAll(lim, lag);
    CountInConcat(Repeat(0.0, lim.maxRetries), [late], lo, lo + length);
    CountInAll(Repeat(0.0, lim.maxRetries), lo, lo + length);
    assert CountIn([late], lo, lo + length) == 1 + CountIn([late][1..], lo, lo + length);
  }

  lemma {:induction false} CountInShorter(s: seq<real>, lo: real, hi: real, hi': real)
    requires hi <= hi'
    ensures CountIn(s, lo, hi) <= CountIn(s, lo, hi')
  {
    if s != [] { CountInShorter(s[1..], lo, hi, hi'); }
  }

  // ---------------------------------------------------------------- exactly what is granted

  /** The budget as moves of its queue. */
  function Moves(lim: Limits, ops: seq<Op>): seq<Move<real>> {
    if ops == [] then []
    else
      var init, op := ops[..|ops| - 1], ops[|ops| - 1];
      Moves(lim, init) + [Move(op.now - lim.windowS, Tokens(lim, Queue(lim, init), op))]
  }

  lemma {:induction false} MovesAre(lim: Limits, ops: seq<Op>)
    ensures |Moves(lim, ops)| == |ops|
    ensures Kept(Moves(lim, ops), Instant) == Queue(lim, ops) && Given(Moves(lim, ops)) == GrantLog(lim, ops)
    ensures forall m :: 0 <= m < |ops| ==> Moves(lim, ops)[m].cutoff == ops[m].now - lim.windowS
  {
    hide Tokens;
    if ops != [] {
      MovesAre(lim, ops[..|ops| - 1]);
      assert Moves(lim, ops)[..|ops| - 1] == Moves(lim, ops[..|ops| - 1]);
    }
  }

  lemma {:induction false} MovesPrefix(lim: Limits, ops: seq<Op>, m: nat)
    requires m <= |ops|
    ensures m <= |Moves(lim, ops)| && Moves(lim, ops)[..m] == Moves(lim, ops[..m])
    decreases |ops|
  {
    hide Tokens;
    MovesAre(lim, ops);
    if m < |ops| {
      assert ops[..|ops| - 1][..m] == ops[..m];
      MovesPrefix(lim, ops[..|ops| - 1], m);
    } else {
      assert ops[..m] == ops;
    }
  }

  /** Some operation performed after the i-th token was granted read a time a full window past it. */
  ghost predicate TokenExpired(lim: Limits, ops: seq<Op>, i: nat)
    requires i < |GrantLog(lim, ops)|
  {
    exists m :: 0 <= m < |ops| && i < |GrantLog(lim, ops[..m])| && GrantLog(lim, ops)[i] <= ops[m].now - lim.windowS
  }

  /** The first d tokens have expired and the one after them has not. */
  ghost predicate TokensExpired(lim: Limits, ops: seq<Op>, d: nat) {
    && d <= |GrantLog(lim, ops)|
    && (forall i :: 0 <= i < d ==> TokenExpired(lim, ops, i))
    && (d < |GrantLog(lim, ops)| ==> !TokenExpired(lim, ops, d))
  }

  lemma ExpiredIsTokenExpired(lim: Limits, ops: seq<Op>, i: nat)
    requires i < |GrantLog(lim, ops)|
    ensures |Given(Moves(lim, ops))| == |GrantLog(lim, ops)|
    ensures Expired(Moves(lim, ops), Instant, i) <==> TokenExpired(lim, ops, i)
  {
    hide GrantLog, Queue, Moves, Given;
    MovesAre(lim, ops);
    forall m | 0 <= m < |ops| ensures Given(Moves(lim, ops)[..m]) == GrantLog(lim, ops[..m]) {
      MovesPrefix(lim, ops, m);
      MovesAre(lim, ops[..m]);
    }
    assert Instant(GrantLog(lim, ops)[i]) == GrantLog(lim, ops)[i];
    if Expired(Moves(lim, ops), Instant, i) {
      var m :| 0 <= m < |ops| && i < |Given(Moves(lim, ops)[..m])| && Instant(GrantLog(lim, ops)[i]) <= Moves(lim, ops)[m].cutoff;
      assert i < |GrantLog(lim, ops[..m])|;
    }
    if TokenExpired(lim, ops, i) {
      var m :| 0 <= m < |ops| && i < |GrantLog(lim, ops[..m])| && GrantLog(lim, ops)[i] <= ops[m].now - lim.windowS;
      assert i < |Given(Moves(lim, ops)[..m])|;
    }
  }

  /** In whatever order readings come, the queue is the grant log without its leading expired tokens. */
  lemma QueueExactly(lim: Limits, ops: seq<Op>) returns (d: nat)
    ensures TokensExpired(lim, ops, d) && Queue(lim, ops) == GrantLog(lim, ops)[d..]
  {
    hide GrantLog, Queue, Moves, Given, Kept, Expired, TokenExpired;
    MovesAre(lim, ops);
    d := KeptExactly(Moves(lim, ops), Instant);
    forall i | 0 <= i <= d && i < |GrantLog(lim, ops)|
      ensures Expired(Moves(lim, ops), Instant, i) <==> TokenExpired(lim, ops, i)
    {
      ExpiredIsTokenExpired(lim, ops, i);
    }
  }

  /**
   * Exactly when a request is granted, in whatever order readings come: with d leading tokens of the
   * grant log expired by the readings so far and the request's own, when the rest of the log and
   * the cost fit the limit.
   */
  lemma GrantedExactly(lim: Limits, ops: seq<Op>, now: real, cost: nat, d: nat)
    requires TokensExpired(lim, ops + [Remaining(now)], d)
    ensures GrantLog(lim, ops + [Remaining(now)]) == GrantLog(lim, ops)
    ensures |Pruned(lim, Queue(lim, ops), now)| == |GrantLog(lim, ops)| - d
    ensures Grants(lim, Queue(lim, ops), Consume(now, cost)) <==> |GrantLog(lim, ops)| - d + cost <= lim.maxRetries
  {
    hide TokenExpired, Prune;
    var asked := ops + [Remaining(now)];
    assert asked[..|asked| - 1] == ops;
    var lead := QueueExactly(lim, asked);
    assert lead == d;
  }

  // ---------------------------------------------------------------- readings in order

  lemma {:induction false} GrantsAreReadings(lim: Limits, ops: seq<Op>)
    ensures forall t :: t in GrantLog(lim, ops) ==> exists i :: 0 <= i < |ops| && ops[i].now == t
  {
    if ops != [] {
      var init, op := ops[..|ops| - 1], ops[|ops| - 1];
      GrantsAreReadings(lim, init);
      forall t | t in GrantLog(lim, ops) ensures exists i :: 0 <= i < |ops| && ops[i].now == t {
        if t in GrantLog(lim, init) {
          var i :| 0 <= i < |init| && init[i].now == t;
          assert ops[i].now == t;
        } else {
          assert t in Tokens(lim, Queue(lim, init), op);
          assert ops[|ops| - 1].now == t;
        }
      }
    }
  }

  lemma {:induction false} GrantLogOrdered(lim: Limits, ops: seq<Op>)
    requires LagAtMost(ops, 0.0)
    ensures Ordered(GrantLog(lim, ops), Instant)
    ensures ops != [] ==> UpTo(GrantLog(lim, ops), Instant, ops[|ops| - 1].now)
  {
    if ops != [] {
      var init, op := ops[..|ops| - 1], ops[|ops| - 1];
      LagOfPrefix(ops, 0.0);
      GrantLogOrdered(lim, init);
      GrantsAreReadings(lim, init);
      var log, all := GrantLog(lim, init), GrantLog(lim, ops);
      forall i | 0 <= i < |all| ensures Instant(all[i]) <= op.now {
        if i < |log| {
          assert all[i] == log[i] && log[i] in log;
          var m :| 0 <= m < |init| && init[m].now == log[i];
        }
      }
      forall i, j | 0 <= i < j < |all| ensures Instant(all[i]) <= Instant(all[j]) {
        if j < |log| {
          assert all[i] == log[i] && all[j] == log[j];
          assert Instant(log[i]) <= Instant(log[j]);
        } else {
          assert Instant(all[i]) <= op.now && all[j] == op.now;
        }
      }
    }
  }

  /** With ordered readings the queue is the grant log cut to the last reading's window. */
  lemma {:induction false} QueueRefinesLog(lim: Limits, ops: seq<Op>)
    requires lim.windowS > 0.0 && LagAtMost(ops, 0.0) && ops != []
    ensures Queue(lim, ops) == Since(GrantLog(lim, ops), Instant, ops[|ops| - 1].now - lim.windowS)
    decreases |ops|, 0
  {
    hide Since, CountIn, Prune, LagAtMost;
    var init, op := ops[..|ops| - 1], ops[|ops| - 1];
    var cutoff := op.now - lim.windowS;
    LagOfPrefix(ops, 0.0);
    PrunedRefinesLog(lim, init, op.now);
    var tokens := Tokens(lim, Queue(lim, init), op);
    SinceConcat(GrantLog(lim, init), tokens, Instant, cutoff);
    SinceAll(tokens, Instant, cutoff);
  }

  lemma {:induction false} PrunedRefinesLog(lim: Limits, ops: seq<Op>, now: real)
    requires lim.windowS > 0.0 && LagAtMost(ops, 0.0)
    requires forall i :: 0 <= i < |ops| ==> ops[i].now <= now
    ensures Pruned(lim, Queue(lim, ops), now) == Since(GrantLog(lim, ops), Instant, now - lim.windowS)
    decreases |ops|, 1
  {
    hide CountIn;
    if ops != [] {
      QueueRefinesLog(lim, ops);
      GrantLogOrdered(lim, ops);
      PruneRefines(Queue(lim, ops), GrantLog(lim, ops), Instant,
                   ops[|ops| - 1].now - lim.windowS, now - lim.windowS);
    }
  }

  /**
   * With ordered readings `consume` decides by the tokens granted in (now - window, now]: it is
   * all or nothing, and it refuses exactly when the limit would be passed.
   */
  lemma OrderedConsume(lim: Limits, ops: seq<Op>, now: real, cost: nat)
    requires lim.windowS > 0.0 && LagAtMost(ops + [Consume(now, cost)], 0.0)
    ensures var used := CountIn(GrantLog(lim, ops), now - lim.windowS, now);
            && used <= lim.maxRetries
            && GrantLog(lim, ops + [Consume(now, cost)])
               == GrantLog(lim, ops) + (if used + cost <= lim.maxRetries then Repeat(now, cost) else [])
  {
    hide Since, CountIn, Prune;
    var longer := ops + [Consume(now, cost)];
    assert longer[..|longer| - 1] == ops;
    LagOfPrefix(longer, 0.0);
    OrderedUse(lim, ops, now);
  }

  /** What `remaining` reports, whatever the order of the readings. */
  lemma RemainingIsUnused(lim: Limits, ops: seq<Op>, now: real)
    requires lim.windowS > 0.0
    ensures |Pruned(lim, Queue(lim, ops), now)| <= lim.maxRetries
    ensures LagAtMost(ops + [Remaining(now)], 0.0) ==>
              |Pruned(lim, Queue(lim, ops), now)| == CountIn(GrantLog(lim, ops), now - lim.windowS, now)
  {
    hide Since, CountIn, Prune;
    var longer := ops + [Remaining(now)];
    assert longer[..|longer| - 1] == ops;
    var dropped := QueueIsLogSuffix(lim, longer);
    if LagAtMost(longer, 0.0) {
      LagOfPrefix(longer, 0.0);
      assert forall i :: 0 <= i < |ops| ==> longer[i] == ops[i];
      OrderedUse(lim, ops, now);
    }
  }

  /** What an ordered operation finds in the queue: the tokens of the window, at most the limit. */
  lemma OrderedUse(lim: Limits, ops: seq<Op>, now: real)
    requires lim.windowS > 0.0 && LagAtMost(ops, 0.0)
    requires forall i :: 0 <= i < |ops| ==> ops[i].now <= now
    ensures |Pruned(lim, Queue(lim, ops), now)| == CountIn(GrantLog(lim, ops), now - lim.windowS, now)
    ensures CountIn(GrantLog(lim, ops), now - lim.windowS, now) <= lim.maxRetries
  {
    hide Queue, GrantLog, Since, CountIn, Prune;
    var log, lo := GrantLog(lim, ops), now - lim.windowS;
    assert Pruned(lim, Queue(lim, ops), now) == Since(log, Instant, lo) by {
      PrunedRefinesLog(lim, ops, now);
    }
    assert CountIn(log, lo, now) == |Since(log, Instant, lo)| by {
      GrantLogUpTo(lim, ops, now);
      CountInIsSince(log, lo, now);
    }
    assert CountIn(log, lo, now) <= lim.maxRetries by {
      LaggedWindowBound(lim, ops, 0.0, lo);
      assert lo + (lim.windowS - 0.0) == now;
    }
  }

  lemma GrantLogUpTo(lim: Limits, ops: seq<Op>, now: real)
    requires LagAtMost(ops, 0.0)
    requires forall i :: 0 <= i < |ops| ==> ops[i].now <= now
    ensures UpTo(GrantLog(lim, ops), Instant, now)
  {
    GrantLogOrdered(lim, ops);
    if ops != [] {
      var log := GrantLog(lim, ops);
      forall i | 0 <= i < |log| ensures Instant(log[i]) <= now {
        assert Instant(log[i]) <= ops[|ops| - 1].now;
      }
    }
  }

  // ---------------------------------------------------------------- the object

  class Budget {
    const lim: Limits
    var events: seq<real>
    /** The operations performed so far, in lock order. */
    ghost var history: seq<Op>

    ghost predicate Valid() reads this {
      lim.windowS > 0.0 && events == Queue(lim, history)
    }

    constructor (lim: Limits)
      requires lim.windowS > 0.0
      ensures Valid() && this.lim == lim && history == []
    {
      this.lim := lim;
      events := [];
      history := [];
    }

    /** The public constructor, with the arguments it turns down. */
    static method Create(maxRetries: int, windowS: real) returns (budget: Option<Budget>)
      ensures budget.Some? <==> maxRetries >= 0 && windowS > 0.0
      ensures budget.Some? ==>
                && fresh(budget.value) && budget.value.Valid() && budget.value.history == []
                && budget.value.lim == Limits(maxRetries, windowS)
    {
      if maxRetries < 0 || windowS <= 0.0 {
        return None;
      }
      var b := new Budget(Limits(maxRetries, windowS));
      return Some(b);
    }

    method PruneEvents(now: real)
      modifies this`events
      ensures events == Pruned(lim, old(events), now)
    {
      var cutoff := now - lim.windowS;
      while events != [] && events[0] <= cutoff
        invariant Prune(events, Instant, cutoff) == Prune(old(events), Instant, cutoff)
        decreases |events|
      {
        events := events[1..];
      }
    }

    /** `now` is read before the lock is taken; everything else happens under the lock. */
    method Consume(now: real, cost: int) returns (answer: Answer)
      requires Valid()
      modifies this
      ensures Valid()
      ensures cost < 1 ==> answer.InvalidCost? && history == old(history)
      ensures cost >= 1 ==>
                && history == old(history) + [Op.Consume(now, cost)]
                && answer == (if Grants(lim, old(events), Op.Consume(now, cost)) then Granted else Refused)
    {
      if cost < 1 {
        return InvalidCost;
      }
      ghost var op := Op.Consume(now, cost);
      ghost var queue := events;
      history := history + [op];
      assert history[..|history| - 1] == old(history);
      PruneEvents(now);
      if |events| + cost > lim.maxRetries {
        return Refused;
      }
      for i := 0 to cost
        invariant events == Pruned(lim, queue, now) + Repeat(now, i)
        invariant history == old(history) + [op]
      {
        events := events + [now];
      }
      return Granted;
    }

    method Remaining(now: real) returns (left: int)
      requires Valid()
      modifies this
      ensures Valid() && history == old(history) + [Op.Remaining(now)]
      ensures left == lim.maxRetries - |Pruned(lim, old(events), now)|
      ensures LagAtMost(history, 0.0) ==>
                left == lim.maxRetries
                        - CountIn(GrantLog(lim, old(history)), now - lim.windowS, now)
      ensures 0 <= left <= lim.maxRetries
    {
      history := history + [Op.Remaining(now)];
      assert history[..|history| - 1] == old(history);
      PruneEvents(now);
      RemainingIsUnused(lim, old(history), now);
      left := if lim.maxRetries - |events| > 0 then lim.maxRetries - |events| else 0;
    }
  }
}
