/**
 * When a closed breaker opens.
 *
 * The reference is the full list of failures counted since the breaker last became closed, never
 * pruned; the breaker itself keeps only pruned windows.
 */
module CircuitTripping {
  import opened Basics
  import opened RollingWindow
  import opened Circuit

  datatype Counted = Counted(klass: ErrorClass, at: real)

  /** The failure a step reports to the state machine, if it gets through. */
  function Reported(b: Breaker, step: Step): Option<Counted> {
    match step
    case Complete(id, Failure(k), now) => if Live(b, id) then Some(Counted(k, now)) else None
    case RecordFailure(k, now) => Some(Counted(k, now))
    case _ => None
  }

  /** The failure a step adds to the count: the breaker is closed and the class is one that trips. */
  function CountedBy(cfg: Config, b: Breaker, step: Step): Option<Counted> {
    if b.state == Closed && Reported(b, step).Some? && Reported(b, step).value.klass in cfg.tripOn
    then Reported(b, step) else None
  }

  function Extended(log: seq<Counted>, counted: Option<Counted>): seq<Counted> {
    if counted.Some? then log + [counted.value] else log
  }

  /** Every failure counted since the breaker last became closed. */
  function Log(cfg: Config, steps: seq<Step>): seq<Counted> {
    if steps == [] then []
    else
      var init, step := steps[..|steps| - 1], steps[|steps| - 1];
      var b := Run(cfg, init);
      if Next(cfg, b, step).state == Closed && b.state == Closed
      then Extended(Log(cfg, init), CountedBy(cfg, b, step))
      else []
  }

  /** Counted failures come with readings that do not run backwards. */
  ghost predicate ReadingsOrdered(cfg: Config, steps: seq<Step>) {
    steps != [] ==>
      var init, step := steps[..|steps| - 1], steps[|steps| - 1];
      && ReadingsOrdered(cfg, init)
      && InOrder(Log(cfg, init), CountedBy(cfg, Run(cfg, init), step))
  }

  ghost predicate InOrder(log: seq<Counted>, next: Option<Counted>) {
    next.Some? ==> forall i :: 0 <= i < |log| ==> log[i].at <= next.value.at
  }

  function Times(log: seq<Counted>): seq<real> {
    if log == [] then [] else Times(log[..|log| - 1]) + [log[|log| - 1].at]
  }

  function TimesOf(log: seq<Counted>, k: ErrorClass): seq<real> {
    if log == [] then []
    else TimesOf(log[..|log| - 1], k) + (if log[|log| - 1].klass == k then [log[|log| - 1].at] else [])
  }

  /** The part of a list of times that falls in the window of its last one. */
  function Window(cfg: Config, times: seq<real>): seq<real> {
    if times == [] then [] else Since(times, Instant, times[|times| - 1] - cfg.windowS)
  }

  /** How many of these times lie in (t - window, t]. */
  function Recent(cfg: Config, times: seq<real>, t: real): nat {
    CountIn(times, t - cfg.windowS, t)
  }

  lemma TimesSnoc(log: seq<Counted>, c: Counted, k: ErrorClass)
    ensures Times(log + [c]) == Times(log) + [c.at]
    ensures TimesOf(log + [c], k) == TimesOf(log, k) + (if c.klass == k then [c.at] else [])
  {
    assert (log + [c])[..|log|] == log;
  }

  lemma {:induction false} TimesBounded(log: seq<Counted>, k: ErrorClass, bound: real)
    requires forall i :: 0 <= i < |log| ==> log[i].at <= bound
    ensures forall i :: 0 <= i < |Times(log)| ==> Times(log)[i] <= bound
    ensures forall i :: 0 <= i < |TimesOf(log, k)| ==> TimesOf(log, k)[i] <= bound
  {
    if log != [] { TimesBounded(log[..|log| - 1], k, bound); }
  }

  lemma OrderedSnoc(times: seq<real>, now: real)
    requires Ordered(times, Instant)
    requires forall i :: 0 <= i < |times| ==> times[i] <= now
    ensures Ordered(times + [now], Instant) && UpTo(times + [now], Instant, now)
  {
    var all := times + [now];
    forall i | 0 <= i < |all| ensures Instant(all[i]) <= now {
      assert i < |times| ==> all[i] == times[i];
    }
    forall i, j | 0 <= i < j < |all| ensures Instant(all[i]) <= Instant(all[j]) {
      if j < |times| {
        assert Instant(times[i]) <= Instant(times[j]);
      } else {
        assert all[j] == now && Instant(all[i]) <= now;
      }
    }
  }

  lemma WindowPruned(cfg: Config, times: seq<real>, now: real)
    requires Ordered(times, Instant)
    requires forall i :: 0 <= i < |times| ==> times[i] <= now
    ensures Prune(Window(cfg, times), Instant, now - cfg.windowS) == Since(times, Instant, now - cfg.windowS)
  {
    if times != [] {
      PruneRefines(Window(cfg, times), times, Instant, times[|times| - 1] - cfg.windowS, now - cfg.windowS);
    }
  }

  /** Sliding a window that shows a list of times shows the list with the new time added. */
  lemma SlideRefines(cfg: Config, window: seq<real>, times: seq<real>, now: real)
    requires cfg.windowS > 0.0 && Ordered(times, Instant)
    requires window == Window(cfg, times)
    requires forall i :: 0 <= i < |times| ==> times[i] <= now
    ensures Slide(cfg, window, now) == Window(cfg, times + [now])
    ensures Ordered(times + [now], Instant)
    ensures |Slide(cfg, window, now)| == Recent(cfg, times + [now], now)
  {
    hide Prune, Since, CountIn;
    var cutoff, all := now - cfg.windowS, times + [now];
    OrderedSnoc(times, now);
    assert Slide(cfg, window, now) == Since(all, Instant, cutoff) by {
      WindowPruned(cfg, times, now);
      SinceConcat(times, [now], Instant, cutoff);
      SinceAll([now], Instant, cutoff);
    }
    assert all[|all| - 1] == now;
    assert |Since(all, Instant, cutoff)| == CountIn(all, cutoff, now) by {
      CountInIsSince(all, cutoff, now);
    }
  }

  /** The windows of a resting breaker show its log, all below their thresholds. */
  ghost predicate Shows(cfg: Config, b: Breaker, log: seq<Counted>) {
    && (b.state != Closed ==> log == [] && WindowsEmpty(b))
    && b.failures == Window(cfg, Times(log)) && Ordered(Times(log), Instant)
    && |b.failures| < cfg.failureThreshold
    && b.classFailures.Keys <= cfg.classThresholds.Keys
    && (forall k :: k in cfg.classThresholds ==> ShowsClass(cfg, b, log, k))
  }

  ghost predicate ShowsClass(cfg: Config, b: Breaker, log: seq<Counted>, k: ErrorClass)
    requires k in cfg.classThresholds
  {
    && Bucket(b, k) == Window(cfg, TimesOf(log, k)) && Ordered(TimesOf(log, k), Instant)
    && |Bucket(b, k)| < cfg.classThresholds[k]
  }

  /** The rule a closed breaker is meant to follow on a counted failure. */
  ghost predicate ShouldOpen(cfg: Config, log: seq<Counted>, c: Counted) {
    || Recent(cfg, Times(log + [c]), c.at) >= cfg.failureThreshold
    || (c.klass in cfg.classThresholds
        && Recent(cfg, TimesOf(log + [c], c.klass), c.at) >= cfg.classThresholds[c.klass])
  }

  lemma ShowsEmpty(cfg: Config, b: Breaker)
    requires cfg.Valid() && WindowsEmpty(b)
    ensures Shows(cfg, b, [])
  {
  }

  lemma NotedShowsAll(cfg: Config, b: Breaker, log: seq<Counted>, c: Counted)
    requires cfg.Valid() && Shows(cfg, b, log) && InOrder(log, Some(c))
    ensures var noted, all := Noted(cfg, b, c.klass, c.at), log + [c];
            && noted.failures == Window(cfg, Times(all)) && Ordered(Times(all), Instant)
            && |noted.failures| == Recent(cfg, Times(all), c.at)
  {
    TimesSnoc(log, c, c.klass);
    TimesBounded(log, c.klass, c.at);
    SlideRefines(cfg, b.failures, Times(log), c.at);
  }

  lemma {:induction false} NotedShowsOwn(cfg: Config, b: Breaker, log: seq<Counted>, c: Counted)
    requires cfg.Valid() && Shows(cfg, b, log) && InOrder(log, Some(c))
    requires c.klass in cfg.classThresholds
    ensures var bucket, times := Bucket(Noted(cfg, b, c.klass, c.at), c.klass), TimesOf(log + [c], c.klass);
            && bucket == Window(cfg, times) && Ordered(times, Instant)
            && |bucket| == Recent(cfg, times, c.at)
  {
    assert ShowsClass(cfg, b, log, c.klass);
    TimesSnoc(log, c, c.klass);
    TimesBounded(log, c.klass, c.at);
    SlideRefines(cfg, Bucket(b, c.klass), TimesOf(log, c.klass), c.at);
  }

  lemma NotedShowsOther(cfg: Config, b: Breaker, log: seq<Counted>, c: Counted, k: ErrorClass)
    requires Shows(cfg, b, log) && k in cfg.classThresholds && k != c.klass
    ensures ShowsClass(cfg, Noted(cfg, b, c.klass, c.at), log + [c], k)
  {
    assert ShowsClass(cfg, b, log, k);
    TimesSnoc(log, c, k);
    assert TimesOf(log, k) + [] == TimesOf(log, k);
  }

  lemma NotedShows(cfg: Config, b: Breaker, log: seq<Counted>, c: Counted)
    requires cfg.Valid() && b.state == Closed && Shows(cfg, b, log) && InOrder(log, Some(c))
    ensures var noted := Noted(cfg, b, c.klass, c.at);
            && (Trips(cfg, noted, c.klass) <==> ShouldOpen(cfg, log, c))
            && (!ShouldOpen(cfg, log, c) ==> Shows(cfg, noted, log + [c]))
  {
    var noted := Noted(cfg, b, c.klass, c.at);
    NotedShowsAll(cfg, b, log, c);
    if c.klass in cfg.classThresholds {
      NotedShowsOwn(cfg, b, log, c);
    }
    if !ShouldOpen(cfg, log, c) {
      forall k | k in cfg.classThresholds ensures ShowsClass(cfg, noted, log + [c], k) {
        if k != c.klass { NotedShowsOther(cfg, b, log, c, k); }
      }
    }
  }

  lemma ReportedEffect(cfg: Config, b: Breaker, step: Step)
    requires b.state == Closed
    ensures var c := CountedBy(cfg, b, step);
            var b' := Next(cfg, b, step);
            if c.None? then b'.state == Closed && SameWindows(b', b)
            else
              var noted := Noted(cfg, b, c.value.klass, c.value.at);
              if Trips(cfg, noted, c.value.klass)
              then b'.state == Open && WindowsEmpty(b')
              else b'.state == Closed && SameWindows(b', noted)
  {
  }

  ghost predicate SameWindows(b: Breaker, c: Breaker) {
    b.failures == c.failures && b.classFailures == c.classFailures
  }

  lemma ShowsSame(cfg: Config, b: Breaker, c: Breaker, log: seq<Counted>)
    requires Shows(cfg, b, log) && SameWindows(b, c) && b.state == Closed && c.state == Closed
    ensures Shows(cfg, c, log)
  {
    forall k | k in cfg.classThresholds ensures ShowsClass(cfg, c, log, k) {
      assert ShowsClass(cfg, b, log, k);
    }
  }

  lemma NotClosedEffect(cfg: Config, b: Breaker, step: Step)
    requires Inv(b) && b.state != Closed
    ensures WindowsEmpty(Next(cfg, b, step))
  {
  }

  lemma {:induction false} ShowsStep(cfg: Config, b: Breaker, step: Step, log: seq<Counted>)
    requires cfg.Valid() && Inv(b) && Shows(cfg, b, log) && InOrder(log, CountedBy(cfg, b, step))
    ensures var b' := Next(cfg, b, step);
            Shows(cfg, b', if b'.state == Closed && b.state == Closed
                           then Extended(log, CountedBy(cfg, b, step)) else [])
  {
    var b' := Next(cfg, b, step);
    if b.state == Closed {
      var c := CountedBy(cfg, b, step);
      ReportedEffect(cfg, b, step);
      if c.None? {
        ShowsSame(cfg, b, b', log);
      } else {
        var noted := Noted(cfg, b, c.value.klass, c.value.at);
        NotedShows(cfg, b, log, c.value);
        if Trips(cfg, noted, c.value.klass) {
          ShowsEmpty(cfg, b');
        } else {
          ShowsSame(cfg, noted, b', log + [c.value]);
        }
      }
    } else {
      NotClosedEffect(cfg, b, step);
      ShowsEmpty(cfg, b');
    }
  }

  /** Every window is below its threshold, and only classes with a threshold have a window. */
  ghost predicate BelowThresholds(cfg: Config, b: Breaker) {
    && |b.failures| < cfg.failureThreshold
    && b.classFailures.Keys <= cfg.classThresholds.Keys
    && (forall k :: k in cfg.classThresholds ==> |Bucket(b, k)| < cfg.classThresholds[k])
  }

  lemma BelowThresholdsNoted(cfg: Config, b: Breaker, k: ErrorClass, now: real)
    requires BelowThresholds(cfg, b) && !Trips(cfg, Noted(cfg, b, k, now), k)
    ensures BelowThresholds(cfg, Noted(cfg, b, k, now))
  {
    hide Slide;
    var noted := Noted(cfg, b, k, now);
    forall j | j in cfg.classThresholds ensures |Bucket(noted, j)| < cfg.classThresholds[j] {
      if j != k { assert Bucket(noted, j) == Bucket(b, j); }
    }
  }

  lemma BelowThresholdsStep(cfg: Config, b: Breaker, step: Step)
    requires cfg.Valid() && Inv(b) && BelowThresholds(cfg, b)
    ensures BelowThresholds(cfg, Next(cfg, b, step))
  {
    hide Noted, Trips;
    if b.state == Closed {
      ReportedEffect(cfg, b, step);
      var c := CountedBy(cfg, b, step);
      if c.Some? && !Trips(cfg, Noted(cfg, b, c.value.klass, c.value.at), c.value.klass) {
        BelowThresholdsNoted(cfg, b, c.value.klass, c.value.at);
      }
    } else {
      NotClosedEffect(cfg, b, step);
    }
  }

  /** However clock readings fall, every resting state has all its windows below their thresholds. */
  lemma {:induction false} WindowsBelowThresholds(cfg: Config, steps: seq<Step>)
    requires cfg.Valid()
    ensures BelowThresholds(cfg, Run(cfg, steps))
    ensures Run(cfg, steps).state != Closed ==> WindowsEmpty(Run(cfg, steps))
  {
    InvRun(cfg, steps);
    if steps != [] {
      var init := steps[..|steps| - 1];
      WindowsBelowThresholds(cfg, init);
      InvRun(cfg, init);
      BelowThresholdsStep(cfg, Run(cfg, init), steps[|steps| - 1]);
    }
  }

  /**
   * Every resting state: closed, all windows show the log and are below their thresholds;
   * otherwise the windows are empty.
   */
  lemma {:induction false} WindowsShowLog(cfg: Config, steps: seq<Step>)
    requires cfg.Valid() && ReadingsOrdered(cfg, steps)
    ensures Shows(cfg, Run(cfg, steps), Log(cfg, steps))
  {
    if steps == [] {
      ShowsEmpty(cfg, Initial);
    } else {
      var init := steps[..|steps| - 1];
      WindowsShowLog(cfg, init);
      InvRun(cfg, init);
      ShowsStep(cfg, Run(cfg, init), steps[|steps| - 1], Log(cfg, init));
    }
  }

  /**
   * A closed breaker opens on a counted failure at t exactly when the failures counted since it
   * last became closed, this one included, reach a threshold within (t - window, t].
   */
  lemma TripExactness(cfg: Config, steps: seq<Step>, step: Step)
    requires cfg.Valid() && ReadingsOrdered(cfg, steps + [step])
    requires Run(cfg, steps).state == Closed
    ensures var counted := CountedBy(cfg, Run(cfg, steps), step);
            Run(cfg, steps + [step]).state == Open
            <==> counted.Some? && ShouldOpen(cfg, Log(cfg, steps), counted.value)
  {
    var longer := steps + [step];
    assert longer[..|longer| - 1] == steps;
    var b := Run(cfg, steps);
    WindowsShowLog(cfg, steps);
    ReportedEffect(cfg, b, step);
    var counted := CountedBy(cfg, b, step);
    if counted.Some? {
      NotedShows(cfg, b, Log(cfg, steps), counted.value);
    }
  }
}
