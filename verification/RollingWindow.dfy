/**
 * Rolling windows kept as a queue whose front is pruned.
 *
 * Budget, CircuitBreaker and AdaptiveStrategy all keep a deque of stamped entries and pop
 * from its front while the front is at or before a cutoff.  `Prune` is what that loop leaves;
 * `Since` is what the window is meant to hold.  On ordered stamps the two are the same.
 */
module RollingWindow {
  /** What the popping loop leaves: the entries from the first one after the cutoff on. */
  function Prune<T>(s: seq<T>, at: T -> real, cutoff: real): seq<T> {
    if s != [] && at(s[0]) <= cutoff then Prune(s[1..], at, cutoff) else s
  }

  /** The entries stamped after the cutoff, wherever they stand. */
  function Since<T>(s: seq<T>, at: T -> real, cutoff: real): seq<T> {
    if s == [] then []
    else (if at(s[0]) > cutoff then [s[0]] else []) + Since(s[1..], at, cutoff)
  }

  ghost predicate Ordered<T>(s: seq<T>, at: T -> real) {
    forall i, j :: 0 <= i < j < |s| ==> at(s[i]) <= at(s[j])
  }

  /** No entry is stamped after `bound`. */
  ghost predicate UpTo<T>(s: seq<T>, at: T -> real, bound: real) {
    forall i :: 0 <= i < |s| ==> at(s[i]) <= bound
  }

  /** The number of stamps in the half-open interval (lo, hi]. */
  function CountIn(s: seq<real>, lo: real, hi: real): nat {
    if s == [] then 0
    else (if lo < s[0] <= hi then 1 else 0) + CountIn(s[1..], lo, hi)
  }

  /** The stamp of an entry that is nothing but a stamp. */
  function Instant(t: real): real { t }

  function Repeat(t: real, n: nat): seq<real> { seq(n, _ => t) }

  /** Pruning drops a prefix, all of it at or before the cutoff. */
  lemma {:induction false} PruneDropsPrefix<T>(s: seq<T>, at: T -> real, cutoff: real) returns (k: nat)
    ensures k <= |s| && Prune(s, at, cutoff) == s[k..]
    ensures forall i :: 0 <= i < k ==> at(s[i]) <= cutoff
    ensures k < |s| ==> at(s[k]) > cutoff
  {
    if s != [] && at(s[0]) <= cutoff {
      var k' := PruneDropsPrefix(s[1..], at, cutoff);
      k := k' + 1;
      assert s[1..][k'..] == s[k..];
      forall i | 0 <= i < k ensures at(s[i]) <= cutoff {
        if i > 0 { assert s[i] == s[1..][i - 1]; }
      }
    } else {
      k := 0;
    }
  }

  /** Whatever the order of the stamps, pruning at an earlier cutoff first changes nothing. */
  lemma {:induction false} PruneTwice<T>(s: seq<T>, at: T -> real, earlier: real, cutoff: real)
    requires earlier <= cutoff
    ensures Prune(Prune(s, at, earlier), at, cutoff) == Prune(s, at, cutoff)
  {
    if s != [] && at(s[0]) <= earlier { PruneTwice(s[1..], at, earlier, cutoff); }
  }

  /** What one more entry at the end does to what pruning leaves. */
  lemma {:induction false} PruneSnoc<T>(s: seq<T>, x: T, at: T -> real, cutoff: real)
    ensures Prune(s + [x], at, cutoff)
         == if Prune(s, at, cutoff) == [] && at(x) <= cutoff then [] else Prune(s, at, cutoff) + [x]
  {
    if s == [] {
      assert s + [x] == [x] && [x][1..] == [];
    } else {
      assert (s + [x])[1..] == s[1..] + [x];
      if at(s[0]) <= cutoff { PruneSnoc(s[1..], x, at, cutoff); }
    }
  }

  lemma {:induction false} SinceAll<T>(s: seq<T>, at: T -> real, cutoff: real)
    requires forall i :: 0 <= i < |s| ==> at(s[i]) > cutoff
    ensures Since(s, at, cutoff) == s
  {
    if s != [] {
      assert forall i :: 0 <= i < |s| - 1 ==> s[1..][i] == s[i + 1];
      SinceAll(s[1..], at, cutoff);
      assert s == [s[0]] + s[1..];
    }
  }

  lemma {:induction false} SinceNone<T>(s: seq<T>, at: T -> real, cutoff: real)
    requires UpTo(s, at, cutoff)
    ensures Since(s, at, cutoff) == []
  {
    if s != [] {
      assert forall i :: 0 <= i < |s| - 1 ==> s[1..][i] == s[i + 1];
      SinceNone(s[1..], at, cutoff);
    }
  }

  lemma {:induction false} SinceConcat<T>(a: seq<T>, b: seq<T>, at: T -> real, cutoff: real)
    ensures Since(a + b, at, cutoff) == Since(a, at, cutoff) + Since(b, at, cutoff)
  {
    if a == [] {
      assert a + b == b;
    } else {
      assert (a + b)[1..] == a[1..] + b;
      SinceConcat(a[1..], b, at, cutoff);
    }
  }

  /** Dropping entries at or before an earlier cutoff first changes nothing. */
  lemma {:induction false} SinceSince<T>(s: seq<T>, at: T -> real, earlier: real, cutoff: real)
    requires earlier <= cutoff
    ensures Since(Since(s, at, earlier), at, cutoff) == Since(s, at, cutoff)
  {
    if s != [] {
      var front := if at(s[0]) > earlier then [s[0]] else [];
      SinceConcat(front, Since(s[1..], at, earlier), at, cutoff);
      SinceSince(s[1..], at, earlier, cutoff);
    }
  }

  lemma {:induction false} SinceOrdered<T>(s: seq<T>, at: T -> real, cutoff: real)
    requires Ordered(s, at)
    ensures Ordered(Since(s, at, cutoff), at)
    ensures forall e :: e in Since(s, at, cutoff) ==> e in s && at(e) > cutoff
  {
    if s != [] {
      assert forall i :: 0 <= i < |s| - 1 ==> s[1..][i] == s[i + 1];
      SinceOrdered(s[1..], at, cutoff);
    }
  }

  /** On ordered stamps the queue discipline loses nothing: pruning is filtering. */
  lemma PruneIsSince<T>(s: seq<T>, at: T -> real, cutoff: real)
    requires Ordered(s, at)
    ensures Prune(s, at, cutoff) == Since(s, at, cutoff)
  {
    var k := PruneDropsPrefix(s, at, cutoff);
    assert s == s[..k] + s[k..];
    SinceConcat(s[..k], s[k..], at, cutoff);
    SinceNone(s[..k], at, cutoff);
    forall i | 0 <= i < |s[k..]| ensures at(s[k..][i]) > cutoff {
      assert s[k..][i] == s[k + i];
    }
    SinceAll(s[k..], at, cutoff);
  }

  /**
   * One step of a window over a growing log: if the queue holds the log since an earlier cutoff,
   * pruning it at a later one leaves the log since that one.
   */
  lemma PruneRefines<T>(queue: seq<T>, log: seq<T>, at: T -> real, earlier: real, cutoff: real)
    requires Ordered(log, at) && earlier <= cutoff
    requires queue == Since(log, at, earlier)
    ensures Prune(queue, at, cutoff) == Since(log, at, cutoff)
  {
    SinceOrdered(log, at, earlier);
    PruneIsSince(queue, at, cutoff);
    SinceSince(log, at, earlier, cutoff);
  }

  lemma {:induction false} CountInConcat(a: seq<real>, b: seq<real>, lo: real, hi: real)
    ensures CountIn(a + b, lo, hi) == CountIn(a, lo, hi) + CountIn(b, lo, hi)
  {
    if a == [] {
      assert a + b == b;
    } else {
      assert (a + b)[1..] == a[1..] + b;
      CountInConcat(a[1..], b, lo, hi);
    }
  }

  lemma {:induction false} CountInNone(s: seq<real>, lo: real, hi: real)
    requires forall i :: 0 <= i < |s| ==> !(lo < s[i] <= hi)
    ensures CountIn(s, lo, hi) == 0
  {
    if s != [] {
      assert forall i :: 0 <= i < |s| - 1 ==> s[1..][i] == s[i + 1];
      CountInNone(s[1..], lo, hi);
    }
  }

  lemma {:induction false} CountInAll(s: seq<real>, lo: real, hi: real)
    requires forall i :: 0 <= i < |s| ==> lo < s[i] <= hi
    ensures CountIn(s, lo, hi) == |s|
  {
    if s != [] {
      assert forall i :: 0 <= i < |s| - 1 ==> s[1..][i] == s[i + 1];
      CountInAll(s[1..], lo, hi);
    }
  }

  lemma {:induction false} CountInAtMostLength(s: seq<real>, lo: real, hi: real)
    ensures CountIn(s, lo, hi) <= |s|
  {
    if s != [] { CountInAtMostLength(s[1..], lo, hi); }
  }

  /** Counting the stamps of an interval is measuring the log since its start. */
  lemma {:induction false} CountInIsSince(s: seq<real>, lo: real, hi: real)
    requires UpTo(s, Instant, hi)
    ensures CountIn(s, lo, hi) == |Since(s, Instant, lo)|
  {
    if s != [] {
      assert Instant(s[0]) == s[0] <= hi;
      forall i | 0 <= i < |s[1..]| ensures Instant(s[1..][i]) <= hi {
        assert s[1..][i] == s[i + 1];
        assert Instant(s[i + 1]) <= hi;
      }
      CountInIsSince(s[1..], lo, hi);
    }
  }

  // ---------------------------------------------------------------- stamps in any order

  /** One move of a queue: prune at a cutoff, then add entries. */
  datatype Move<T> = Move(cutoff: real, added: seq<T>)

  /** The queue a run of moves leaves, and everything it was ever given. */
  function Kept<T>(moves: seq<Move<T>>, at: T -> real): seq<T> {
    if moves == [] then []
    else Prune(Kept(moves[..|moves| - 1], at), at, moves[|moves| - 1].cutoff) + moves[|moves| - 1].added
  }

  function Given<T>(moves: seq<Move<T>>): seq<T> {
    if moves == [] then [] else Given(moves[..|moves| - 1]) + moves[|moves| - 1].added
  }

  /** The i-th entry was stamped at or before the cutoff of some move made after it was added. */
  ghost predicate Expired<T>(moves: seq<Move<T>>, at: T -> real, i: nat)
    requires i < |Given(moves)|
  {
    exists m :: 0 <= m < |moves| && i < |Given(moves[..m])| && at(Given(moves)[i]) <= moves[m].cutoff
  }

  /** The first d entries have expired and the one after them has not. */
  ghost predicate ExpiredLead<T>(moves: seq<Move<T>>, at: T -> real, d: nat) {
    && d <= |Given(moves)|
    && (forall i :: 0 <= i < d ==> Expired(moves, at, i))
    && (d < |Given(moves)| ==> !Expired(moves, at, d))
  }

  lemma ExpiredSnoc<T>(moves: seq<Move<T>>, move: Move<T>, at: T -> real, i: nat)
    requires i < |Given(moves)|
    ensures Given(moves + [move]) == Given(moves) + move.added
    ensures Expired(moves + [move], at, i) <==> Expired(moves, at, i) || at(Given(moves)[i]) <= move.cutoff
  {
    var all := moves + [move];
    assert all[..|moves|] == moves;
    assert forall m :: 0 <= m <= |moves| ==> all[..m] == moves[..m];
    if Expired(moves, at, i) {
      var m :| 0 <= m < |moves| && i < |Given(moves[..m])| && at(Given(moves)[i]) <= moves[m].cutoff;
      assert all[m] == moves[m];
    }
    if at(Given(moves)[i]) <= move.cutoff {
      assert all[|moves|] == move && all[..|moves|] == moves;
    }
  }

  lemma NewUnexpired<T>(moves: seq<Move<T>>, move: Move<T>, at: T -> real, i: nat)
    requires |Given(moves)| <= i < |Given(moves + [move])|
    ensures !Expired(moves + [move], at, i)
  {
    var all := moves + [move];
    forall m | 0 <= m < |all| ensures |Given(all[..m])| <= |Given(moves)| {
      assert all[..m] == moves[..m];
      GivenGrows(moves, m);
    }
  }

  lemma {:induction false} GivenGrows<T>(moves: seq<Move<T>>, m: nat)
    requires m <= |moves|
    ensures |Given(moves[..m])| <= |Given(moves)|
    decreases |moves|
  {
    if m < |moves| {
      assert moves[..|moves| - 1][..m] == moves[..m];
      GivenGrows(moves[..|moves| - 1], m);
    } else {
      assert moves[..m] == moves;
    }
  }

  /**
   * Whatever the order of stamps and cutoffs, a queue pruned only at its front has dropped exactly
   * the entries that have expired together with all before them.
   */
  lemma {:induction false} KeptExactly<T>(moves: seq<Move<T>>, at: T -> real) returns (d: nat)
    ensures ExpiredLead(moves, at, d) && Kept(moves, at) == Given(moves)[d..]
  {
    hide Expired;
    if moves == [] {
      return 0;
    }
    var init, move := moves[..|moves| - 1], moves[|moves| - 1];
    assert moves == init + [move];
    var d0 := KeptExactly(init, at);
    var k := PruneDropsPrefix(Given(init)[d0..], at, move.cutoff);
    d := d0 + k;
    if |Given(init)| > 0 { ExpiredSnoc(init, move, at, 0); }
    assert Given(moves) == Given(init) + move.added;
    assert Given(moves)[d..] == Given(init)[d0..][k..] + move.added;
    forall i | 0 <= i < d ensures Expired(moves, at, i) {
      ExpiredSnoc(init, move, at, i);
      if i >= d0 { assert Given(init)[d0..][i - d0] == Given(init)[i]; }
    }
    if d < |Given(init)| {
      assert Given(init)[d0..][k] == Given(init)[d];
      ExpiredSnoc(init, move, at, d);
      if k > 0 {
        assert Given(init)[d0..][0] == Given(init)[d0];
        UnexpiredIsLater(init, at, d0, d);
      }
    } else if d < |Given(moves)| {
      NewUnexpired(init, move, at, d);
    }
  }

  /** An entry that has not expired is stamped after every later one that has. */
  lemma UnexpiredIsLater<T>(moves: seq<Move<T>>, at: T -> real, i: nat, j: nat)
    requires i < j < |Given(moves)| && !Expired(moves, at, i)
    ensures Expired(moves, at, j) ==> at(Given(moves)[j]) < at(Given(moves)[i])
  {
    if Expired(moves, at, j) {
      var m :| 0 <= m < |moves| && j < |Given(moves[..m])| && at(Given(moves)[j]) <= moves[m].cutoff;
      assert i < |Given(moves[..m])|;
    }
  }
}
