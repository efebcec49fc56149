/**
 * Copying request bodies: a depth-first copy of an object graph that may share and may loop.
 *
 * A body is a value over a heap of containers.  Its meaning is the finite tree it unfolds to, if
 * it does; the copy is made of new containers and unfolds to the same tree.
 */
module BodySnapshot {
  import opened Basics

  datatype Atom = NoneAtom | Bool(b: bool) | Int(n: int) | Float(r: real) | Str(s: string) | Bytes(bytes: seq<nat>)

  datatype Value = Plain(atom: Atom) | Ref(id: nat)

  datatype Item = Item(key: Value, value: Value)

  /** `Opaque` stands for every object that is not a plain list, tuple or mapping. */
  datatype Container =
    | Mapping(entries: seq<Item>)
    | ListOf(items: seq<Value>)
    | TupleOf(items: seq<Value>)
    | Opaque

  type Heap = map<nat, Container>

  datatype Tree =
    | Leaf(atom: Atom)
    | MapTree(entries: seq<Entry>)
    | ListTree(items: seq<Tree>)
    | TupleTree(items: seq<Tree>)

  datatype Entry = Entry(key: Tree, value: Tree)

  // ---------------------------------------------------------------- values, keys, graphs

  /** The values a container refers to, keys included. */
  function Children(c: Container): seq<Value> {
    match c
    case Mapping(entries) => Keys(entries) + Values(entries)
    case ListOf(items) => items
    case TupleOf(items) => items
    case Opaque => []
  }

  function Keys(entries: seq<Item>): seq<Value> { seq(|entries|, i requires 0 <= i < |entries| => entries[i].key) }

  function Values(entries: seq<Item>): seq<Value> { seq(|entries|, i requires 0 <= i < |entries| => entries[i].value) }

  predicate InHeap(h: Heap, v: Value) { v.Ref? ==> v.id in h }

  /** No reference dangles. */
  ghost predicate Closed(h: Heap) {
    forall id :: id in h ==> forall i :: 0 <= i < |Children(h[id])| ==> InHeap(h, Children(h[id])[i])
  }

  /** Python's equality on keys: True == 1 == 1.0. */
  function KeyNorm(t: Tree): Tree {
    match t
    case Leaf(Bool(b)) => Leaf(Float(if b then 1.0 else 0.0))
    case Leaf(Int(n)) => Leaf(Float(n as real))
    case TupleTree(items) => TupleTree(seq(|items|, i requires 0 <= i < |items| => KeyNorm(items[i])))
    case _ => t
  }

  predicate SameKey(s: Tree, t: Tree) { KeyNorm(s) == KeyNorm(t) }

  predicate Hashable(t: Tree) {
    match t
    case Leaf(_) => true
    case TupleTree(items) => forall i :: 0 <= i < |items| ==> Hashable(items[i])
    case _ => false
  }

  /** Every mapping in the tree has hashable, pairwise different keys. */
  ghost predicate Clean(t: Tree) {
    match t
    case Leaf(_) => true
    case ListTree(items) => AllClean(items)
    case TupleTree(items) => AllClean(items)
    case MapTree(entries) => EntriesClean(entries) && GoodKeys(entries)
  }

  ghost predicate AllClean(ts: seq<Tree>) {
    forall i :: 0 <= i < |ts| ==> Clean(ts[i])
  }

  ghost predicate EntriesClean(es: seq<Entry>) {
    forall i :: 0 <= i < |es| ==> EntryClean(es[i])
  }

  ghost predicate EntryClean(e: Entry) { Clean(e.key) && Clean(e.value) }

  ghost predicate GoodKeys(entries: seq<Entry>) {
    && (forall i :: 0 <= i < |entries| ==> Hashable(entries[i].key))
    && (forall i, j :: 0 <= i < j < |entries| ==> !SameKey(entries[i].key, entries[j].key))
  }

  /**
   * v unfolds to t without ever coming back to a container it is inside of; `path` holds the
   * containers around v.
   */
  ghost predicate Unfolds(h: Heap, v: Value, t: Tree, path: set<nat>)
    decreases t
  {
    match v
    case Plain(a) => t == Leaf(a)
    case Ref(id) =>
      && id in h && id !in path
      && match h[id]
         case ListOf(items) => t.ListTree? && AllUnfold(h, items, t.items, path + {id})
         case TupleOf(items) => t.TupleTree? && AllUnfold(h, items, t.items, path + {id})
         case Mapping(entries) => t.MapTree? && EntriesUnfold(h, entries, t.entries, path + {id})
         case Opaque => false
  }

  ghost predicate AllUnfold(h: Heap, vs: seq<Value>, ts: seq<Tree>, path: set<nat>)
    decreases ts
  {
    |vs| == |ts| && forall i :: 0 <= i < |vs| ==> Unfolds(h, vs[i], ts[i], path)
  }

  ghost predicate EntriesUnfold(h: Heap, entries: seq<Item>, es: seq<Entry>, path: set<nat>)
    decreases es
  {
    |entries| == |es| && forall i :: 0 <= i < |es| ==> EntryUnfolds(h, entries[i], es[i], path)
  }

  ghost predicate EntryUnfolds(h: Heap, item: Item, e: Entry, path: set<nat>)
    decreases e
  {
    Unfolds(h, item.key, e.key, path) && Unfolds(h, item.value, e.value, path)
  }

  /** The same without looking out for loops, and with every container at or above `base`. */
  ghost predicate Shows(h: Heap, v: Value, t: Tree, base: nat)
    decreases t
  {
    match v
    case Plain(a) => t == Leaf(a)
    case Ref(id) =>
      && id in h && base <= id
      && match h[id]
         case ListOf(items) => t.ListTree? && AllShow(h, items, t.items, base)
         case TupleOf(items) => t.TupleTree? && AllShow(h, items, t.items, base)
         case Mapping(entries) => t.MapTree? && EntriesShow(h, entries, t.entries, base)
         case Opaque => false
  }

  ghost predicate AllShow(h: Heap, vs: seq<Value>, ts: seq<Tree>, base: nat)
    decreases ts
  {
    |vs| == |ts| && forall i :: 0 <= i < |vs| ==> Shows(h, vs[i], ts[i], base)
  }

  ghost predicate EntriesShow(h: Heap, entries: seq<Item>, es: seq<Entry>, base: nat)
    decreases es
  {
    |entries| == |es| && forall i :: 0 <= i < |es| ==> EntryShows(h, entries[i], es[i], base)
  }

  ghost predicate EntryShows(h: Heap, item: Item, e: Entry, base: nat)
    decreases e
  {
    Shows(h, item.key, e.key, base) && Shows(h, item.value, e.value, base)
  }

  ghost predicate Extends(h: Heap, h': Heap) {
    forall id :: id in h ==> id in h' && h'[id] == h[id]
  }

  lemma ExtendsOn(h: Heap, h': Heap, h'': Heap)
    ensures Extends(h, h)
    ensures Extends(h, h') && Extends(h', h'') ==> Extends(h, h'')
  {
  }

  /** h' leaves every container at or above `base` alone. */
  ghost predicate KeepsFrom(h: Heap, h': Heap, base: nat) {
    forall id :: id in h && base <= id ==> id in h' && h'[id] == h[id]
  }

  /** Whatever happens to the containers below `base`, a value made of later ones shows the same tree. */
  lemma {:induction false} CopyIsIndependent(h: Heap, h': Heap, v: Value, t: Tree, base: nat)
    requires KeepsFrom(h, h', base) && Shows(h, v, t, base)
    ensures Shows(h', v, t, base)
    decreases t
  {
    if v.Ref? {
      match h[v.id] {
        case Mapping(entries) =>
          forall i | 0 <= i < |entries| ensures EntryShows(h', entries[i], t.entries[i], base) {
            assert EntryShows(h, entries[i], t.entries[i], base);
            CopyIsIndependent(h, h', entries[i].key, t.entries[i].key, base);
            CopyIsIndependent(h, h', entries[i].value, t.entries[i].value, base);
          }
        case ListOf(items) => AllIndependent(h, h', items, t.items, base);
        case TupleOf(items) => AllIndependent(h, h', items, t.items, base);
      }
    }
  }

  lemma {:induction false} AllIndependent(h: Heap, h': Heap, vs: seq<Value>, ts: seq<Tree>, base: nat)
    requires KeepsFrom(h, h', base) && AllShow(h, vs, ts, base)
    ensures AllShow(h', vs, ts, base)
    decreases ts
  {
    forall i | 0 <= i < |vs| ensures Shows(h', vs[i], ts[i], base) {
      CopyIsIndependent(h, h', vs[i], ts[i], base);
    }
  }

  // ---------------------------------------------------------------- what unfolds

  /** A value unfolds to one tree at most, wherever it is met. */
  lemma {:induction false} OneTree(h: Heap, v: Value, s: Tree, t: Tree, base: nat, base': nat)
    requires Shows(h, v, s, base) && Shows(h, v, t, base')
    ensures s == t
    decreases s
  {
    if v.Ref? {
      match h[v.id] {
        case Mapping(entries) =>
          forall i | 0 <= i < |entries| ensures s.entries[i] == t.entries[i] {
            assert EntryShows(h, entries[i], s.entries[i], base) && EntryShows(h, entries[i], t.entries[i], base');
            OneTree(h, entries[i].key, s.entries[i].key, t.entries[i].key, base, base');
            OneTree(h, entries[i].value, s.entries[i].value, t.entries[i].value, base, base');
          }
        case ListOf(items) => OneTreeEach(h, items, s.items, t.items, base, base');
        case TupleOf(items) => OneTreeEach(h, items, s.items, t.items, base, base');
      }
    }
  }

  lemma {:induction false} OneTreeEach(h: Heap, vs: seq<Value>, ss: seq<Tree>, ts: seq<Tree>, base: nat, base': nat)
    requires AllShow(h, vs, ss, base) && AllShow(h, vs, ts, base')
    ensures ss == ts
    decreases ss
  {
    forall i | 0 <= i < |vs| ensures ss[i] == ts[i] {
      OneTree(h, vs[i], ss[i], ts[i], base, base');
    }
  }

  /** Unfolding with a lookout for loops is unfolding. */
  lemma {:induction false} UnfoldsShows(h: Heap, v: Value, t: Tree, path: set<nat>)
    requires Unfolds(h, v, t, path)
    ensures Shows(h, v, t, 0)
    decreases t
  {
    if v.Ref? {
      match h[v.id] {
        case Mapping(entries) =>
          forall i | 0 <= i < |entries| ensures EntryShows(h, entries[i], t.entries[i], 0) {
            assert EntryUnfolds(h, entries[i], t.entries[i], path + {v.id});
            UnfoldsShows(h, entries[i].key, t.entries[i].key, path + {v.id});
            UnfoldsShows(h, entries[i].value, t.entries[i].value, path + {v.id});
          }
        case ListOf(items) => EachUnfoldsShows(h, items, t.items, path + {v.id});
        case TupleOf(items) => EachUnfoldsShows(h, items, t.items, path + {v.id});
      }
    }
  }

  lemma {:induction false} EachUnfoldsShows(h: Heap, vs: seq<Value>, ts: seq<Tree>, path: set<nat>)
    requires AllUnfold(h, vs, ts, path)
    ensures AllShow(h, vs, ts, 0)
    decreases ts
  {
    forall i | 0 <= i < |vs| ensures Shows(h, vs[i], ts[i], 0) {
      UnfoldsShows(h, vs[i], ts[i], path);
    }
  }

  /** Every container of the path shows a tree that t is a proper part of. */
  ghost predicate Inside(h: Heap, t: Tree, path: map<nat, Tree>) {
    forall id :: id in path ==> Shows(h, Ref(id), path[id], 0) && (path[id] decreases to t)
  }

  /** And the other way: a value that shows a finite tree cannot loop back to where it came from. */
  lemma {:induction false} ShowsUnfolds(h: Heap, v: Value, t: Tree, path: map<nat, Tree>)
    requires Shows(h, v, t, 0) && Inside(h, t, path)
    ensures Unfolds(h, v, t, path.Keys)
    decreases t
  {
    if v.Ref? {
      if v.id in path {
        OneTree(h, v, path[v.id], t, 0, 0);
        assert false;
      }
      var inside := path[v.id := t];
      assert inside.Keys == path.Keys + {v.id};
      match h[v.id] {
        case Mapping(entries) =>
          forall i | 0 <= i < |entries| ensures EntryUnfolds(h, entries[i], t.entries[i], inside.Keys) {
            assert EntryShows(h, entries[i], t.entries[i], 0);
            ShowsUnfolds(h, entries[i].key, t.entries[i].key, inside);
            ShowsUnfolds(h, entries[i].value, t.entries[i].value, inside);
          }
        case ListOf(items) =>
          forall i | 0 <= i < |items| ensures Unfolds(h, items[i], t.items[i], inside.Keys) {
            ShowsUnfolds(h, items[i], t.items[i], inside);
          }
        case TupleOf(items) =>
          forall i | 0 <= i < |items| ensures Unfolds(h, items[i], t.items[i], inside.Keys) {
            ShowsUnfolds(h, items[i], t.items[i], inside);
          }
      }
    }
  }

  /** A way down from v through containers, each held by the one before. */
  ghost predicate Walk(h: Heap, v: Value, p: seq<nat>) {
    && |p| > 0 && v == Ref(p[0])
    && (forall k :: 0 <= k < |p| ==> p[k] in h)
    && forall k :: 1 <= k < |p| ==> Ref(p[k]) in Children(h[p[k - 1]])
  }

  /** The way down ends at an unsupported object, in the path, or where it has already been. */
  ghost predicate Stuck(h: Heap, p: seq<nat>, path: set<nat>)
    requires |p| > 0 && p[|p| - 1] in h
  {
    var last := p[|p| - 1];
    h[last].Opaque? || last in path || last in p[..|p| - 1]
  }

  /** A loop or an unsupported object can be reached from v. */
  ghost predicate Blocked(h: Heap, v: Value, path: set<nat>) {
    exists p :: Walk(h, v, p) && Stuck(h, p, path)
  }

  lemma {:induction false} WalkDown(h: Heap, v: Value, t: Tree, path: set<nat>, p: seq<nat>)
    requires Unfolds(h, v, t, path) && Walk(h, v, p)
    ensures !Stuck(h, p, path)
    decreases |p|
  {
    if |p| > 1 {
      var next, inside := Ref(p[1]), path + {p[0]};
      assert next in Children(h[p[0]]);
      var u := ChildTree(h, v, t, path, next);
      assert Walk(h, next, p[1..]) by {
        forall k | 1 <= k < |p[1..]| ensures Ref(p[1..][k]) in Children(h[p[1..][k - 1]]) {
          assert Ref(p[k + 1]) in Children(h[p[k]]);
        }
      }
      WalkDown(h, next, u, inside, p[1..]);
      assert p[..|p| - 1] == [p[0]] + p[1..][..|p| - 2];
    }
  }

  lemma NeverStuck(h: Heap, v: Value, t: Tree, path: set<nat>)
    requires Unfolds(h, v, t, path)
    ensures !Blocked(h, v, path)
  {
    if Blocked(h, v, path) {
      var p :| Walk(h, v, p) && Stuck(h, p, path);
      WalkDown(h, v, t, path, p);
      assert false;
    }
  }

  lemma ChildTree(h: Heap, v: Value, t: Tree, path: set<nat>, child: Value) returns (u: Tree)
    requires Unfolds(h, v, t, path) && v.Ref? && child in Children(h[v.id])
    ensures Unfolds(h, child, u, path + {v.id})
  {
    match h[v.id] {
      case Mapping(entries) =>
        if child in Keys(entries) {
          var i :| 0 <= i < |entries| && entries[i].key == child;
          assert EntryUnfolds(h, entries[i], t.entries[i], path + {v.id});
          u := t.entries[i].key;
        } else {
          assert child in Values(entries);
          var i :| 0 <= i < |entries| && entries[i].value == child;
          assert EntryUnfolds(h, entries[i], t.entries[i], path + {v.id});
          u := t.entries[i].value;
        }
      case ListOf(items) =>
        var i :| 0 <= i < |items| && items[i] == child;
        u := t.items[i];
      case TupleOf(items) =>
        var i :| 0 <= i < |items| && items[i] == child;
        u := t.items[i];
    }
  }

  /** A value either unfolds or has a way down that gets stuck. */
  lemma {:induction false} UnfoldOrStuck(h: Heap, v: Value, path: set<nat>) returns (t: Option<Tree>)
    requires Closed(h) && InHeap(h, v) && path <= h.Keys
    ensures t.Some? ==> Unfolds(h, v, t.value, path)
    ensures t.None? ==> Blocked(h, v, path)
    decreases |h.Keys - path|, 0
  {
    if v.Plain? {
      return Some(Leaf(v.atom));
    }
    if v.id in path || h[v.id].Opaque? {
      assert Walk(h, v, [v.id]) && Stuck(h, [v.id], path);
      return None;
    }
    Deeper(h, path, v.id);
    var inside := path + {v.id};
    assert forall i :: 0 <= i < |Children(h[v.id])| ==> InHeap(h, Children(h[v.id])[i]);
    var ts, bad := UnfoldAll(h, Children(h[v.id]), inside);
    if ts.None? {
      StepIn(h, v, Children(h[v.id])[bad], path);
      return None;
    }
    match h[v.id] {
      case Mapping(entries) =>
        var n := |entries|;
        var es := seq(n, i requires 0 <= i < n => Entry(ts.value[i], ts.value[n + i]));
        forall i | 0 <= i < n ensures EntryUnfolds(h, entries[i], es[i], inside) {
          assert Children(h[v.id])[i] == entries[i].key && Children(h[v.id])[n + i] == entries[i].value;
        }
        t := Some(MapTree(es));
      case ListOf(items) =>
        t := Some(ListTree(ts.value));
      case TupleOf(items) =>
        t := Some(TupleTree(ts.value));
    }
  }

  lemma {:induction false} UnfoldAll(h: Heap, vs: seq<Value>, path: set<nat>) returns (ts: Option<seq<Tree>>, bad: nat)
    requires Closed(h) && path <= h.Keys && forall i :: 0 <= i < |vs| ==> InHeap(h, vs[i])
    ensures ts.Some? ==> AllUnfold(h, vs, ts.value, path)
    ensures ts.None? ==> bad < |vs| && Blocked(h, vs[bad], path)
    decreases |h.Keys - path|, 1
  {
    var found: seq<Tree> := [];
    bad := 0;
    while bad < |vs|
      invariant bad <= |vs| && AllUnfold(h, vs[..bad], found, path)
    {
      var t := UnfoldOrStuck(h, vs[bad], path);
      if t.None? {
        return None, bad;
      }
      found, bad := found + [t.value], bad + 1;
    }
    assert vs[..|vs|] == vs;
    ts := Some(found);
  }

  lemma StepIn(h: Heap, v: Value, child: Value, path: set<nat>)
    requires v.Ref? && v.id in h && child in Children(h[v.id]) && Blocked(h, child, path + {v.id})
    ensures Blocked(h, v, path)
  {
    var p :| Walk(h, child, p) && Stuck(h, p, path + {v.id});
    var q := [v.id] + p;
    assert q[1..] == p && q[..|q| - 1] == [v.id] + p[..|p| - 1];
    forall k | 1 <= k < |q| ensures Ref(q[k]) in Children(h[q[k - 1]]) {
      if k > 1 {
        assert Ref(p[k - 1]) in Children(h[p[k - 2]]);
      }
    }
    assert Walk(h, v, q) && Stuck(h, q, path);
  }

  lemma Deeper(h: Heap, path: set<nat>, id: nat)
    requires id in h && id !in path
    ensures |h.Keys - (path + {id})| < |h.Keys - path|
  {
    assert h.Keys - path == (h.Keys - (path + {id})) + {id};
  }

  /**
   * A value of a closed heap means a finite tree exactly when no loop and no unsupported object can
   * be reached from it; and it is the same tree whether one looks out for loops or not.
   */
  lemma MeaningIff(h: Heap, v: Value)
    requires Closed(h) && InHeap(h, v)
    ensures (exists t :: Shows(h, v, t, 0)) <==> !Blocked(h, v, {})
    ensures forall t :: Shows(h, v, t, 0) <==> Unfolds(h, v, t, {})
  {
    hide Shows, Unfolds, Blocked;
    forall t | Shows(h, v, t, 0) ensures Unfolds(h, v, t, {}) && !Blocked(h, v, {}) {
      var around: map<nat, Tree> := map[];
      ShowsUnfolds(h, v, t, around);
      assert around.Keys == {};
      NeverStuck(h, v, t, {});
    }
    forall t | Unfolds(h, v, t, {}) ensures Shows(h, v, t, 0) {
      UnfoldsShows(h, v, t, {});
    }
    var found := UnfoldOrStuck(h, v, {});
    if found.Some? {
      assert Shows(h, v, found.value, 0);
    }
  }

  // ---------------------------------------------------------------- the copier

  /** Where new containers are allocated; identities below `next` are taken. */
  class Store {
    var heap: Heap
    var next: nat

    ghost predicate Valid() reads this {
      Closed(heap) && forall id :: id in heap ==> id < next
    }

    constructor (heap: Heap, next: nat)
      requires Closed(heap) && forall id :: id in heap ==> id < next
      ensures Valid() && this.heap == heap && this.next == next
    {
      this.heap, this.next := heap, next;
    }

    method Allocate(c: Container) returns (v: Value)
      requires Valid() && forall i :: 0 <= i < |Children(c)| ==> InHeap(heap, Children(c)[i])
      modifies this
      ensures Valid() && Extends(old(heap), heap) && next == old(next) + 1
      ensures v == Ref(old(next)) && v.id in heap && heap[v.id] == c && v.id !in old(heap)
    {
      v := Ref(next);
      heap := heap[next := c];
      next := next + 1;
    }
  }

  /** The containers the copier is currently inside of. */
  class ActiveSet {
    var ids: set<nat>

    constructor ()
      ensures ids == {}
    {
      ids := {};
    }
  }

  /** No clean tree: what a rejected value means. */
  ghost predicate Uncopyable(h: Heap, v: Value, path: set<nat>) {
    forall t :: Unfolds(h, v, t, path) ==> !Clean(t)
  }

  ghost predicate AllUncopyable(h: Heap, items: seq<Value>, path: set<nat>) {
    forall ts :: AllUnfold(h, items, ts, path) ==> !AllClean(ts)
  }

  ghost predicate EntriesUncopyable(h: Heap, entries: seq<Item>, path: set<nat>) {
    forall es :: EntriesUnfold(h, entries, es, path) ==> !(EntriesClean(es) && GoodKeys(es))
  }

  /** The copy `w` made of `v`: same tree, all containers new. */
  ghost predicate Copied(h0: Heap, v: Value, t: Tree, path: set<nat>, h: Heap, w: Value, base: nat) {
    Unfolds(h0, v, t, path) && Clean(t) && Shows(h, w, t, base) && InHeap(h, w)
  }

  ghost predicate AllCopied(h0: Heap, vs: seq<Value>, ts: seq<Tree>, path: set<nat>, h: Heap, ws: seq<Value>, base: nat) {
    && |vs| == |ts| == |ws|
    && forall i :: 0 <= i < |vs| ==> Copied(h0, vs[i], ts[i], path, h, ws[i], base)
  }

  ghost predicate EntriesCopied(h0: Heap, entries: seq<Item>, es: seq<Entry>, path: set<nat>, h: Heap, copies: seq<Item>, base: nat) {
    && |entries| == |es| == |copies|
    && forall i :: 0 <= i < |entries| ==> EntryCopied(h0, entries[i], es[i], path, h, copies[i], base)
  }

  ghost predicate EntryCopied(h0: Heap, item: Item, e: Entry, path: set<nat>, h: Heap, copy: Item, base: nat) {
    && Copied(h0, item.key, e.key, path, h, copy.key, base)
    && Copied(h0, item.value, e.value, path, h, copy.value, base)
  }

  lemma CopiedLater(h0: Heap, v: Value, t: Tree, path: set<nat>, h: Heap, h': Heap, w: Value, base: nat)
    requires Copied(h0, v, t, path, h, w, base) && Extends(h, h')
    ensures Copied(h0, v, t, path, h', w, base)
  {
    hide Unfolds, Shows, Clean;
    CopyIsIndependent(h, h', w, t, base);
  }

  lemma CopiedUnfolds(h0: Heap, v: Value, t: Tree, path: set<nat>, h: Heap, w: Value, base: nat)
    requires Copied(h0, v, t, path, h, w, base)
    ensures Unfolds(h0, v, t, path)
  {
  }

  lemma EntriesCopiedUnfold(h0: Heap, entries: seq<Item>, es: seq<Entry>, path: set<nat>, h: Heap, copies: seq<Item>, base: nat)
    requires EntriesCopied(h0, entries, es, path, h, copies, base)
    ensures EntriesUnfold(h0, entries, es, path)
  {
    hide Unfolds, Shows, Clean;
    forall i | 0 <= i < |es| ensures EntryUnfolds(h0, entries[i], es[i], path) {
      assert EntryCopied(h0, entries[i], es[i], path, h, copies[i], base);
    }
  }

  lemma AllCopiedLater(h0: Heap, vs: seq<Value>, ts: seq<Tree>, path: set<nat>, h: Heap, h': Heap, ws: seq<Value>, base: nat)
    requires AllCopied(h0, vs, ts, path, h, ws, base) && Extends(h, h')
    ensures AllCopied(h0, vs, ts, path, h', ws, base)
  {
    hide Unfolds, Shows, Clean;
    forall i | 0 <= i < |vs| ensures Copied(h0, vs[i], ts[i], path, h', ws[i], base) {
      CopiedLater(h0, vs[i], ts[i], path, h, h', ws[i], base);
    }
  }

  /** What holds of the store while a body of heap h0 is copied. */
  ghost predicate Copying(store: Store, h0: Heap, base: nat) reads store {
    && store.Valid() && Closed(h0) && Extends(h0, store.heap) && base <= store.next
  }

  lemma EntriesCopiedLater(h0: Heap, entries: seq<Item>, es: seq<Entry>, path: set<nat>, h: Heap, h': Heap, copies: seq<Item>, base: nat)
    requires EntriesCopied(h0, entries, es, path, h, copies, base) && Extends(h, h')
    ensures EntriesCopied(h0, entries, es, path, h', copies, base)
  {
    hide Unfolds, Shows, Clean;
    forall i | 0 <= i < |entries| ensures EntryCopied(h0, entries[i], es[i], path, h', copies[i], base) {
      assert EntryCopied(h0, entries[i], es[i], path, h, copies[i], base);
      CopiedLater(h0, entries[i].key, es[i].key, path, h, h', copies[i].key, base);
      CopiedLater(h0, entries[i].value, es[i].value, path, h, h', copies[i].value, base);
    }
  }

  /** Container c is made of copies of the parts of `original`. */
  ghost predicate PartsCopied(h0: Heap, original: Container, t: Tree, path: set<nat>, h: Heap, c: Container, base: nat) {
    match (original, c, t)
    case (ListOf(items), ListOf(copies), ListTree(ts)) => AllCopied(h0, items, ts, path, h, copies, base)
    case (TupleOf(items), TupleOf(copies), TupleTree(ts)) => AllCopied(h0, items, ts, path, h, copies, base)
    case (Mapping(entries), Mapping(copies), MapTree(es)) =>
      EntriesCopied(h0, entries, es, path, h, copies, base) && GoodKeys(es)
    case _ => false
  }

  lemma PartsCopiedLater(h0: Heap, original: Container, t: Tree, path: set<nat>, h: Heap, h': Heap, c: Container, base: nat)
    requires PartsCopied(h0, original, t, path, h, c, base) && Extends(h, h')
    ensures PartsCopied(h0, original, t, path, h', c, base)
  {
    hide AllCopied, EntriesCopied, Extends, GoodKeys;
    match (original, c, t) {
      case (ListOf(items), ListOf(copies), ListTree(ts)) => AllCopiedLater(h0, items, ts, path, h, h', copies, base);
      case (TupleOf(items), TupleOf(copies), TupleTree(ts)) => AllCopiedLater(h0, items, ts, path, h, h', copies, base);
      case (Mapping(entries), Mapping(copies), MapTree(es)) => EntriesCopiedLater(h0, entries, es, path, h, h', copies, base);
    }
  }

  lemma PartsInHeap(h0: Heap, original: Container, t: Tree, path: set<nat>, h: Heap, c: Container, base: nat)
    requires PartsCopied(h0, original, t, path, h, c, base)
    ensures forall i :: 0 <= i < |Children(c)| ==> InHeap(h, Children(c)[i])
  {
    hide Unfolds, Shows, Clean, GoodKeys;
    match (original, c, t) {
      case (Mapping(entries), Mapping(copies), MapTree(es)) =>
        forall i | 0 <= i < |copies| ensures InHeap(h, copies[i].key) && InHeap(h, copies[i].value) {
          assert EntryCopied(h0, entries[i], es[i], path, h, copies[i], base);
        }
      case (_, _, _) =>
    }
  }

  /** A container rebuilt from copies of its parts is a copy. */
  lemma Rebuilt(h0: Heap, v: Value, t: Tree, path: set<nat>, h: Heap, w: Value, base: nat)
    requires v.Ref? && v.id in h0 && v.id !in path
    requires w.Ref? && w.id in h && base <= w.id
    requires PartsCopied(h0, h0[v.id], t, path + {v.id}, h, h[w.id], base)
    ensures Copied(h0, v, t, path, h, w, base)
  {
    hide GoodKeys;
    if h0[v.id].Mapping? {
      var entries, copies, es := h0[v.id].entries, h[w.id].entries, t.entries;
      forall i | 0 <= i < |es|
        ensures EntryUnfolds(h0, entries[i], es[i], path + {v.id}) && EntryClean(es[i]) && EntryShows(h, copies[i], es[i], base)
      {
        assert EntryCopied(h0, entries[i], es[i], path + {v.id}, h, copies[i], base);
      }
      assert EntriesUnfold(h0, entries, es, path + {v.id}) && EntriesClean(es) && EntriesShow(h, copies, es, base);
    } else {
      var items, copies, ts := h0[v.id].items, h[w.id].items, t.items;
      assert forall i :: 0 <= i < |ts| ==> Copied(h0, items[i], ts[i], path + {v.id}, h, copies[i], base);
      assert AllUnfold(h0, items, ts, path + {v.id}) && AllClean(ts) && AllShow(h, copies, ts, base);
    }
  }

  /** Puts the finished container in the store. */
  method AllocateCopy(store: Store, c: Container, ghost h0: Heap, ghost v: Value, ghost t: Tree, ghost path: set<nat>, ghost base: nat)
    returns (w: Value)
    requires Copying(store, h0, base) && v.Ref? && v.id in h0 && v.id !in path
    requires PartsCopied(h0, h0[v.id], t, path + {v.id}, store.heap, c, base)
    modifies store
    ensures Copying(store, h0, base) && Extends(old(store.heap), store.heap)
    ensures Copied(h0, v, t, path, store.heap, w, base)
  {
    hide PartsCopied, Copied;
    PartsInHeap(h0, h0[v.id], t, path + {v.id}, store.heap, c, base);
    w := store.Allocate(c);
    PartsCopiedLater(h0, h0[v.id], t, path + {v.id}, old(store.heap), store.heap, c, base);
    Rebuilt(h0, v, t, path, store.heap, w, base);
  }

  /** The container a value refers to, as copying finds it. */
  lemma Original(store: Store, h0: Heap, base: nat, id: nat)
    requires Copying(store, h0, base) && id in h0
    ensures id in store.heap && store.heap[id] == h0[id]
    ensures h0[id].ListOf? || h0[id].TupleOf? ==> forall i :: 0 <= i < |h0[id].items| ==> InHeap(h0, h0[id].items[i])
    ensures h0[id].Mapping? ==> forall i :: 0 <= i < |h0[id].entries| ==>
      InHeap(h0, h0[id].entries[i].key) && InHeap(h0, h0[id].entries[i].value)
  {
    assert forall i :: 0 <= i < |Children(h0[id])| ==> InHeap(h0, Children(h0[id])[i]);
    if h0[id].Mapping? {
      var entries := h0[id].entries;
      forall i | 0 <= i < |entries| ensures InHeap(h0, entries[i].key) && InHeap(h0, entries[i].value) {
        assert Children(h0[id])[i] == entries[i].key && Children(h0[id])[|entries| + i] == entries[i].value;
      }
    } else if !h0[id].Opaque? {
      assert Children(h0[id]) == h0[id].items;
    }
  }

  /** Copies one value, or turns it down; the active set is put back either way. */
  method SnapshotValue(store: Store, v: Value, active: ActiveSet, ghost h0: Heap, ghost base: nat)
    returns (w: Option<Value>, t: Tree)
    requires Copying(store, h0, base) && InHeap(h0, v) && active.ids <= h0.Keys
    modifies store, active
    ensures active.ids == old(active.ids)
    ensures Copying(store, h0, base) && Extends(old(store.heap), store.heap)
    ensures w.Some? ==> Copied(h0, v, t, active.ids, store.heap, w.value, base)
    ensures w.None? ==> Uncopyable(h0, v, active.ids)
    decreases |h0.Keys - active.ids|, 0
  {
    hide Copying, Copied, Extends, AllCopied, EntriesCopied, Uncopyable, AllUncopyable, EntriesUncopyable, GoodKeys;
    ExtendsOn(store.heap, store.heap, store.heap);
    t := Leaf(NoneAtom);
    if v.Plain? {
      CopiedPlain(h0, v, active.ids, store.heap, base);
      return Some(v), Leaf(v.atom);
    }
    if v.id in active.ids {
      NotCopyable(h0, v, active.ids);
      return None, t;
    }
    ghost var path := active.ids;
    Deeper(h0, path, v.id);
    Original(store, h0, base, v.id);
    active.ids := active.ids + {v.id};
    w := None;
    match store.heap[v.id] {
      case Mapping(entries) =>
        var copies, es := SnapshotEntries(store, entries, active, h0, base);
        if copies.Some? {
          t := MapTree(es);
          ghost var between := store.heap;
          var copy := AllocateCopy(store, Mapping(copies.value), h0, v, t, path, base);
          ExtendsOn(old(store.heap), between, store.heap);
          w := Some(copy);
        }
      case ListOf(items) =>
        var copies, ts := SnapshotItems(store, items, active, h0, base);
        if copies.Some? {
          t := ListTree(ts);
          ghost var between := store.heap;
          var copy := AllocateCopy(store, ListOf(copies.value), h0, v, t, path, base);
          ExtendsOn(old(store.heap), between, store.heap);
          w := Some(copy);
        }
      case TupleOf(items) =>
        var copies, ts := SnapshotItems(store, items, active, h0, base);
        if copies.Some? {
          t := TupleTree(ts);
          ghost var between := store.heap;
          var copy := AllocateCopy(store, TupleOf(copies.value), h0, v, t, path, base);
          ExtendsOn(old(store.heap), between, store.heap);
          w := Some(copy);
        }
      case Opaque =>
    }
    if w.None? {
      NotCopyable(h0, v, path);
    }
    active.ids := active.ids - {v.id};
    assert active.ids == path;
  }

  lemma CopiedPlain(h0: Heap, v: Value, path: set<nat>, h: Heap, base: nat)
    requires v.Plain?
    ensures Copied(h0, v, Leaf(v.atom), path, h, v, base)
  {
  }

  /** Every reason there is to turn a value down. */
  lemma NotCopyable(h: Heap, v: Value, path: set<nat>)
    requires v.Ref? && v.id in h
    requires
      || v.id in path
      || match h[v.id]
         case Mapping(entries) => EntriesUncopyable(h, entries, path + {v.id})
         case ListOf(items) => AllUncopyable(h, items, path + {v.id})
         case TupleOf(items) => AllUncopyable(h, items, path + {v.id})
         case Opaque => true
    ensures Uncopyable(h, v, path)
  {
  }

  lemma OneMoreCopied(h0: Heap, items: seq<Value>, i: nat, ts: seq<Tree>, t: Tree, path: set<nat>, h: Heap, h': Heap, ws: seq<Value>, w: Value, base: nat)
    requires i < |items| && AllCopied(h0, items[..i], ts, path, h, ws, base) && Extends(h, h')
    requires Copied(h0, items[i], t, path, h', w, base)
    ensures AllCopied(h0, items[..i + 1], ts + [t], path, h', ws + [w], base)
  {
    hide Copied, Extends;
    AllCopiedLater(h0, items[..i], ts, path, h, h', ws, base);
    forall j | 0 <= j <= i ensures Copied(h0, items[..i + 1][j], (ts + [t])[j], path, h', (ws + [w])[j], base) {
      if j < i {
        assert Copied(h0, items[..i][j], ts[j], path, h', ws[j], base);
      }
    }
  }

  lemma OneUncopyable(h: Heap, items: seq<Value>, i: nat, path: set<nat>)
    requires i < |items| && Uncopyable(h, items[i], path)
    ensures AllUncopyable(h, items, path)
  {
    hide Unfolds, Clean;
    forall us | AllUnfold(h, items, us, path) ensures !AllClean(us) {
      assert Unfolds(h, items[i], us[i], path);
    }
  }

  /** Copies the items of a list or tuple in order, stopping at the first that is turned down. */
  method SnapshotItems(store: Store, items: seq<Value>, active: ActiveSet, ghost h0: Heap, ghost base: nat)
    returns (ws: Option<seq<Value>>, ts: seq<Tree>)
    requires Copying(store, h0, base) && active.ids <= h0.Keys
    requires forall i :: 0 <= i < |items| ==> InHeap(h0, items[i])
    modifies store, active
    ensures active.ids == old(active.ids)
    ensures Copying(store, h0, base) && Extends(old(store.heap), store.heap)
    ensures ws.Some? ==> AllCopied(h0, items, ts, active.ids, store.heap, ws.value, base)
    ensures ws.None? ==> AllUncopyable(h0, items, active.ids)
    decreases |h0.Keys - active.ids|, 1
  {
    ghost var path := active.ids;
    var copies: seq<Value> := [];
    ts := [];
    assert AllCopied(h0, items[..0], ts, path, store.heap, copies, base);
    hide AllCopied, Copied, Uncopyable, AllUncopyable, Copying, Extends;
    ExtendsOn(store.heap, store.heap, store.heap);
    for i := 0 to |items|
      invariant active.ids == path
      invariant Copying(store, h0, base) && Extends(old(store.heap), store.heap)
      invariant AllCopied(h0, items[..i], ts, path, store.heap, copies, base)
    {
      ghost var before := store.heap;
      var w, t := SnapshotValue(store, items[i], active, h0, base);
      ExtendsOn(old(store.heap), before, store.heap);
      if w.None? {
        OneUncopyable(h0, items, i, path);
        return None, ts;
      }
      OneMoreCopied(h0, items, i, ts, t, path, before, store.heap, copies, w.value, base);
      copies, ts := copies + [w.value], ts + [t];
    }
    assert items[..|items|] == items;
    ws := Some(copies);
  }

  /** The key copied last cannot be used: it has no hash, or a key before it is the same key. */
  predicate BadKey(es: seq<Entry>, key: Tree) {
    !Hashable(key) || exists i :: 0 <= i < |es| && SameKey(es[i].key, key)
  }

  lemma OneMoreEntryCopied(h0: Heap, entries: seq<Item>, i: nat, es: seq<Entry>, e: Entry, path: set<nat>, h: Heap, h': Heap, ws: seq<Item>, w: Item, base: nat)
    requires i < |entries| && EntriesCopied(h0, entries[..i], es, path, h, ws, base) && Extends(h, h')
    requires EntryCopied(h0, entries[i], e, path, h', w, base)
    requires GoodKeys(es) && !BadKey(es, e.key)
    ensures EntriesCopied(h0, entries[..i + 1], es + [e], path, h', ws + [w], base) && GoodKeys(es + [e])
  {
    hide EntryCopied, Extends, SameKey, Hashable;
    EntriesCopiedLater(h0, entries[..i], es, path, h, h', ws, base);
    forall j | 0 <= j <= i ensures EntryCopied(h0, entries[..i + 1][j], (es + [e])[j], path, h', (ws + [w])[j], base) {
      if j < i {
        assert EntryCopied(h0, entries[..i][j], es[j], path, h', ws[j], base);
      }
    }
  }

  /** Copies the entries of a mapping in order, keys before values. */
  method SnapshotEntries(store: Store, entries: seq<Item>, active: ActiveSet, ghost h0: Heap, ghost base: nat)
    returns (ws: Option<seq<Item>>, es: seq<Entry>)
    requires Copying(store, h0, base) && active.ids <= h0.Keys
    requires forall i :: 0 <= i < |entries| ==> InHeap(h0, entries[i].key) && InHeap(h0, entries[i].value)
    modifies store, active
    ensures active.ids == old(active.ids)
    ensures Copying(store, h0, base) && Extends(old(store.heap), store.heap)
    ensures ws.Some? ==> EntriesCopied(h0, entries, es, active.ids, store.heap, ws.value, base) && GoodKeys(es)
    ensures ws.None? ==> EntriesUncopyable(h0, entries, active.ids)
    decreases |h0.Keys - active.ids|, 1
  {
    ghost var path := active.ids;
    var copies: seq<Item> := [];
    es := [];
    assert EntriesCopied(h0, entries[..0], es, path, store.heap, copies, base) && GoodKeys(es);
    hide EntriesCopied, Copied, Uncopyable, EntriesUncopyable, Copying, Extends, GoodKeys, BadKey;
    ExtendsOn(store.heap, store.heap, store.heap);
    for i := 0 to |entries|
      invariant active.ids == path
      invariant Copying(store, h0, base) && Extends(old(store.heap), store.heap)
      invariant EntriesCopied(h0, entries[..i], es, path, store.heap, copies, base) && GoodKeys(es)
    {
      ghost var before := store.heap;
      var k, key := SnapshotValue(store, entries[i].key, active, h0, base);
      ghost var between := store.heap;
      ExtendsOn(old(store.heap), before, between);
      if k.None? {
        PartUncopyable(h0, entries, i, path);
        return None, es;
      }
      if BadKey(es, key) {
        EntriesCopiedUnfold(h0, entries[..i], es, path, before, copies, base);
        CopiedUnfolds(h0, entries[i].key, key, path, between, k.value, base);
        KeyUncopyable(h0, entries, i, es, key, path);
        return None, es;
      }
      var w, value := SnapshotValue(store, entries[i].value, active, h0, base);
      ExtendsOn(old(store.heap), between, store.heap);
      ExtendsOn(before, between, store.heap);
      if w.None? {
        PartUncopyable(h0, entries, i, path);
        return None, es;
      }
      CopiedLater(h0, entries[i].key, key, path, between, store.heap, k.value, base);
      OneMoreEntryCopied(h0, entries, i, es, Entry(key, value), path, before, store.heap, copies, Item(k.value, w.value), base);
      copies, es := copies + [Item(k.value, w.value)], es + [Entry(key, value)];
    }
    assert entries[..|entries|] == entries;
    ws := Some(copies);
  }

  /** One entry that cannot be copied spoils the mapping. */
  lemma PartUncopyable(h: Heap, entries: seq<Item>, i: nat, path: set<nat>)
    requires i < |entries|
    requires Uncopyable(h, entries[i].key, path) || Uncopyable(h, entries[i].value, path)
    ensures EntriesUncopyable(h, entries, path)
  {
    hide Unfolds, Clean;
    forall us: seq<Entry> | EntriesUnfold(h, entries, us, path) ensures !EntriesClean(us) {
      assert EntryUnfolds(h, entries[i], us[i], path);
      assert !EntryClean(us[i]);
    }
  }

  /** And so does one key without a hash or equal to one before. */
  lemma KeyUncopyable(h: Heap, entries: seq<Item>, i: nat, es: seq<Entry>, key: Tree, path: set<nat>)
    requires i < |entries| && EntriesUnfold(h, entries[..i], es, path) && Unfolds(h, entries[i].key, key, path)
    requires BadKey(es, key)
    ensures EntriesUncopyable(h, entries, path)
  {
    hide Unfolds, Clean, Hashable, SameKey;
    forall us: seq<Entry> | EntriesUnfold(h, entries, us, path) ensures !GoodKeys(us) {
      forall j | 0 <= j <= i ensures us[j].key == if j < i then es[j].key else key {
        var k := if j < i then es[j].key else key;
        assert EntryUnfolds(h, entries[j], us[j], path);
        if j < i {
          assert EntryUnfolds(h, entries[..i][j], es[j], path);
        }
        UnfoldsShows(h, entries[j].key, us[j].key, path);
        UnfoldsShows(h, entries[j].key, k, path);
        OneTree(h, entries[j].key, us[j].key, k, 0, 0);
      }
      if Hashable(key) {
        var j :| 0 <= j < |es| && SameKey(es[j].key, key);
        assert SameKey(us[j].key, us[i].key);
      }
    }
  }

  /** A mapping in v has an unhashable key or two keys that are the same. */
  ghost predicate BadlyKeyed(h: Heap, v: Value) {
    exists t :: Shows(h, v, t, 0) && !Clean(t)
  }

  /** The copier's two answers in terms of the body alone. */
  lemma AnswersMean(h: Heap, v: Value)
    requires Closed(h) && InHeap(h, v)
    ensures Uncopyable(h, v, {}) <==> Blocked(h, v, {}) || BadlyKeyed(h, v)
    ensures forall s, t :: Shows(h, v, s, 0) && Unfolds(h, v, t, {}) ==> s == t
  {
    hide Unfolds, Shows, Clean, Blocked;
    MeaningIff(h, v);
    forall s, t | Shows(h, v, s, 0) && Unfolds(h, v, t, {}) ensures s == t {
      OneTree(h, v, s, t, 0, 0);
    }
    if Blocked(h, v, {}) || BadlyKeyed(h, v) {
      forall t | Unfolds(h, v, t, {}) ensures !Clean(t) {
        assert Shows(h, v, t, 0);
      }
    } else {
      var s :| Shows(h, v, s, 0);
      assert Unfolds(h, v, s, {}) && Clean(s);
    }
  }

  // ---------------------------------------------------------------- keys, and mappings that clash

  /** The part of a key at the end of a path of positions in its tuples. */
  function Within(t: Tree, path: seq<nat>): Option<Tree>
    decreases |path|
  {
    if path == [] then Some(t)
    else if t.TupleTree? && path[0] < |t.items| then Within(t.items[path[0]], path[1..])
    else None
  }

  /** A key made of atoms and tuples alone. */
  ghost predicate UsableKey(t: Tree) {
    forall path :: Within(t, path).Some? ==> !Within(t, path).value.ListTree? && !Within(t, path).value.MapTree?
  }

  lemma {:induction false} HashableExactly(t: Tree)
    ensures Hashable(t) <==> UsableKey(t)
  {
    if UsableKey(t) {
      assert Within(t, []) == Some(t);
      if t.TupleTree? {
        forall i | 0 <= i < |t.items| ensures Hashable(t.items[i]) {
          PartUsable(t, i);
          HashableExactly(t.items[i]);
        }
      }
    }
    if Hashable(t) {
      forall path | Within(t, path).Some?
        ensures !Within(t, path).value.ListTree? && !Within(t, path).value.MapTree?
      {
        if path != [] {
          HashableExactly(t.items[path[0]]);
        }
      }
    }
  }

  lemma PartUsable(t: Tree, i: nat)
    requires t.TupleTree? && i < |t.items| && UsableKey(t)
    ensures UsableKey(t.items[i])
  {
    forall path | Within(t.items[i], path).Some?
      ensures !Within(t.items[i], path).value.ListTree? && !Within(t.items[i], path).value.MapTree?
    {
      assert ([i] + path)[1..] == path;
      assert Within(t, [i] + path) == Within(t.items[i], path);
    }
  }

  /** The number an atom is equal to, if it is one. */
  function Number(a: Atom): Option<real> {
    match a
    case Bool(b) => Some(if b then 1.0 else 0.0)
    case Int(n) => Some(n as real)
    case Float(r) => Some(r)
    case _ => None
  }

  /** Numbers are equal across their types; everything else only to itself. */
  predicate EqualAtoms(a: Atom, b: Atom) {
    if Number(a).Some? then Number(b) == Number(a) else a == b
  }

  /** Keys are equal atom by atom, tuples of the same length item by item. */
  predicate EqualKeys(s: Tree, t: Tree) {
    match s
    case Leaf(a) => t.Leaf? && EqualAtoms(a, t.atom)
    case TupleTree(items) =>
      t.TupleTree? && |items| == |t.items| && forall i :: 0 <= i < |items| ==> EqualKeys(items[i], t.items[i])
    case _ => false
  }

  lemma {:induction false} SameKeyExactly(s: Tree, t: Tree)
    requires Hashable(s) && Hashable(t)
    ensures SameKey(s, t) <==> EqualKeys(s, t)
    decreases s
  {
    if s.TupleTree? && t.TupleTree? && |s.items| == |t.items| {
      forall i | 0 <= i < |s.items| ensures SameKey(s.items[i], t.items[i]) <==> EqualKeys(s.items[i], t.items[i]) {
        SameKeyExactly(s.items[i], t.items[i]);
      }
      var a, b := KeyNorm(s).items, KeyNorm(t).items;
      if a == b {
        forall i | 0 <= i < |s.items| ensures SameKey(s.items[i], t.items[i]) {
          assert a[i] == b[i];
        }
      }
    } else if s.TupleTree? && t.TupleTree? {
      assert |KeyNorm(s).items| != |KeyNorm(t).items|;
    }
  }

  /** Being equal is an equivalence on keys. */
  lemma {:induction false} EqualKeysReflexive(t: Tree)
    requires Hashable(t)
    ensures EqualKeys(t, t)
  {
    if t.TupleTree? {
      forall i | 0 <= i < |t.items| ensures EqualKeys(t.items[i], t.items[i]) { EqualKeysReflexive(t.items[i]); }
    }
  }

  lemma {:induction false} EqualKeysSymmetric(s: Tree, t: Tree)
    requires EqualKeys(s, t)
    ensures EqualKeys(t, s)
    decreases s
  {
    if s.TupleTree? {
      forall i | 0 <= i < |s.items| ensures EqualKeys(t.items[i], s.items[i]) { EqualKeysSymmetric(s.items[i], t.items[i]); }
    }
  }

  lemma {:induction false} EqualKeysTransitive(s: Tree, t: Tree, u: Tree)
    requires EqualKeys(s, t) && EqualKeys(t, u)
    ensures EqualKeys(s, u)
    decreases s
  {
    if s.TupleTree? {
      forall i | 0 <= i < |s.items| ensures EqualKeys(s.items[i], u.items[i]) {
        EqualKeysTransitive(s.items[i], t.items[i], u.items[i]);
      }
    }
  }

  ghost predicate HasUnusableKey(h: Heap, entries: seq<Item>) {
    exists i, t :: 0 <= i < |entries| && Shows(h, entries[i].key, t, 0) && !UsableKey(t)
  }

  ghost predicate HasEqualKeys(h: Heap, entries: seq<Item>) {
    exists i, j, s, t :: 0 <= i < j < |entries| && Shows(h, entries[i].key, s, 0) && Shows(h, entries[j].key, t, 0) && EqualKeys(s, t)
  }

  /** The way down ends at a mapping with an unusable key or two equal keys. */
  ghost predicate EndsBadly(h: Heap, p: seq<nat>)
    requires |p| > 0 && p[|p| - 1] in h
  {
    var c := h[p[|p| - 1]];
    c.Mapping? && (HasUnusableKey(h, c.entries) || HasEqualKeys(h, c.entries))
  }

  ghost predicate ReachesBadMapping(h: Heap, v: Value) {
    exists p :: Walk(h, v, p) && EndsBadly(h, p)
  }

  lemma BadKeysExactly(h: Heap, v: Value, t: Tree)
    requires Shows(h, v, t, 0) && t.MapTree?
    ensures v.Ref? && v.id in h && h[v.id].Mapping?
    ensures !GoodKeys(t.entries) <==> HasUnusableKey(h, h[v.id].entries) || HasEqualKeys(h, h[v.id].entries)
  {
    hide Hashable, SameKey, UsableKey, EqualKeys;
    var entries, es := h[v.id].entries, t.entries;
    forall i | 0 <= i < |es|
      ensures Shows(h, entries[i].key, es[i].key, 0) && (Hashable(es[i].key) <==> UsableKey(es[i].key))
      ensures forall s :: Shows(h, entries[i].key, s, 0) ==> s == es[i].key
    {
      assert EntryShows(h, entries[i], es[i], 0);
      HashableExactly(es[i].key);
      forall s | Shows(h, entries[i].key, s, 0) ensures s == es[i].key {
        OneTree(h, entries[i].key, s, es[i].key, 0, 0);
      }
    }
    forall i, j | 0 <= i < j < |es| && Hashable(es[i].key) && Hashable(es[j].key)
      ensures SameKey(es[i].key, es[j].key) <==> EqualKeys(es[i].key, es[j].key)
    {
      SameKeyExactly(es[i].key, es[j].key);
    }
    hide Shows;
    if !GoodKeys(es) && forall i :: 0 <= i < |es| ==> Hashable(es[i].key) {
      var i, j :| 0 <= i < j < |es| && SameKey(es[i].key, es[j].key);
      assert EqualKeys(es[i].key, es[j].key);
    }
  }

  lemma WalkStep(h: Heap, v: Value, child: Value, p: seq<nat>)
    requires v.Ref? && v.id in h && child in Children(h[v.id]) && Walk(h, child, p)
    ensures Walk(h, v, [v.id] + p) && (EndsBadly(h, p) ==> EndsBadly(h, [v.id] + p))
  {
    var q := [v.id] + p;
    forall k | 1 <= k < |q| ensures Ref(q[k]) in Children(h[q[k - 1]]) {
      if k > 1 {
        assert Ref(p[k - 1]) in Children(h[p[k - 2]]);
      }
    }
  }

  lemma ReachFrom(h: Heap, v: Value, child: Value)
    requires v.Ref? && v.id in h && child in Children(h[v.id]) && ReachesBadMapping(h, child)
    ensures ReachesBadMapping(h, v)
  {
    var p :| Walk(h, child, p) && EndsBadly(h, p);
    WalkStep(h, v, child, p);
  }

  lemma ChildOf(h: Heap, id: nat, i: nat)
    requires id in h
    ensures h[id].Mapping? && i < |h[id].entries| ==>
              h[id].entries[i].key in Children(h[id]) && h[id].entries[i].value in Children(h[id])
    ensures (h[id].ListOf? || h[id].TupleOf?) && i < |h[id].items| ==> h[id].items[i] in Children(h[id])
  {
    if h[id].Mapping? && i < |h[id].entries| {
      assert Keys(h[id].entries)[i] in Keys(h[id].entries) && Values(h[id].entries)[i] in Values(h[id].entries);
    }
  }

  /** A tree that is not clean comes from a bad mapping. */
  lemma {:induction false} UncleanReachesBad(h: Heap, v: Value, t: Tree)
    requires Shows(h, v, t, 0) && !Clean(t)
    ensures ReachesBadMapping(h, v)
    decreases t
  {
    hide ReachesBadMapping;
    match h[v.id] {
      case Mapping(entries) =>
        if GoodKeys(t.entries) {
          var i :| 0 <= i < |t.entries| && !EntryClean(t.entries[i]);
          assert EntryShows(h, entries[i], t.entries[i], 0);
          ChildOf(h, v.id, i);
          if !Clean(t.entries[i].key) {
            UncleanReachesBad(h, entries[i].key, t.entries[i].key);
            ReachFrom(h, v, entries[i].key);
          } else {
            UncleanReachesBad(h, entries[i].value, t.entries[i].value);
            ReachFrom(h, v, entries[i].value);
          }
        } else {
          BadKeysExactly(h, v, t);
          BadHere(h, v);
        }
      case ListOf(items) =>
        var i :| 0 <= i < |t.items| && !Clean(t.items[i]);
        UncleanReachesBad(h, items[i], t.items[i]);
        ChildOf(h, v.id, i);
        ReachFrom(h, v, items[i]);
      case TupleOf(items) =>
        var i :| 0 <= i < |t.items| && !Clean(t.items[i]);
        UncleanReachesBad(h, items[i], t.items[i]);
        ChildOf(h, v.id, i);
        ReachFrom(h, v, items[i]);
    }
  }

  lemma BadHere(h: Heap, v: Value)
    requires v.Ref? && v.id in h && h[v.id].Mapping?
    requires HasUnusableKey(h, h[v.id].entries) || HasEqualKeys(h, h[v.id].entries)
    ensures ReachesBadMapping(h, v)
  {
    assert Walk(h, v, [v.id]) && EndsBadly(h, [v.id]);
  }

  /** The part of a tree that belongs to the i-th child. */
  function Part(t: Tree, i: nat): Option<Tree> {
    match t
    case Leaf(_) => None
    case ListTree(items) => if i < |items| then Some(items[i]) else None
    case TupleTree(items) => if i < |items| then Some(items[i]) else None
    case MapTree(es) =>
      if i < |es| then Some(es[i].key) else if i < 2 * |es| then Some(es[i - |es|].value) else None
  }

  lemma TreeAt(h: Heap, v: Value, t: Tree, base: nat, i: nat) returns (u: Tree)
    requires Shows(h, v, t, base) && v.Ref? && i < |Children(h[v.id])|
    ensures Part(t, i) == Some(u) && Shows(h, Children(h[v.id])[i], u, base)
  {
    match h[v.id] {
      case Mapping(entries) =>
        var n := |entries|;
        var k := if i < n then i else i - n;
        assert EntryShows(h, entries[k], t.entries[k], base);
        assert Children(h[v.id])[i] == if i < n then Keys(entries)[k] else Values(entries)[k];
        u := if i < n then t.entries[k].key else t.entries[k].value;
      case ListOf(items) => u := t.items[i];
      case TupleOf(items) => u := t.items[i];
    }
  }

  lemma CleanPart(t: Tree, i: nat)
    requires Clean(t) && Part(t, i).Some?
    ensures Clean(Part(t, i).value)
  {
    match t {
      case ListTree(items) => assert AllClean(items);
      case TupleTree(items) => assert AllClean(items);
      case MapTree(es) =>
        assert EntriesClean(es);
        assert EntryClean(es[if i < |es| then i else i - |es|]);
    }
  }

  /** A child's tree is a part of its parent's, and clean if that is. */
  lemma PartOf(h: Heap, v: Value, t: Tree, child: Value) returns (u: Tree)
    requires Shows(h, v, t, 0) && v.Ref? && child in Children(h[v.id])
    ensures Shows(h, child, u, 0) && (Clean(t) ==> Clean(u))
  {
    hide Clean, Children;
    var i :| 0 <= i < |Children(h[v.id])| && Children(h[v.id])[i] == child;
    u := TreeAt(h, v, t, 0, i);
    if Clean(t) { CleanPart(t, i); }
  }

  lemma {:induction false} BadIsUnclean(h: Heap, v: Value, t: Tree, p: seq<nat>)
    requires Shows(h, v, t, 0) && Walk(h, v, p) && EndsBadly(h, p)
    ensures !Clean(t)
    decreases |p|
  {
    if |p| == 1 {
      BadKeysExactly(h, v, t);
    } else {
      var next := Ref(p[1]);
      assert next in Children(h[p[0]]);
      var u := PartOf(h, v, t, next);
      assert Walk(h, next, p[1..]) by {
        forall k | 1 <= k < |p[1..]| ensures Ref(p[1..][k]) in Children(h[p[1..][k - 1]]) {
          assert Ref(p[k + 1]) in Children(h[p[k]]);
        }
      }
      BadIsUnclean(h, next, u, p[1..]);
    }
  }

  /** What it takes for a body that unfolds to be badly keyed. */
  lemma BadlyKeyedExactly(h: Heap, v: Value)
    requires Closed(h) && InHeap(h, v) && !Blocked(h, v, {})
    ensures BadlyKeyed(h, v) <==> ReachesBadMapping(h, v)
  {
    hide Clean, Blocked, Shows;
    MeaningIff(h, v);
    if BadlyKeyed(h, v) {
      var t :| Shows(h, v, t, 0) && !Clean(t);
      UncleanReachesBad(h, v, t);
    }
    if ReachesBadMapping(h, v) {
      var p :| Walk(h, v, p) && EndsBadly(h, p);
      var t :| Shows(h, v, t, 0);
      BadIsUnclean(h, v, t, p);
    }
  }

  predicate KeyedByStrings(c: Container) {
    c.Mapping? ==> forall i :: 0 <= i < |c.entries| ==> c.entries[i].key.Plain? && c.entries[i].key.atom.Str?
  }

  predicate RepeatsKey(c: Container) {
    c.Mapping? && exists i, j :: 0 <= i < j < |c.entries| && c.entries[i].key == c.entries[j].key
  }

  /** Every mapping that can be reached is keyed by strings. */
  ghost predicate StringKeyed(h: Heap, v: Value) {
    forall p :: Walk(h, v, p) ==> KeyedByStrings(h[p[|p| - 1]])
  }

  ghost predicate ReachesRepeatedKey(h: Heap, v: Value) {
    exists p :: Walk(h, v, p) && RepeatsKey(h[p[|p| - 1]])
  }

  lemma StringMapping(h: Heap, p: seq<nat>)
    requires |p| > 0 && p[|p| - 1] in h && KeyedByStrings(h[p[|p| - 1]])
    ensures EndsBadly(h, p) <==> RepeatsKey(h[p[|p| - 1]])
  {
    var c := h[p[|p| - 1]];
    if c.Mapping? {
      var entries := c.entries;
      forall i | 0 <= i < |entries| ensures Shows(h, entries[i].key, Leaf(entries[i].key.atom), 0) && UsableKey(Leaf(entries[i].key.atom)) {
        HashableExactly(Leaf(entries[i].key.atom));
      }
      if RepeatsKey(c) {
        var i, j :| 0 <= i < j < |entries| && entries[i].key == entries[j].key;
        assert EqualKeys(Leaf(entries[i].key.atom), Leaf(entries[j].key.atom));
      }
    }
  }

  /** With string keys only, a key given twice is all that can be wrong. */
  lemma StringKeysExactly(h: Heap, v: Value)
    requires StringKeyed(h, v)
    ensures ReachesBadMapping(h, v) <==> ReachesRepeatedKey(h, v)
  {
    hide EndsBadly, RepeatsKey, KeyedByStrings;
    forall p | Walk(h, v, p) ensures EndsBadly(h, p) <==> RepeatsKey(h[p[|p| - 1]]) {
      StringMapping(h, p);
    }
  }

  // ---------------------------------------------------------------- original and copy, side by side

  /** The value at the end of a path of child positions. */
  function At(h: Heap, v: Value, path: seq<nat>): Option<Value>
    decreases |path|
  {
    if path == [] then Some(v)
    else if v.Ref? && v.id in h && path[0] < |Children(h[v.id])| then At(h, Children(h[v.id])[path[0]], path[1..])
    else None
  }

  /** The same atom, or containers of the same kind and size, the copy's a new one. */
  predicate Alike(h: Heap, v: Value, h': Heap, w: Value, base: nat) {
    if v.Plain? then w == v
    else
      && w.Ref? && v.id in h && w.id in h' && base <= w.id
      && var c, d := h[v.id], h'[w.id];
         && !c.Opaque? && (c.Mapping? <==> d.Mapping?) && (c.ListOf? <==> d.ListOf?) && (c.TupleOf? <==> d.TupleOf?)
         && |Children(c)| == |Children(d)|
  }

  /** Wherever one can go from the original one can go from the copy, and finds the same there. */
  ghost predicate Mirrors(h: Heap, v: Value, h': Heap, w: Value, base: nat) {
    forall path :: AlikeAt(h, v, h', w, base, path)
  }

  ghost predicate AlikeAt(h: Heap, v: Value, h': Heap, w: Value, base: nat, path: seq<nat>) {
    match (At(h, v, path), At(h', w, path))
    case (Some(a), Some(b)) => Alike(h, a, h', b, base)
    case (None, None) => true
    case (_, _) => false
  }

  lemma {:induction false} CopyMirrors(h: Heap, v: Value, h': Heap, w: Value, t: Tree, base: nat, path: seq<nat>)
    requires Shows(h, v, t, 0) && Shows(h', w, t, base)
    ensures AlikeAt(h, v, h', w, base, path)
    decreases |path|
  {
    if path != [] && v.Ref? && path[0] < |Children(h[v.id])| {
      var u := TreeAt(h, v, t, 0, path[0]);
      var u' := TreeAt(h', w, t, base, path[0]);
      CopyMirrors(h, Children(h[v.id])[path[0]], h', Children(h'[w.id])[path[0]], u, base, path[1..]);
    }
  }

  /**
   * The copy of a whole body.  It is refused exactly when a loop or an unsupported object can be
   * reached from it, or a mapping with an unusable key or two equal keys, which with string keys
   * means a key given twice; else the copy mirrors the body in containers none of which was there
   * before.
   */
  method SnapshotBodyValue(store: Store, v: Value) returns (w: Option<Value>)
    requires store.Valid() && InHeap(store.heap, v)
    modifies store
    ensures store.Valid() && Extends(old(store.heap), store.heap)
    ensures w.None? <==> Blocked(old(store.heap), v, {}) || ReachesBadMapping(old(store.heap), v)
    ensures !Blocked(old(store.heap), v, {}) && StringKeyed(old(store.heap), v) ==>
              (w.None? <==> ReachesRepeatedKey(old(store.heap), v))
    ensures w.Some? ==> InHeap(store.heap, w.value)
    ensures w.Some? ==> exists t :: Shows(old(store.heap), v, t, 0) && Shows(store.heap, w.value, t, old(store.next))
    ensures w.Some? ==> Mirrors(old(store.heap), v, store.heap, w.value, old(store.next))
  {
    ghost var h0, base := store.heap, store.next;
    assert Extends(h0, store.heap);
    hide Unfolds, Shows, Clean, Blocked, BadlyKeyed, ReachesBadMapping, ReachesRepeatedKey, StringKeyed, AlikeAt;
    var active := new ActiveSet();
    var t: Tree;
    w, t := SnapshotValue(store, v, active, h0, base);
    AnswersMean(h0, v);
    if !Blocked(h0, v, {}) {
      BadlyKeyedExactly(h0, v);
      if StringKeyed(h0, v) { StringKeysExactly(h0, v); }
    }
    if w.Some? {
      UnfoldsShows(h0, v, t, {});
      assert Clean(t);
      forall path ensures AlikeAt(h0, v, store.heap, w.value, base, path) {
        CopyMirrors(h0, v, store.heap, w.value, t, base, path);
      }
    }
  }
}
