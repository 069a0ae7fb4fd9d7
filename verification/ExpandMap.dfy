/**
 * ExpandMap with VisitedBy: breadth-first expansion of a pipeline, driven by a queue of child pipelines
 * and a set of visited keys.
 */
module ExpandMap {
  import opened Outcomes

  function ChildrenOf<T>(expand: T -> Option<seq<T>>, x: T): seq<T> {
    if expand(x).Some? then expand(x).value else []
  }

  /** The items at the end of some path of exactly d edges from a root. */
  ghost function PathEnds<T(!new)>(roots: seq<T>, expand: T -> Option<seq<T>>, d: nat): set<T> {
    if d == 0 then set i | 0 <= i < |roots| :: roots[i]
    else set x, i | x in PathEnds(roots, expand, d - 1) && 0 <= i < |ChildrenOf(expand, x)| :: ChildrenOf(expand, x)[i]
  }

  /**
   * `expand` is what the user function returns for an item: no pipeline, or the items of one. `keys` is a finite
   * set with the keys of all items within the depth cap, and `next` the keys an item's children have, where
   * that depends only on the item's key.
   */
  datatype Expansion<!T(!new), !K(==)> = Expansion(
    roots: seq<T>,
    expand: T -> Option<seq<T>>,
    key: T -> K,
    maxDepth: Option<int>,
    ghost keys: set<K>,
    ghost next: K -> set<K>)
  {
    function Children(x: T): seq<T> {
      ChildrenOf(expand, x)
    }

    ghost function ItemsAt(d: nat): set<T> {
      PathEnds(roots, expand, d)
    }

    /** The items within the depth cap have finitely many keys. */
    ghost predicate Finite() {
      forall d: nat, x :: x in ItemsAt(d) && Within(d) ==> key(x) in keys
    }

    /** In addition, items with one key have children with the same keys: this lets VisitedBy skip one for another. */
    ghost predicate Legal() {
      Finite() && forall x: T, k :: key(x) == k && k in keys ==> KeysOf(Children(x)) == next(k)
    }

    ghost function KeysOf(xs: seq<T>): set<K> {
      set i | 0 <= i < |xs| :: key(xs[i])
    }

    /** Whether items at depth d are expanded into the queue. Roots always are. */
    predicate Within(d: nat) {
      d == 0 || maxDepth.None? || d <= maxDepth.value
    }

    /** The keys at the end of some path of exactly d edges from a root. */
    ghost function Level(d: nat): set<K> {
      if d == 0 then KeysOf(roots)
      else set k', k | k' in Level(d - 1) && k in next(k') :: k
    }
  }

  /** An item waiting to be emitted, with its depth below the roots. */
  type Entry<T> = (T, nat)

  function At<T>(xs: seq<T>, d: nat): seq<Entry<T>> {
    seq(|xs|, i requires 0 <= i < |xs| => (xs[i], d))
  }

  function Kids<T(!new), K(==)>(c: Expansion<T, K>, e: Entry<T>): seq<Entry<T>> {
    if c.Within(e.1 + 1) then At(c.Children(e.0), e.1 + 1) else []
  }

  ghost predicate InKeys<T(!new), K>(c: Expansion<T, K>, pending: seq<Entry<T>>) {
    forall i :: 0 <= i < |pending| ==> pending[i].0 in c.ItemsAt(pending[i].1) && c.Within(pending[i].1)
  }

  lemma ChildIsAt<T(!new), K>(c: Expansion<T, K>, x: T, d: nat, i: nat)
    requires x in c.ItemsAt(d) && i < |c.Children(x)|
    ensures c.Children(x)[i] in c.ItemsAt(d + 1)
  {
  }

  lemma KidsInKeys<T(!new), K>(c: Expansion<T, K>, e: Entry<T>)
    requires e.0 in c.ItemsAt(e.1)
    ensures InKeys(c, Kids(c, e))
  {
    forall i | 0 <= i < |Kids(c, e)|
      ensures Kids(c, e)[i].0 in c.ItemsAt(Kids(c, e)[i].1) && c.Within(Kids(c, e)[i].1)
    {
      ChildIsAt(c, e.0, e.1, i);
    }
  }

  /** With a depth cap there always is such a finite set. */
  lemma DepthCapIsFinite<T(!new), K>(c: Expansion<T, K>) returns (keys: set<K>)
    requires c.maxDepth.Some?
    ensures c.(keys := keys).Finite()
  {
    var deepest := if c.maxDepth.value < 0 then 0 else c.maxDepth.value;
    keys := KeysUpTo(c, deepest);
    var c' := c.(keys := keys);
    forall d: nat, x | x in c'.ItemsAt(d) && c'.Within(d)
      ensures c'.key(x) in keys
    {
      assert c'.ItemsAt(d) == c.ItemsAt(d);
    }
  }

  lemma {:induction false} KeysUpTo<T(!new), K>(c: Expansion<T, K>, n: nat) returns (keys: set<K>)
    ensures forall d: nat, x :: d <= n && x in c.ItemsAt(d) ==> c.key(x) in keys
  {
    keys := set x | x in c.ItemsAt(n) :: c.key(x);
    if n > 0 {
      var fewer := KeysUpTo(c, n - 1);
      keys := keys + fewer;
    }
  }

  /** Visiting a new key uses up one of the finitely many. */
  lemma FewerKeys<K>(keys: set<K>, depth: map<K, nat>, k: K, d: nat)
    requires k in keys && k !in depth
    ensures |keys - depth[k := d].Keys| < |keys - depth.Keys|
  {
    assert keys - depth[k := d].Keys == (keys - depth.Keys) - {k};
  }

  datatype Explored<!T, !K> = Explored(emitted: seq<Entry<T>>, depth: map<K, nat>)

  /**
   * Unlimited expansion with one flat first-in first-out list of waiting items. `depth` holds the visited
   * keys with the depth they were emitted at.
   */
  ghost function Explore<T(!new), K>(c: Expansion<T, K>, pending: seq<Entry<T>>, depth: map<K, nat>): Explored<T, K>
    requires c.Finite() && InKeys(c, pending)
    decreases |c.keys - depth.Keys|, |pending|
  {
    if pending == [] then Explored([], depth)
    else
      var e := pending[0];
      var k := c.key(e.0);
      if k in depth then Explore(c, pending[1..], depth)
      else
        KidsInKeys(c, e);
        FewerKeys(c.keys, depth, k, e.1);
        var r := Explore(c, pending[1..] + Kids(c, e), depth[k := e.1]);
        Explored([e] + r.emitted, r.depth)
  }

  ghost function ExploreRoots<T(!new), K>(c: Expansion<T, K>): Explored<T, K>
    requires c.Finite()
  {
    Explore(c, At(c.roots, 0), map[])
  }

  function Items<T>(es: seq<Entry<T>>): seq<T> {
    seq(|es|, i requires 0 <= i < |es| => es[i].0)
  }

  // ------------------------------------------------------------------ breadth-first order

  /** The depth map records exactly the emissions, on top of what it started with. */
  ghost predicate Recorded<T(!new), K>(c: Expansion<T, K>, depth: map<K, nat>, r: Explored<T, K>) {
    && (forall k :: k in depth ==> k in r.depth && r.depth[k] == depth[k])
    && (forall i :: 0 <= i < |r.emitted| ==>
          var k := c.key(r.emitted[i].0); k !in depth && k in r.depth && r.depth[k] == r.emitted[i].1)
    && (forall k :: k in r.depth ==> k in depth || exists i :: 0 <= i < |r.emitted| && c.key(r.emitted[i].0) == k)
  }

  ghost predicate DistinctKeys<T(!new), K>(c: Expansion<T, K>, es: seq<Entry<T>>) {
    forall i, j :: 0 <= i < j < |es| ==> c.key(es[i].0) != c.key(es[j].0)
  }

  lemma DistinctCons<T(!new), K>(c: Expansion<T, K>, depth: map<K, nat>, e: Entry<T>, r: Explored<T, K>)
    requires Recorded(c, depth[c.key(e.0) := e.1], r) && DistinctKeys(c, r.emitted)
    ensures DistinctKeys(c, [e] + r.emitted)
  {
    var es := [e] + r.emitted;
    forall i, j | 0 <= i < j < |es|
      ensures c.key(es[i].0) != c.key(es[j].0)
    {
      assert es[j] == r.emitted[j - 1];
      assert i > 0 ==> es[i] == r.emitted[i - 1];
    }
  }

  lemma RecordedCons<T(!new), K>(c: Expansion<T, K>, depth: map<K, nat>, e: Entry<T>, r: Explored<T, K>)
    requires c.key(e.0) !in depth && Recorded(c, depth[c.key(e.0) := e.1], r)
    ensures Recorded(c, depth, Explored([e] + r.emitted, r.depth))
  {
    var depth', es := depth[c.key(e.0) := e.1], [e] + r.emitted;
    forall k | k in depth
      ensures k in r.depth && r.depth[k] == depth[k]
    {
      assert k in depth' && depth'[k] == depth[k];
    }
    forall i | 0 <= i < |es|
      ensures var k := c.key(es[i].0); k !in depth && k in r.depth && r.depth[k] == es[i].1
    {
      if i == 0 {
        assert c.key(e.0) in depth';
      } else {
        assert es[i] == r.emitted[i - 1];
      }
    }
    forall k | k in r.depth && k !in depth
      ensures exists i :: 0 <= i < |es| && c.key(es[i].0) == k
    {
      if k == c.key(e.0) {
        assert es[0] == e;
      } else {
        var i :| 0 <= i < |r.emitted| && c.key(r.emitted[i].0) == k;
        assert es[i + 1] == r.emitted[i];
      }
    }
  }

  /** Keys are emitted at most once. */
  lemma {:induction false} EmittedOnce<T(!new), K>(c: Expansion<T, K>, pending: seq<Entry<T>>, depth: map<K, nat>)
    requires c.Finite() && InKeys(c, pending)
    ensures var r := Explore(c, pending, depth); Recorded(c, depth, r) && DistinctKeys(c, r.emitted)
    decreases |c.keys - depth.Keys|, |pending|
  {
    if pending != [] {
      var e := pending[0];
      var k := c.key(e.0);
      if k in depth {
        EmittedOnce(c, pending[1..], depth);
      } else {
        KidsInKeys(c, e);
        FewerKeys(c.keys, depth, k, e.1);
        EmittedOnce(c, pending[1..] + Kids(c, e), depth[k := e.1]);
        var r := Explore(c, pending[1..] + Kids(c, e), depth[k := e.1]);
        DistinctCons(c, depth, e, r);
        RecordedCons(c, depth, e, r);
      }
    }
  }

  /** The waiting list spans at most two adjacent depths, in order, none above what was emitted. */
  ghost predicate Layered<T, K>(pending: seq<Entry<T>>, depth: map<K, nat>) {
    && (forall i, j :: 0 <= i <= j < |pending| ==> pending[i].1 <= pending[j].1 <= pending[i].1 + 1)
    && (forall k, i :: k in depth && 0 <= i < |pending| ==> depth[k] <= pending[i].1)
  }

  lemma LayeredStep<T(!new), K>(c: Expansion<T, K>, pending: seq<Entry<T>>, depth: map<K, nat>)
    requires pending != [] && Layered(pending, depth)
    ensures Layered(pending[1..], depth)
    ensures Layered(pending[1..] + Kids(c, pending[0]), depth[c.key(pending[0].0) := pending[0].1])
  {
  }

  ghost predicate NonDecreasing<T>(es: seq<Entry<T>>, from: nat) {
    && (forall i :: 0 <= i < |es| ==> from <= es[i].1)
    && (forall i, j :: 0 <= i <= j < |es| ==> es[i].1 <= es[j].1)
  }

  lemma NonDecreasingCons<T>(e: Entry<T>, es: seq<Entry<T>>, from: nat)
    requires NonDecreasing(es, e.1) && from <= e.1
    ensures NonDecreasing([e] + es, from)
  {
    var all := [e] + es;
    forall j | 0 <= j < |all|
      ensures e.1 <= all[j].1
    {
      assert j > 0 ==> all[j] == es[j - 1];
    }
    forall i, j | 0 <= i <= j < |all|
      ensures all[i].1 <= all[j].1
    {
      assert i > 0 ==> all[i] == es[i - 1] && all[j] == es[j - 1];
    }
  }

  ghost predicate NoneAbove<T>(pending: seq<Entry<T>>, from: nat) {
    forall i :: 0 <= i < |pending| ==> from <= pending[i].1
  }

  lemma NextNoneAbove<T(!new), K>(c: Expansion<T, K>, pending: seq<Entry<T>>, depth: map<K, nat>)
    requires pending != [] && Layered(pending, depth)
    ensures NoneAbove(pending[1..] + Kids(c, pending[0]), pending[0].1)
  {
  }

  lemma {:induction false} DepthsNonDecreasing<T(!new), K>(c: Expansion<T, K>, pending: seq<Entry<T>>,
                                                           depth: map<K, nat>, from: nat)
    requires c.Finite() && InKeys(c, pending) && Layered(pending, depth) && NoneAbove(pending, from)
    ensures NonDecreasing(Explore(c, pending, depth).emitted, from)
    decreases |c.keys - depth.Keys|, |pending|
  {
    if pending != [] {
      var e := pending[0];
      var k := c.key(e.0);
      LayeredStep(c, pending, depth);
      if k in depth {
        DepthsNonDecreasing(c, pending[1..], depth, from);
      } else {
        KidsInKeys(c, e);
        FewerKeys(c.keys, depth, k, e.1);
        NextNoneAbove(c, pending, depth);
        DepthsNonDecreasing(c, pending[1..] + Kids(c, e), depth[k := e.1], e.1);
        NonDecreasingCons(e, Explore(c, pending[1..] + Kids(c, e), depth[k := e.1]).emitted, from);
      }
    }
  }

  // ------------------------------------------------------------------ reachability

  /** Key k was emitted at depth at most d, or an item with that key waits at depth at most d. */
  ghost predicate Covered<T(!new), K>(c: Expansion<T, K>, pending: seq<Entry<T>>, depth: map<K, nat>, k: K, d: nat) {
    || (k in depth && depth[k] <= d)
    || (exists i :: 0 <= i < |pending| && c.key(pending[i].0) == k && pending[i].1 <= d)
  }

  ghost predicate Sound<T(!new), K>(c: Expansion<T, K>, pending: seq<Entry<T>>, depth: map<K, nat>) {
    && (forall i :: 0 <= i < |pending| ==> c.key(pending[i].0) in c.Level(pending[i].1) && c.Within(pending[i].1))
    && (forall k :: k in depth ==> k in c.Level(depth[k]) && c.Within(depth[k]) && k in c.keys)
  }

  ghost predicate Complete<T(!new), K>(c: Expansion<T, K>, pending: seq<Entry<T>>, depth: map<K, nat>) {
    && (forall k :: k in c.Level(0) ==> Covered(c, pending, depth, k, 0))
    && (forall k, k' :: k in depth && c.Within(depth[k] + 1) && k' in c.next(k) ==>
          Covered(c, pending, depth, k', depth[k] + 1))
  }

  /** Dropping an item whose key was visited uncovers nothing. */
  lemma CoveredDrop<T(!new), K>(c: Expansion<T, K>, pending: seq<Entry<T>>, depth: map<K, nat>, k: K, d: nat)
    requires pending != [] && Layered(pending, depth) && c.key(pending[0].0) in depth
    requires Covered(c, pending, depth, k, d)
    ensures Covered(c, pending[1..], depth, k, d)
  {
    if !(k in depth && depth[k] <= d) {
      var i :| 0 <= i < |pending| && c.key(pending[i].0) == k && pending[i].1 <= d;
      assert i > 0 && pending[1..][i - 1] == pending[i];
    }
  }

  lemma CoveredEmit<T(!new), K>(c: Expansion<T, K>, pending: seq<Entry<T>>, depth: map<K, nat>, k: K, d: nat)
    requires pending != [] && c.key(pending[0].0) !in depth
    requires Covered(c, pending, depth, k, d)
    ensures Covered(c, pending[1..] + Kids(c, pending[0]), depth[c.key(pending[0].0) := pending[0].1], k, d)
  {
    var e := pending[0];
    var rest, depth' := pending[1..] + Kids(c, e), depth[c.key(e.0) := e.1];
    if !(k in depth && depth[k] <= d) {
      var i :| 0 <= i < |pending| && c.key(pending[i].0) == k && pending[i].1 <= d;
      if i > 0 {
        assert rest[i - 1] == pending[i];
      }
    }
  }

  /** A newly emitted item's children are covered by the items it puts in the list. */
  lemma KidsCovered<T(!new), K>(c: Expansion<T, K>, pending: seq<Entry<T>>, depth: map<K, nat>, e: Entry<T>, k': K)
    requires c.Legal() && c.key(e.0) in c.keys && c.Within(e.1 + 1) && k' in c.next(c.key(e.0))
    ensures Covered(c, pending + Kids(c, e), depth, k', e.1 + 1)
  {
    assert k' in c.KeysOf(c.Children(e.0));
    var i :| 0 <= i < |c.Children(e.0)| && c.key(c.Children(e.0)[i]) == k';
    assert (pending + Kids(c, e))[|pending| + i] == (c.Children(e.0)[i], e.1 + 1);
  }

  lemma SoundStep<T(!new), K>(c: Expansion<T, K>, pending: seq<Entry<T>>, depth: map<K, nat>)
    requires c.Legal() && InKeys(c, pending) && pending != [] && Sound(c, pending, depth)
    ensures Sound(c, pending[1..], depth)
    ensures Sound(c, pending[1..] + Kids(c, pending[0]), depth[c.key(pending[0].0) := pending[0].1])
  {
    var e := pending[0];
    forall i | 0 <= i < |Kids(c, e)|
      ensures c.key(Kids(c, e)[i].0) in c.Level(e.1 + 1)
    {
      assert c.key(c.Children(e.0)[i]) in c.KeysOf(c.Children(e.0));
      assert c.key(e.0) in c.Level(e.1);
    }
  }

  lemma CompleteStep<T(!new), K>(c: Expansion<T, K>, pending: seq<Entry<T>>, depth: map<K, nat>)
    requires c.Legal() && InKeys(c, pending) && pending != [] && Layered(pending, depth) && Complete(c, pending, depth)
    ensures c.key(pending[0].0) in depth ==> Complete(c, pending[1..], depth)
    ensures c.key(pending[0].0) !in depth ==>
              Complete(c, pending[1..] + Kids(c, pending[0]), depth[c.key(pending[0].0) := pending[0].1])
  {
    var e := pending[0];
    if c.key(e.0) in depth {
      forall k | k in c.Level(0)
        ensures Covered(c, pending[1..], depth, k, 0)
      {
        CoveredDrop(c, pending, depth, k, 0);
      }
      forall k, k' | k in depth && c.Within(depth[k] + 1) && k' in c.next(k)
        ensures Covered(c, pending[1..], depth, k', depth[k] + 1)
      {
        CoveredDrop(c, pending, depth, k', depth[k] + 1);
      }
    } else {
      CompleteEmit(c, pending, depth);
    }
  }

  lemma CompleteEmit<T(!new), K>(c: Expansion<T, K>, pending: seq<Entry<T>>, depth: map<K, nat>)
    requires c.Legal() && InKeys(c, pending) && pending != [] && Complete(c, pending, depth)
    requires c.key(pending[0].0) !in depth
    ensures Complete(c, pending[1..] + Kids(c, pending[0]), depth[c.key(pending[0].0) := pending[0].1])
  {
    var e := pending[0];
    var rest, depth' := pending[1..] + Kids(c, e), depth[c.key(e.0) := e.1];
    forall k | k in c.Level(0)
      ensures Covered(c, rest, depth', k, 0)
    {
      CoveredEmit(c, pending, depth, k, 0);
    }
    forall k, k' | k in depth' && c.Within(depth'[k] + 1) && k' in c.next(k)
      ensures Covered(c, rest, depth', k', depth'[k] + 1)
    {
      if k == c.key(e.0) {
        KidsCovered(c, pending[1..], depth', e, k');
      } else {
        CoveredEmit(c, pending, depth, k', depth[k] + 1);
      }
    }
  }

  ghost predicate Inv<T(!new), K>(c: Expansion<T, K>, pending: seq<Entry<T>>, depth: map<K, nat>) {
    InKeys(c, pending) && Layered(pending, depth) && Sound(c, pending, depth) && Complete(c, pending, depth)
  }

  lemma DropKeepsInv<T(!new), K>(c: Expansion<T, K>, pending: seq<Entry<T>>, depth: map<K, nat>)
    requires c.Legal() && Inv(c, pending, depth) && pending != [] && c.key(pending[0].0) in depth
    ensures Inv(c, pending[1..], depth)
  {
    LayeredStep(c, pending, depth);
    SoundStep(c, pending, depth);
    CompleteStep(c, pending, depth);
  }

  lemma EmitKeepsInv<T(!new), K>(c: Expansion<T, K>, pending: seq<Entry<T>>, depth: map<K, nat>)
    requires c.Legal() && Inv(c, pending, depth) && pending != [] && c.key(pending[0].0) !in depth
    ensures Inv(c, pending[1..] + Kids(c, pending[0]), depth[c.key(pending[0].0) := pending[0].1])
  {
    KidsInKeys(c, pending[0]);
    LayeredStep(c, pending, depth);
    SoundStep(c, pending, depth);
    CompleteStep(c, pending, depth);
  }

  lemma {:induction false} ExploreKeeps<T(!new), K>(c: Expansion<T, K>, pending: seq<Entry<T>>, depth: map<K, nat>)
    requires c.Legal() && Inv(c, pending, depth)
    ensures Inv(c, [], Explore(c, pending, depth).depth)
    decreases |c.keys - depth.Keys|, |pending|
  {
    if pending != [] {
      var e := pending[0];
      var k := c.key(e.0);
      if k in depth {
        DropKeepsInv(c, pending, depth);
        ExploreKeeps(c, pending[1..], depth);
      } else {
        EmitKeepsInv(c, pending, depth);
        FewerKeys(c.keys, depth, k, e.1);
        ExploreKeeps(c, pending[1..] + Kids(c, e), depth[k := e.1]);
      }
    }
  }

  /** Every key reachable in d allowed steps was visited at depth at most d. */
  lemma {:induction false} LevelVisited<T(!new), K>(c: Expansion<T, K>, final: map<K, nat>, k: K, d: nat)
    requires Complete(c, [], final) && k in c.Level(d) && c.Within(d)
    ensures k in final && final[k] <= d
  {
    if d == 0 {
      assert Covered(c, [], final, k, 0);
    } else {
      var k' :| k' in c.Level(d - 1) && k in c.next(k');
      LevelVisited(c, final, k', d - 1);
      assert Covered(c, [], final, k, final[k'] + 1);
    }
  }

  /** Only items at the end of a path of as many edges as their depth are emitted. */
  lemma {:induction false} EmittedArePathEnds<T(!new), K>(c: Expansion<T, K>, pending: seq<Entry<T>>,
                                                          depth: map<K, nat>)
    requires c.Finite() && InKeys(c, pending)
    ensures InKeys(c, Explore(c, pending, depth).emitted)
    decreases |c.keys - depth.Keys|, |pending|
  {
    if pending != [] {
      var e := pending[0];
      var k := c.key(e.0);
      if k in depth {
        EmittedArePathEnds(c, pending[1..], depth);
      } else {
        KidsInKeys(c, e);
        FewerKeys(c.keys, depth, k, e.1);
        var r := Explore(c, pending[1..] + Kids(c, e), depth[k := e.1]);
        EmittedArePathEnds(c, pending[1..] + Kids(c, e), depth[k := e.1]);
        InKeysCons(c, pending[0], r.emitted);
      }
    }
  }

  lemma InKeysCons<T(!new), K>(c: Expansion<T, K>, e: Entry<T>, es: seq<Entry<T>>)
    requires InKeys(c, [e]) && InKeys(c, es)
    ensures InKeys(c, [e] + es)
  {
    assert [e][0] == e;
  }

  ghost predicate Emits<T(!new), K>(c: Expansion<T, K>, es: seq<Entry<T>>, k: K) {
    exists i :: 0 <= i < |es| && c.key(es[i].0) == k
  }

  /** At most MaxDepth edges from the roots, or at any distance without one; a negative one leaves the roots alone. */
  ghost predicate Reached<T(!new), K>(c: Expansion<T, K>, k: K) {
    match c.maxDepth
    case None => exists d: nat :: k in c.Level(d)
    case Some(n) => if n < 0 then k in c.KeysOf(c.roots) else exists d: nat :: d <= n && k in c.Level(d)
  }

  /**
   * The unlimited expansion emits exactly the keys reached, each of them once, at its shortest distance from the roots,
   * and in order of that distance.
   */
  lemma BreadthFirst<T(!new), K>(c: Expansion<T, K>)
    requires c.Legal()
    ensures var r := ExploreRoots(c).emitted;
            && DistinctKeys(c, r)
            && NonDecreasing(r, 0)
            && (forall i :: 0 <= i < |r| ==> r[i].0 in c.ItemsAt(r[i].1) && c.key(r[i].0) in c.Level(r[i].1))
            && (forall i, d: nat :: 0 <= i < |r| && d < r[i].1 ==> c.key(r[i].0) !in c.Level(d))
            && (forall k :: Emits(c, r, k) <==> Reached(c, k))
  {
    var pending := At(c.roots, 0);
    RootsReady(c);
    EmittedOnce(c, pending, map[]);
    DepthsNonDecreasing(c, pending, map[], 0);
    ExploreKeeps(c, pending, map[]);
    EmittedArePathEnds(c, pending, map[]);
    var r := ExploreRoots(c);
    forall i, d: nat | 0 <= i < |r.emitted| && d < r.emitted[i].1
      ensures c.key(r.emitted[i].0) !in c.Level(d)
    {
      if c.key(r.emitted[i].0) in c.Level(d) {
        LevelVisited(c, r.depth, c.key(r.emitted[i].0), d);
      }
    }
    forall k
      ensures Emits(c, r.emitted, k) <==> Reached(c, k)
    {
      EmitsIffReached(c, k);
    }
  }

  lemma EmitsIffReached<T(!new), K>(c: Expansion<T, K>, k: K)
    requires c.Legal()
    ensures Emits(c, ExploreRoots(c).emitted, k) <==> Reached(c, k)
  {
    var pending := At(c.roots, 0);
    RootsReady(c);
    EmittedOnce(c, pending, map[]);
    ExploreKeeps(c, pending, map[]);
    var r := ExploreRoots(c);
    if Reached(c, k) {
      var d: nat := 0;
      if c.maxDepth.None? {
        d :| k in c.Level(d);
      } else if c.maxDepth.value >= 0 {
        d :| d <= c.maxDepth.value && k in c.Level(d);
      }
      LevelVisited(c, r.depth, k, d);
    }
    if i :| 0 <= i < |r.emitted| && c.key(r.emitted[i].0) == k {
      var d := r.emitted[i].1;
      assert c.Within(d) && k in c.Level(d);
    }
  }

  lemma RootsReady<T(!new), K>(c: Expansion<T, K>)
    requires c.Finite()
    ensures var pending := At(c.roots, 0); var depth: map<K, nat> := map[];
            Inv(c, pending, depth)
  {
    var pending := At(c.roots, 0);
    forall k | k in c.Level(0)
      ensures Covered(c, pending, map[], k, 0)
    {
      var i :| 0 <= i < |c.roots| && c.key(c.roots[i]) == k;
      assert pending[i] == (c.roots[i], 0);
    }
  }

  // ------------------------------------------------------------------ the loop over child pipelines

  /** A queued pipeline: its items, all at one depth. */
  type Queued<T> = (seq<T>, nat)

  function Flatten<T>(queue: seq<Queued<T>>): seq<Entry<T>> {
    if queue == [] then [] else At(queue[0].0, queue[0].1) + Flatten(queue[1..])
  }

  lemma {:induction false} FlattenAppend<T>(queue: seq<Queued<T>>, q: Queued<T>)
    ensures Flatten(queue + [q]) == Flatten(queue) + At(q.0, q.1)
  {
    if queue == [] {
      assert queue + [q] == [q];
      assert Flatten([q]) == At(q.0, q.1) + Flatten([]);
    } else {
      FlattenAppend(queue[1..], q);
      assert (queue + [q])[1..] == queue[1..] + [q];
      assert At(queue[0].0, queue[0].1) + (Flatten(queue[1..]) + At(q.0, q.1)) == Flatten(queue) + At(q.0, q.1);
    }
  }

  function FirstItems<T>(xs: seq<T>, maxItems: int): seq<T> {
    if 0 < maxItems < |xs| then xs[..maxItems] else xs
  }

  /** The rest of the current pipeline, then the queue. */
  function Ahead<T>(items: seq<T>, i: nat, d: nat, queue: seq<Queued<T>>): seq<Entry<T>>
    requires i <= |items|
  {
    At(items[i..], d) + Flatten(queue)
  }

  /** What has been emitted, followed by what exploring the rest will emit, is the unlimited expansion. */
  ghost predicate OnTrack<T(!new), K>(c: Expansion<T, K>, done: seq<Entry<T>>, ahead: seq<Entry<T>>, depth: map<K, nat>)
    requires c.Finite()
  {
    InKeys(c, ahead) && ExploreRoots(c).emitted == done + Explore(c, ahead, depth).emitted
  }

  lemma SkipOnTrack<T(!new), K>(c: Expansion<T, K>, done: seq<Entry<T>>, ahead: seq<Entry<T>>, depth: map<K, nat>)
    requires c.Finite() && OnTrack(c, done, ahead, depth) && ahead != [] && c.key(ahead[0].0) in depth
    ensures OnTrack(c, done, ahead[1..], depth)
  {
  }

  lemma EmitOnTrack<T(!new), K>(c: Expansion<T, K>, done: seq<Entry<T>>, ahead: seq<Entry<T>>, depth: map<K, nat>)
    requires c.Finite() && OnTrack(c, done, ahead, depth) && ahead != [] && c.key(ahead[0].0) !in depth
    ensures |ExploreRoots(c).emitted| > |done|
    ensures OnTrack(c, done + [ahead[0]], ahead[1..] + Kids(c, ahead[0]), depth[c.key(ahead[0].0) := ahead[0].1])
  {
    var e := ahead[0];
    KidsInKeys(c, e);
    var r := Explore(c, ahead[1..] + Kids(c, e), depth[c.key(e.0) := e.1]).emitted;
    assert done + ([e] + r) == (done + [e]) + r;
  }

  /** What the loops keep: `out` and `visited` are the code's variables, `done` and `depth` their annotated forms. */
  ghost predicate LoopInv<T(!new), K>(c: Expansion<T, K>, ahead: seq<Entry<T>>, out: seq<T>, visited: set<K>,
                                      maxItems: int,
                                      done: seq<Entry<T>>, depth: map<K, nat>)
    requires c.Finite()
  {
    && depth.Keys == visited
    && OnTrack(c, done, ahead, depth)
    && out == Items(done)
    && (maxItems > 0 ==> |out| <= maxItems)
    && (forall i :: 0 <= i < |ahead| ==> ahead[i].1 <= |out|)
  }

  lemma VisitSkips<T(!new), K>(c: Expansion<T, K>, e: Entry<T>, tail: seq<Entry<T>>, out: seq<T>, visited: set<K>,
                               maxItems: int,
                               done: seq<Entry<T>>, depth: map<K, nat>)
    requires c.Finite() && LoopInv(c, [e] + tail, out, visited, maxItems, done, depth) && c.key(e.0) in visited
    ensures LoopInv(c, tail, out, visited, maxItems, done, depth)
  {
    assert ([e] + tail)[1..] == tail;
    SkipOnTrack(c, done, [e] + tail, depth);
  }

  lemma VisitEmits<T(!new), K>(c: Expansion<T, K>, e: Entry<T>, tail: seq<Entry<T>>, out: seq<T>, visited: set<K>,
                               maxItems: int,
                               done: seq<Entry<T>>, depth: map<K, nat>)
    requires c.Finite() && LoopInv(c, [e] + tail, out, visited, maxItems, done, depth) && c.key(e.0) !in visited
    requires !(maxItems > 0 && |out| >= maxItems)
    ensures LoopInv(c, tail + Kids(c, e), out + [e.0], visited + {c.key(e.0)}, maxItems, done + [e],
                    depth[c.key(e.0) := e.1])
  {
    assert ([e] + tail)[1..] == tail;
    assert Items(done + [e]) == Items(done) + [e.0];
    EmitOnTrack(c, done, [e] + tail, depth);
  }

  lemma VisitStops<T(!new), K>(c: Expansion<T, K>, e: Entry<T>, tail: seq<Entry<T>>, out: seq<T>, visited: set<K>,
                               maxItems: int,
                               done: seq<Entry<T>>, depth: map<K, nat>)
    requires c.Finite() && LoopInv(c, [e] + tail, out, visited, maxItems, done, depth) && c.key(e.0) !in visited
    requires maxItems > 0 && |out| >= maxItems
    ensures out == FirstItems(Items(ExploreRoots(c).emitted), maxItems)
  {
    EmitOnTrack(c, done, [e] + tail, depth);
    assert Items(ExploreRoots(c).emitted)[..maxItems] == Items(done);
  }

  lemma FewerUnvisited<T(!new), K>(c: Expansion<T, K>, e: Entry<T>, tail: seq<Entry<T>>, visited: set<K>)
    requires c.Finite() && InKeys(c, [e] + tail) && c.key(e.0) !in visited
    ensures |c.keys - (visited + {c.key(e.0)})| < |c.keys - visited|
  {
    assert ([e] + tail)[0] == e;
    assert c.keys - (visited + {c.key(e.0)}) == (c.keys - visited) - {c.key(e.0)};
  }

  /**
   * `ref` is an exploration of the same graph in which the depth cap lets the same items through, at least down to
   * depth maxItems when that is a limit: an item at depth d is only reached after d others were emitted.
   */
  ghost predicate Agrees<T(!new), K>(c: Expansion<T, K>, ref: Expansion<T, K>, maxItems: int) {
    && ref.roots == c.roots && ref.expand == c.expand && ref.key == c.key
    && forall d: nat :: (maxItems > 0 ==> d <= maxItems) ==> (ref.Within(d) <==> c.Within(d))
  }

  /**
   * There is such an exploration with finitely many keys whenever the number of items is limited, even if c has
   * infinitely many.
   */
  lemma ReferenceExists<T(!new), K>(c: Expansion<T, K>, maxItems: int) returns (ref: Expansion<T, K>)
    requires maxItems > 0 || c.Finite()
    ensures Agrees(c, ref, maxItems) && ref.Finite()
  {
    ref := c;
    if maxItems > 0 {
      var cap := if c.maxDepth.Some? && c.maxDepth.value < maxItems then c.maxDepth.value else maxItems;
      var capped := c.(maxDepth := Some(cap));
      var keys := DepthCapIsFinite(capped);
      ref := capped.(keys := keys);
    }
  }

  /** What an item adds to the queue: the pipeline of its children, unless it has none or they lie too deep. */
  function Child<T(!new), K>(c: Expansion<T, K>, item: T, d: nat): Option<seq<T>> {
    if c.Within(d + 1) then c.expand(item) else None
  }

  function Pushed<T>(queue: seq<Queued<T>>, child: Option<seq<T>>, d: nat): seq<Queued<T>> {
    if child.Some? then queue + [(child.value, d)] else queue
  }

  lemma PushedKids<T(!new), K>(c: Expansion<T, K>, item: T, d: nat, rest: seq<Entry<T>>, queue: seq<Queued<T>>)
    ensures rest + Flatten(Pushed(queue, Child(c, item, d), d + 1)) == (rest + Flatten(queue)) + Kids(c, (item, d))
  {
    if Child(c, item, d).Some? {
      FlattenAppend(queue, (Child(c, item, d).value, d + 1));
    }
  }

  /** The callback on one item: skip it if its key was visited, else emit it and hand back its children. */
  method Visit<T(!new), K(==)>(c: Expansion<T, K>, item: T, d: nat, visited: set<K>, out: seq<T>, maxItems: int,
                               ghost ref: Expansion<T, K>, ghost tail: seq<Entry<T>>, ghost done: seq<Entry<T>>,
                               ghost depth: map<K, nat>)
      returns (isNew: bool, child: Option<seq<T>>, visited': set<K>, out': seq<T>, limitHit: bool,
               ghost done': seq<Entry<T>>, ghost depth': map<K, nat>)
    requires ref.Finite() && Agrees(c, ref, maxItems)
    requires LoopInv(ref, [(item, d)] + tail, out, visited, maxItems, done, depth)
    ensures limitHit ==> out' == FirstItems(Items(ExploreRoots(ref).emitted), maxItems)
    ensures !isNew ==> visited' == visited && child.None?
    ensures isNew ==> |ref.keys - visited'| < |ref.keys - visited|
    ensures isNew && !limitHit ==> child == Child(ref, item, d)
    ensures !limitHit ==>
              LoopInv(ref, if isNew then tail + Kids(ref, (item, d)) else tail, out', visited', maxItems, done', depth')
  {
    isNew, child, visited', out', limitHit, done', depth' := false, None, visited, out, false, done, depth;
    var k := c.key(item);
    assert ([(item, d)] + tail)[0].1 <= |out|;
    if k in visited {
      VisitSkips(ref, (item, d), tail, out, visited, maxItems, done, depth);
      return;
    }
    FewerUnvisited(ref, (item, d), tail, visited);
    isNew, visited' := true, visited + {k};
    if maxItems > 0 && |out| >= maxItems {
      VisitStops(ref, (item, d), tail, out, visited, maxItems, done, depth);
      limitHit := true;
      return;
    }
    VisitEmits(ref, (item, d), tail, out, visited, maxItems, done, depth);
    out', done', depth' := out + [item], done + [(item, d)], depth[k := d];
    if c.Within(d + 1) {
      child := c.expand(item);
    }
  }

  lemma Started<T(!new), K>(c: Expansion<T, K>, maxItems: int)
    requires c.Finite()
    ensures LoopInv(c, Flatten([(c.roots, 0)]), [], {}, maxItems, [], map[])
  {
    RootsReady(c);
    assert Flatten([(c.roots, 0)]) == At(c.roots, 0) + Flatten([]);
    assert Flatten([(c.roots, 0)]) == At(c.roots, 0);
  }

  lemma Ended<T(!new), K>(c: Expansion<T, K>, out: seq<T>, visited: set<K>, maxItems: int, done: seq<Entry<T>>,
                          depth: map<K, nat>)
    requires c.Finite() && LoopInv(c, [], out, visited, maxItems, done, depth)
    ensures out == FirstItems(Items(ExploreRoots(c).emitted), maxItems)
  {
    assert done + [] == done;
  }

  /** One pipeline after another; each of them is drained item by item. `maxItems` of 0 or less means no limit. */
  method Expand<T(!new), K(==)>(c: Expansion<T, K>, maxItems: int, ghost ref: Expansion<T, K>) returns (out: seq<T>)
    requires ref.Finite() && Agrees(c, ref, maxItems)
    ensures out == FirstItems(Items(ExploreRoots(ref).emitted), maxItems)
    ensures var all := Items(ExploreRoots(ref).emitted);
            out <= all && |out| == if 0 < maxItems < |all| then maxItems else |all|
  {
    out := [];
    var visited: set<K> := {};
    var queue: seq<Queued<T>> := [(c.roots, 0)];
    ghost var done: seq<Entry<T>> := [];
    ghost var depth: map<K, nat> := map[];
    Started(ref, maxItems);
    while queue != []
      invariant LoopInv(ref, Flatten(queue), out, visited, maxItems, done, depth)
      decreases |ref.keys - visited|, |queue|
    {
      var current := queue[0];
      var limitHit: bool;
      queue, visited, out, limitHit, done, depth :=
        RunPipeline(c, current.0, current.1, queue[1..], visited, out, maxItems, ref, done, depth);
      if limitHit {
        return;
      }
    }
    Ended(ref, out, visited, maxItems, done, depth);
  }

  /** The inner ForEach over one queued pipeline. */
  method RunPipeline<T(!new), K(==)>(c: Expansion<T, K>, items: seq<T>, d: nat, queue: seq<Queued<T>>, visited: set<K>,
                                     out: seq<T>, maxItems: int, ghost ref: Expansion<T, K>, ghost done: seq<Entry<T>>,
                                     ghost depth: map<K, nat>)
      returns (queue': seq<Queued<T>>, visited': set<K>, out': seq<T>, limitHit: bool,
               ghost done': seq<Entry<T>>, ghost depth': map<K, nat>)
    requires ref.Finite() && Agrees(c, ref, maxItems)
    requires LoopInv(ref, At(items, d) + Flatten(queue), out, visited, maxItems, done, depth)
    ensures limitHit ==> out' == FirstItems(Items(ExploreRoots(ref).emitted), maxItems)
    ensures !limitHit ==> LoopInv(ref, Flatten(queue'), out', visited', maxItems, done', depth')
    ensures |ref.keys - visited'| < |ref.keys - visited| || (visited' == visited && queue' == queue)
  {
    queue', visited', out', limitHit, done', depth' := queue, visited, out, false, done, depth;
    ghost var ahead := At(items, d) + Flatten(queue);
    assert items[0..] == items;
    for i := 0 to |items|
      invariant ahead == Ahead(items, i, d, queue')
      invariant LoopInv(ref, ahead, out', visited', maxItems, done', depth')
      invariant |ref.keys - visited'| < |ref.keys - visited| || (visited' == visited && queue' == queue)
    {
      ghost var rest := At(items[i + 1..], d);
      ghost var tail := rest + Flatten(queue');
      SplitAhead(items, i, d, queue');
      var isNew: bool, child: Option<seq<T>>;
      isNew, child, visited', out', limitHit, done', depth' :=
        Visit(c, items[i], d, visited', out', maxItems, ref, tail, done', depth');
      if limitHit {
        return;
      }
      if isNew {
        PushedKids(ref, items[i], d, rest, queue');
        ahead := tail + Kids(ref, (items[i], d));
      } else {
        ahead := tail;
      }
      queue' := Pushed(queue', child, d + 1);
    }
    assert Ahead(items, |items|, d, queue') == Flatten(queue');
  }

  lemma SplitAhead<T>(items: seq<T>, i: nat, d: nat, queue: seq<Queued<T>>)
    requires i < |items|
    ensures Ahead(items, i, d, queue) == [(items[i], d)] + (At(items[i + 1..], d) + Flatten(queue))
  {
  }
}
