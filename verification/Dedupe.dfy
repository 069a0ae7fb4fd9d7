/**
 * DedupeBy: the loops over an in-memory set, a sliding window of keys, the last key, and an external Bloom
 * or TTL set. Every loop is "drop an item whose key is blocked by the keys emitted before it".
 */
module Dedupe {
  import opened Bloom
  import opened TtlDedup

  datatype Mode<!K> =
    | Global
    | Window(n: nat)            // n = 1: only adjacent duplicates
    | External(p: Params<K>)

  predicate ValidMode<K>(mode: Mode<K>) {
    match mode
    case Global => true
    case Window(n) => n >= 1
    case External(p) => p.Valid()
  }

  function Last<K>(keys: seq<K>, n: nat): seq<K> {
    if |keys| <= n then keys else keys[|keys| - n..]
  }

  /** The emitted keys `memory` suppress key k. */
  ghost predicate Blocked<K>(mode: Mode<K>, memory: seq<K>, k: K)
    requires ValidMode(mode)
  {
    match mode
    case Global => k in memory
    case Window(n) => k in Last(memory, n)
    case External(p) => Covered(p, memory, k)
  }

  /** The keys emitted among the first i, after those remembered from before. */
  ghost function Memory<K>(mode: Mode<K>, before: seq<K>, keys: seq<K>, i: nat): seq<K>
    requires ValidMode(mode) && i <= |keys|
    decreases i, 0
  {
    if i == 0 then before
    else Memory(mode, before, keys, i - 1) + (if Emits(mode, before, keys, i - 1) then [keys[i - 1]] else [])
  }

  ghost predicate Emits<K>(mode: Mode<K>, before: seq<K>, keys: seq<K>, i: nat)
    requires ValidMode(mode) && i < |keys|
    decreases i, 1
  {
    !Blocked(mode, Memory(mode, before, keys, i), keys[i])
  }

  function KeysOf<T, K>(items: seq<T>, keyFn: T -> K): (keys: seq<K>)
    ensures |keys| == |items| && forall i :: 0 <= i < |items| ==> keys[i] == keyFn(items[i])
  {
    seq(|items|, i requires 0 <= i < |items| => keyFn(items[i]))
  }

  ghost function Output<T, K>(mode: Mode<K>, before: seq<K>, items: seq<T>, keyFn: T -> K, i: nat): seq<T>
    requires ValidMode(mode) && i <= |items|
  {
    if i == 0 then []
    else
      Output(mode, before, items, keyFn, i - 1) +
      (if Emits(mode, before, KeysOf(items, keyFn), i - 1) then [items[i - 1]] else [])
  }

  lemma OneMoreItem<T, K>(mode: Mode<K>, before: seq<K>, items: seq<T>, keyFn: T -> K, i: nat)
    requires ValidMode(mode) && i < |items|
    ensures var keys, k := KeysOf(items, keyFn), keyFn(items[i]);
            var memory := Memory(mode, before, keys, i);
            if Blocked(mode, memory, k)
            then Memory(mode, before, keys, i + 1) == memory
                 && Output(mode, before, items, keyFn, i + 1) == Output(mode, before, items, keyFn, i)
            else Memory(mode, before, keys, i + 1) == memory + [k]
                 && Output(mode, before, items, keyFn, i + 1) == Output(mode, before, items, keyFn, i) + [items[i]]
  {
  }

  // ------------------------------------------------------------------ the loops

  method DedupeGlobal<T, K(==)>(items: seq<T>, keyFn: T -> K) returns (out: seq<T>)
    ensures out == Output(Global, [], items, keyFn, |items|)
  {
    out := [];
    var seen: set<K> := {};
    for i := 0 to |items|
      invariant out == Output(Global, [], items, keyFn, i)
      invariant forall k :: k in seen <==> k in Memory(Global, [], KeysOf(items, keyFn), i)
    {
      var k := keyFn(items[i]);
      OneMoreItem(Global, [], items, keyFn, i);
      assert k in seen <==> Blocked(Global, Memory(Global, [], KeysOf(items, keyFn), i), k);
      if k in seen {
        continue;
      }
      seen := seen + {k};
      out := out + [items[i]];
    }
  }

  method DedupeConsecutive<T, K(==)>(items: seq<T>, keyFn: T -> K) returns (out: seq<T>)
    ensures out == Output(Window(1), [], items, keyFn, |items|)
  {
    out := [];
    if items == [] {
      return;
    }
    var lastKey := keyFn(items[0]);
    var first := true;
    for i := 0 to |items|
      invariant out == Output(Window(1), [], items, keyFn, i)
      invariant Last(Memory(Window(1), [], KeysOf(items, keyFn), i), 1) == if first then [] else [lastKey]
    {
      var k := keyFn(items[i]);
      if !first && k == lastKey {
        continue;
      }
      first := false;
      lastKey := k;
      out := out + [items[i]];
    }
  }

  method InWindow<K(==)>(window: seq<K>, k: K) returns (found: bool)
    ensures found <==> k in window
  {
    for i := 0 to |window|
      invariant k !in window[..i]
    {
      if window[i] == k {
        return true;
      }
      assert window[..i + 1] == window[..i] + [window[i]];
    }
    assert window[..|window|] == window;
    return false;
  }

  lemma LastAppend<K>(keys: seq<K>, n: nat, k: K)
    requires n >= 1
    ensures Last(keys + [k], n) == (if |Last(keys, n)| >= n then Last(keys, n)[1..] else Last(keys, n)) + [k]
  {
  }

  method DedupeWindow<T, K(==)>(items: seq<T>, keyFn: T -> K, n: nat) returns (out: seq<T>)
    requires n > 1
    ensures out == Output(Window(n), [], items, keyFn, |items|)
  {
    out := [];
    var window: seq<K> := [];
    for i := 0 to |items|
      invariant out == Output(Window(n), [], items, keyFn, i)
      invariant window == Last(Memory(Window(n), [], KeysOf(items, keyFn), i), n)
    {
      var k := keyFn(items[i]);
      var found := InWindow(window, k);
      OneMoreItem(Window(n), [], items, keyFn, i);
      LastAppend(Memory(Window(n), [], KeysOf(items, keyFn), i), n, k);
      if found {
        continue;
      }
      if |window| >= n {
        window := window[1..];
      }
      window := window + [k];
      out := out + [items[i]];
    }
  }

  method DedupeBloom<T, K(==)>(items: seq<T>, keyFn: T -> K, bloom: BloomDedupSet<K>) returns (out: seq<T>)
    requires bloom.Valid()
    modifies bloom, bloom.bits
    ensures bloom.Valid()
    ensures out == Output(External(bloom.params), old(bloom.added), items, keyFn, |items|)
    ensures bloom.added == Memory(External(bloom.params), old(bloom.added), KeysOf(items, keyFn), |items|)
  {
    out := [];
    for i := 0 to |items|
      invariant bloom.Valid()
      invariant out == Output(External(bloom.params), old(bloom.added), items, keyFn, i)
      invariant bloom.added == Memory(External(bloom.params), old(bloom.added), KeysOf(items, keyFn), i)
    {
      var k := keyFn(items[i]);
      var dup := bloom.Contains(k);
      if dup {
        continue;
      }
      bloom.Add(k);
      out := out + [items[i]];
    }
  }

  // ------------------------------------------------------------------ what is emitted

  lemma {:induction false} MemoryHolds<K>(mode: Mode<K>, before: seq<K>, keys: seq<K>, i: nat, k: K)
    requires ValidMode(mode) && i <= |keys|
    ensures k in Memory(mode, before, keys, i) <==>
              k in before || exists j :: 0 <= j < i && keys[j] == k && Emits(mode, before, keys, j)
  {
    if i > 0 {
      MemoryHolds(mode, before, keys, i - 1, k);
    }
  }

  /** Without a window: exactly the first item of each key is emitted. */
  lemma {:induction false} GlobalEmitsFirsts<K>(keys: seq<K>, i: nat)
    requires i < |keys|
    ensures Emits(Global, [], keys, i) <==> keys[i] !in keys[..i]
  {
    GlobalMemory(keys, i, keys[i]);
  }

  lemma {:induction false} GlobalMemory<K>(keys: seq<K>, i: nat, k: K)
    requires i <= |keys|
    ensures k in Memory(Global, [], keys, i) <==> k in keys[..i]
  {
    if i > 0 {
      GlobalMemory(keys, i - 1, k);
      assert keys[..i] == keys[..i - 1] + [keys[i - 1]];
    }
  }

  /** Window 1: an item is dropped exactly when its key is that of the item directly before it. */
  lemma {:induction false} WindowOneDropsRepeats<K>(keys: seq<K>, i: nat)
    requires i < |keys|
    ensures Emits(Window(1), [], keys, i) <==> i == 0 || keys[i] != keys[i - 1]
    ensures var memory := Memory(Window(1), [], keys, i + 1); memory != [] && memory[|memory| - 1] == keys[i]
  {
    if i > 0 {
      WindowOneDropsRepeats(keys, i - 1);
    }
  }

  /** Window n: any n+1 successive emissions have different keys. */
  lemma {:induction false} WindowKeepsDistinct<K>(keys: seq<K>, n: nat, i: nat, a: nat, b: nat)
    requires n >= 1 && i <= |keys|
    requires a < b < |Memory(Window(n), [], keys, i)| && b - a <= n
    ensures Memory(Window(n), [], keys, i)[a] != Memory(Window(n), [], keys, i)[b]
  {
    var memory := Memory(Window(n), [], keys, i - 1);
    if b < |memory| {
      WindowKeepsDistinct(keys, n, i - 1, a, b);
    } else {
      assert b == |memory| && Emits(Window(n), [], keys, i - 1);
      var last := Last(memory, n);
      assert memory[a] == last[a - (|memory| - |last|)];
    }
  }

  /** A window as long as the input never forgets: it drops what the global set drops. */
  lemma {:induction false} LongWindowIsGlobal<K>(keys: seq<K>, n: nat, i: nat)
    requires 1 <= n && i <= n && i <= |keys|
    ensures Memory(Window(n), [], keys, i) == Memory(Global, [], keys, i)
    ensures |Memory(Window(n), [], keys, i)| <= i
    ensures i < |keys| ==> (Emits(Window(n), [], keys, i) <==> Emits(Global, [], keys, i))
  {
    if i > 0 {
      LongWindowIsGlobal(keys, n, i - 1);
    }
  }

  /**
   * What the option's description says of window n: an item is dropped if and only if its key is among those of the n
   * items before it.
   */
  ghost predicate WindowOfItems<K(!new)>(n: nat)
    requires n >= 1
  {
    forall keys: seq<K>, i: nat :: i < |keys| ==> (Emits(Window(n), [], keys, i) <==> keys[i] !in Last(keys[..i], n))
  }

  /** a, then n times b, then a again. */
  function Sandwich<K>(a: K, b: K, n: nat): (keys: seq<K>)
    ensures |keys| == n + 2 && keys[0] == a == keys[n + 1] && forall i :: 1 <= i <= n ==> keys[i] == b
  {
    [a] + seq(n, i => b) + [a]
  }

  lemma {:induction false} SandwichMemory<K>(a: K, b: K, n: nat, i: nat)
    requires a != b && n >= 2 && 1 <= i <= n + 1
    ensures Memory(Window(n), [], Sandwich(a, b, n), i) == if i == 1 then [a] else [a, b]
  {
    var keys := Sandwich(a, b, n);
    if i == 1 {
      assert Memory(Window(n), [], keys, 0) == [];
    } else {
      SandwichMemory(a, b, n, i - 1);
      assert keys[i - 1] == b;
    }
  }

  lemma WindowOneIsOfItems<K>(keys: seq<K>, i: nat)
    requires i < |keys|
    ensures Emits(Window(1), [], keys, i) <==> keys[i] !in Last(keys[..i], 1)
  {
    if i > 0 {
      LastOne(keys[..i]);
    }
    WindowOneDropsRepeats(keys, i);
  }

  lemma LastOne<K>(keys: seq<K>)
    requires keys != []
    ensures forall k :: k in Last(keys, 1) <==> k == keys[|keys| - 1]
  {
    assert Last(keys, 1) == [keys[|keys| - 1]];
  }

  /** With n >= 2 the second a is dropped, although the n items before it are all b. */
  lemma SandwichIsDropped<K>(a: K, b: K, n: nat)
    requires a != b && n >= 2
    ensures var keys := Sandwich(a, b, n);
            !Emits(Window(n), [], keys, n + 1) && keys[n + 1] !in Last(keys[..n + 1], n)
  {
    var keys := Sandwich(a, b, n);
    SandwichMemory(a, b, n, n + 1);
    assert keys[n + 1] == a && a in [a, b];
    var recent := Last(keys[..n + 1], n);
    forall j | 0 <= j < |recent|
      ensures recent[j] == b
    {
      assert recent[j] == keys[j + 1];
    }
  }

  /**
   * The window remembers the keys of the last n emissions, not of the last n items. The two are the same for all
   * inputs exactly when n is 1.
   */
  lemma WindowOfItemsIffOne<K(!new)>(n: nat, a: K, b: K)
    requires n >= 1 && a != b
    ensures WindowOfItems<K>(n) <==> n == 1
  {
    if n == 1 {
      forall keys: seq<K>, i: nat | i < |keys|
        ensures Emits(Window(1), [], keys, i) <==> keys[i] !in Last(keys[..i], 1)
      {
        WindowOneIsOfItems(keys, i);
      }
    } else {
      SandwichIsDropped(a, b, n);
    }
  }

  lemma {:induction false} MemoryGrows<K>(mode: Mode<K>, before: seq<K>, keys: seq<K>, i: nat, j: nat)
    requires ValidMode(mode) && i <= j <= |keys|
    ensures Memory(mode, before, keys, i) <= Memory(mode, before, keys, j)
  {
    if i < j {
      MemoryGrows(mode, before, keys, i, j - 1);
    }
  }

  lemma CoveredGrows<K>(p: Params<K>, keys: seq<K>, more: seq<K>, key: K)
    requires p.Valid() && keys <= more && Covered(p, keys, key)
    ensures Covered(p, more, key)
  {
    forall i: nat | i < p.k
      ensures Marked(p, more, Position(p, key, i))
    {
      var j :| 0 <= j < |keys| && IsPosition(p, keys[j], Position(p, key, i), p.k);
      assert more[j] == keys[j];
    }
  }

  /**
   * With a Bloom set no key is ever emitted twice, nor one added before: an emitted item is the first of its key.
   * A first item that is dropped is a false positive: all its bits belong to other keys.
   */
  lemma BloomNeverRepeats<K>(p: Params<K>, before: seq<K>, keys: seq<K>, i: nat)
    requires p.Valid() && i < |keys|
    ensures Emits(External(p), before, keys, i) <==>
              && keys[i] !in before && keys[i] !in keys[..i]
              && !Covered(p, Memory(External(p), before, keys, i), keys[i])
  {
    var mode := External(p);
    var memory := Memory(mode, before, keys, i);
    if keys[i] in before {
      MemoryHolds(mode, before, keys, i, keys[i]);
      AddedIsCovered(p, memory, keys[i]);
    }
    if keys[i] in keys[..i] {
      var j :| 0 <= j < i && keys[j] == keys[i];
      if Emits(mode, before, keys, j) {
        MemoryHolds(mode, before, keys, i, keys[i]);
        AddedIsCovered(p, memory, keys[i]);
      } else {
        MemoryGrows(mode, before, keys, j, i);
        CoveredGrows(p, Memory(mode, before, keys, j), memory, keys[i]);
      }
    }
  }

  // ------------------------------------------------------------------ over a TTL set

  /** Items with the times at which each is looked up and, if it is emitted, added. */
  datatype Timed<T> = Timed(item: T, checkedAt: int, addedAt: int)

  /** Item j has i's key and was emitted before it, less than ttl ago. */
  ghost predicate RecentTwin<T, K>(items: seq<Timed<T>>, keyFn: T -> K, ttl: int, kept: seq<nat>, j: nat, i: nat)
    requires i < |items|
  {
    j < i && j in kept && keyFn(items[j].item) == keyFn(items[i].item) && items[j].addedAt + ttl > items[i].checkedAt
  }

  /** Such an item exists, or i's key was in the set from before and added less than ttl ago. */
  ghost predicate HasRecentTwin<T, K>(items: seq<Timed<T>>, keyFn: T -> K, ttl: int, earlier: map<K, int>,
                                      kept: seq<nat>, i: nat)
    requires i < |items|
  {
    var k := keyFn(items[i].item);
    (k in earlier && earlier[k] + ttl > items[i].checkedAt) || exists j :: RecentTwin(items, keyFn, ttl, kept, j, i)
  }

  lemma LaterItemsAreNoTwins<T, K>(items: seq<Timed<T>>, keyFn: T -> K, ttl: int, earlier: map<K, int>,
                                   kept: seq<nat>, n: nat, i: nat)
    requires i <= n < |items|
    ensures HasRecentTwin(items, keyFn, ttl, earlier, kept + [n], i) <==>
              HasRecentTwin(items, keyFn, ttl, earlier, kept, i)
  {
    forall j: nat | j < i
      ensures RecentTwin(items, keyFn, ttl, kept + [n], j, i) <==> RecentTwin(items, keyFn, ttl, kept, j, i)
    {
    }
  }

  ghost predicate EmittedAtTime<T, K>(items: seq<Timed<T>>, keyFn: T -> K, kept: seq<nat>, i: nat, k: K, time: int)
    requires i <= |items|
  {
    exists j: nat :: j < i && j in kept && keyFn(items[j].item) == k && items[j].addedAt == time
  }

  /** What the set knows after the first i items: for each key its latest emission, or what it held before. */
  ghost predicate Tracks<T, K>(items: seq<Timed<T>>, keyFn: T -> K, earlier: map<K, int>, kept: seq<nat>, i: nat,
                               added: map<K, int>)
    requires i <= |items|
  {
    && (forall k :: k in added ==>
          (k in earlier && added[k] == earlier[k]) || EmittedAtTime(items, keyFn, kept, i, k, added[k]))
    && (forall k :: k in earlier ==> k in added && added[k] >= earlier[k])
    && (forall j :: j in kept ==>
          j < i && keyFn(items[j].item) in added && added[keyFn(items[j].item)] >= items[j].addedAt)
  }

  lemma TwinIffRemembered<T, K>(items: seq<Timed<T>>, keyFn: T -> K, ttl: int, earlier: map<K, int>, kept: seq<nat>,
                                i: nat, added: map<K, int>)
    requires i < |items| && Tracks(items, keyFn, earlier, kept, i, added)
    ensures var k := keyFn(items[i].item);
            HasRecentTwin(items, keyFn, ttl, earlier, kept, i) <==> k in added && added[k] + ttl > items[i].checkedAt
  {
    var k := keyFn(items[i].item);
    if k in added && added[k] + ttl > items[i].checkedAt {
      if EmittedAtTime(items, keyFn, kept, i, k, added[k]) {
        var j: nat :| j < i && j in kept && keyFn(items[j].item) == k && items[j].addedAt == added[k];
        assert RecentTwin(items, keyFn, ttl, kept, j, i);
      }
    }
  }

  lemma TracksSkip<T, K>(items: seq<Timed<T>>, keyFn: T -> K, earlier: map<K, int>, kept: seq<nat>, i: nat,
                         added: map<K, int>)
    requires i < |items| && Tracks(items, keyFn, earlier, kept, i, added)
    ensures Tracks(items, keyFn, earlier, kept, i + 1, added)
  {
    forall k | k in added && EmittedAtTime(items, keyFn, kept, i, k, added[k])
      ensures EmittedAtTime(items, keyFn, kept, i + 1, k, added[k])
    {
    }
  }

  lemma TracksAppend<T, K>(items: seq<Timed<T>>, keyFn: T -> K, earlier: map<K, int>, kept: seq<nat>, i: nat,
                           added: map<K, int>)
    requires i < |items| && Tracks(items, keyFn, earlier, kept, i, added)
    requires forall j :: 0 <= j < i ==> items[j].addedAt <= items[i].addedAt
    requires InPast(earlier, items[i].addedAt)
    ensures Tracks(items, keyFn, earlier, kept + [i], i + 1, added[keyFn(items[i].item) := items[i].addedAt])
  {
    var k := keyFn(items[i].item);
    var longer, added' := kept + [i], added[k := items[i].addedAt];
    assert i in longer;
    assert EmittedAtTime(items, keyFn, longer, i + 1, k, items[i].addedAt);
    forall x | x in added && EmittedAtTime(items, keyFn, kept, i, x, added[x])
      ensures EmittedAtTime(items, keyFn, longer, i + 1, x, added[x])
    {
      var j: nat :| j < i && j in kept && keyFn(items[j].item) == x && items[j].addedAt == added[x];
      assert j in longer;
    }
  }

  /** `kept` are the items to emit among the first i: in order, and all but those with a recent twin. */
  ghost predicate Decided<T, K>(items: seq<Timed<T>>, keyFn: T -> K, ttl: int, earlier: map<K, int>, kept: seq<nat>,
                                i: nat)
    requires i <= |items|
  {
    && (forall a :: 0 <= a < |kept| ==> kept[a] < i)
    && (forall a, b :: 0 <= a < b < |kept| ==> kept[a] < kept[b])
    && (forall c: nat :: c < i ==> (c !in kept <==> HasRecentTwin(items, keyFn, ttl, earlier, kept, c)))
  }

  lemma DecidedSkip<T, K>(items: seq<Timed<T>>, keyFn: T -> K, ttl: int, earlier: map<K, int>, kept: seq<nat>, i: nat)
    requires i < |items| && Decided(items, keyFn, ttl, earlier, kept, i)
    requires HasRecentTwin(items, keyFn, ttl, earlier, kept, i)
    ensures Decided(items, keyFn, ttl, earlier, kept, i + 1)
  {
  }

  lemma DecidedAppend<T, K>(items: seq<Timed<T>>, keyFn: T -> K, ttl: int, earlier: map<K, int>, kept: seq<nat>, i: nat)
    requires i < |items| && Decided(items, keyFn, ttl, earlier, kept, i)
    requires !HasRecentTwin(items, keyFn, ttl, earlier, kept, i)
    ensures Decided(items, keyFn, ttl, earlier, kept + [i], i + 1)
  {
    forall c: nat | c <= i
      ensures c !in kept + [i] <==> HasRecentTwin(items, keyFn, ttl, earlier, kept + [i], c)
    {
      LaterItemsAreNoTwins(items, keyFn, ttl, earlier, kept, i, c);
    }
  }

  /** The clock does not run backwards. */
  ghost predicate InOrder<T>(items: seq<Timed<T>>, start: int) {
    && (forall i :: 0 <= i < |items| ==> start <= items[i].checkedAt <= items[i].addedAt)
    && (forall i, j :: 0 <= i < j < |items| ==> items[i].addedAt <= items[j].checkedAt)
  }

  ghost predicate InPast<K>(earlier: map<K, int>, start: int) {
    forall k :: k in earlier ==> earlier[k] <= start
  }

  /** The items kept among the first i, and what the set knows after them. */
  datatype Kept<K> = Kept(at: seq<nat>, added: map<K, int>)

  function KeptAt<T, K(==)>(items: seq<Timed<T>>, keyFn: T -> K, ttl: int, earlier: map<K, int>, i: nat): (r: Kept<K>)
    requires i <= |items|
    ensures forall a :: 0 <= a < |r.at| ==> r.at[a] < i
  {
    if i == 0 then Kept([], earlier)
    else
      var before := KeptAt(items, keyFn, ttl, earlier, i - 1);
      var k := keyFn(items[i - 1].item);
      if k in before.added && before.added[k] + ttl > items[i - 1].checkedAt then before
      else Kept(before.at + [i - 1], before.added[k := items[i - 1].addedAt])
  }

  function Pick<T>(items: seq<Timed<T>>, at: seq<nat>): seq<T>
    requires forall a :: 0 <= a < |at| ==> at[a] < |items|
  {
    seq(|at|, a requires 0 <= a < |at| => items[at[a]].item)
  }

  /** At every point up to i, the items kept so far are all but those with a recent twin. */
  ghost predicate KeptRightly<T, K>(items: seq<Timed<T>>, keyFn: T -> K, ttl: int, earlier: map<K, int>, i: nat)
    requires i <= |items|
  {
    var kept := KeptAt(items, keyFn, ttl, earlier, i);
    && Decided(items, keyFn, ttl, earlier, kept.at, i) && Tracks(items, keyFn, earlier, kept.at, i, kept.added)
    && (i > 0 ==> KeptRightly(items, keyFn, ttl, earlier, i - 1))
  }

  /** With a TTL set an item is dropped exactly when one with its key was emitted less than ttl before. */
  lemma {:induction false} TtlDropsRecentTwins<T, K>(items: seq<Timed<T>>, keyFn: T -> K, ttl: int,
                                                     earlier: map<K, int>, start: int, i: nat)
    requires i <= |items| && InOrder(items, start) && InPast(earlier, start)
    ensures KeptRightly(items, keyFn, ttl, earlier, i)
  {
    if i == 0 {
      NothingKept(items, keyFn, ttl, earlier);
    } else {
      TtlDropsRecentTwins(items, keyFn, ttl, earlier, start, i - 1);
      TtlStep(items, keyFn, ttl, earlier, start, i - 1, i);
    }
  }

  lemma NothingKept<T, K>(items: seq<Timed<T>>, keyFn: T -> K, ttl: int, earlier: map<K, int>)
    ensures KeptRightly(items, keyFn, ttl, earlier, 0)
  {
  }

  lemma TtlStep<T, K>(items: seq<Timed<T>>, keyFn: T -> K, ttl: int, earlier: map<K, int>, start: int, i: nat,
                      next: nat)
    requires i < |items| && next == i + 1 && InOrder(items, start) && KeptRightly(items, keyFn, ttl, earlier, i)
    requires InPast(earlier, start)
    ensures KeptRightly(items, keyFn, ttl, earlier, next)
  {
    var before := KeptAt(items, keyFn, ttl, earlier, i);
    var k := keyFn(items[i].item);
    TwinIffRemembered(items, keyFn, ttl, earlier, before.at, i, before.added);
    if k in before.added && before.added[k] + ttl > items[i].checkedAt {
      assert KeptAt(items, keyFn, ttl, earlier, i + 1) == before;
      TracksSkip(items, keyFn, earlier, before.at, i, before.added);
      DecidedSkip(items, keyFn, ttl, earlier, before.at, i);
    } else {
      assert KeptAt(items, keyFn, ttl, earlier, i + 1) == Kept(before.at + [i], before.added[k := items[i].addedAt]);
      AddedInOrder(items, start, i);
      StartBefore(items, start, i, earlier);
      TracksAppend(items, keyFn, earlier, before.at, i, before.added);
      DecidedAppend(items, keyFn, ttl, earlier, before.at, i);
    }
  }

  lemma AddedInOrder<T>(items: seq<Timed<T>>, start: int, i: nat)
    requires i < |items| && InOrder(items, start)
    ensures forall j :: 0 <= j < i ==> items[j].addedAt <= items[i].addedAt
  {
    forall j | 0 <= j < i
      ensures items[j].addedAt <= items[i].addedAt
    {
      assert items[j].addedAt <= items[i].checkedAt;
    }
  }

  lemma StartBefore<T, K>(items: seq<Timed<T>>, start: int, i: nat, earlier: map<K, int>)
    requires i < |items| && InOrder(items, start) && InPast(earlier, start)
    ensures InPast(earlier, items[i].addedAt)
  {
  }

  lemma NotBefore<T>(items: seq<Timed<T>>, start: int, i: nat)
    requires i < |items| && InOrder(items, start)
    ensures (if i == 0 then start else items[i - 1].addedAt) <= items[i].checkedAt <= items[i].addedAt
  {
  }

  /** Look the key up and, if it is new, add it. */
  method AddIfNew<K(==)>(recent: TtlDedupSet<K>, k: K, checkedAt: int, addedAt: int) returns (dup: bool)
    requires recent.Valid() && recent.lastNow <= checkedAt <= addedAt
    modifies recent
    ensures recent.Valid() && recent.lastNow <= addedAt
    ensures dup <==> old(k in recent.added && recent.added[k] + recent.ttl > checkedAt)
    ensures recent.added == if dup then old(recent.added) else old(recent.added)[k := addedAt]
  {
    dup := recent.Contains(k, checkedAt);
    if !dup {
      recent.Add(k, addedAt);
    }
  }

  /** What the loop has emitted after i items. */
  function EmittedAt<T, K(==)>(items: seq<Timed<T>>, keyFn: T -> K, ttl: int, earlier: map<K, int>, i: nat): seq<T>
    requires i <= |items|
  {
    Pick(items, KeptAt(items, keyFn, ttl, earlier, i).at)
  }

  lemma OneMoreTimed<T, K>(items: seq<Timed<T>>, keyFn: T -> K, ttl: int, earlier: map<K, int>, i: nat)
    requires i < |items|
    ensures var k, added := keyFn(items[i].item), KeptAt(items, keyFn, ttl, earlier, i).added;
            if k in added && added[k] + ttl > items[i].checkedAt
            then EmittedAt(items, keyFn, ttl, earlier, i + 1) == EmittedAt(items, keyFn, ttl, earlier, i)
                 && KeptAt(items, keyFn, ttl, earlier, i + 1).added == added
            else EmittedAt(items, keyFn, ttl, earlier, i + 1)
                 == EmittedAt(items, keyFn, ttl, earlier, i) + [items[i].item]
                 && KeptAt(items, keyFn, ttl, earlier, i + 1).added == added[k := items[i].addedAt]
  {
  }

  method DedupeTtl<T, K(==)>(items: seq<Timed<T>>, keyFn: T -> K, recent: TtlDedupSet<K>) returns (out: seq<T>)
    requires recent.Valid() && InOrder(items, recent.lastNow)
    modifies recent
    ensures out == EmittedAt(items, keyFn, recent.ttl, old(recent.added), |items|)
    ensures InPast(old(recent.added), old(recent.lastNow))
  {
    out := [];
    recent.AddedInPast();
    ghost var start, earlier := recent.lastNow, recent.added;
    for i := 0 to |items|
      invariant recent.Valid() && recent.lastNow <= (if i == 0 then start else items[i - 1].addedAt)
      invariant recent.added == KeptAt(items, keyFn, recent.ttl, earlier, i).added
      invariant out == EmittedAt(items, keyFn, recent.ttl, earlier, i)
    {
      NotBefore(items, start, i);
      OneMoreTimed(items, keyFn, recent.ttl, earlier, i);
      var dup := AddIfNew(recent, keyFn(items[i].item), items[i].checkedAt, items[i].addedAt);
      if dup {
        continue;
      }
      out := out + [items[i].item];
    }
  }
}
