/** The bounded in-memory cache with expiry, and Map with CacheBy over it. */
module Cache {
  import opened Outcomes

  datatype Entry<V> = Entry(data: V, expiresAt: Option<int>)

  /** The list has every key of the entries exactly once. */
  ghost predicate Matches<K(!new), V>(order: seq<K>, entries: map<K, Entry<V>>) {
    && (forall k :: k in entries <==> k in order)
    && (forall i, j :: 0 <= i < j < |order| ==> order[i] != order[j])
  }

  lemma Appended<K(!new), V>(order: seq<K>, entries: map<K, Entry<V>>, k: K, e: Entry<V>)
    requires Matches(order, entries)
    ensures Matches(if k in entries then order else order + [k], entries[k := e])
  {
  }

  lemma OldestGone<K(!new), V>(order: seq<K>, entries: map<K, Entry<V>>)
    requires Matches(order, entries) && order != []
    ensures Matches(order[1..], entries - {order[0]})
  {
    assert order == [order[0]] + order[1..];
  }

  /** The `order` slice lists the keys by insertion, oldest first. */
  class MemoryCache<K(==, !new), V> {
    const maxSize: int
    var entries: map<K, Entry<V>>
    var order: seq<K>

    predicate Live(k: K, now: int)
      reads this
    {
      k in entries && (entries[k].expiresAt.None? || now <= entries[k].expiresAt.value)
    }

    ghost predicate Valid()
      reads this
    {
      && Matches(order, entries)
      && |order| <= (if maxSize < 1 then 1 else maxSize)
    }

    constructor (maxSize: int)
      ensures Valid() && entries == map[] && this.maxSize == maxSize
    {
      this.maxSize, entries, order := maxSize, map[], [];
    }

    method Get(k: K, now: int) returns (r: Option<V>)
      requires Valid()
      ensures r == if Live(k, now) then Some(entries[k].data) else None
    {
      if k !in entries {
        return None;
      }
      var entry := entries[k];
      if entry.expiresAt.Some? && now > entry.expiresAt.value {
        return None;
      }
      return Some(entry.data);
    }

    /** The entries are counted as the map counts them. */
    lemma CountEntries()
      requires Valid()
      ensures |entries| == |order|
    {
      DistinctCount(order);
      assert entries.Keys == Elements(order);
    }

    /**
     * A known key is overwritten in place. A new key goes to the end, after the oldest one made room if the
     * cache was full.
     */
    method Set(k: K, data: V, ttl: int, now: int)
      requires Valid()
      modifies this
      ensures Valid()
      ensures k in entries && entries[k] == Entry(data, if ttl > 0 then Some(now + ttl) else None)
      ensures forall t :: Live(k, t) <==> ttl <= 0 || t <= now + ttl
      ensures order == if k in old(entries) then old(order)
                       else if |old(order)| >= maxSize && |old(order)| > 0 then old(order)[1..] + [k]
                       else old(order) + [k]
      ensures forall j :: j in entries && j != k ==> j in old(entries) && entries[j] == old(entries)[j]
    {
      CountEntries();
      if k !in entries && |entries| >= maxSize {
        assert order != [] ==> order[0] in order && order[0] in entries;
        ghost var n := EvictOldest();
        if old(order) != [] {
          OldestGone(old(order), old(entries));
        }
      }
      Appended(order, entries, k, Entry(data, if ttl > 0 then Some(now + ttl) else None));
      var exp := if ttl > 0 then Some(now + ttl) else None;
      if k !in entries {
        order := order + [k];
      }
      entries := entries[k := Entry(data, exp)];
    }

    /** Skip the keys at the front that are gone, and remove the first that is there: the n-th, if there is one. */
    method EvictOldest() returns (ghost n: nat)
      modifies this
      ensures n <= |old(order)| && forall i :: 0 <= i < n ==> old(order)[i] !in old(entries)
      ensures n == |old(order)| ==> order == [] && entries == old(entries)
      ensures n < |old(order)| ==>
                (old(order)[n] in old(entries) && order == old(order)[n + 1..] &&
                 entries == old(entries) - {old(order)[n]})
    {
      n := 0;
      while |order| > 0
        invariant n <= |old(order)| && order == old(order)[n..] && entries == old(entries)
        invariant forall i :: 0 <= i < n ==> old(order)[i] !in old(entries)
        decreases |order|
      {
        var oldest := order[0];
        order := order[1..];
        if oldest in entries {
          entries := entries - {oldest};
          return;
        }
        n := n + 1;
      }
    }
  }

  function Elements<K>(s: seq<K>): set<K> {
    set k | k in s
  }

  lemma {:induction false} DistinctCount<K>(s: seq<K>)
    requires forall i, j :: 0 <= i < j < |s| ==> s[i] != s[j]
    ensures |Elements(s)| == |s|
  {
    if s == [] {
      assert Elements(s) == {};
    } else {
      DistinctCount(s[1..]);
      assert Elements(s) == {s[0]} + Elements(s[1..]);
    }
  }

  // ------------------------------------------------------------------ CacheBy

  datatype Answer<+O> = Value(v: O) | Error(e: Outcomes.Error)

  /**
   * The user function, the key it is cached under, and the codec the cache stores bytes with. Either codec direction
   * may fail.
   */
  datatype CacheBy<!I(!new), !O(!new), !K(==), !B> = CacheBy(
    fn: I -> Answer<O>,
    key: I -> K,
    encode: O -> Option<B>,
    decode: B -> Option<O>)
  {
    /** Items with one key have one answer. */
    ghost predicate DependsOnlyOnKey() {
      forall x: I, y: I :: key(x) == key(y) ==> fn(x) == fn(y)
    }

    /** Decoding what was encoded may fail, but never yields another value. */
    ghost predicate CodecIsHonest() {
      forall x: I, o: O :: fn(x) == Value(o) && encode(o).Some? ==> decode(encode(o).value) in {None, Some(o)}
    }

    function Outcome(x: I): Outcome<O> {
      match fn(x)
      case Value(v) => Emit([v])
      case Error(e) => Fail(e)
    }

    function Results(items: seq<I>): (os: seq<Outcome<O>>)
      ensures |os| == |items|
    {
      seq(|items|, i requires 0 <= i < |items| => Outcome(items[i]))
    }
  }

  /** Whatever the cache holds under a key decodes to that key's answer, or not at all. */
  ghost predicate Faithful<I(!new), O(!new), K(!new), B>(c: CacheBy<I, O, K, B>, cache: MemoryCache<K, B>)
    reads cache
  {
    forall k, x: I :: k in cache.entries && c.key(x) == k && c.decode(cache.entries[k].data).Some? ==>
      c.fn(x) == Value(c.decode(cache.entries[k].data).value)
  }

  /** The cache has a usable answer for item x. */
  predicate Hit<I(!new), O(!new), K(==, !new), B>(c: CacheBy<I, O, K, B>, cache: MemoryCache<K, B>, x: I, now: int)
    reads cache
  {
    cache.Live(c.key(x), now) && c.decode(cache.entries[c.key(x)].data).Some?
  }

  /**
   * The wrapped function: answer from the cache if it can, else call the function and store what it returns.
   * Errors are not stored, and a codec that fails on the way in or out only costs the call. Where items with
   * one key have one answer and the codec is honest, the cache is invisible and stays faithful.
   */
  method Cached<I(!new), O(!new), K(==, !new), B>(c: CacheBy<I, O, K, B>, cache: MemoryCache<K, B>, x: I, ttl: int,
                                                  readAt: int, writeAt: int)
      returns (r: Answer<O>)
    requires cache.Valid()
    modifies cache
    ensures cache.Valid()
    ensures old(Hit(c, cache, x, readAt)) ==> r == Value(c.decode(old(cache.entries[c.key(x)].data)).value)
    ensures !old(Hit(c, cache, x, readAt)) ==> r == c.fn(x)
    ensures !old(Hit(c, cache, x, readAt)) && r.Value? && c.encode(r.v).Some? ==>
              (c.key(x) in cache.entries &&
               cache.entries[c.key(x)] == Entry(c.encode(r.v).value, if ttl > 0 then Some(writeAt + ttl) else None))
    ensures old(Faithful(c, cache)) && c.DependsOnlyOnKey() && c.CodecIsHonest() ==> r == c.fn(x) && Faithful(c, cache)
  {
    var hit := LookUp(c, cache, x, readAt);
    if hit.Some? {
      return Value(hit.value);
    }
    r := c.fn(x);
    if r.Value? {
      StoreAnswer(c, cache, x, r.v, ttl, writeAt);
    }
  }

  /** The first half: the cached answer, if there is a usable one. */
  method LookUp<I(!new), O(!new), K(==, !new), B>(c: CacheBy<I, O, K, B>, cache: MemoryCache<K, B>, x: I,
                                                  now: int) returns (r: Option<O>)
    requires cache.Valid()
    ensures r == if Hit(c, cache, x, now) then c.decode(cache.entries[c.key(x)].data) else None
    ensures Faithful(c, cache) && r.Some? ==> c.fn(x) == Value(r.value)
  {
    var data := cache.Get(c.key(x), now);
    return if data.Some? then c.decode(data.value) else None;
  }

  /** The second half: the answer v of the function is stored, if it can be encoded. */
  method StoreAnswer<I(!new), O(!new), K(==, !new), B>(c: CacheBy<I, O, K, B>, cache: MemoryCache<K, B>, x: I, v: O,
                                                       ttl: int, now: int)
    requires cache.Valid()
    modifies cache
    ensures cache.Valid()
    ensures c.encode(v).Some? ==>
              (c.key(x) in cache.entries &&
               cache.entries[c.key(x)] == Entry(c.encode(v).value, if ttl > 0 then Some(now + ttl) else None))
    ensures old(Faithful(c, cache)) && c.fn(x) == Value(v) && c.DependsOnlyOnKey() && c.CodecIsHonest() ==>
              Faithful(c, cache)
  {
    var bytes := c.encode(v);
    if bytes.Some? {
      cache.Set(c.key(x), bytes.value, ttl, now);
    }
  }

  /**
   * Transparency: over any cache with faithful contents, any clock, and whatever gets evicted or expires, the
   * cached stage is the serial run of the uncached function.
   */
  method MapCached<I(!new), O(!new), K(==, !new), B>(c: CacheBy<I, O, K, B>, cache: MemoryCache<K, B>, items: seq<I>,
                                                     ttl: int, clock: nat -> int)
      returns (out: seq<O>, err: Option<Outcomes.Error>)
    requires cache.Valid() && Faithful(c, cache) && c.DependsOnlyOnKey() && c.CodecIsHonest()
    modifies cache
    ensures RunResult(out, err) == Serial(c.Results(items))
    ensures cache.Valid() && Faithful(c, cache)
  {
    out, err := [], None;
    assert [] + Serial(c.Results(items)).out == Serial(c.Results(items)).out;
    for i := 0 to |items|
      invariant cache.Valid() && Faithful(c, cache) && err.None?
      invariant Serial(c.Results(items)) == Prepend(out, SerialFrom(c.Results(items), i))
    {
      var r := Cached(c, cache, items[i], ttl, clock(2 * i), clock(2 * i + 1));
      assert c.Results(items)[i] == c.Outcome(items[i]);
      match r {
        case Value(v) =>
          var rest := SerialFrom(c.Results(items), i + 1);
          assert out + ([v] + rest.out) == (out + [v]) + rest.out;
          out := out + [v];
        case Error(e) =>
          assert out + [] == out;
          err := Some(e);
          return;
      }
    }
    assert out + [] == out;
  }

  /** What the workers of a concurrent stage do to the shared cache, one locked access at a time. */
  datatype Access<+I> =
    | Lookup(x: I)   // a worker starts on x
    | Store(x: I)    // a worker that called the function on x stores what it got

  function Lookups<I>(accesses: seq<Access<I>>): seq<I> {
    if accesses == [] then []
    else Lookups(accesses[..|accesses| - 1]) +
         (if accesses[|accesses| - 1].Lookup? then [accesses[|accesses| - 1].x] else [])
  }

  function Answers<I(!new), O(!new), K, B>(c: CacheBy<I, O, K, B>, items: seq<I>): (r: seq<Answer<O>>)
    ensures |r| == |items|
  {
    seq(|items|, i requires 0 <= i < |items| => c.fn(items[i]))
  }

  /**
   * Transparency for any number of workers: however their lookups and stores interleave, with stores late, repeated or
   * missing, every worker that looks an item up ends with what the function answers for it.
   */
  method CachedConcurrently<I(!new), O(!new), K(==, !new), B>(c: CacheBy<I, O, K, B>, cache: MemoryCache<K, B>,
                                                              accesses: seq<Access<I>>,
                                                             ttl: int, clock: nat -> int)
      returns (answers: seq<Answer<O>>)
    requires cache.Valid() && Faithful(c, cache) && c.DependsOnlyOnKey() && c.CodecIsHonest()
    modifies cache
    ensures answers == Answers(c, Lookups(accesses))
    ensures cache.Valid() && Faithful(c, cache)
  {
    answers := [];
    for i := 0 to |accesses|
      invariant cache.Valid() && Faithful(c, cache)
      invariant answers == Answers(c, Lookups(accesses[..i]))
    {
      assert accesses[..i + 1][..i] == accesses[..i];
      match accesses[i] {
        case Lookup(x) =>
          var hit := LookUp(c, cache, x, clock(i));
          var answer := if hit.Some? then Value(hit.value) else c.fn(x);
          answers := answers + [answer];
        case Store(x) =>
          var answer := c.fn(x);
          if answer.Value? {
            StoreAnswer(c, cache, x, answer.v, ttl, clock(i));
          }
      }
    }
    assert accesses[..|accesses|] == accesses;
  }

  /**
   * An honest codec is what transparency needs: if some answer decodes to another value, asking for that item
   * twice, without expiry, gives the other value the second time.
   */
  method DishonestCodecShows<I(!new), O(==, !new), K(==, !new), B>(c: CacheBy<I, O, K, B>, x: I, o: O, maxSize: int,
                                                                   now: int)
      returns (second: Answer<O>)
    requires c.fn(x) == Value(o) && c.encode(o).Some? && c.decode(c.encode(o).value) !in {None, Some(o)}
    ensures second != c.fn(x)
  {
    var cache := new MemoryCache<K, B>(maxSize);
    var first := Cached(c, cache, x, 0, now, now);
    second := Cached(c, cache, x, 0, now, now);
  }
}
