/**
 * The deduplication set that forgets keys a fixed time after they were last added, with a first-in
 * first-out queue of expiries, tombstones for refreshed keys, and lazy eviction from the head.
 */
module TtlDedup {

  class TtlDedupSet<K(==)> {
    const ttl: int
    var entries: map<K, int>       // key -> when it expires
    var queue: seq<(K, int)>       // expiries in the order they were set
    var head: nat                  // read cursor into the queue
    ghost var added: map<K, int>   // key -> when it was last added, for every key ever added
    ghost var lastNow: int         // the latest clock reading

    predicate Queued(k: K, exp: int)
      reads this
    {
      exists i :: head <= i < |queue| && queue[i] == (k, exp)
    }

    ghost predicate Valid()
      reads this
    {
      && ttl > 0
      && head <= |queue|
      && (forall i, j :: head <= i <= j < |queue| ==> queue[i].1 <= queue[j].1)
      && (forall i :: head <= i < |queue| ==> queue[i].1 <= lastNow + ttl)
      && (forall k :: k in entries ==> k in added && entries[k] == added[k] + ttl && Queued(k, entries[k]))
      && (forall k :: k in added && k !in entries ==> added[k] + ttl <= lastNow)
    }

    /** The specification: k was added, and its latest Add is not yet ttl old. */
    ghost predicate Remembers(k: K, now: int)
      reads this
    {
      k in added && added[k] + ttl > now
    }

    /** The dead prefix of the queue is empty or shorter than half of it. */
    predicate Compact()
      reads this
    {
      head == 0 || head < |queue| / 2
    }

    lemma AddedInPast()
      requires Valid()
      ensures forall k :: k in added ==> added[k] <= lastNow
    {
      forall k | k in added
        ensures added[k] <= lastNow
      {
        if k in entries {
          assert Queued(k, entries[k]);
        }
      }
    }

    constructor (ttl: int, now: int)
      requires ttl > 0
      ensures Valid() && added == map[] && lastNow == now && this.ttl == ttl
    {
      this.ttl := ttl;
      entries, queue, head, added, lastNow := map[], [], 0, map[], now;
    }

    method Contains(k: K, now: int) returns (ok: bool)
      requires Valid() && now >= lastNow
      modifies this
      ensures Valid() && Compact() && added == old(added) && lastNow == now
      ensures ok <==> Remembers(k, now)
    {
      Evict(now);
      ok := k in entries;
    }

    method Add(k: K, now: int)
      requires Valid() && now >= lastNow
      modifies this
      ensures Valid() && Compact() && added == old(added)[k := now] && lastNow == now
    {
      Evict(now);
      label evicted:
      var exp := now + ttl;
      entries := entries[k := exp];
      queue := queue + [(k, exp)];
      added := added[k := now];
      forall j | j in entries
        ensures Queued(j, entries[j])
      {
        if j == k {
          assert queue[|queue| - 1] == (k, exp);
        } else {
          var i :| head <= i < |old@evicted(queue)| && old@evicted(queue)[i] == (j, entries[j]);
          assert queue[i] == (j, entries[j]);
        }
      }
    }

    lemma NoneExpired()
      requires Valid() && (head < |queue| ==> queue[head].1 > lastNow)
      ensures forall k :: k in entries <==> Remembers(k, lastNow)
    {
      forall k | k in entries
        ensures entries[k] > lastNow
      {
        var i :| head <= i < |queue| && queue[i] == (k, entries[k]);
        assert queue[i].1 >= queue[head].1;
      }
    }

    /** Drop expired entries from the head of the queue, then reclaim a long dead prefix. */
    method Evict(now: int)
      requires Valid() && now >= lastNow
      modifies this
      ensures Valid() && Compact() && added == old(added) && lastNow == now
      ensures forall k :: k in entries <==> Remembers(k, now)
    {
      lastNow := now;
      while head < |queue| && queue[head].1 <= now
        invariant Valid() && added == old(added) && lastNow == now
        decreases |queue| - head
      {
        PopHead();
      }
      NoneExpired();
      if head > 0 && head >= |queue| / 2 {
        Reclaim();
      }
    }

    /** An expired queue entry: drop its key, unless that was added again and the entry is only a tombstone. */
    method PopHead()
      requires Valid() && head < |queue| && queue[head].1 <= lastNow
      modifies this`head, this`entries
      ensures Valid() && head == old(head) + 1
    {
      var (k, exp) := queue[head];
      head := head + 1;
      if k in entries && entries[k] == exp {
        entries := entries - {k};
      }
      forall j | j in entries
        ensures Queued(j, entries[j])
      {
        var i :| old(head) <= i < |queue| && queue[i] == (j, entries[j]);
        assert i != old(head);
      }
    }

    method Reclaim()
      requires Valid()
      modifies this`head, this`queue
      ensures Valid() && head == 0 && queue == old(queue[head..])
    {
      queue := queue[head..];
      head := 0;
      forall j | j in entries
        ensures Queued(j, entries[j])
      {
        var i :| old(head) <= i < |old(queue)| && old(queue)[i] == (j, entries[j]);
        assert queue[i - old(head)] == (j, entries[j]);
      }
    }
  }
}
