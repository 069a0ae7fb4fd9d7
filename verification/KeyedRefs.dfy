/**
 * The refs of a keyed stage: memory-backed values with an optional time to live, and the map from keys to
 * refs that evicts idle keys lazily, with an occasional sweep over the whole map. Times are integers; 0 is
 * the zero time, which no clock reading equals.
 */
module KeyedRefs {
  import opened Outcomes

  class Ref<S> {
    const initial: S
    const ttl: int
    var value: S
    var lastWrite: int
    var lastAccess: int

    constructor (initial: S, ttl: int, now: int)
      ensures this.initial == initial && this.ttl == ttl
      ensures value == initial && lastWrite == 0 && lastAccess == now
    {
      this.initial, this.ttl, value, lastWrite, lastAccess := initial, ttl, initial, 0, now;
    }

    predicate Expired(now: int)
      reads this
    {
      ttl > 0 && lastWrite != 0 && now > lastWrite + ttl
    }

    /** What a reader sees: the last written value, or the initial one once that has expired. */
    function Current(now: int): S
      reads this
    {
      if Expired(now) then initial else value
    }

    method Get(now: int) returns (v: S)
      modifies this
      ensures v == old(Current(now)) && Current(now) == v && !Expired(now)
      ensures lastAccess == old(lastAccess)
      ensures !old(Expired(now)) ==> unchanged(this)
    {
      if ttl > 0 && lastWrite != 0 && now > lastWrite + ttl {
        value := initial;
        lastWrite := 0;
      }
      v := value;
    }

    method Set(v: S, now: int)
      modifies this
      ensures value == v && lastAccess == old(lastAccess)
      ensures lastWrite == if ttl > 0 then now else old(lastWrite)
      ensures now > 0 && (ttl <= 0 ==> old(lastWrite) == 0) ==>
                forall t :: Current(t) == if ttl > 0 && t > now + ttl then initial else v
    {
      value := v;
      if ttl > 0 {
        lastWrite := now;
      }
    }

    /** An update that fails leaves the ref alone. It starts from the stored value even when that has expired. */
    method UpdateAndGet(fn: S -> Option<S>, now: int) returns (r: Option<S>)
      modifies this
      ensures r == fn(old(value)) && lastAccess == old(lastAccess)
      ensures r.None? ==> unchanged(this)
      ensures r.Some? ==> value == r.value && lastWrite == if ttl > 0 then now else old(lastWrite)
    {
      r := fn(value);
      if r.Some? {
        value := r.value;
        if ttl > 0 {
          lastWrite := now;
        }
      }
    }
  }

  /**
   * Every update gives what it would give on the value Get returns exactly when the value has not expired, or is the
   * initial one anyway.
   */
  lemma UpdateStartsFromGetIff<S(!new)>(ref: Ref<S>, now: int)
    ensures (forall fn: S -> Option<S> :: fn(ref.value) == fn(ref.Current(now)))
            <==> !ref.Expired(now) || ref.value == ref.initial
  {
    var keep := (v: S) => Some(v);
    if ref.Expired(now) && ref.value != ref.initial {
      assert keep(ref.value) != keep(ref.Current(now));
    }
  }

  /**
   * Two refs with the same history, read and updated after the value has expired: Get starts afresh, the update does
   * not.
   */
  method ExpiredUpdateKeepsTheOldValue<S>(initial: S, v: S, ttl: int, now: int) returns (got: S, updated: Option<S>)
    requires ttl > 0 && now > 0
    ensures got == initial && updated == Some(v)
  {
    var a := new Ref(initial, ttl, now);
    var b := new Ref(initial, ttl, now);
    a.Set(v, now);
    b.Set(v, now);
    got := a.Get(now + ttl + 1);
    updated := b.UpdateAndGet(x => Some(x), now + ttl + 1);
  }

  class KeyedRefMap<K(==), S> {
    const initial: S
    const ttl: int      // StateTTL, 0 = none
    const keyTTL: int   // WithKeyTTL, 0 = none
    var refs: map<K, Ref<S>>
    var nextSweep: int
    ghost var unswept: map<K, Ref<S>>   // the map the same calls would leave without the sweep
    ghost var lastNow: int              // the latest clock reading

    ghost predicate Valid()
      reads this, unswept.Values
    {
      Consistent() && Recent({})
    }

    /** Entries that no call may find idle for too long. */
    ghost predicate Recent(except: set<K>)
      reads this, refs.Values
    {
      keyTTL > 0 ==> forall k :: k in refs && k !in except ==> refs[k].lastAccess >= nextSweep - keyTTL / 8 - keyTTL
    }

    ghost predicate Consistent()
      reads this, unswept.Values
    {
      && refs.Keys <= unswept.Keys
      && (forall k :: k in refs ==> refs[k] == unswept[k])
      && (forall k, k' :: k in unswept && k' in unswept && k != k' ==> unswept[k] != unswept[k'])
      && (forall k :: k in unswept ==> 0 < unswept[k].lastAccess <= lastNow)
      // An entry the sweep removed would be evicted by the next access anyway.
      && (forall k :: k in unswept && k !in refs ==> keyTTL > 0 && lastNow - unswept[k].lastAccess > keyTTL)
      && (keyTTL > 0 && lastNow > 0 ==> lastNow <= nextSweep)
      && (keyTTL > 0 ==> nextSweep <= lastNow + keyTTL / 8)
    }

    constructor (initial: S, ttl: int, keyTTL: int)
      ensures Valid() && refs == map[] && unswept == map[] && lastNow == 0
      ensures this.initial == initial && this.ttl == ttl && this.keyTTL == keyTTL
    {
      this.initial, this.ttl, this.keyTTL := initial, ttl, keyTTL;
      refs, nextSweep, unswept, lastNow := map[], 0, map[], 0;
    }

    /** Whether an access at `now` starts the key afresh instead of returning the entry. */
    predicate Evicts(r: Ref<S>, now: int)
      reads r
    {
      || (keyTTL > 0 && r.lastAccess != 0 && now - r.lastAccess > keyTTL)
      || (ttl > 0 && r.lastWrite != 0 && now > r.lastWrite + ttl)
    }

    /** Delete every entry but `except` that was last accessed before the cutoff. */
    method Sweep(except: K, cutoff: int)
      requires forall k :: k in refs ==> allocated(refs[k])
      modifies this`refs
      ensures forall k :: k in refs <==> k in old(refs) && (k == except || old(refs)[k].lastAccess >= cutoff)
      ensures forall k :: k in refs ==> refs[k] == old(refs)[k]
    {
      var keys := refs.Keys;
      while keys != {}
        invariant keys <= refs.Keys
        invariant forall k :: k in keys ==> k in old(refs)
        invariant forall k :: k in refs ==> k in old(refs) && refs[k] == old(refs)[k]
        invariant forall k :: k in old(refs) && k !in keys ==>
                    (k in refs <==> k == except || old(refs)[k].lastAccess >= cutoff)
        decreases |keys|
      {
        var k :| k in keys;
        keys := keys - {k};
        if k != except && refs[k].lastAccess < cutoff {
          refs := refs - {k};
        }
      }
    }

    /** At most once every keyTTL/8, sweep; the key asked for is left to its own check. */
    method SweepIfDue(k: K, now: int)
      requires Valid() && now > 0 && now >= lastNow
      modifies this`refs, this`nextSweep, this`lastNow
      ensures Consistent() && Recent({k}) && lastNow == now
      ensures k in refs <==> k in old(refs)
    {
      if keyTTL > 0 && now >= nextSweep {
        Sweep(k, now - keyTTL);
        nextSweep := now + keyTTL / 8;
      }
      lastNow := now;
    }

    /** A map that never sweeps has a ref for the key, last accessed within keyTTL and with a value not expired. */
    ghost predicate Alive(k: K, now: int)
      reads this, unswept.Values
    {
      && k in unswept
      && (keyTTL > 0 ==> now <= unswept[k].lastAccess + keyTTL)
      && (ttl > 0 && unswept[k].lastWrite != 0 ==> now <= unswept[k].lastWrite + ttl)
    }

    /** Install a fresh ref for k, in place of any old one. */
    method Renew(k: K, now: int) returns (r: Ref<S>)
      requires Consistent() && Recent({k}) && lastNow == now > 0
      modifies this`refs, this`unswept
      ensures Valid()
      ensures unswept == old(unswept)[k := r] && k in refs
      ensures fresh(r) && r.value == initial && r.lastWrite == 0 && r.lastAccess == now && r.initial == initial
      ensures r.ttl == ttl
    {
      refs := refs - {k};
      r := new Ref(initial, ttl, now);
      refs := refs[k := r];
      unswept := unswept[k := r];
    }

    /** Mark the ref of k as accessed now. */
    method Touch(k: K, ref: Ref<S>, now: int)
      requires Consistent() && Recent({k}) && lastNow == now > 0 && k in refs && refs[k] == ref
      modifies ref`lastAccess
      ensures Valid() && ref.lastAccess == now
    {
      ref.lastAccess := now;
    }

    lemma IdleBound()
      requires Valid() && keyTTL > 0 && lastNow > 0
      ensures forall k :: k in refs ==> lastNow - refs[k].lastAccess <= keyTTL + keyTTL / 8
    {
    }

    /**
     * The sweep is unobservable: the call returns the existing ref, value and write time untouched, or a
     * fresh one holding the initial value, exactly as the map without sweeping would. Afterwards no entry
     * has been idle for longer than keyTTL + keyTTL/8.
     */
    method GetRef(k: K, now: int) returns (r: Ref<S>)
      requires Valid() && now > 0 && now >= lastNow
      modifies this, if k in unswept then {unswept[k]} else {}
      ensures Valid() && lastNow == now
      ensures unswept == old(unswept)[k := r] && k in refs && r.lastAccess == now
      ensures old(Alive(k, now)) ==>
                r == old(unswept[k]) && r.value == old(unswept[k].value) && r.lastWrite == old(unswept[k].lastWrite)
      ensures !old(Alive(k, now)) ==>
                fresh(r) && r.value == initial && r.lastWrite == 0 && r.initial == initial && r.ttl == ttl
      ensures keyTTL > 0 ==> forall j :: j in refs ==> now - refs[j].lastAccess <= keyTTL + keyTTL / 8
    {
      SweepIfDue(k, now);
      if k in refs && !Evicts(refs[k], now) {
        r := refs[k];
        Touch(k, r, now);
        assert unswept == unswept[k := r];
      } else {
        r := Renew(k, now);
      }
      if keyTTL > 0 {
        IdleBound();
      }
    }
  }
}
