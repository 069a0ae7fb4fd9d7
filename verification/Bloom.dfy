/** Single bits of a 64-bit word. */
module Bits {

  function Mask(a: bv6): bv64 { 1 << a }

  predicate HasBit(word: bv64, mask: bv64) { word & mask != 0 }

  function WithBit(word: bv64, mask: bv64): bv64 { word | mask }

  lemma MasksDisjoint(a: bv6, b: bv6)
    ensures Mask(a) != 0 && (a != b ==> Mask(a) & Mask(b) == 0)
  {
  }

  lemma SetsOnlyItsBit(word: bv64, a: bv6, b: bv6)
    ensures HasBit(WithBit(word, Mask(a)), Mask(b)) <==> a == b || HasBit(word, Mask(b))
  {
    MasksDisjoint(a, b);
    if a == b {
      SetsItsBit(word, Mask(a));
    } else {
      KeepsOtherBits(word, Mask(a), Mask(b));
    }
  }

  lemma SetsItsBit(word: bv64, m: bv64)
    requires m != 0
    ensures HasBit(WithBit(word, m), m)
  {
  }

  lemma KeepsOtherBits(word: bv64, m: bv64, n: bv64)
    requires m & n == 0
    ensures HasBit(WithBit(word, m), n) <==> HasBit(word, n)
  {
  }
}

/**
 * The Bloom set: k positions per key derived from two 64-bit hashes, one bit per position in an array of
 * 64-bit words. The two seeded hash functions are arbitrary functions of the key.
 */
module Bloom {
  import opened Bits

  const WRAP: nat := 0x1_0000_0000_0000_0000

  type Uint64 = x: nat | x < 0x1_0000_0000_0000_0000

  datatype Params<!K> = Params(m: nat, k: nat, hash1: K -> Uint64, hash2: K -> Uint64)
  {
    predicate Valid() {
      1 <= m && m + 63 < WRAP && k >= 1
    }
  }

  /** v | 1 */
  function MakeOdd(v: Uint64): (r: Uint64)
    ensures r % 2 == 1 && (r == v || r == v + 1)
  {
    if v % 2 == 0 then v + 1 else v
  }

  /** h1 + i*h2: the product and the sum wrap around. */
  function Slot(h1: Uint64, h2: Uint64, i: nat): Uint64 {
    (h1 + (i * h2) % WRAP) % WRAP
  }

  /** The i-th position of a key, modulo m. */
  function Position<K>(p: Params<K>, key: K, i: nat): (pos: nat)
    requires p.Valid()
    ensures pos < p.m
  {
    Slot(p.hash1(key), MakeOdd(p.hash2(key)), i) % p.m
  }

  ghost predicate IsPosition<K>(p: Params<K>, key: K, pos: nat, n: nat)
    requires p.Valid()
  {
    exists i: nat :: i < n && Position(p, key, i) == pos
  }

  /** Some key of the list has this position. */
  ghost predicate Marked<K>(p: Params<K>, keys: seq<K>, pos: nat)
    requires p.Valid()
  {
    exists j :: 0 <= j < |keys| && IsPosition(p, keys[j], pos, p.k)
  }

  /** Every position of the key is a position of some key of the list: the set cannot tell it from an added one. */
  ghost predicate Covered<K>(p: Params<K>, keys: seq<K>, key: K)
    requires p.Valid()
  {
    forall i: nat :: i < p.k ==> Marked(p, keys, Position(p, key, i))
  }

  /** No false negatives. */
  lemma AddedIsCovered<K>(p: Params<K>, keys: seq<K>, key: K)
    requires p.Valid() && key in keys
    ensures Covered(p, keys, key)
  {
    var j :| 0 <= j < |keys| && keys[j] == key;
    forall i: nat | i < p.k
      ensures Marked(p, keys, Position(p, key, i))
    {
      assert IsPosition(p, keys[j], Position(p, key, i), p.k);
    }
  }

  lemma MarkedAppend<K>(p: Params<K>, keys: seq<K>, key: K, pos: nat)
    requires p.Valid()
    ensures Marked(p, keys + [key], pos) <==> Marked(p, keys, pos) || IsPosition(p, key, pos, p.k)
  {
    var longer := keys + [key];
    if Marked(p, keys, pos) {
      var j :| 0 <= j < |keys| && IsPosition(p, keys[j], pos, p.k);
      assert longer[j] == keys[j];
    }
    if IsPosition(p, key, pos, p.k) {
      assert longer[|keys|] == key;
    }
  }

  // ------------------------------------------------------------------ bits

  function Back(amount: bv6): nat { amount as nat }

  /** A shift amount as a bit vector. */
  function Amount(r: nat): (amount: bv6)
    requires r < 64
    ensures Back(amount) == r
  {
    r as bv6
  }

  function MaskOf(pos: nat): bv64 { Mask(Amount(pos % 64)) }

  lemma SetsOneBit(word: bv64, p: nat, q: nat)
    ensures HasBit(WithBit(word, MaskOf(p)), MaskOf(q)) <==> p % 64 == q % 64 || HasBit(word, MaskOf(q))
  {
    var a, b := Amount(p % 64), Amount(q % 64);
    SetsOnlyItsBit(word, a, b);
    assert a == b <==> Back(a) == Back(b);
  }

  class BloomDedupSet<K(==)> {
    const bits: array<bv64>
    const params: Params<K>
    ghost var added: seq<K>         // every key added, oldest first

    predicate Shape()
      reads this
    {
      params.Valid() && bits.Length == (params.m + 63) / 64
    }

    predicate Bit(pos: nat)
      requires Shape() && pos < params.m
      reads this, bits
    {
      HasBit(bits[pos / 64], MaskOf(pos))
    }

    /** A bit is set exactly when it is a position of an added key. */
    ghost predicate Valid()
      reads this, bits
    {
      && Shape()
      && forall pos: nat {:trigger Bit(pos)} :: pos < params.m ==> (Bit(pos) <==> Marked(params, added, pos))
    }

    constructor (params: Params<K>)
      requires params.Valid()
      ensures Valid() && added == [] && fresh(bits) && this.params == params
    {
      this.params, added := params, [];
      bits := new bv64[(params.m + 63) / 64](_ => 0);
    }

    method Contains(key: K) returns (found: bool)
      requires Valid()
      ensures found <==> Covered(params, added, key)
      ensures key in added ==> found
    {
      if key in added {
        AddedIsCovered(params, added, key);
      }
      for i := 0 to params.k
        invariant forall j: nat :: j < i ==> Marked(params, added, Position(params, key, j))
      {
        var pos := Position(params, key, i);
        if !HasBit(bits[pos / 64], MaskOf(pos)) {
          assert !Bit(pos);
          return false;
        }
        assert Bit(pos);
      }
      return true;
    }

    method Add(key: K)
      requires Valid()
      modifies this, bits
      ensures Valid() && added == old(added) + [key]
    {
      for i := 0 to params.k
        invariant added == old(added)
        invariant forall pos: nat {:trigger Bit(pos)} :: pos < params.m ==>
                    (Bit(pos) <==> Marked(params, added, pos) || IsPosition(params, key, pos, i))
      {
        SetPosition(key, i);
      }
      forall pos: nat | pos < params.m
        ensures Bit(pos) <==> Marked(params, added + [key], pos)
      {
        MarkedAppend(params, added, key, pos);
      }
      added := added + [key];
    }

    method SetPosition(key: K, i: nat)
      requires Shape()
      requires forall pos: nat {:trigger Bit(pos)} :: pos < params.m ==>
                 (Bit(pos) <==> Marked(params, added, pos) || IsPosition(params, key, pos, i))
      modifies bits
      ensures forall pos: nat {:trigger Bit(pos)} :: pos < params.m ==>
                (Bit(pos) <==> Marked(params, added, pos) || IsPosition(params, key, pos, i + 1))
    {
      var pos := Position(params, key, i);
      bits[pos / 64] := WithBit(bits[pos / 64], MaskOf(pos));
      forall q: nat | q < params.m
        ensures Bit(q) <==> old(Bit(q)) || q == pos
      {
        if q / 64 == pos / 64 {
          SetsOneBit(old(bits[pos / 64]), pos, q);
        }
      }
    }
  }
}
