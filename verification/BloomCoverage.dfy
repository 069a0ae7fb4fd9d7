/**
 * The positions of one key in the Bloom set as numbers, and whether the odd step makes them cover the bit array, which
 * the comment in the source says is what it is for.
 */
module BloomCoverage {
  import opened Bloom
  import opened Division

  lemma ModOfMod(a: int, b: int, q: int)
    requires q > 0
    ensures Mod(a + Mod(b, q), q) == Mod(a + b, q)
  {
    var x := a + Mod(b, q);
    assert b == Times(b / q, q) + Mod(b, q) && x == Times(x / q, q) + Mod(x, q);
    TimesMinus(b / q, -(x / q), q);
    assert Times(-(x / q), q) == -Times(x / q, q);
    QuotientUnique(a + b, q, b / q + x / q, Mod(x, q));
  }

  /**
   * The slots of a key are h1 + i*h2 modulo 2^64, one h2 apart; and while that number does not overflow the position
   * is its remainder modulo m.
   */
  lemma SlotsAreApart<K>(p: Params<K>, key: K, i: nat)
    requires p.Valid()
    ensures var h1, h2 := p.hash1(key), MakeOdd(p.hash2(key));
            && Slot(h1, h2, i) == Mod(h1 + Times(i, h2), WRAP)
            && Slot(h1, h2, i + 1) == Mod(Slot(h1, h2, i) + h2, WRAP)
            && (h1 + Times(i, h2) < WRAP ==> Position(p, key, i) == Mod(h1 + Times(i, h2), p.m))
  {
    var h1, h2 := p.hash1(key), MakeOdd(p.hash2(key));
    SlotWraps(h1, h2, i);
    SlotWraps(h1, h2, i + 1);
    TimesNext(i, i + 1, h2);
    ModOfMod(h2, h1 + Times(i, h2), WRAP);
    NoNegative(i, h2);
    if h1 + Times(i, h2) < WRAP {
      SmallMod(h1 + Times(i, h2), WRAP);
    }
  }

  lemma NoNegative(i: nat, h: nat)
    ensures Times(i, h) >= 0
  {
  }

  lemma SlotWraps(h1: Uint64, h2: Uint64, i: nat)
    ensures Slot(h1, h2, i) == Mod(h1 + Times(i, h2), WRAP)
  {
    ModOfMod(h1, Times(i, h2), WRAP);
  }

  // ------------------------------------------------------------------ coverage

  function Pow2(n: nat): (r: nat)
    ensures r >= 1
  {
    if n == 0 then 1 else 2 * Pow2(n - 1)
  }

  ghost predicate PowerOfTwo(m: nat) {
    exists n: nat :: m == Pow2(n)
  }

  /** The first m positions of a key with these hashes are all different, so that they are all m bits. */
  ghost predicate Covers(m: nat, h1: Uint64, h2: Uint64)
    requires m >= 1
  {
    forall i: nat, j: nat :: i < j < m ==> Slot(h1, h2, i) % m != Slot(h1, h2, j) % m
  }

  /** A power of two that divides a multiple of d by an odd number divides d. */
  lemma {:induction false} OddCancels(n: nat, d: int, h: int)
    requires h % 2 == 1 && Mod(Times(d, h), Pow2(n)) == 0
    ensures Mod(d, Pow2(n)) == 0
  {
    if n > 0 {
      var half, k := Pow2(n - 1), Times(d, h) / Pow2(n);
      assert Times(d, h) == Times(k, Pow2(n)) == 2 * Times(k, half);
      var d' := EvenFactor(d, h);
      assert Times(d, h) == 2 * Times(d', h);
      QuotientUnique(Times(d', h), half, k, 0);
      OddCancels(n - 1, d', h);
      assert d' == Times(d' / half, half);
      assert d == Times(d' / half, Pow2(n));
      QuotientUnique(d, Pow2(n), d' / half, 0);
    }
  }

  lemma EvenFactor(d: int, h: int) returns (d': int)
    requires h % 2 == 1 && Times(d, h) % 2 == 0
    ensures d == 2 * d'
  {
    TimesOdd(d, h / 2, h);
    d' := d / 2;
  }

  lemma TimesOdd(d: int, k: int, h: int)
    requires h == 2 * k + 1
    ensures Times(d, h) == 2 * Times(d, k) + d
  {
    assert Times(d, 2 * k + 1) == d * (2 * k) + d;
  }

  lemma {:induction false} Pow2Adds(a: nat, b: nat)
    ensures Pow2(a + b) == Times(Pow2(a), Pow2(b))
  {
    if a > 0 {
      Pow2Adds(a - 1, b);
    }
  }

  lemma {:induction false} Pow2Grows(a: nat, b: nat)
    requires a <= b
    ensures Pow2(a) <= Pow2(b)
  {
    if a < b {
      Pow2Grows(a, b - 1);
    }
  }

  lemma WrapIsPow2()
    ensures WRAP == Pow2(64)
  {
    assert Pow2(2) == 4;
    Pow2Adds(2, 2);
    Pow2Adds(4, 4);
    Pow2Adds(8, 8);
    Pow2Adds(16, 16);
    Pow2Adds(32, 32);
  }

  /** Reducing modulo a multiple of q first makes no difference modulo q. */
  lemma ModOfMultiple(x: int, q: int, w: int, c: int)
    requires q > 0 && w > 0 && w == Times(c, q)
    ensures Mod(Mod(x, w), q) == Mod(x, q)
  {
    var k, r := x / w, Mod(x, w);
    assert x == Times(k, w) + r && r == Times(r / q, q) + Mod(r, q);
    Regroup(k, c, q);
    TimesMinus(Times(k, c), -(r / q), q);
    assert Times(-(r / q), q) == -Times(r / q, q);
    QuotientUnique(x, q, Times(k, c) + r / q, Mod(r, q));
  }

  lemma WrapIsInvisible(n: nat, x: int)
    requires Pow2(n) < WRAP
    ensures Mod(Mod(x, WRAP), Pow2(n)) == Mod(x, Pow2(n))
  {
    WrapIsPow2();
    if n > 64 {
      Pow2Grows(64, n);
    }
    Pow2Adds(64 - n, n);
    ModOfMultiple(x, Pow2(n), WRAP, Pow2(64 - n));
  }

  lemma Regroup(a: int, b: int, c: int)
    ensures Times(a, Times(b, c)) == Times(Times(a, b), c)
  {
  }

  lemma SameRemainder(a: int, b: int, q: int)
    requires q > 0 && Mod(a, q) == Mod(b, q)
    ensures Mod(b - a, q) == 0
  {
    TimesMinus(b / q, a / q, q);
    assert a == Times(a / q, q) + Mod(a, q) && b == Times(b / q, q) + Mod(b, q);
    QuotientUnique(b - a, q, b / q - a / q, 0);
  }

  lemma PowerOfTwoIsCovered(n: nat, h1: Uint64, h2: Uint64)
    requires Pow2(n) < WRAP && h2 % 2 == 1
    ensures Covers(Pow2(n), h1, h2)
  {
    var m := Pow2(n);
    forall i: nat, j: nat | i < j < m
      ensures Slot(h1, h2, i) % m != Slot(h1, h2, j) % m
    {
      SlotWraps(h1, h2, i);
      SlotWraps(h1, h2, j);
      WrapIsInvisible(n, h1 + Times(i, h2));
      WrapIsInvisible(n, h1 + Times(j, h2));
      TimesMinus(j, i, h2);
      if Mod(h1 + Times(i, h2), m) == Mod(h1 + Times(j, h2), m) {
        SameRemainder(h1 + Times(i, h2), h1 + Times(j, h2), m);
        OddCancels(n, j - i, h2);
        SmallMod(j - i, m);
      }
    }
  }

  /** Every number is a power of two times an odd one. */
  lemma {:induction false} OddPart(m: nat) returns (n: nat, q: nat)
    requires m >= 1
    ensures q % 2 == 1 && m == Times(Pow2(n), q)
  {
    if m % 2 == 1 {
      n, q := 0, m;
    } else {
      n, q := OddPart(m / 2);
      n := n + 1;
      assert m == 2 * Times(Pow2(n - 1), q);
    }
  }

  lemma TimesOne(a: int)
    ensures Times(a, 1) == a
  {
  }

  lemma SmallerFactors(a: nat, q: nat)
    requires a >= 1 && q >= 1
    ensures q <= Times(a, q) && (q >= 2 ==> a < Times(a, q))
  {
    assert Times(a, q) == q + (a - 1) * q == a + a * (q - 1);
  }

  /** With an odd factor of m as its step a key comes back to where it began too early. */
  lemma OddFactorRepeats(m: nat) returns (h2: Uint64)
    requires 1 <= m < WRAP && !PowerOfTwo(m)
    ensures h2 % 2 == 1 && !Covers(m, 0, h2)
  {
    var n, q := OddPart(m);
    TimesOne(Pow2(n));
    SmallerFactors(Pow2(n), q);
    h2 := q;
    SlotWraps(0, h2, 0);
    SlotWraps(0, h2, Pow2(n));
    NoTimes(h2);
    SmallMod(m, WRAP);
    SmallMod(0, WRAP);
    assert Slot(0, h2, Pow2(n)) == m && Slot(0, h2, 0) == 0;
    QuotientUnique(m, m, 1, 0);
    QuotientUnique(0, m, 0, 0);
  }

  /**
   * An odd step is not enough to cover the bit array: whatever the hashes, the first m positions of a key are all m
   * bits exactly when m is a power of two.
   */
  lemma OddStepCoversIffPowerOfTwo(m: nat)
    requires 1 <= m < WRAP
    ensures (forall h1: Uint64, v: Uint64 :: Covers(m, h1, MakeOdd(v))) <==> PowerOfTwo(m)
  {
    if PowerOfTwo(m) {
      var n: nat :| m == Pow2(n);
      forall h1: Uint64, v: Uint64
        ensures Covers(m, h1, MakeOdd(v))
      {
        PowerOfTwoIsCovered(n, h1, MakeOdd(v));
      }
    } else {
      var h2 := OddFactorRepeats(m);
      assert MakeOdd(h2) == h2;
    }
  }
}
