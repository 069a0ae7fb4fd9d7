/** Products and remainders by a variable, behind names so that the solver meets them one fact at a time. */
module Division {

  function Times(a: int, b: int): int { a * b }

  function Mod(a: int, q: int): int
    requires q > 0
  {
    a % q
  }

  lemma TimesAtLeast(b: int, q: int)
    requires b > 0 && q > 0
    ensures b * q >= q
  {
    assert b * q == q + (b - 1) * q;
  }

  lemma NoTimes(q: int)
    ensures Times(0, q) == 0
  {
  }

  lemma TimesNext(a: int, next: int, q: int)
    requires next == a + 1
    ensures Times(next, q) == Times(a, q) + q
  {
  }

  lemma TimesCommutes(a: int, b: int)
    ensures Times(a, b) == Times(b, a)
  {
  }

  lemma TimesMinus(a: int, b: int, q: int)
    ensures Times(a, q) - Times(b, q) == Times(a - b, q)
  {
  }

  lemma QuotientUnique(n: int, q: int, a: int, r: int)
    requires q > 0 && n == Times(a, q) + r && 0 <= r < q
    ensures n / q == a && n % q == r
  {
    var b := n / q - a;
    assert b * q == r - n % q;
    if b > 0 {
      TimesAtLeast(b, q);
    } else if b < 0 {
      TimesAtLeast(-b, q);
    }
  }

  lemma TimesAbove(k: int, d: int, w: int)
    requires d > 0 && w >= 0
    ensures Times(k, d) > w <==> k >= w / d + 1
  {
    var q := w / d;
    assert w == Times(q, d) + w % d;
    if k > q {
      TimesMinus(k, q, d);
      TimesAtLeast(k - q, d);
    } else if k < q {
      TimesMinus(q, k, d);
      TimesAtLeast(q - k, d);
    }
  }

  lemma ModBelow(i: int, q: int)
    requires q > 0
    ensures 0 <= Mod(i, q) < q
  {
  }

  lemma SmallMod(i: int, q: int)
    requires 0 <= i < q
    ensures Mod(i, q) == i
  {
    QuotientUnique(i, q, 0, i);
  }

  lemma NextMod(i: int, next: int, q: int)
    requires q > 0 && next == i + 1
    ensures Mod(next, q) == if Mod(i, q) == q - 1 then 0 else Mod(i, q) + 1
  {
    var a, r := i / q, i % q;
    assert i == Times(a, q) + r;
    if r == q - 1 {
      assert Times(a + 1, q) == Times(a, q) + q;
      QuotientUnique(i + 1, q, a + 1, 0);
    } else {
      QuotientUnique(i + 1, q, a, r + 1);
    }
  }
}
