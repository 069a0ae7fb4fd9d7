/** Sums over sequences, for counting measures. */
module Sums {
  function Total(ns: seq<nat>): nat {
    if ns == [] then 0 else ns[0] + Total(ns[1..])
  }

  /** Changing one entry changes the total by the difference. */
  lemma {:induction false} TotalUpdate(ns: seq<nat>, i: nat, n: nat)
    requires i < |ns|
    ensures Total(ns[i := n]) + ns[i] == Total(ns) + n
  {
    if i == 0 {
      assert ns[i := n][1..] == ns[1..];
    } else {
      TotalUpdate(ns[1..], i - 1, n);
      assert ns[i := n][1..] == ns[1..][i - 1 := n];
    }
  }

  lemma {:induction false} TotalAppend(a: seq<nat>, b: seq<nat>)
    ensures Total(a + b) == Total(a) + Total(b)
  {
    if a == [] {
      assert a + b == b;
    } else {
      TotalAppend(a[1..], b);
      assert (a + b)[1..] == a[1..] + b;
    }
  }

  lemma {:induction false} TotalAdd(a: seq<nat>, b: seq<nat>, sum: seq<nat>)
    requires |a| == |b| == |sum|
    requires forall i :: 0 <= i < |a| ==> sum[i] == a[i] + b[i]
    ensures Total(sum) == Total(a) + Total(b)
  {
    if a != [] {
      TotalAdd(a[1..], b[1..], sum[1..]);
    }
  }

  /** Pointwise order, and equality of the totals only when every entry is equal. */
  lemma {:induction false} TotalMono(a: seq<nat>, b: seq<nat>)
    requires |a| == |b| && forall i :: 0 <= i < |a| ==> a[i] <= b[i]
    ensures Total(a) <= Total(b)
    ensures Total(a) == Total(b) <==> a == b
  {
    if a != [] {
      TotalMono(a[1..], b[1..]);
      if Total(a) == Total(b) {
        assert a == [a[0]] + a[1..] && b == [b[0]] + b[1..];
      }
    }
  }

  lemma {:induction false} TotalZero(a: seq<nat>)
    requires forall i :: 0 <= i < |a| ==> a[i] == 0
    ensures Total(a) == 0
  {
    if a != [] {
      TotalZero(a[1..]);
    }
  }

  /** The multiplicity of x. */
  function Count<T(==)>(xs: seq<T>, x: T): nat {
    if xs == [] then 0 else (if xs[0] == x then 1 else 0) + Count(xs[1..], x)
  }

  lemma {:induction false} CountConcat<T>(xs: seq<T>, ys: seq<T>, x: T)
    ensures Count(xs + ys, x) == Count(xs, x) + Count(ys, x)
  {
    if xs == [] {
      assert xs + ys == ys;
    } else {
      CountConcat(xs[1..], ys, x);
      assert (xs + ys)[1..] == xs[1..] + ys;
    }
  }

  lemma CountOne<T>(y: T, x: T)
    ensures Count([y], x) == if y == x then 1 else 0
  {
    assert [y][1..] == [];
  }

  lemma CountLast<T>(xs: seq<T>, y: T, x: T)
    ensures Count(xs + [y], x) == Count(xs, x) + (if y == x then 1 else 0)
  {
    CountConcat(xs, [y], x);
    CountOne(y, x);
  }
}
