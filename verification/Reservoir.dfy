/** TakeRandom: reservoir sampling of n items from a stream (Algorithm R), with the random choices as input. */
module Reservoir {
  import opened Division

  /** The choice made for item number i (counting from 1) is one of 0..i-1. */
  predicate LegalChoice(i: nat, j: nat) {
    j < i
  }

  /** What one more item does to a full reservoir: it replaces slot j, or is passed over. */
  function Replace<T>(res: seq<T>, j: nat, item: T): seq<T> {
    if j < |res| then res[j := item] else res
  }

  /** The reservoir after the items from number i on, given one choice for each. */
  function Choose<T>(res: seq<T>, items: seq<T>, choices: seq<nat>): seq<T>
    requires |choices| == |items|
    decreases |items|
  {
    if items == [] then res
    else Choose(Replace(res, choices[0], items[0]), items[1..], choices[1..])
  }

  /** The result of the whole stage. */
  function Sample<T>(n: int, items: seq<T>, choices: seq<nat>): seq<T>
    requires |choices| == |items|
  {
    if n <= 0 then []
    else if |items| <= n then items
    else Choose(items[..n], items[n..], choices[n..])
  }

  /** `rand` gives the choice for each item; the first n are not asked for. */
  method TakeRandom<T>(n: int, items: seq<T>, choices: seq<nat>) returns (result: seq<T>)
    requires |choices| == |items|
    requires forall k :: 0 <= k < |choices| ==> LegalChoice(k + 1, choices[k])
    ensures result == Sample(n, items, choices)
  {
    if n <= 0 {
      return [];
    }
    var reservoir: seq<T> := [];
    var i := 0;
    while i < |items|
      invariant i <= |items|
      invariant |reservoir| <= n && (i < n ==> reservoir == items[..i])
      invariant i >= n ==> |reservoir| == n
      invariant i >= n ==> Choose(reservoir, items[i..], choices[i..]) == Choose(items[..n], items[n..], choices[n..])
    {
      var item := items[i];
      i := i + 1;
      if |reservoir| < n {
        reservoir := reservoir + [item];
        assert items[..i] == items[..i - 1] + [item];
      } else {
        var j := choices[i - 1];
        assert items[i - 1..][1..] == items[i..] && choices[i - 1..][1..] == choices[i..];
        if j < n {
          reservoir := reservoir[j := item];
        }
      }
    }
    assert |items| <= n ==> items[..|items|] == items;
    result := reservoir;
  }

  // ------------------------------------------------------------------ counting choice vectors

  /** Items are represented by their positions. */
  function Positions(lo: nat, hi: nat): seq<nat>
    requires lo <= hi
  {
    seq(hi - lo, k requires 0 <= k < hi - lo => lo + k)
  }

  function Below(i: nat): (r: set<nat>)
    ensures |r| == i && forall j: nat :: j in r <==> j < i
  {
    if i == 0 then {} else Below(i - 1) + {i - 1}
  }

  /** All vectors of choices for items number i+1..N. */
  function Vectors(i: nat, N: nat): set<seq<nat>>
    requires i <= N
    decreases N - i
  {
    if i == N then {[]}
    else set j, v | j in Below(i + 1) && v in Vectors(i + 1, N) :: [j] + v
  }

  lemma {:induction false} VectorLength(i: nat, N: nat, v: seq<nat>)
    requires i <= N && v in Vectors(i, N)
    ensures |v| == N - i && forall k :: 0 <= k < |v| ==> LegalChoice(i + 1 + k, v[k])
    decreases N - i
  {
    if i < N {
      var j, w :| j in Below(i + 1) && w in Vectors(i + 1, N) && v == [j] + w;
      VectorLength(i + 1, N, w);
    }
  }

  /** The vectors under which position x is in the final reservoir. */
  function Keeping(res: seq<nat>, i: nat, N: nat, x: nat): set<seq<nat>>
    requires i <= N
  {
    set v | v in Vectors(i, N) && |v| == N - i && x in Choose<nat>(res, Positions(i, N), v)
  }

  /** The number of vectors: (i+1) * ... * N. */
  function Count(i: nat, N: nat): nat
    requires i <= N
    decreases N - i
  {
    if i == N then 1 else (i + 1) * Count(i + 1, N)
  }

  /** A reservoir of distinct positions among the first i. */
  predicate Proper(res: seq<nat>, i: nat) {
    && |res| <= i
    && (forall k :: 0 <= k < |res| ==> res[k] < i)
    && (forall k, l :: 0 <= k < l < |res| ==> res[k] != res[l])
  }

  /** How many of N times |Keeping| equal Count: i for a kept old item, 0 for a lost one, n for one to come. */
  function Weight(res: seq<nat>, i: nat, x: nat): nat {
    if x >= i then |res| else if x in res then i else 0
  }

  // Splitting by the first choice.

  function KeepingBelow(res: seq<nat>, i: nat, N: nat, x: nat, m: nat): set<seq<nat>>
    requires i < N
  {
    set v | v in Keeping(res, i, N, x) && v[0] < m
  }

  function WithFirst(j: nat, vs: set<seq<nat>>): set<seq<nat>> {
    set v | v in vs :: [j] + v
  }

  lemma {:induction false} WithFirstCount(j: nat, vs: set<seq<nat>>)
    ensures |WithFirst(j, vs)| == |vs|
  {
    if vs == {} {
      assert WithFirst(j, vs) == {};
    } else {
      var v :| v in vs;
      WithFirstCount(j, vs - {v});
      assert WithFirst(j, vs) == WithFirst(j, vs - {v}) + {[j] + v};
      forall w | w in vs - {v}
        ensures [j] + w != [j] + v
      {
        assert ([j] + w)[1..] == w && ([j] + v)[1..] == v;
      }
    }
  }

  lemma FirstChoice(res: seq<nat>, i: nat, N: nat, x: nat, j: nat, v: seq<nat>)
    requires i < N && j <= i
    ensures [j] + v in Keeping(res, i, N, x) <==> v in Keeping(Replace(res, j, i), i + 1, N, x)
  {
    assert ([j] + v)[1..] == v;
    assert Positions(i, N)[1..] == Positions(i + 1, N) && Positions(i, N)[0] == i;
    if [j] + v in Vectors(i, N) {
      var j', v' :| j' in Below(i + 1) && v' in Vectors(i + 1, N) && [j] + v == [j'] + v';
      assert ([j'] + v')[1..] == v' && ([j'] + v')[0] == j';
    }
  }

  lemma OneMoreFirstChoice(res: seq<nat>, i: nat, N: nat, x: nat, m: nat)
    requires i < N && m <= i
    ensures |KeepingBelow(res, i, N, x, m + 1)| ==
            |KeepingBelow(res, i, N, x, m)| + |Keeping(Replace(res, m, i), i + 1, N, x)|
  {
    var fewer, more := KeepingBelow(res, i, N, x, m), WithFirst(m, Keeping(Replace(res, m, i), i + 1, N, x));
    WithFirstCount(m, Keeping(Replace(res, m, i), i + 1, N, x));
    forall v
      ensures v in KeepingBelow(res, i, N, x, m + 1) <==> v in fewer || v in more
    {
      if v in KeepingBelow(res, i, N, x, m + 1) && v[0] == m {
        assert v == [m] + v[1..];
        FirstChoice(res, i, N, x, m, v[1..]);
      }
      if v in more {
        var w :| w in Keeping(Replace(res, m, i), i + 1, N, x) && v == [m] + w;
        FirstChoice(res, i, N, x, m, w);
      }
    }
    assert KeepingBelow(res, i, N, x, m + 1) == fewer + more;
    assert fewer !! more;
  }

  /** The weights of the reservoirs the first m choices lead to, added up. */
  function WeightSum(res: seq<nat>, i: nat, x: nat, m: nat): nat {
    if m == 0 then 0 else WeightSum(res, i, x, m - 1) + Weight(Replace(res, m - 1, i), i + 1, x)
  }

  lemma {:induction false} WeightSumToCome(res: seq<nat>, i: nat, x: nat, m: nat)
    requires x > i
    ensures WeightSum(res, i, x, m) == Times(m, |res|)
  {
    if m > 0 {
      WeightSumToCome(res, i, x, m - 1);
      TimesNext(m - 1, m, |res|);
    }
  }

  lemma {:induction false} WeightSumArriving(res: seq<nat>, i: nat, m: nat)
    requires Proper(res, i) && m <= i + 1
    ensures WeightSum(res, i, i, m) == Times(if m <= |res| then m else |res|, i + 1)
  {
    if m > 0 {
      WeightSumArriving(res, i, m - 1);
      TimesNext(m - 1, m, i + 1);
      if m - 1 < |res| {
        assert Replace(res, m - 1, i)[m - 1] == i;
      }
    }
  }

  lemma {:induction false} WeightSumLost(res: seq<nat>, i: nat, x: nat, m: nat)
    requires x < i && x !in res
    ensures WeightSum(res, i, x, m) == 0
  {
    if m > 0 {
      WeightSumLost(res, i, x, m - 1);
    }
  }

  /** Replacing slot j loses a kept position exactly when j is its slot. */
  lemma StillKept(res: seq<nat>, i: nat, p: nat, j: nat)
    requires Proper(res, i) && p < |res|
    ensures res[p] in Replace(res, j, i) <==> p != j
  {
    if p != j {
      assert Replace(res, j, i)[p] == res[p];
    }
  }

  lemma {:induction false} WeightSumKept(res: seq<nat>, i: nat, p: nat, m: nat)
    requires Proper(res, i) && p < |res|
    ensures WeightSum(res, i, res[p], m) == Times(if p < m then m - 1 else m, i + 1)
  {
    if m > 0 {
      WeightSumKept(res, i, p, m - 1);
      TimesNext(m - 1, m, i + 1);
      TimesNext(m - 2, m - 1, i + 1);
      StillKept(res, i, p, m - 1);
    }
  }

  /** Over all choices for one item the weights add up to i+1 times the weight before. */
  lemma WeightSumAll(res: seq<nat>, i: nat, x: nat)
    requires Proper(res, i)
    ensures WeightSum(res, i, x, i + 1) == Times(Weight(res, i, x), i + 1)
  {
    if x > i {
      WeightSumToCome(res, i, x, i + 1);
      TimesCommutes(i + 1, |res|);
    } else if x == i {
      WeightSumArriving(res, i, i + 1);
    } else if x in res {
      var p :| 0 <= p < |res| && res[p] == x;
      WeightSumKept(res, i, p, i + 1);
    } else {
      WeightSumLost(res, i, x, i + 1);
    }
  }

  lemma ReplaceProper(res: seq<nat>, i: nat, j: nat)
    requires Proper(res, i)
    ensures Proper(Replace(res, j, i), i + 1) && |Replace(res, j, i)| == |res|
  {
  }

  /** Position x is kept by the share of the choice vectors that its weight says. */
  ghost predicate Share(res: seq<nat>, i: nat, N: nat, x: nat)
    requires i <= N
  {
    N * |Keeping(res, i, N, x)| == Weight(res, i, x) * Count(i, N)
  }

  /** The same for the vectors whose first choice is below m. */
  ghost predicate ShareBelow(res: seq<nat>, i: nat, N: nat, x: nat, m: nat)
    requires i < N
  {
    N * |KeepingBelow(res, i, N, x, m)| == WeightSum(res, i, x, m) * Count(i + 1, N)
  }

  /** Over all choice vectors, position x is kept in the share its weight says. */
  lemma {:induction false} KeptShare(res: seq<nat>, i: nat, N: nat, x: nat)
    requires i <= N && Proper(res, i) && x < N
    ensures Share(res, i, N, x)
    decreases N - i
  {
    if i == N {
      assert Positions(N, N) == [];
      assert Keeping(res, i, N, x) == if x in res then {[]} else {};
    } else {
      KeptShareBelow(res, i, N, x, i + 1);
      assert KeepingBelow(res, i, N, x, i + 1) == Keeping(res, i, N, x) by {
        forall v | v in Keeping(res, i, N, x)
          ensures v[0] < i + 1
        {
          VectorLength(i, N, v);
          assert LegalChoice(i + 1 + 0, v[0]);
        }
      }
      WeightSumAll(res, i, x);
      Regroup(Weight(res, i, x), i + 1, Count(i + 1, N));
    }
  }

  lemma Regroup(a: nat, b: nat, c: nat)
    ensures (a * b) * c == a * (b * c)
  {
  }

  lemma {:induction false} KeptShareBelow(res: seq<nat>, i: nat, N: nat, x: nat, m: nat)
    requires i < N && Proper(res, i) && x < N && m <= i + 1
    ensures ShareBelow(res, i, N, x, m)
    decreases N - i, 0, m
  {
    if m == 0 {
      assert KeepingBelow(res, i, N, x, 0) == {};
    } else {
      KeptShareBelow(res, i, N, x, m - 1);
      ReplaceProper(res, i, m - 1);
      KeptShare(Replace(res, m - 1, i), i + 1, N, x);
      AddShares(res, i, N, x, m);
    }
  }

  lemma AddShares(res: seq<nat>, i: nat, N: nat, x: nat, m: nat)
    requires i < N && 1 <= m <= i + 1
    ensures ShareBelow(res, i, N, x, m - 1) && Share(Replace(res, m - 1, i), i + 1, N, x) ==>
              ShareBelow(res, i, N, x, m)
  {
    OneMoreFirstChoice(res, i, N, x, m - 1);
    AddProducts(N, |KeepingBelow(res, i, N, x, m - 1)|, |Keeping(Replace(res, m - 1, i), i + 1, N, x)|,
                WeightSum(res, i, x, m - 1), Weight(Replace(res, m - 1, i), i + 1, x), Count(i + 1, N));
  }

  lemma AddProducts(n: nat, a: nat, b: nat, s: nat, t: nat, c: nat)
    ensures n * a == s * c && n * b == t * c ==> n * (a + b) == (s + t) * c
  {
  }

  /** The number of choice vectors is the product of the numbers of choices. */
  lemma {:induction false} VectorsCount(i: nat, N: nat)
    requires i <= N
    ensures |Vectors(i, N)| == Count(i, N)
    decreases N - i
  {
    if i < N {
      VectorsCount(i + 1, N);
      VectorsBelowCount(i, N, i + 1);
      assert VectorsBelow(i, N, i + 1) == Vectors(i, N);
    }
  }

  function VectorsBelow(i: nat, N: nat, m: nat): set<seq<nat>>
    requires i < N && m <= i + 1
  {
    set j, v | j in Below(m) && v in Vectors(i + 1, N) :: [j] + v
  }

  lemma NoVectors(i: nat, N: nat)
    requires i < N
    ensures VectorsBelow(i, N, 0) == {}
  {
  }

  lemma {:induction false} VectorsBelowCount(i: nat, N: nat, m: nat)
    requires i < N && m <= i + 1
    ensures |VectorsBelow(i, N, m)| == Times(m, |Vectors(i + 1, N)|)
  {
    if m == 0 {
      NoVectors(i, N);
      NoTimes(|Vectors(i + 1, N)|);
    } else {
      VectorsBelowCount(i, N, m - 1);
      OneMoreVector(i, N, m - 1, m);
      TimesNext(m - 1, m, |Vectors(i + 1, N)|);
    }
  }

  lemma OneMoreVector(i: nat, N: nat, m: nat, next: nat)
    requires i < N && next == m + 1 <= i + 1
    ensures |VectorsBelow(i, N, next)| == |VectorsBelow(i, N, m)| + |Vectors(i + 1, N)|
  {
    var fewer, more := VectorsBelow(i, N, m), WithFirst(m, Vectors(i + 1, N));
    WithFirstCount(m, Vectors(i + 1, N));
    forall v
      ensures v in VectorsBelow(i, N, m + 1) <==> v in fewer || v in more
    {
    }
    assert VectorsBelow(i, N, m + 1) == fewer + more;
    forall v | v in fewer
      ensures v !in more
    {
      assert v[0] < m;
    }
    assert fewer !! more;
  }

  // ------------------------------------------------------------------ main results

  /**
   * Uniformity by counting: of all the choice vectors for N items, every position is in the sample of size n
   * under the fraction n/N of them.
   */
  lemma Uniform(n: nat, N: nat, x: nat)
    requires 1 <= n <= N && x < N
    ensures N * |Keeping(Positions(0, n), n, N, x)| == n * |Vectors(n, N)|
  {
    var res := Positions(0, n);
    KeptShare(res, n, N, x);
    VectorsCount(n, N);
    if x < n {
      assert res[x] == x;
    }
  }

  /** The sample holds items from pairwise distinct positions, min(n, N) of them. */
  lemma DistinctPositions(n: int, N: nat, choices: seq<nat>)
    requires |choices| == N
    ensures var s: seq<nat> := Sample<nat>(n, Positions(0, N), choices);
            && |s| == (if n <= 0 then 0 else if N <= n then N else n)
            && (forall k :: 0 <= k < |s| ==> s[k] < N)
            && (forall k, l :: 0 <= k < l < |s| ==> s[k] != s[l])
  {
    if 0 < n < N {
      assert Positions(0, N)[..n] == Positions(0, n) && Positions(0, N)[n..] == Positions(n, N);
      ChooseProper(Positions(0, n), n, N, choices[n..]);
    }
  }

  lemma {:induction false} ChooseProper(res: seq<nat>, i: nat, N: nat, choices: seq<nat>)
    requires i <= N && Proper(res, i) && |choices| == N - i
    ensures Proper(Choose<nat>(res, Positions(i, N), choices), N)
    ensures |Choose<nat>(res, Positions(i, N), choices)| == |res|
    decreases N - i
  {
    if i < N {
      assert Positions(i, N)[1..] == Positions(i + 1, N) && Positions(i, N)[0] == i;
      ReplaceProper(res, i, choices[0]);
      ChooseProper(Replace(res, choices[0], i), i + 1, N, choices[1..]);
    }
  }

  /** Which positions are kept depends on the choices alone: sampling items is sampling positions. */
  lemma SampleByPosition<T>(n: int, items: seq<T>, choices: seq<nat>)
    requires |choices| == |items|
    ensures var p: seq<nat> := Sample<nat>(n, Positions(0, |items|), choices);
            && |Sample(n, items, choices)| == |p|
            && (forall k :: 0 <= k < |p| ==> p[k] < |items| && Sample(n, items, choices)[k] == items[p[k]])
  {
    var N := |items|;
    if 0 < n < N {
      assert Positions(0, N)[..n] == Positions(0, n) && Positions(0, N)[n..] == Positions(n, N);
      ChooseByPosition(items, items[..n], Positions(0, n), n, choices[n..]);
    }
  }

  lemma {:induction false} ChooseByPosition<T>(items: seq<T>, res: seq<T>, pos: seq<nat>, i: nat, choices: seq<nat>)
    requires i <= |items| && |choices| == |items| - i && |res| == |pos|
    requires forall k :: 0 <= k < |pos| ==> pos[k] < |items| && res[k] == items[pos[k]]
    ensures var r, p: seq<nat> := Choose(res, items[i..], choices), Choose<nat>(pos, Positions(i, |items|), choices);
            |r| == |p| && forall k :: 0 <= k < |p| ==> p[k] < |items| && r[k] == items[p[k]]
    decreases |items| - i
  {
    if i < |items| {
      assert Positions(i, |items|)[1..] == Positions(i + 1, |items|) && Positions(i, |items|)[0] == i;
      assert items[i..][1..] == items[i + 1..];
      ChooseByPosition(items, Replace(res, choices[0], items[i]), Replace(pos, choices[0], i), i + 1, choices[1..]);
    }
  }
}
