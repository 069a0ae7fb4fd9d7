/** TakeRandom gives every set of n positions equally often: counting the choice vectors that lead to each set. */
module ReservoirSets {
  import opened Division
  import opened Reservoir

  function Elements(res: seq<nat>): set<nat> {
    set x | x in res
  }

  /** The vectors under which the final reservoir holds exactly the positions P. */
  function Giving(res: seq<nat>, i: nat, N: nat, P: set<nat>): set<seq<nat>>
    requires i <= N
  {
    set v | v in Vectors(i, N) && |v| == N - i && Elements(Choose<nat>(res, Positions(i, N), v)) == P
  }

  function Factorial(k: nat): (f: nat)
    ensures f >= 1
  {
    if k == 0 then 1 else Grow(k, Factorial(k - 1)); k * Factorial(k - 1)
  }

  lemma Grow(k: nat, f: nat)
    requires k >= 1 && f >= 1
    ensures k * f >= 1
  {
  }

  // ------------------------------------------------------------------ positions still needed

  /** How many positions of P are still to come at item i. */
  function ToCome(P: set<nat>, i: nat, N: nat): nat
    requires i <= N
    decreases N - i
  {
    if i == N then 0 else (if i in P then 1 else 0) + ToCome(P, i + 1, N)
  }

  /** No position of P has been lost so far. */
  ghost predicate Alive(res: seq<nat>, i: nat, P: set<nat>) {
    forall x :: x in P && x < i ==> x in res
  }

  /** How many of the first m slots hold a position that is not wanted. */
  function Spare(res: seq<nat>, P: set<nat>, m: nat): nat
    requires m <= |res|
  {
    if m == 0 then 0 else Spare(res, P, m - 1) + (if res[m - 1] in P then 0 else 1)
  }

  function WantedIn(res: seq<nat>, P: set<nat>, m: nat): set<nat>
    requires m <= |res|
  {
    set k | 0 <= k < m && res[k] in P :: res[k]
  }

  lemma {:induction false} SpareAndWanted(res: seq<nat>, i: nat, P: set<nat>, m: nat)
    requires Proper(res, i) && m <= |res|
    ensures Spare(res, P, m) + |WantedIn(res, P, m)| == m
  {
    if m > 0 {
      SpareAndWanted(res, i, P, m - 1);
      if res[m - 1] in P {
        assert WantedIn(res, P, m) == WantedIn(res, P, m - 1) + {res[m - 1]};
        assert res[m - 1] !in WantedIn(res, P, m - 1);
      } else {
        assert WantedIn(res, P, m) == WantedIn(res, P, m - 1);
      }
    } else {
      assert WantedIn(res, P, 0) == {};
    }
  }

  function Before(P: set<nat>, i: nat): set<nat> {
    set x | x in P && x < i
  }

  lemma {:induction false} BeforeAndToCome(P: set<nat>, i: nat, N: nat)
    requires i <= N && forall x :: x in P ==> x < N
    ensures |Before(P, i)| + ToCome(P, i, N) == |P|
    decreases N - i
  {
    if i == N {
      assert Before(P, N) == P;
    } else {
      BeforeAndToCome(P, i + 1, N);
      if i in P {
        assert Before(P, i + 1) == Before(P, i) + {i};
      } else {
        assert Before(P, i + 1) == Before(P, i);
      }
    }
  }

  /** While nothing is lost, the unwanted slots are as many as the positions to come. */
  lemma SpareIsToCome(res: seq<nat>, i: nat, N: nat, P: set<nat>)
    requires Proper(res, i) && i <= N && Alive(res, i, P) && |P| == |res| && forall x :: x in P ==> x < N
    ensures Spare(res, P, |res|) == ToCome(P, i, N)
  {
    SpareAndWanted(res, i, P, |res|);
    BeforeAndToCome(P, i, N);
    forall x
      ensures x in Before(P, i) <==> x in WantedIn(res, P, |res|)
    {
      if x in Before(P, i) {
        var k :| 0 <= k < |res| && res[k] == x;
      }
    }
    assert Before(P, i) == WantedIn(res, P, |res|);
  }

  // ------------------------------------------------------------------ splitting by the first choice

  /** Choice j for item i loses no position of P. */
  predicate Good(res: seq<nat>, i: nat, P: set<nat>, j: nat) {
    if i in P then j < |res| && res[j] !in P else j >= |res| || res[j] !in P
  }

  lemma GoodKeepsAlive(res: seq<nat>, i: nat, P: set<nat>, j: nat)
    requires Proper(res, i) && Alive(res, i, P)
    ensures Alive(Replace(res, j, i), i + 1, P) <==> Good(res, i, P, j)
  {
    var next := Replace(res, j, i);
    if Good(res, i, P, j) {
      forall x | x in P && x < i + 1
        ensures x in next
      {
        if x == i {
          assert next[j] == i;
        } else {
          var k :| 0 <= k < |res| && res[k] == x;
          assert next[k] == x;
        }
      }
    } else if j < |res| && res[j] in P {
      assert res[j] !in next;
    }
  }

  lemma LostStaysLost(res: seq<nat>, i: nat, P: set<nat>, j: nat)
    requires !Alive(res, i, P)
    ensures !Alive(Replace(res, j, i), i + 1, P)
  {
    var x :| x in P && x < i && x !in res;
    assert x !in Replace(res, j, i);
  }

  function GoodBelow(res: seq<nat>, i: nat, P: set<nat>, m: nat): nat {
    if m == 0 then 0 else GoodBelow(res, i, P, m - 1) + (if Good(res, i, P, m - 1) then 1 else 0)
  }

  lemma {:induction false} GoodBelowCount(res: seq<nat>, i: nat, P: set<nat>, m: nat)
    ensures GoodBelow(res, i, P, m) ==
              if m <= |res| then Spare(res, P, m) else Spare(res, P, |res|) + (if i in P then 0 else m - |res|)
  {
    if m > 0 {
      GoodBelowCount(res, i, P, m - 1);
    }
  }

  lemma FirstChoiceGives(res: seq<nat>, i: nat, N: nat, P: set<nat>, j: nat, v: seq<nat>)
    requires i < N && j <= i
    ensures [j] + v in Giving(res, i, N, P) <==> v in Giving(Replace(res, j, i), i + 1, N, P)
  {
    assert ([j] + v)[1..] == v;
    assert Positions(i, N)[1..] == Positions(i + 1, N) && Positions(i, N)[0] == i;
    if [j] + v in Vectors(i, N) {
      var j', v' :| j' in Below(i + 1) && v' in Vectors(i + 1, N) && [j] + v == [j'] + v';
      assert ([j'] + v')[1..] == v' && ([j'] + v')[0] == j';
    }
  }

  function GivingBelow(res: seq<nat>, i: nat, N: nat, P: set<nat>, m: nat): set<seq<nat>>
    requires i < N
  {
    set v | v in Giving(res, i, N, P) && v[0] < m
  }

  lemma OneMoreChoice(res: seq<nat>, i: nat, N: nat, P: set<nat>, m: nat, next: nat)
    requires i < N && m <= i && next == m + 1
    ensures |GivingBelow(res, i, N, P, next)| ==
            |GivingBelow(res, i, N, P, m)| + |Giving(Replace(res, m, i), i + 1, N, P)|
  {
    var fewer, more := GivingBelow(res, i, N, P, m), WithFirst(m, Giving(Replace(res, m, i), i + 1, N, P));
    WithFirstCount(m, Giving(Replace(res, m, i), i + 1, N, P));
    forall v
      ensures v in GivingBelow(res, i, N, P, next) <==> v in fewer || v in more
    {
      if v in GivingBelow(res, i, N, P, next) && v[0] == m {
        assert v == [m] + v[1..];
        FirstChoiceGives(res, i, N, P, m, v[1..]);
      }
      if v in more {
        var w :| w in Giving(Replace(res, m, i), i + 1, N, P) && v == [m] + w;
        FirstChoiceGives(res, i, N, P, m, w);
      }
    }
    assert GivingBelow(res, i, N, P, next) == fewer + more;
    assert fewer !! more;
  }

  lemma AllChoices(res: seq<nat>, i: nat, N: nat, P: set<nat>)
    requires i < N
    ensures GivingBelow(res, i, N, P, i + 1) == Giving(res, i, N, P)
  {
    forall v | v in Giving(res, i, N, P)
      ensures v[0] < i + 1
    {
      VectorLength(i, N, v);
      assert LegalChoice(i + 1 + 0, v[0]);
    }
  }

  // ------------------------------------------------------------------ the count

  /**
   * The number of vectors that lead from here to P: b! * (N-n)! / (i-n+b)! with b positions to come, none if one was
   * lost.
   */
  ghost predicate Counted(res: seq<nat>, i: nat, N: nat, P: set<nat>)
    requires |res| <= i <= N
  {
    if Alive(res, i, P) then
      var b := ToCome(P, i, N);
      |Giving(res, i, N, P)| * Factorial(i - |res| + b) == Factorial(b) * Factorial(N - |res|)
    else |Giving(res, i, N, P)| == 0
  }

  /** The same for the vectors whose first choice is below m; b counts the positions to come after item i. */
  ghost predicate CountedBelow(res: seq<nat>, i: nat, N: nat, P: set<nat>, m: nat)
    requires |res| <= i < N
  {
    if Alive(res, i, P) then
      var b := ToCome(P, i + 1, N);
      |GivingBelow(res, i, N, P, m)| * Factorial(i + 1 - |res| + b) ==
      GoodBelow(res, i, P, m) * (Factorial(b) * Factorial(N - |res|))
    else |GivingBelow(res, i, N, P, m)| == 0
  }

  lemma AddCounts(a: nat, c: nat, f: nat, g: nat, w: nat)
    ensures a * f == g * w && c * f == w ==> (a + c) * f == (g + 1) * w
  {
  }

  /** A good choice adds its vectors once more. */
  lemma AddGoodChoice(res: seq<nat>, i: nat, N: nat, P: set<nat>, m: nat, next: nat)
    requires |res| <= i < N && m <= i && next == m + 1
    requires Alive(res, i, P) && Good(res, i, P, m) && Alive(Replace(res, m, i), i + 1, P)
    ensures CountedBelow(res, i, N, P, m) && Counted(Replace(res, m, i), i + 1, N, P) &&
            |GivingBelow(res, i, N, P, next)| ==
              |GivingBelow(res, i, N, P, m)| + |Giving(Replace(res, m, i), i + 1, N, P)| ==>
              CountedBelow(res, i, N, P, next)
  {
    var b := ToCome(P, i + 1, N);
    AddCounts(|GivingBelow(res, i, N, P, m)|, |Giving(Replace(res, m, i), i + 1, N, P)|, Factorial(i + 1 - |res| + b),
              GoodBelow(res, i, P, m), Factorial(b) * Factorial(N - |res|));
  }

  /** The counts for one more first choice. */
  lemma AddChoice(res: seq<nat>, i: nat, N: nat, P: set<nat>, m: nat, next: nat)
    requires Proper(res, i) && i < N && m <= i && next == m + 1
    requires CountedBelow(res, i, N, P, m) && Counted(Replace(res, m, i), i + 1, N, P)
    ensures CountedBelow(res, i, N, P, next)
  {
    OneMoreChoice(res, i, N, P, m, next);
    if Alive(res, i, P) {
      GoodKeepsAlive(res, i, P, m);
      if Good(res, i, P, m) {
        AddGoodChoice(res, i, N, P, m, next);
      }
    } else {
      LostStaysLost(res, i, P, m);
    }
  }

  lemma NoChoice(res: seq<nat>, i: nat, N: nat, P: set<nat>)
    requires |res| <= i < N
    ensures CountedBelow(res, i, N, P, 0)
  {
    assert GivingBelow(res, i, N, P, 0) == {};
  }

  lemma {:induction false} CountBelow(res: seq<nat>, i: nat, N: nat, P: set<nat>, m: nat)
    requires Proper(res, i) && i < N && |P| == |res| && (forall x :: x in P ==> x < N) && m <= i + 1
    ensures CountedBelow(res, i, N, P, m)
    decreases N - i, 0, m
  {
    if m == 0 {
      NoChoice(res, i, N, P);
    } else {
      CountBelow(res, i, N, P, m - 1);
      CountNext(res, i, N, P, m - 1);
      AddChoice(res, i, N, P, m - 1, m);
    }
  }

  lemma {:induction false} CountNext(res: seq<nat>, i: nat, N: nat, P: set<nat>, j: nat)
    requires Proper(res, i) && i < N && |P| == |res| && (forall x :: x in P ==> x < N) && j <= i
    ensures |Replace(res, j, i)| == |res| && Counted(Replace(res, j, i), i + 1, N, P)
    decreases N - i, 0, 0
  {
    ReplaceProper(res, i, j);
    CountAll(Replace(res, j, i), i + 1, N, P);
  }

  lemma {:induction false} CountAll(res: seq<nat>, i: nat, N: nat, P: set<nat>)
    requires Proper(res, i) && i <= N && |P| == |res| && (forall x :: x in P ==> x < N)
    ensures Counted(res, i, N, P)
    decreases N - i
  {
    if i == N {
      AtTheEnd(res, N, P);
    } else {
      CountBelow(res, i, N, P, i + 1);
      AllChoices(res, i, N, P);
      Combine(res, i, N, P);
    }
  }

  lemma AtTheEnd(res: seq<nat>, N: nat, P: set<nat>)
    requires Proper(res, N) && |P| == |res| && forall x :: x in P ==> x < N
    ensures Counted(res, N, N, P)
  {
    assert Positions(N, N) == [];
    assert Giving(res, N, N, P) == if Elements(res) == P then {[]} else {};
    if Alive(res, N, P) {
      SpareAndWanted(res, N, P, |res|);
      SpareIsToCome(res, N, N, P);
      SameSize(P, res, N);
    }
  }

  lemma SameSize(P: set<nat>, res: seq<nat>, i: nat)
    requires Proper(res, i) && |P| == |res| && forall x :: x in P ==> x in res
    ensures Elements(res) == P
  {
    SpareAndWanted(res, i, Elements(res), |res|);
    AllWanted(res, Elements(res), |res|);
    assert WantedIn(res, Elements(res), |res|) == Elements(res);
    if Elements(res) != P {
      assert P < Elements(res);
      Smaller(P, Elements(res));
    }
  }

  lemma {:induction false} AllWanted(res: seq<nat>, P: set<nat>, m: nat)
    requires m <= |res| && forall k :: 0 <= k < |res| ==> res[k] in P
    ensures Spare(res, P, m) == 0
  {
    if m > 0 {
      AllWanted(res, P, m - 1);
    }
  }

  lemma Smaller(a: set<nat>, b: set<nat>)
    requires a < b
    ensures |a| < |b|
  {
    assert b == a + (b - a) && b - a != {};
  }

  /** From the counts by first choice to the count: the good choices make up the missing factor. */
  lemma Combine(res: seq<nat>, i: nat, N: nat, P: set<nat>)
    requires Proper(res, i) && i < N && |P| == |res| && (forall x :: x in P ==> x < N)
    requires CountedBelow(res, i, N, P, i + 1) && GivingBelow(res, i, N, P, i + 1) == Giving(res, i, N, P)
    ensures Counted(res, i, N, P)
  {
    if Alive(res, i, P) {
      var n, b, c := |res|, ToCome(P, i, N), |Giving(res, i, N, P)|;
      SpareIsToCome(res, i, N, P);
      GoodBelowCount(res, i, P, i + 1);
      if i in P {
        Regroup(b, Factorial(b - 1), Factorial(N - n));
      } else {
        var q := i + 1 - n + b;
        Cancel(c, q, Factorial(q - 1), Factorial(b) * Factorial(N - n));
      }
    }
  }

  lemma Cancel(c: nat, q: nat, f: nat, w: nat)
    requires q >= 1 && c * (q * f) == q * w
    ensures c * f == w
  {
    assert c * (q * f) == q * (c * f);
    CancelLeft(q, c * f, w);
  }

  lemma CancelLeft(q: nat, a: nat, b: nat)
    requires q >= 1 && q * a == q * b
    ensures a == b
  {
    assert (a - b) * q == 0 && (b - a) * q == 0;
    if a < b {
      TimesAtLeast(b - a, q);
    } else if b < a {
      TimesAtLeast(a - b, q);
    }
  }

  /**
   * Uniformity: every set of n of the N positions is the sample under the same number of choice vectors, (N-n)!.
   */
  lemma EverySetEquallyOften(n: nat, N: nat, P: set<nat>)
    requires 1 <= n <= N && |P| == n && forall x :: x in P ==> x < N
    ensures |Giving(Positions(0, n), n, N, P)| == Factorial(N - n)
  {
    var res := Positions(0, n);
    assert forall x :: x in P && x < n ==> res[x] == x;
    CountAll(res, n, N, P);
    CancelLeft(Factorial(ToCome(P, n, N)), |Giving(res, n, N, P)|, Factorial(N - n));
  }
}
