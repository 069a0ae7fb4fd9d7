/**
 * What a chain of Map and Filter stages computes, said over whole lists and without the step function of the loops:
 * Map is the pointwise map, Filter keeps the items its predicate accepts, and a chain composes them.
 */
module FusionLaws {
  import opened Outcomes
  import opened Fusion

  /** The error the stage's function returns for x, if it returns one. */
  function Failure<V>(op: Op<V>, x: V): Option<Error> {
    match op
    case MapOp(f) => if f(x).Err? then Some(f(x).error) else None
    case FilterOp(keep) => if keep(x).Err? then Some(keep(x).error) else None
  }

  predicate NoFailure<V>(op: Op<V>, xs: seq<V>) {
    forall i :: 0 <= i < |xs| ==> Failure(op, xs[i]).None?
  }

  /** The items the predicate accepts, in input order and with their repetitions. */
  function Kept<V>(keep: V -> Res<bool>, xs: seq<V>): seq<V> {
    if xs == [] then []
    else (if keep(xs[0]) == Ok(true) then [xs[0]] else []) + Kept(keep, xs[1..])
  }

  function Mapped<V>(f: V -> Res<V>, xs: seq<V>): seq<V>
    requires NoFailure(MapOp(f), xs)
  {
    seq(|xs|, i requires 0 <= i < |xs| =>
      assert Failure(MapOp(f), xs[i]).None?;
      f(xs[i]).value)
  }

  /** What a stage none of whose calls fails makes of a list. */
  function Apply<V>(op: Op<V>, xs: seq<V>): seq<V>
    requires NoFailure(op, xs)
  {
    match op
    case MapOp(f) => Mapped(f, xs)
    case FilterOp(keep) => Kept(keep, xs)
  }

  /** No stage fails on anything it is given when the list goes through all of them. */
  predicate Clean<V>(ops: seq<Op<V>>, xs: seq<V>) {
    ops == [] || (NoFailure(ops[0], xs) && Clean(ops[1..], Apply(ops[0], xs)))
  }

  function ApplyAll<V>(ops: seq<Op<V>>, xs: seq<V>): seq<V>
    requires Clean(ops, xs)
  {
    if ops == [] then xs else ApplyAll(ops[1..], Apply(ops[0], xs))
  }

  predicate SinkTakes<V>(c: Chain<V>, xs: seq<V>) {
    forall i :: 0 <= i < |xs| ==> c.sink(xs[i]).None?
  }

  // ------------------------------------------------------------------ one stage

  /** Filter loses nothing it should keep, keeps nothing else, and invents nothing. */
  lemma {:induction false} KeptCounts<V>(keep: V -> Res<bool>, xs: seq<V>, v: V)
    ensures multiset(Kept(keep, xs))[v] == if keep(v) == Ok(true) then multiset(xs)[v] else 0
  {
    if xs != [] {
      KeptCounts(keep, xs[1..], v);
      assert xs == [xs[0]] + xs[1..];
    }
  }

  lemma MappedCons<V>(f: V -> Res<V>, xs: seq<V>)
    requires xs != [] && NoFailure(MapOp(f), xs)
    ensures NoFailure(MapOp(f), xs[1..]) && f(xs[0]).Ok?
    ensures Mapped(f, xs) == [f(xs[0]).value] + Mapped(f, xs[1..])
  {
    assert Failure(MapOp(f), xs[0]).None?;
  }

  /**
   * A stage none of whose calls fails sends the pointwise map, or the accepted items, and ends normally; otherwise it
   * does so for the items before the first failing one and ends with that one's error.
   */
  lemma {:induction false} StageComputes<V>(op: Op<V>, xs: seq<V>, n: nat)
    requires n <= |xs| && NoFailure(op, xs[..n]) && (n < |xs| ==> Failure(op, xs[n]).Some?)
    ensures RunStage(op, xs) == Streamed(Apply(op, xs[..n]), if n < |xs| then Failure(op, xs[n]) else None)
    decreases n
  {
    if n > 0 {
      assert Failure(op, xs[..n][0]).None?;
      assert xs[..n][1..] == xs[1..][..n - 1];
      StageComputes(op, xs[1..], n - 1);
      if op.MapOp? {
        MappedCons(op.f, xs[..n]);
      }
    }
  }

  lemma {:induction false} ApplyAppend<V>(op: Op<V>, xs: seq<V>, ys: seq<V>)
    ensures NoFailure(op, xs + ys) <==> NoFailure(op, xs) && NoFailure(op, ys)
    ensures NoFailure(op, xs + ys) ==> Apply(op, xs + ys) == Apply(op, xs) + Apply(op, ys)
  {
    assert forall i :: 0 <= i < |xs| ==> (xs + ys)[i] == xs[i];
    assert forall i :: 0 <= i < |ys| ==> (xs + ys)[|xs| + i] == ys[i];
    if op.FilterOp? {
      KeptAppend(op.keep, xs, ys);
    }
  }

  lemma {:induction false} KeptAppend<V>(keep: V -> Res<bool>, xs: seq<V>, ys: seq<V>)
    ensures Kept(keep, xs + ys) == Kept(keep, xs) + Kept(keep, ys)
  {
    if xs == [] {
      assert xs + ys == ys;
    } else {
      assert (xs + ys)[1..] == xs[1..] + ys;
      KeptAppend(keep, xs[1..], ys);
      var head := if keep(xs[0]) == Ok(true) then [xs[0]] else [];
      assert head + (Kept(keep, xs[1..]) + Kept(keep, ys)) == (head + Kept(keep, xs[1..])) + Kept(keep, ys);
    }
  }

  // ------------------------------------------------------------------ the whole chain

  lemma {:induction false} ApplyAllAppend<V>(ops: seq<Op<V>>, xs: seq<V>, ys: seq<V>)
    ensures Clean(ops, xs + ys) <==> Clean(ops, xs) && Clean(ops, ys)
    ensures Clean(ops, xs + ys) ==> ApplyAll(ops, xs + ys) == ApplyAll(ops, xs) + ApplyAll(ops, ys)
  {
    if ops != [] {
      ApplyAppend(ops[0], xs, ys);
      if NoFailure(ops[0], xs + ys) {
        ApplyAllAppend(ops[1..], Apply(ops[0], xs), Apply(ops[0], ys));
      }
    }
  }

  lemma {:induction false} SinkComputes<V>(sink: V -> Option<Error>, xs: seq<V>)
    requires forall i :: 0 <= i < |xs| ==> sink(xs[i]).None?
    ensures RunSink(sink, xs) == Streamed(xs, None)
  {
    if xs != [] {
      SinkComputes(sink, xs[1..]);
    }
  }

  /** With no failing call the sink is called on what the composed stages make of the input, fused or not. */
  lemma ChainComputes<V>(c: Chain<V>, xs: seq<V>)
    requires Clean(c.ops, xs) && SinkTakes(c, ApplyAll(c.ops, xs))
    ensures RunStages(c, xs).calls == ApplyAll(c.ops, xs)
    ensures forall i :: 0 <= i < |RunStages(c, xs).errs| ==> RunStages(c, xs).errs[i].None?
    ensures RunFused(c, xs) == Streamed(ApplyAll(c.ops, xs), None)
  {
    StagesCompute(c, xs);
    LastOfOnly(RunStages(c, xs).errs, None);
    FusedEqualsStages(c, xs);
  }

  lemma {:induction false} StagesCompute<V>(c: Chain<V>, xs: seq<V>)
    requires Clean(c.ops, xs) && SinkTakes(c, ApplyAll(c.ops, xs))
    ensures RunStages(c, xs).calls == ApplyAll(c.ops, xs)
    ensures OnlyError(RunStages(c, xs).errs, None)
    decreases |c.ops|
  {
    if c.ops == [] {
      SinkComputes(c.sink, xs);
    } else {
      assert xs[..|xs|] == xs;
      StageComputes(c.ops[0], xs, |xs|);
      StagesCompute(c.(ops := c.ops[1..]), Apply(c.ops[0], xs));
    }
  }

  /** The value x leaves the first k stages with makes stage k fail with error e. */
  predicate BreaksAt<V>(ops: seq<Op<V>>, x: V, k: nat, e: Error)
    requires k < |ops|
  {
    Clean(ops[..k], [x]) && |ApplyAll(ops[..k], [x])| == 1 && Failure(ops[k], ApplyAll(ops[..k], [x])[0]) == Some(e)
  }

  /** One item through one stage: dropped, or a single value. */
  lemma ApplyOne<V>(op: Op<V>, x: V)
    requires Failure(op, x).None?
    ensures NoFailure(op, [x])
    ensures match Step(op, x)
            case Dropped => Apply(op, [x]) == []
            case Passed(y) => Apply(op, [x]) == [y]
            case Broke(_) => false
  {
    assert [x][0] == x && [x][1..] == [];
    if op.FilterOp? {
      assert Kept(op.keep, [x]) == (if op.keep(x) == Ok(true) then [x] else []) + Kept(op.keep, []);
    } else {
      assert Mapped(op.f, [x]) == [op.f(x).value];
    }
  }

  lemma {:induction false} NothingThrough<V>(ops: seq<Op<V>>)
    ensures Clean(ops, []) && ApplyAll(ops, []) == []
  {
    if ops != [] {
      assert Apply(ops[0], []) == [];
      NothingThrough(ops[1..]);
    }
  }

  /** An item that is not clean breaks at some stage; pushing it through the chain ends with that stage's error. */
  lemma {:induction false} PushBreaks<V>(c: Chain<V>, x: V, k: nat, e: Error)
    requires k < |c.ops| && BreaksAt(c.ops, x, k, e)
    ensures Push(c, x) == Pushed(None, Some(e))
    decreases k
  {
    var op := c.ops[0];
    if k == 0 {
      assert Failure(op, x) == Some(e);
    } else {
      var rest := c.(ops := c.ops[1..]);
      assert c.ops[..k][0] == op && c.ops[..k][1..] == rest.ops[..k - 1];
      assert Failure(op, [x][0]).None?;
      ApplyOne(op, x);
      NothingThrough(rest.ops[..k - 1]);
      PushBreaks(rest, Step(op, x).value, k - 1, e);
    }
  }

  lemma {:induction false} UncleanBreaks<V>(ops: seq<Op<V>>, x: V) returns (k: nat, e: Error)
    requires !Clean(ops, [x])
    ensures k < |ops| && BreaksAt(ops, x, k, e)
  {
    if Failure(ops[0], x).Some? {
      k, e := 0, Failure(ops[0], x).value;
      assert ops[..0] == [];
    } else {
      ApplyOne(ops[0], x);
      NothingThrough(ops[1..]);
      k, e := UncleanBreaks(ops[1..], Step(ops[0], x).value);
      k := k + 1;
      assert ops[..k][0] == ops[0] && ops[..k][1..] == ops[1..][..k - 1];
    }
  }

  /** A stage's failure: the sink has had the results of the items before, and the error is that stage's. */
  lemma StageBreaksChain<V>(c: Chain<V>, xs: seq<V>, n: nat, k: nat, e: Error)
    requires n < |xs| && Clean(c.ops, xs[..n]) && SinkTakes(c, ApplyAll(c.ops, xs[..n]))
    requires k < |c.ops| && BreaksAt(c.ops, xs[n], k, e)
    ensures RunFused(c, xs) == Streamed(ApplyAll(c.ops, xs[..n]), Some(e))
  {
    ChainComputes(c, xs[..n]);
    PushBreaks(c, xs[n], k, e);
    FusedNext(c, xs, n);
    FusedSealed(c, xs, n + 1);
  }

  /** The sink's failure: it has had the results of the items before and the value it fails on. */
  lemma SinkBreaksChain<V>(c: Chain<V>, xs: seq<V>, n: nat, v: V)
    requires n < |xs| && Clean(c.ops, xs[..n]) && SinkTakes(c, ApplyAll(c.ops, xs[..n]))
    requires Clean(c.ops, [xs[n]]) && ApplyAll(c.ops, [xs[n]]) == [v] && c.sink(v).Some?
    ensures RunFused(c, xs) == Streamed(ApplyAll(c.ops, xs[..n]) + [v], c.sink(v))
  {
    ChainComputes(c, xs[..n]);
    PushClean(c, xs[n], v);
    FusedNext(c, xs, n);
    FusedSealed(c, xs, n + 1);
  }

  lemma {:induction false} PushClean<V>(c: Chain<V>, x: V, v: V)
    requires Clean(c.ops, [x]) && ApplyAll(c.ops, [x]) == [v]
    ensures Push(c, x) == Pushed(Some(v), c.sink(v))
    decreases |c.ops|
  {
    if c.ops != [] {
      assert Failure(c.ops[0], [x][0]).None?;
      ApplyOne(c.ops[0], x);
      NothingThrough(c.ops[1..]);
      PushClean(c.(ops := c.ops[1..]), Step(c.ops[0], x).value, v);
    }
  }

  lemma {:induction false} AtMostOne<V>(ops: seq<Op<V>>, x: V)
    requires Clean(ops, [x])
    ensures |ApplyAll(ops, [x])| <= 1
  {
    if ops != [] {
      assert Failure(ops[0], [x][0]).None?;
      ApplyOne(ops[0], x);
      NothingThrough(ops[1..]);
      if Step(ops[0], x).Passed? {
        AtMostOne(ops[1..], Step(ops[0], x).value);
      }
    }
  }

  /** The stages and the sink all succeed on the first n items. */
  predicate CleanUpTo<V>(c: Chain<V>, xs: seq<V>, n: nat)
    requires n <= |xs|
  {
    Clean(c.ops, xs[..n]) && SinkTakes(c, ApplyAll(c.ops, xs[..n]))
  }

  /** The first item on which some stage, or the sink, fails; |xs| when there is none. */
  lemma {:induction false} CleanPrefix<V>(c: Chain<V>, xs: seq<V>) returns (n: nat)
    ensures n <= |xs| && CleanUpTo(c, xs, n) && (n < |xs| ==> !CleanUpTo(c, xs, n + 1))
  {
    n := 0;
    assert xs[..0] == [];
    NothingThrough(c.ops);
    while n < |xs| && CleanUpTo(c, xs, n + 1)
      invariant n <= |xs| && CleanUpTo(c, xs, n)
    {
      n := n + 1;
    }
  }

  /**
   * What fused execution computes, on every input: the sink is called on what the composed stages make of the items
   * before the first failing one, and then, if it is the sink that fails, on the value it fails on; the error is
   * the failing stage's or the sink's.
   */
  lemma FusedComputes<V>(c: Chain<V>, xs: seq<V>) returns (n: nat)
    ensures n <= |xs| && CleanUpTo(c, xs, n)
    ensures n == |xs| ==> RunFused(c, xs) == Streamed(ApplyAll(c.ops, xs[..n]), None)
    ensures n < |xs| && !Clean(c.ops, [xs[n]]) ==>
              exists k: nat, e :: k < |c.ops| && BreaksAt(c.ops, xs[n], k, e) &&
                                  RunFused(c, xs) == Streamed(ApplyAll(c.ops, xs[..n]), Some(e))
    ensures n < |xs| && Clean(c.ops, [xs[n]]) ==>
              var vs := ApplyAll(c.ops, [xs[n]]);
              |vs| == 1 && c.sink(vs[0]).Some? &&
              RunFused(c, xs) == Streamed(ApplyAll(c.ops, xs[..n]) + vs, c.sink(vs[0]))
  {
    n := CleanPrefix(c, xs);
    if n == |xs| {
      assert xs[..n] == xs;
      ChainComputes(c, xs);
    } else if !Clean(c.ops, [xs[n]]) {
      var k, e := UncleanBreaks(c.ops, xs[n]);
      StageBreaksChain(c, xs, n, k, e);
    } else {
      var before, vs := ApplyAll(c.ops, xs[..n]), ApplyAll(c.ops, [xs[n]]);
      assert xs[..n + 1] == xs[..n] + [xs[n]];
      ApplyAllAppend(c.ops, xs[..n], [xs[n]]);
      AtMostOne(c.ops, xs[n]);
      SinkBreaksChain(c, xs, n, vs[0]);
    }
  }
}
