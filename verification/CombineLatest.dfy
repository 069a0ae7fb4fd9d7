/**
 * CombineLatest: two goroutines, one per input, that record their latest value under a mutex, take a
 * snapshot of both, and emit outside the mutex. Error-free runs.
 */
module CombineLatest {
  import opened Outcomes
  import opened Sums

  datatype Side = L | R

  /** An update of the shared state, in the order the mutex was taken. */
  datatype Update<+A, +B> = Left(a: A) | Right(b: B)
  {
    function From(): Side {
      if Left? then L else R
    }
  }

  datatype Emission<+A, +B> = Emission(side: Side, a: A, b: B)

  datatype Pc<+T, +A, +B> =
    | Reading
    | Locking(v: T)                          // received v, wants the mutex
    | Emitting(e: Emission<A, B>)            // holds a snapshot to send
    | Done

  datatype State<+A, +B> = State(
    lefts: seq<A>, rights: seq<B>,                  // what the two input channels still deliver
    pcA: Pc<A, A, B>, pcB: Pc<B, A, B>,
    latA: Option<A>, latB: Option<B>,
    log: seq<Update<A, B>>,                  // the updates made so far
    out: seq<Emission<A, B>>)

  function Init<A, B>(lefts: seq<A>, rights: seq<B>): State<A, B> {
    State(lefts, rights, Reading, Reading, None, None, [], [])
  }

  datatype Step = Receive(side: Side) | Lock(side: Side) | Send(side: Side) | Close(side: Side)

  predicate Enabled<A, B>(s: State<A, B>, step: Step) {
    match step
    case Receive(L) => s.pcA.Reading? && s.lefts != []
    case Receive(R) => s.pcB.Reading? && s.rights != []
    case Lock(L) => s.pcA.Locking?
    case Lock(R) => s.pcB.Locking?
    case Send(L) => s.pcA.Emitting?
    case Send(R) => s.pcB.Emitting?
    case Close(L) => s.pcA.Reading? && s.lefts == []
    case Close(R) => s.pcB.Reading? && s.rights == []
  }

  function Snapshot<T, A, B>(side: Side, latA: Option<A>, latB: Option<B>): Pc<T, A, B> {
    if latA.Some? && latB.Some? then Emitting(Emission(side, latA.value, latB.value)) else Reading
  }

  function Apply<A, B>(s: State<A, B>, step: Step): State<A, B>
    requires Enabled(s, step)
  {
    match step
    case Receive(L) => s.(pcA := Locking(s.lefts[0]), lefts := s.lefts[1..])
    case Receive(R) => s.(pcB := Locking(s.rights[0]), rights := s.rights[1..])
    case Lock(L) =>
      s.(latA := Some(s.pcA.v), pcA := Snapshot(L, Some(s.pcA.v), s.latB), log := s.log + [Left(s.pcA.v)])
    case Lock(R) =>
      s.(latB := Some(s.pcB.v), pcB := Snapshot(R, s.latA, Some(s.pcB.v)), log := s.log + [Right(s.pcB.v)])
    case Send(L) => s.(out := s.out + [s.pcA.e], pcA := Reading)
    case Send(R) => s.(out := s.out + [s.pcB.e], pcB := Reading)
    case Close(L) => s.(pcA := Done)
    case Close(R) => s.(pcB := Done)
  }

  predicate Runs<A, B>(s: State<A, B>, steps: seq<Step>)
    decreases |steps|
  {
    steps == [] || (Enabled(s, steps[0]) && Runs(Apply(s, steps[0]), steps[1..]))
  }

  function Final<A, B>(s: State<A, B>, steps: seq<Step>): State<A, B>
    requires Runs(s, steps)
    decreases |steps|
  {
    if steps == [] then s else Final(Apply(s, steps[0]), steps[1..])
  }

  // ------------------------------------------------------------------ the serial combine

  function LatestA<A, B>(log: seq<Update<A, B>>): Option<A> {
    if log == [] then None
    else if log[|log| - 1].Left? then Some(log[|log| - 1].a)
    else LatestA(log[..|log| - 1])
  }

  function LatestB<A, B>(log: seq<Update<A, B>>): Option<B> {
    if log == [] then None
    else if log[|log| - 1].Right? then Some(log[|log| - 1].b)
    else LatestB(log[..|log| - 1])
  }

  /** One goroutine handling the updates in this order: a pair after every update, once both sides have a value. */
  function Combine<A, B>(log: seq<Update<A, B>>): seq<Emission<A, B>> {
    if log == [] then []
    else
      Combine(log[..|log| - 1]) +
      NewPairs(log[|log| - 1].From(), LatestA(log), LatestB(log))
  }

  function NewPairs<A, B>(side: Side, latA: Option<A>, latB: Option<B>): seq<Emission<A, B>> {
    if latA.Some? && latB.Some? then [Emission(side, latA.value, latB.value)] else []
  }

  function Lefts<A, B>(log: seq<Update<A, B>>): seq<A> {
    if log == [] then []
    else Lefts(log[..|log| - 1]) + (if log[|log| - 1].Left? then [log[|log| - 1].a] else [])
  }

  function Rights<A, B>(log: seq<Update<A, B>>): seq<B> {
    if log == [] then []
    else Rights(log[..|log| - 1]) + (if log[|log| - 1].Right? then [log[|log| - 1].b] else [])
  }

  /** What one side emitted, in order. */
  function FromSide<A, B>(out: seq<Emission<A, B>>, side: Side): seq<Emission<A, B>> {
    if out == [] then []
    else FromSide(out[..|out| - 1], side) + (if out[|out| - 1].side == side then [out[|out| - 1]] else [])
  }

  lemma FromSideAppend<A, B>(out: seq<Emission<A, B>>, e: Emission<A, B>, side: Side)
    ensures FromSide(out + [e], side) == FromSide(out, side) + (if e.side == side then [e] else [])
  {
    assert (out + [e])[..|out|] == out;
  }

  // ------------------------------------------------------------------ invariant

  function Pending<T, A, B>(pc: Pc<T, A, B>): seq<Emission<A, B>> {
    if pc.Emitting? then [pc.e] else []
  }

  function InHand<T, A, B>(pc: Pc<T, A, B>): seq<T> {
    if pc.Locking? then [pc.v] else []
  }

  ghost predicate Inv<A, B>(lefts: seq<A>, rights: seq<B>, s: State<A, B>) {
    && Outputs(s)
    && (s.pcA.Emitting? ==> s.pcA.e.side == L) && (s.pcB.Emitting? ==> s.pcB.e.side == R)
    && (s.pcA.Done? ==> s.lefts == []) && (s.pcB.Done? ==> s.rights == [])
    && lefts == Lefts(s.log) + (InHand(s.pcA) + s.lefts)
    && rights == Rights(s.log) + (InHand(s.pcB) + s.rights)
  }

  /** The serial output of the updates made so far is what was sent and what each goroutine is about to send. */
  ghost predicate Outputs<A, B>(s: State<A, B>) {
    && s.latA == LatestA(s.log) && s.latB == LatestB(s.log)
    && FromSide(Combine(s.log), L) == FromSide(s.out, L) + Pending(s.pcA)
    && FromSide(Combine(s.log), R) == FromSide(s.out, R) + Pending(s.pcB)
  }

  /** What one more update does to every function of the log. */
  lemma LogAppend<A, B>(log: seq<Update<A, B>>, u: Update<A, B>)
    ensures LatestA(log + [u]) == (if u.Left? then Some(u.a) else LatestA(log))
    ensures LatestB(log + [u]) == (if u.Right? then Some(u.b) else LatestB(log))
    ensures Lefts(log + [u]) == Lefts(log) + (if u.Left? then [u.a] else [])
    ensures Rights(log + [u]) == Rights(log) + (if u.Right? then [u.b] else [])
  {
    assert (log + [u])[..|log|] == log;
  }

  lemma CombineAppend<A, B>(log: seq<Update<A, B>>, u: Update<A, B>, side: Side)
    ensures FromSide(Combine(log + [u]), side) ==
              if side == u.From()
              then FromSide(Combine(log), side) + NewPairs(side, LatestA(log + [u]), LatestB(log + [u]))
              else FromSide(Combine(log), side)
  {
    var log' := log + [u];
    assert log'[..|log|] == log;
    if LatestA(log').Some? && LatestB(log').Some? {
      var e := Emission(u.From(), LatestA(log').value, LatestB(log').value);
      assert Combine(log') == Combine(log) + [e];
      FromSideAppend(Combine(log), e, side);
    } else {
      assert Combine(log') == Combine(log);
    }
  }

  /** What the new update adds to the serial output is what the goroutine now has pending. */
  lemma LockLOutputs<A, B>(s: State<A, B>)
    requires Enabled(s, Lock(L)) && Outputs(s)
    ensures var s' := Apply(s, Lock(L));
            FromSide(Combine(s'.log), L) == FromSide(s'.out, L) + Pending(s'.pcA) &&
            FromSide(Combine(s'.log), R) == FromSide(s'.out, R) + Pending(s'.pcB)
  {
    var u: Update<A, B> := Left(s.pcA.v);
    LogAppend(s.log, u);
    CombineAppend(s.log, u, L);
    CombineAppend(s.log, u, R);
    assert Pending(s.pcA) == [] && FromSide(s.out, L) + [] == FromSide(s.out, L);
    assert Pending(Apply(s, Lock(L)).pcA) == NewPairs(L, LatestA(s.log + [u]), LatestB(s.log + [u]));
  }

  lemma LockROutputs<A, B>(s: State<A, B>)
    requires Enabled(s, Lock(R)) && Outputs(s)
    ensures var s' := Apply(s, Lock(R));
            FromSide(Combine(s'.log), L) == FromSide(s'.out, L) + Pending(s'.pcA) &&
            FromSide(Combine(s'.log), R) == FromSide(s'.out, R) + Pending(s'.pcB)
  {
    var u: Update<A, B> := Right(s.pcB.v);
    LogAppend(s.log, u);
    CombineAppend(s.log, u, L);
    CombineAppend(s.log, u, R);
    assert Pending(s.pcB) == [] && FromSide(s.out, R) + [] == FromSide(s.out, R);
    assert Pending(Apply(s, Lock(R)).pcB) == NewPairs(R, LatestA(s.log + [u]), LatestB(s.log + [u]));
  }

  lemma LockLKeepsInv<A, B>(lefts: seq<A>, rights: seq<B>, s: State<A, B>)
    requires Inv(lefts, rights, s) && Enabled(s, Lock(L))
    ensures Inv(lefts, rights, Apply(s, Lock(L)))
  {
    var s', v := Apply(s, Lock(L)), s.pcA.v;
    var u: Update<A, B> := Left(v);
    LogAppend(s.log, u);
    assert Lefts(s'.log) + (InHand(s'.pcA) + s.lefts) == Lefts(s.log) + ([v] + s.lefts);
    LockLOutputs(s);
  }

  lemma LockRKeepsInv<A, B>(lefts: seq<A>, rights: seq<B>, s: State<A, B>)
    requires Inv(lefts, rights, s) && Enabled(s, Lock(R))
    ensures Inv(lefts, rights, Apply(s, Lock(R)))
  {
    var s', v := Apply(s, Lock(R)), s.pcB.v;
    var u: Update<A, B> := Right(v);
    LogAppend(s.log, u);
    assert Rights(s'.log) + (InHand(s'.pcB) + s.rights) == Rights(s.log) + ([v] + s.rights);
    LockROutputs(s);
  }

  lemma SendKeepsInv<A, B>(lefts: seq<A>, rights: seq<B>, s: State<A, B>, side: Side)
    requires Inv(lefts, rights, s) && Enabled(s, Send(side))
    ensures Inv(lefts, rights, Apply(s, Send(side)))
  {
    var e := if side.L? then s.pcA.e else s.pcB.e;
    FromSideAppend(s.out, e, L);
    FromSideAppend(s.out, e, R);
  }

  lemma ReceiveKeepsInv<A, B>(lefts: seq<A>, rights: seq<B>, s: State<A, B>, side: Side)
    requires Inv(lefts, rights, s) && Enabled(s, Receive(side))
    ensures Inv(lefts, rights, Apply(s, Receive(side)))
  {
    ReceiveKeepsOutputs(s, side);
    if side.L? {
      assert InHand(s.pcA) + s.lefts == [s.lefts[0]] + s.lefts[1..];
    } else {
      assert InHand(s.pcB) + s.rights == [s.rights[0]] + s.rights[1..];
    }
  }

  lemma ReceiveKeepsOutputs<A, B>(s: State<A, B>, side: Side)
    requires Outputs(s) && Enabled(s, Receive(side))
    ensures Outputs(Apply(s, Receive(side)))
  {
  }

  lemma StepKeepsInv<A, B>(lefts: seq<A>, rights: seq<B>, s: State<A, B>, step: Step)
    requires Inv(lefts, rights, s) && Enabled(s, step)
    ensures Inv(lefts, rights, Apply(s, step))
  {
    match step
    case Lock(L) => LockLKeepsInv(lefts, rights, s);
    case Lock(R) => LockRKeepsInv(lefts, rights, s);
    case Send(side) => SendKeepsInv(lefts, rights, s, side);
    case Receive(side) => ReceiveKeepsInv(lefts, rights, s, side);
    case Close(_) =>
  }

  lemma {:induction false} RunKeepsInv<A, B>(lefts: seq<A>, rights: seq<B>, s: State<A, B>, steps: seq<Step>)
    requires Inv(lefts, rights, s) && Runs(s, steps)
    ensures Inv(lefts, rights, Final(s, steps))
    decreases |steps|
  {
    if steps != [] {
      StepKeepsInv(lefts, rights, s, steps[0]);
      RunKeepsInv(lefts, rights, Apply(s, steps[0]), steps[1..]);
    }
  }

  lemma InitInv<A, B>(lefts: seq<A>, rights: seq<B>)
    ensures Inv(lefts, rights, Init(lefts, rights))
  {
  }

  // ------------------------------------------------------------------ main results

  lemma {:induction false} CountBySide<A, B>(out: seq<Emission<A, B>>, e: Emission<A, B>)
    ensures Count(out, e) == Count(FromSide(out, e.side), e)
  {
    if out != [] {
      var init, last := out[..|out| - 1], out[|out| - 1];
      CountBySide(init, e);
      assert out == init + [last];
      CountLast(init, last, e);
      CountLast(FromSide(init, e.side), last, e);
      FromSideAppend(init, last, e.side);
      assert FromSide(init, e.side) + [] == FromSide(init, e.side);
    }
  }

  lemma {:induction false} OfItsSide<A, B>(out: seq<Emission<A, B>>, e: Emission<A, B>)
    ensures e in out <==> e in FromSide(out, e.side)
  {
    if out != [] {
      OfItsSide(out[..|out| - 1], e);
      assert out == out[..|out| - 1] + [out[|out| - 1]];
    }
  }

  lemma {:induction false} LatestAreLast<A, B>(log: seq<Update<A, B>>)
    ensures LatestA(log) == if Lefts(log) == [] then None else Some(Lefts(log)[|Lefts(log)| - 1])
    ensures LatestB(log) == if Rights(log) == [] then None else Some(Rights(log)[|Rights(log)| - 1])
  {
    if log != [] {
      LatestAreLast(log[..|log| - 1]);
    }
  }

  /** An error-free run after which both goroutines have ended. */
  ghost predicate Finished<A, B>(lefts: seq<A>, rights: seq<B>, steps: seq<Step>) {
    Runs(Init(lefts, rights), steps) &&
    Final(Init(lefts, rights), steps).pcA.Done? && Final(Init(lefts, rights), steps).pcB.Done?
  }

  /**
   * In every finished run: the updates interleave the two inputs, each in order; every pair is sent as often as the
   * serial combine over those updates sends it; and each side's emissions come in the serial order.
   */
  lemma EmitsTheSerialPairs<A, B>(lefts: seq<A>, rights: seq<B>, steps: seq<Step>, e: Emission<A, B>)
    requires Finished(lefts, rights, steps)
    ensures var s := Final(Init(lefts, rights), steps);
            && Lefts(s.log) == lefts && Rights(s.log) == rights
            && FromSide(s.out, L) == FromSide(Combine(s.log), L)
            && FromSide(s.out, R) == FromSide(Combine(s.log), R)
            && Count(s.out, e) == Count(Combine(s.log), e)
  {
    InitInv(lefts, rights);
    RunKeepsInv(lefts, rights, Init(lefts, rights), steps);
    var s := Final(Init(lefts, rights), steps);
    assert FromSide(s.out, L) + [] == FromSide(s.out, L);
    assert FromSide(s.out, R) + [] == FromSide(s.out, R);
    CountBySide(s.out, e);
    CountBySide(Combine(s.log), e);
  }

  predicate IsFinalPair<A(==), B(==)>(lefts: seq<A>, rights: seq<B>, e: Emission<A, B>)
    requires lefts != [] && rights != []
  {
    e.a == lefts[|lefts| - 1] && e.b == rights[|rights| - 1]
  }

  /** When both inputs are non-empty, the pair of both final values is among the emissions, sent for the last update. */
  lemma FinalPairIsEmitted<A, B>(lefts: seq<A>, rights: seq<B>, steps: seq<Step>) returns (e: Emission<A, B>)
    requires lefts != [] && rights != [] && Finished(lefts, rights, steps)
    ensures var s := Final(Init(lefts, rights), steps);
            && e in s.out && IsFinalPair(lefts, rights, e)
            && s.log != [] && e.side == s.log[|s.log| - 1].From()
            && Combine(s.log) != [] && e == Combine(s.log)[|Combine(s.log)| - 1]
  {
    e := Emission(L, lefts[0], rights[0]);
    EmitsTheSerialPairs(lefts, rights, steps, e);
    var s := Final(Init(lefts, rights), steps);
    LatestAreLast(s.log);
    var pairs := Combine(s.log);
    e := pairs[|pairs| - 1];
    OfItsSide(pairs, e);
    OfItsSide(s.out, e);
  }

  // ------------------------------------------------------------------ what is emitted last

  predicate EndsWithFinalPair<A(==), B(==)>(lefts: seq<A>, rights: seq<B>, out: seq<Emission<A, B>>)
    requires lefts != [] && rights != []
  {
    out != [] && IsFinalPair(lefts, rights, out[|out| - 1])
  }

  /** The last emission is the final pair whenever it comes from the side that made the last update. */
  lemma LastUpdaterSendsTheFinalPair<A, B>(lefts: seq<A>, rights: seq<B>, steps: seq<Step>)
    requires lefts != [] && rights != [] && Finished(lefts, rights, steps)
    ensures var s := Final(Init(lefts, rights), steps);
            && s.out != [] && s.log != []
            && (s.out[|s.out| - 1].side == s.log[|s.log| - 1].From() ==> EndsWithFinalPair(lefts, rights, s.out))
  {
    var e := FinalPairIsEmitted(lefts, rights, steps);
    EmitsTheSerialPairs(lefts, rights, steps, e);
    var s := Final(Init(lefts, rights), steps);
    LastOfItsSide(s.out);
    LastOfItsSide(Combine(s.log));
  }

  lemma LastOfItsSide<A, B>(out: seq<Emission<A, B>>)
    requires out != []
    ensures var e := out[|out| - 1]; var ours := FromSide(out, e.side); ours != [] && ours[|ours| - 1] == e
  {
  }

  /** Emissions pair up values of the two inputs. */
  lemma {:induction false} PairsOfInputs<A, B>(log: seq<Update<A, B>>, e: Emission<A, B>)
    requires e in Combine(log)
    ensures e.a in Lefts(log) && e.b in Rights(log)
  {
    LatestAreLast(log);
    if e in Combine(log[..|log| - 1]) {
      PairsOfInputs(log[..|log| - 1], e);
    }
  }

  predicate Constant<T(==)>(xs: seq<T>) {
    forall x | x in xs :: x == xs[|xs| - 1]
  }

  lemma ConstantInputsEndCurrent<A, B>(lefts: seq<A>, rights: seq<B>, steps: seq<Step>)
    requires lefts != [] && rights != [] && Constant(lefts) && Constant(rights) && Finished(lefts, rights, steps)
    ensures EndsWithFinalPair(lefts, rights, Final(Init(lefts, rights), steps).out)
  {
    LastUpdaterSendsTheFinalPair(lefts, rights, steps);
    var s := Final(Init(lefts, rights), steps);
    var e := s.out[|s.out| - 1];
    EmitsTheSerialPairs(lefts, rights, steps, e);
    OfItsSide(s.out, e);
    OfItsSide(Combine(s.log), e);
    PairsOfInputs(s.log, e);
  }

  lemma {:induction false} RunsThen<A, B>(s: State<A, B>, a: seq<Step>, b: seq<Step>)
    requires Runs(s, a) && Runs(Final(s, a), b)
    ensures Runs(s, a + b) && Final(s, a + b) == Final(Final(s, a), b)
    decreases |a|
  {
    if a == [] {
      assert a + b == b;
    } else {
      assert (a + b)[1..] == a[1..] + b;
      RunsThen(Apply(s, a[0]), a[1..], b);
    }
  }

  /** One more step at the end of a run. */
  lemma OneStep<A, B>(s: State<A, B>, steps: seq<Step>, step: Step)
    requires Runs(s, steps) && Enabled(Final(s, steps), step)
    ensures Runs(s, steps + [step]) && Final(s, steps + [step]) == Apply(Final(s, steps), step)
  {
    var t := Final(s, steps);
    assert [step][1..] == [] && Runs(Apply(t, step), []) && Final(Apply(t, step), []) == Apply(t, step);
    assert Runs(t, [step]) && Final(t, [step]) == Apply(t, step);
    RunsThen(s, steps, [step]);
  }

  /** The left goroutine handles its next n values alone. */
  lemma {:induction false} PumpLeft<A, B>(s: State<A, B>, n: nat) returns (steps: seq<Step>)
    requires s.pcA.Reading? && n <= |s.lefts|
    ensures Runs(s, steps)
    ensures var s' := Final(s, steps);
            && s'.lefts == s.lefts[n..] && s'.rights == s.rights && s'.pcA.Reading? && s'.pcB == s.pcB
            && s'.latA == (if n == 0 then s.latA else Some(s.lefts[n - 1])) && s'.latB == s.latB
    decreases n
  {
    if n == 0 {
      return [];
    }
    steps := PumpLeft(s, n - 1);
    OneStep(s, steps, Receive(L));
    steps := steps + [Receive(L)];
    OneStep(s, steps, Lock(L));
    steps := steps + [Lock(L)];
    if s.latB.Some? {
      OneStep(s, steps, Send(L));
      steps := steps + [Send(L)];
    }
  }

  /** The right goroutine handles its next n values alone. */
  lemma {:induction false} PumpRight<A, B>(s: State<A, B>, n: nat) returns (steps: seq<Step>)
    requires s.pcB.Reading? && n <= |s.rights|
    ensures Runs(s, steps)
    ensures var s' := Final(s, steps);
            && s'.rights == s.rights[n..] && s'.lefts == s.lefts && s'.pcB.Reading? && s'.pcA == s.pcA
            && s'.latB == (if n == 0 then s.latB else Some(s.rights[n - 1])) && s'.latA == s.latA
    decreases n
  {
    if n == 0 {
      return [];
    }
    steps := PumpRight(s, n - 1);
    OneStep(s, steps, Receive(R));
    steps := steps + [Receive(R)];
    OneStep(s, steps, Lock(R));
    steps := steps + [Lock(R)];
    if s.latA.Some? {
      OneStep(s, steps, Send(R));
      steps := steps + [Send(R)];
    }
  }

  /** The right goroutine snapshots its last value after k+1 left values, and sends that pair after everything else. */
  lemma StaleLeft<A, B>(lefts: seq<A>, rights: seq<B>, k: nat) returns (steps: seq<Step>)
    requires k < |lefts| && rights != []
    ensures Finished(lefts, rights, steps)
    ensures var out := Final(Init(lefts, rights), steps).out; out != [] && out[|out| - 1].a == lefts[k]
  {
    var s0 := Init(lefts, rights);
    steps := PumpLeft(s0, k + 1);
    var right := PumpRight(Final(s0, steps), |rights| - 1);
    RunsThen(s0, steps, right);
    steps := steps + right;
    OneStep(s0, steps, Receive(R));
    steps := steps + [Receive(R)];
    OneStep(s0, steps, Lock(R));
    steps := steps + [Lock(R)];
    var rest := PumpLeft(Final(s0, steps), |lefts| - (k + 1));
    RunsThen(s0, steps, rest);
    steps := steps + rest;
    OneStep(s0, steps, Close(L));
    steps := steps + [Close(L)];
    OneStep(s0, steps, Send(R));
    steps := steps + [Send(R)];
    OneStep(s0, steps, Close(R));
    steps := steps + [Close(R)];
  }

  /** The same with the sides exchanged. */
  lemma StaleRight<A, B>(lefts: seq<A>, rights: seq<B>, k: nat) returns (steps: seq<Step>)
    requires k < |rights| && lefts != []
    ensures Finished(lefts, rights, steps)
    ensures var out := Final(Init(lefts, rights), steps).out; out != [] && out[|out| - 1].b == rights[k]
  {
    var s0 := Init(lefts, rights);
    steps := PumpRight(s0, k + 1);
    var left := PumpLeft(Final(s0, steps), |lefts| - 1);
    RunsThen(s0, steps, left);
    steps := steps + left;
    OneStep(s0, steps, Receive(L));
    steps := steps + [Receive(L)];
    OneStep(s0, steps, Lock(L));
    steps := steps + [Lock(L)];
    var rest := PumpRight(Final(s0, steps), |rights| - (k + 1));
    RunsThen(s0, steps, rest);
    steps := steps + rest;
    OneStep(s0, steps, Close(R));
    steps := steps + [Close(R)];
    OneStep(s0, steps, Send(L));
    steps := steps + [Send(L)];
    OneStep(s0, steps, Close(L));
    steps := steps + [Close(L)];
  }

  /**
   * Pairs are sent outside the mutex, so the last one emitted can be superseded already: every finished run of two
   * non-empty inputs ends with the pair of final values exactly when both inputs are constant.
   */
  lemma EndsCurrentIffConstant<A(!new), B(!new)>(lefts: seq<A>, rights: seq<B>)
    requires lefts != [] && rights != []
    ensures (forall steps :: Finished(lefts, rights, steps) ==>
               EndsWithFinalPair(lefts, rights, Final(Init(lefts, rights), steps).out))
            <==> Constant(lefts) && Constant(rights)
  {
    if Constant(lefts) && Constant(rights) {
      forall steps | Finished(lefts, rights, steps)
        ensures EndsWithFinalPair(lefts, rights, Final(Init(lefts, rights), steps).out)
      {
        ConstantInputsEndCurrent(lefts, rights, steps);
      }
    } else if !Constant(lefts) {
      var k :| 0 <= k < |lefts| && lefts[k] != lefts[|lefts| - 1];
      var steps := StaleLeft(lefts, rights, k);
      assert Finished(lefts, rights, steps);
    } else {
      var k :| 0 <= k < |rights| && rights[k] != rights[|rights| - 1];
      var steps := StaleRight(lefts, rights, k);
      assert Finished(lefts, rights, steps);
    }
  }
}
