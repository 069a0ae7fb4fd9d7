/**
 * Stage fusion. A chain of Map and Filter stages that ends in ForEach is run as one micro-batched loop
 * that pushes every item through the whole chain, instead of one goroutine and one channel per stage.
 */
module Fusion {
  import opened Outcomes
  import Handlers

  datatype Res<+T> = Ok(value: T) | Err(error: Error)

  /** User functions are total and deterministic; every stage of a chain works on one value type. */
  datatype Op<!V> =
    | MapOp(f: V -> Res<V>)
    | FilterOp(keep: V -> Res<bool>)

  datatype Chain<!V> = Chain(ops: seq<Op<V>>, sink: V -> Option<Error>)

  /** What one stage does with one item. */
  datatype Effect<+V> = Dropped | Passed(value: V) | Broke(error: Error)

  function Step<V>(op: Op<V>, x: V): Effect<V> {
    match op
    case MapOp(f) => (match f(x) case Ok(y) => Passed(y) case Err(e) => Broke(e))
    case FilterOp(keep) => (match keep(x) case Ok(true) => Passed(x) case Ok(false) => Dropped case Err(e) => Broke(e))
  }

  // ------------------------------------------------------------------ the unfused pipeline

  datatype Streamed<+V> = Streamed(out: seq<V>, err: Option<Error>)

  /** One stage on its own goroutine, over everything its input channel delivers. */
  function RunStage<V>(op: Op<V>, xs: seq<V>): Streamed<V> {
    if xs == [] then Streamed([], None)
    else
      match Step(op, xs[0])
      case Dropped => RunStage(op, xs[1..])
      case Passed(y) => var r := RunStage(op, xs[1..]); Streamed([y] + r.out, r.err)
      case Broke(e) => Streamed([], Some(e))
  }

  /** ForEach: the values the sink is called on, up to and including the one it fails on. */
  function RunSink<V>(sink: V -> Option<Error>, xs: seq<V>): Streamed<V> {
    if xs == [] then Streamed([], None)
    else if sink(xs[0]).Some? then Streamed([xs[0]], sink(xs[0]))
    else var r := RunSink(sink, xs[1..]); Streamed([xs[0]] + r.out, r.err)
  }

  /** The separate stages, each fed the output of the one before; one error slot per stage, the sink's last. */
  datatype Staged<+V> = Staged(calls: seq<V>, errs: seq<Option<Error>>)

  function RunStages<V>(c: Chain<V>, xs: seq<V>): Staged<V>
    decreases |c.ops|
  {
    if c.ops == [] then
      var r := RunSink(c.sink, xs);
      Staged(r.out, [r.err])
    else
      var first := RunStage(c.ops[0], xs);
      var rest := RunStages(c.(ops := c.ops[1..]), first.out);
      Staged(rest.calls, [first.err] + rest.errs)
  }

  // ------------------------------------------------------------------ the fused loop

  /** One item pushed through the composed closures: the sink call it leads to, if any, and the error. */
  datatype Pushed<+V> = Pushed(call: Option<V>, err: Option<Error>)

  function Push<V>(c: Chain<V>, x: V): Pushed<V>
    decreases |c.ops|
  {
    if c.ops == [] then Pushed(Some(x), c.sink(x))
    else
      match Step(c.ops[0], x)
      case Dropped => Pushed(None, None)
      case Passed(y) => Push(c.(ops := c.ops[1..]), y)
      case Broke(e) => Pushed(None, Some(e))
  }

  function Calls<V>(p: Pushed<V>): seq<V> {
    if p.call.Some? then [p.call.value] else []
  }

  /** Items one by one, stopping at the first error. */
  function RunFused<V>(c: Chain<V>, xs: seq<V>): Streamed<V> {
    if xs == [] then Streamed([], None)
    else
      var r := RunFused(c, xs[..|xs| - 1]);
      if r.err.Some? then r
      else
        var p := Push(c, xs[|xs| - 1]);
        Streamed(r.out + Calls(p), p.err)
  }

  lemma {:induction false} FusedSealed<V>(c: Chain<V>, xs: seq<V>, n: nat)
    requires n <= |xs| && RunFused(c, xs[..n]).err.Some?
    ensures RunFused(c, xs) == RunFused(c, xs[..n])
    decreases |xs|
  {
    if n < |xs| {
      assert xs[..|xs| - 1][..n] == xs[..n];
      FusedSealed(c, xs[..|xs| - 1], n);
    } else {
      assert xs[..n] == xs;
    }
  }

  lemma FusedNext<V>(c: Chain<V>, input: seq<V>, n: nat)
    requires n < |input| && RunFused(c, input[..n]).err.None?
    ensures var p := Push(c, input[n]);
            RunFused(c, input[..n + 1]) == Streamed(RunFused(c, input[..n]).out + Calls(p), p.err)
  {
    assert input[..n + 1][..n] == input[..n];
  }

  /** What the environment does around one batch. */
  datatype Turn = Turn(
    interrupt: Option<Stop>,   // the blocking select takes drain or cancellation instead of an item
    ready: nat,                // further items that can be received without blocking
    refused: Option<nat>,      // a separate Map stage drains instead of sending the result of this batch item
    cancelled: bool,           // the context is done after the batch
    drained: bool)             // the drain channel is closed after the batch

  datatype Stop = ByDrain | ByCancel

  const BATCH := 16

  /** Refill the buffer: the received item, then whatever is ready without blocking, up to the batch size. */
  method Fill<V>(buf: array<V>, input: seq<V>, taken: nat, ready: nat) returns (n: nat, closed: bool)
    requires taken < |input| && buf.Length == BATCH
    modifies buf
    ensures 1 <= n <= BATCH && taken + n <= |input|
    ensures buf[..n] == input[taken..taken + n]
    ensures closed ==> taken + n == |input|
  {
    buf[0] := input[taken];
    n, closed := 1, false;
    while n < BATCH && n <= ready && !closed
      invariant 1 <= n <= BATCH && taken + n <= |input|
      invariant buf[..n] == input[taken..taken + n]
      invariant closed ==> taken + n == |input|
      decreases BATCH - n, !closed
    {
      if taken + n == |input| {
        closed := true;
      } else {
        buf[n] := input[taken + n];
        n := n + 1;
      }
    }
  }

  /** Push the buffered batch item by item through the composed chain, up to the first failure. */
  method PushBatch<V>(c: Chain<V>, buf: array<V>, n: nat, before: seq<V>, ghost input: seq<V>, ghost start: nat)
      returns (calls: seq<V>, err: Option<Error>, done: nat)
    requires n <= buf.Length && start + n <= |input| && buf[..n] == input[start..start + n]
    requires RunFused(c, input[..start]) == Streamed(before, None)
    ensures done <= n && (err.None? ==> done == n)
    ensures RunFused(c, input[..start + done]) == Streamed(calls, err)
  {
    calls, err, done := before, None, 0;
    while done < n
      invariant done <= n && err.None?
      invariant RunFused(c, input[..start + done]) == Streamed(calls, None)
    {
      assert buf[done] == input[start + done] by {
        assert buf[..n][done] == input[start..start + n][done];
      }
      FusedNext(c, input, start + done);
      var p := Push(c, buf[done]);
      calls := calls + Calls(p);
      done := done + 1;
      if p.err.Some? {
        err := p.err;
        return;
      }
    }
  }

  /** One batch: filled from the input, then pushed through the chain. `closed`: nothing comes after it. */
  method RunBatch<V>(c: Chain<V>, buf: array<V>, input: seq<V>, start: nat, ready: nat, before: seq<V>)
      returns (calls: seq<V>, err: Option<Error>, taken: nat, closed: bool)
    requires start < |input| && buf.Length == BATCH
    requires RunFused(c, input[..start]) == Streamed(before, None)
    modifies buf
    ensures start <= taken <= |input| && (err.None? ==> start < taken)
    ensures RunFused(c, input[..taken]) == Streamed(calls, err)
    ensures closed && err.None? ==> taken == |input|
  {
    var n: nat, done: nat;
    n, closed := Fill(buf, input, start, ready);
    calls, err, done := PushBatch(c, buf, n, before, input, start);
    taken := start + done;
  }

  /**
   * The loop of the first fused stage: one blocking receive, a non-blocking fill up to the batch size,
   * then the batch item by item through the composed chain.
   */
  method FusedLoop<V(0)>(c: Chain<V>, input: seq<V>, env: nat -> Turn)
      returns (calls: seq<V>, err: Option<Error>, stop: Option<Stop>, taken: nat)
    ensures taken <= |input|
    ensures RunFused(c, input[..taken]) == Streamed(calls, err)
    ensures stop.None? ==> RunFused(c, input) == Streamed(calls, err)
    ensures stop.Some? ==> err.None?
  {
    calls, err, stop, taken := [], None, None, 0;
    var buf := new V[BATCH];
    var turn := 0;
    while true
      invariant taken <= |input| && err.None? && stop.None?
      invariant RunFused(c, input[..taken]) == Streamed(calls, None)
      decreases |input| - taken
    {
      var t := env(turn);
      turn := turn + 1;
      if t.interrupt.Some? {
        stop := t.interrupt;
        return;
      }
      if taken == |input| {
        assert input[..taken] == input;
        return;
      }
      var closed: bool;
      calls, err, taken, closed := RunBatch(c, buf, input, taken, t.ready, calls);
      if err.Some? {
        FusedSealed(c, input, taken);
        return;
      }
      if closed {
        assert input[..taken] == input;
        return;
      }
      if t.cancelled {
        stop := Some(ByCancel);
        return;
      }
      if t.drained {
        stop := Some(ByDrain);
        return;
      }
    }
  }

  // ------------------------------------------------------------------ equivalence

  /** No stage failed, or exactly one did and its error is `e`. */
  ghost predicate OnlyError(errs: seq<Option<Error>>, e: Option<Error>) {
    if e.None? then forall j :: 0 <= j < |errs| ==> errs[j].None?
    else exists j :: 0 <= j < |errs| && errs[j] == e && forall i :: 0 <= i < |errs| && i != j ==> errs[i].None?
  }

  lemma {:induction false} StageAppend<V>(op: Op<V>, xs: seq<V>, x: V)
    requires RunStage(op, xs).err.None?
    ensures RunStage(op, xs + [x]) ==
            match Step(op, x)
            case Dropped => RunStage(op, xs)
            case Passed(y) => Streamed(RunStage(op, xs).out + [y], None)
            case Broke(e) => Streamed(RunStage(op, xs).out, Some(e))
  {
    if xs == [] {
      assert xs + [x] == [x];
    } else {
      StageAppend(op, xs[1..], x);
      assert (xs + [x])[1..] == xs[1..] + [x];
    }
  }

  lemma {:induction false} SinkAppend<V>(sink: V -> Option<Error>, xs: seq<V>, x: V)
    requires RunSink(sink, xs).err.None?
    ensures RunSink(sink, xs + [x]) == Streamed(RunSink(sink, xs).out + [x], sink(x))
  {
    if xs == [] {
      assert xs + [x] == [x];
    } else {
      SinkAppend(sink, xs[1..], x);
      assert (xs + [x])[1..] == xs[1..] + [x];
    }
  }

  /** While no stage has failed, one more input item changes the separate stages exactly as pushing it does. */
  lemma {:induction false} StagesAppend<V>(c: Chain<V>, xs: seq<V>, x: V)
    requires OnlyError(RunStages(c, xs).errs, None)
    ensures RunStages(c, xs + [x]).calls == RunStages(c, xs).calls + Calls(Push(c, x))
    ensures OnlyError(RunStages(c, xs + [x]).errs, Push(c, x).err)
    decreases |c.ops|
  {
    if c.ops == [] {
      assert RunStages(c, xs).errs[0].None?;
      SinkAppend(c.sink, xs, x);
      assert RunStages(c, xs + [x]).errs[0] == c.sink(x);
    } else {
      var op, rest := c.ops[0], c.(ops := c.ops[1..]);
      var out := RunStage(op, xs).out;
      var errs := RunStages(rest, out).errs;
      assert RunStages(c, xs).errs == [RunStage(op, xs).err] + errs;
      assert RunStages(c, xs).errs[0].None?;
      assert forall j :: 0 <= j < |errs| ==> errs[j] == RunStages(c, xs).errs[j + 1];
      StageAppend(op, xs, x);
      match Step(op, x) {
        case Passed(y) =>
          StagesAppend(rest, out, y);
          ConsNone(RunStages(rest, out + [y]).errs, Push(c, x).err);
        case Dropped =>
          assert RunStages(c, xs).calls + [] == RunStages(c, xs).calls;
        case Broke(e) =>
          assert RunStages(c, xs).calls + [] == RunStages(c, xs).calls;
          assert RunStages(c, xs + [x]).errs == [Some(e)] + errs;
          assert ([Some(e)] + errs)[0] == Some(e);
      }
    }
  }

  lemma ConsNone(errs: seq<Option<Error>>, e: Option<Error>)
    requires OnlyError(errs, e)
    ensures OnlyError([None] + errs, e)
  {
    if e.Some? {
      var j :| 0 <= j < |errs| && errs[j] == e && forall i :: 0 <= i < |errs| && i != j ==> errs[i].None?;
      assert ([None] + errs)[j + 1] == e;
    }
  }

  /** How many input items the fused run consumes: all of them, or up to the first failing one. */
  function Consumed<V>(c: Chain<V>, xs: seq<V>): (n: nat)
    ensures n <= |xs|
  {
    if xs == [] then 0
    else if RunFused(c, xs[..|xs| - 1]).err.Some? then Consumed(c, xs[..|xs| - 1])
    else |xs|
  }

  /**
   * Every fused run is a run of the separate stages: fed the items the fused loop consumed, they make the
   * same sink calls, and none of them fails or exactly one does, with the fused loop's error.
   */
  lemma {:induction false} FusedIsAnUnfusedRun<V>(c: Chain<V>, xs: seq<V>)
    ensures var n := Consumed(c, xs);
            && RunFused(c, xs) == RunFused(c, xs[..n])
            && RunStages(c, xs[..n]).calls == RunFused(c, xs).out
            && OnlyError(RunStages(c, xs[..n]).errs, RunFused(c, xs).err)
            && (RunFused(c, xs).err.None? ==> n == |xs|)
    decreases |xs|
  {
    var n := Consumed(c, xs);
    if xs == [] {
      NothingIn(c);
      assert xs[..n] == [];
    } else {
      var init := xs[..|xs| - 1];
      FusedIsAnUnfusedRun(c, init);
      if RunFused(c, init).err.Some? {
        assert xs[..n] == init[..n];
      } else {
        assert init[..|init|] == init && xs[..n] == xs == init + [xs[|xs| - 1]];
        StagesAppend(c, init, xs[|xs| - 1]);
      }
    }
  }

  lemma {:induction false} NothingIn<V>(c: Chain<V>)
    ensures RunStages(c, []).calls == [] && OnlyError(RunStages(c, []).errs, None)
    decreases |c.ops|
  {
    if c.ops != [] {
      NothingIn(c.(ops := c.ops[1..]));
    }
  }

  /** The error of the most downstream stage that failed. */
  function LastError(errs: seq<Option<Error>>): Option<Error> {
    if errs == [] then None
    else if LastError(errs[1..]).Some? then LastError(errs[1..])
    else errs[0]
  }

  lemma {:induction false} LastOfOnly(errs: seq<Option<Error>>, e: Option<Error>)
    requires OnlyError(errs, e)
    ensures LastError(errs) == e
  {
    if errs != [] {
      if e.None? || errs[0].None? {
        assert OnlyError(errs[1..], e) by {
          if e.Some? {
            var j :| 0 <= j < |errs| && errs[j] == e && forall i :: 0 <= i < |errs| && i != j ==> errs[i].None?;
            assert errs[1..][j - 1] == e;
          }
        }
        LastOfOnly(errs[1..], e);
      } else {
        assert OnlyError(errs[1..], None);
        LastOfOnly(errs[1..], None);
      }
    }
  }

  /** Once a stage has failed, more input changes neither the sink calls nor the most downstream error. */
  lemma {:induction false} StagesSealed<V>(c: Chain<V>, xs: seq<V>, x: V)
    requires LastError(RunStages(c, xs).errs).Some?
    ensures RunStages(c, xs + [x]).calls == RunStages(c, xs).calls
    ensures LastError(RunStages(c, xs + [x]).errs) == LastError(RunStages(c, xs).errs)
    decreases |c.ops|
  {
    if c.ops == [] {
      assert RunStages(c, xs).errs[1..] == [];
      SinkSealed(c.sink, xs, x);
    } else {
      var op, rest := c.ops[0], c.(ops := c.ops[1..]);
      var r := RunStage(op, xs);
      assert RunStages(c, xs).errs[1..] == RunStages(rest, r.out).errs;
      assert RunStages(c, xs + [x]).errs[1..] == RunStages(rest, RunStage(op, xs + [x]).out).errs;
      if r.err.Some? {
        StageSealed(op, xs, x);
      } else {
        StageAppend(op, xs, x);
        if Step(op, x).Passed? {
          StagesSealed(rest, r.out, Step(op, x).value);
        }
      }
    }
  }

  lemma {:induction false} StageSealed<V>(op: Op<V>, xs: seq<V>, x: V)
    requires RunStage(op, xs).err.Some?
    ensures RunStage(op, xs + [x]) == RunStage(op, xs)
  {
    assert (xs + [x])[1..] == xs[1..] + [x];
    if !Step(op, xs[0]).Broke? {
      StageSealed(op, xs[1..], x);
    }
  }

  lemma {:induction false} SinkSealed<V>(sink: V -> Option<Error>, xs: seq<V>, x: V)
    requires RunSink(sink, xs).err.Some?
    ensures RunSink(sink, xs + [x]) == RunSink(sink, xs)
  {
    assert (xs + [x])[1..] == xs[1..] + [x];
    if sink(xs[0]).None? {
      SinkSealed(sink, xs[1..], x);
    }
  }

  /**
   * Meaning is preserved on the whole input: the separate stages left to run to their own ends make the
   * fused loop's sink calls, and the fused loop's error is the error of the most downstream failing stage.
   */
  lemma {:induction false} FusedEqualsStages<V>(c: Chain<V>, xs: seq<V>)
    ensures RunFused(c, xs) == Streamed(RunStages(c, xs).calls, LastError(RunStages(c, xs).errs))
    decreases |xs|
  {
    if xs == [] {
      NothingIn(c);
      LastOfOnly(RunStages(c, []).errs, None);
    } else {
      var init, x := xs[..|xs| - 1], xs[|xs| - 1];
      assert xs == init + [x];
      FusedEqualsStages(c, init);
      if RunFused(c, init).err.Some? {
        StagesSealed(c, init, x);
      } else {
        FusedIsAnUnfusedRun(c, init);
        assert init[..|init|] == init;
        StagesAppend(c, init, x);
        LastOfOnly(RunStages(c, xs).errs, Push(c, x).err);
      }
    }
  }

  // ------------------------------------------------------------------ a separate stage's own loop

  lemma {:induction false} StageStopped<V>(op: Op<V>, xs: seq<V>, n: nat)
    requires n <= |xs| && RunStage(op, xs[..n]).err.Some?
    ensures RunStage(op, xs) == RunStage(op, xs[..n])
    decreases |xs|
  {
    if n < |xs| {
      var init, x := xs[..|xs| - 1], xs[|xs| - 1];
      assert init[..n] == xs[..n] && xs == init + [x];
      StageStopped(op, init, n);
      StageSealed(op, init, x);
    } else {
      assert xs[..n] == xs;
    }
  }

  /** One more item, as the loop of a separate stage handles it. */
  lemma StageNext<V>(op: Op<V>, input: seq<V>, n: nat)
    requires n < |input| && RunStage(op, input[..n]).err.None?
    ensures RunStage(op, input[..n + 1]) ==
            match Step(op, input[n])
            case Dropped => RunStage(op, input[..n])
            case Passed(y) => Streamed(RunStage(op, input[..n]).out + [y], None)
            case Broke(e) => Streamed(RunStage(op, input[..n]).out, Some(e))
  {
    assert input[..n + 1] == input[..n] + [input[n]];
    StageAppend(op, input[..n], input[n]);
  }

  /**
   * The micro-batched loop of one separate Map or Filter stage: however the input falls into batches, it sends
   * what the stage makes of the items it took, and stops at the first failing one.
   */
  method StageLoop<V(0)>(op: Op<V>, input: seq<V>, env: nat -> Turn)
      returns (out: seq<V>, err: Option<Error>, stop: Option<Stop>, taken: nat)
    ensures taken <= |input|
    ensures RunStage(op, input[..taken]) == Streamed(out, err)
    ensures stop.None? ==> RunStage(op, input) == Streamed(out, err)
    ensures stop.Some? ==> err.None?
  {
    out, err, stop, taken := [], None, None, 0;
    var buf := new V[BATCH];
    var turn := 0;
    while true
      invariant taken <= |input| && err.None? && stop.None?
      invariant RunStage(op, input[..taken]) == Streamed(out, None)
      decreases |input| - taken
    {
      var t := env(turn);
      turn := turn + 1;
      if t.interrupt.Some? {
        stop := t.interrupt;
        return;
      }
      if taken == |input| {
        assert input[..taken] == input;
        return;
      }
      var n, closed := Fill(buf, input, taken, t.ready);
      ghost var start := taken;
      for i := 0 to n
        invariant taken == start + i && start + n <= |input| && err.None? && stop.None?
        invariant buf[..n] == input[start..start + n]
        invariant RunStage(op, input[..taken]) == Streamed(out, None)
      {
        assert buf[i] == buf[..n][i] == input[taken];
        StageNext(op, input, taken);
        match Step(op, buf[i]) {
          case Dropped => taken := taken + 1;
          case Passed(y) =>
            if op.MapOp? && t.refused == Some(i) {
              stop := Some(ByDrain);
              return;
            }
            out := out + [y];
            taken := taken + 1;
          case Broke(e) =>
            err := Some(e);
            taken := taken + 1;
            StageStopped(op, input, taken);
            return;
        }
      }
      if closed {
        assert input[..taken] == input;
        return;
      }
      if t.cancelled {
        stop := Some(ByCancel);
        return;
      }
      if t.drained {
        stop := Some(ByDrain);
        return;
      }
    }
  }

  // ------------------------------------------------------------------ the general serial path

  function Attempted<V>(f: V -> Res<V>, x: V): Handlers.Attempt<V> {
    match f(x)
    case Ok(y) => Handlers.Good(y)
    case Err(e) => Handlers.Bad(e)
  }

  /** What the serial Map with handler h makes of each item, when no item is retried. */
  function SerialPath<V>(h: Handlers.Handler<V>, f: V -> Res<V>, xs: seq<V>): (os: seq<Outcome<V>>)
    ensures |os| == |xs| && forall i :: 0 <= i < |xs| ==> os[i] == Handlers.Settle(h, Attempted(f, xs[i]), 0)
  {
    seq(|xs|, i requires 0 <= i < |xs| => Handlers.Settle(h, Attempted(f, xs[i]), 0))
  }

  lemma {:induction false} HaltingPathIsStage<V>(f: V -> Res<V>, xs: seq<V>, i: nat)
    requires i <= |xs|
    ensures SerialFrom(SerialPath(Handlers.Halt, f, xs), i) ==
              RunResult(RunStage(MapOp(f), xs[i..]).out, RunStage(MapOp(f), xs[i..]).err)
    decreases |xs| - i
  {
    if i < |xs| {
      HaltingPathIsStage(f, xs, i + 1);
      assert xs[i..][1..] == xs[i + 1..];
    }
  }

  /**
   * Where the fast path is chosen for a Map, the path it stands in for has the same run: no item is retried, no
   * restart happens, and the serial run under the resolved handler is the stage's.
   */
  lemma FastPathIsSerialPath<V>(cfg: Handlers.StageConfig<V>, pipelineDefault: Option<Handlers.Handler<V>>,
                                noopHook: bool,
                                f: V -> Res<V>, xs: seq<V>)
    requires Handlers.Eligible(cfg.(handler := Some(Handlers.Resolve(cfg, pipelineDefault))), noopHook)
    ensures var h := Handlers.Resolve(cfg, pipelineDefault);
            && (forall i :: 0 <= i < |xs| ==> !Handlers.Retried(h, Attempted(f, xs[i]), 0))
            && Serial(SerialPath(h, f, xs)) == RunResult(RunStage(MapOp(f), xs).out, RunStage(MapOp(f), xs).err)
            && !cfg.supervision.HasSupervision()
  {
    HaltingPathIsStage(f, xs, 0);
    assert xs[0..] == xs;
  }
}
