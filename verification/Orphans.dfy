/**
 * When the ordered keyed stages leave a slot behind: the exact inputs for which some schedule never returns, or returns
 * and leaks a goroutine.
 */
module Orphans {
  import opened Outcomes
  import opened KeyedSpec
  import opened Routing
  import opened KeyedOrdered
  import Lane

  lemma {:induction false} RunsThen<I, S, O>(c: Stage<I, S, O>, s: State<S, O>, a: seq<Step<S>>, b: seq<Step<S>>)
    requires c.Legal() && Runs(c, s, a) && Runs(c, Final(c, s, a), b)
    ensures Runs(c, s, a + b) && Final(c, s, a + b) == Final(c, Final(c, s, a), b)
    decreases |a|
  {
    if a == [] {
      assert a + b == b;
    } else {
      assert (a + b)[1..] == a[1..] + b;
      RunsThen(c, Apply(c, s, a[0]), a[1..], b);
    }
  }

  lemma RunsOne<I, S, O>(c: Stage<I, S, O>, s: State<S, O>, step: Step<S>)
    requires c.Legal() && Enabled(c, s, step)
    ensures Runs(c, s, [step]) && Final(c, s, [step]) == Apply(c, s, step)
  {
    var s' := Apply(c, s, step);
    assert [step][1..] == [] && Runs(c, s', []) && Final(c, s', []) == s';
  }

  /** One more step at the end of a run that kept the invariant. */
  lemma OneStep<I, S, O>(c: Stage<I, S, O>, s: State<S, O>, steps: seq<Step<S>>, step: Step<S>)
    requires c.Legal() && Runs(c, s, steps) && Inv(c, Final(c, s, steps)) && Enabled(c, Final(c, s, steps), step)
    ensures Runs(c, s, steps + [step]) && Final(c, s, steps + [step]) == Apply(c, Final(c, s, steps), step)
    ensures Inv(c, Apply(c, Final(c, s, steps), step))
  {
    StepKeepsInv(c, Final(c, s, steps), step);
    RunsOne(c, Final(c, s, steps), step);
    RunsThen(c, s, steps, [step]);
  }

  /** Nothing interferes from outside, and an orphan stays one. */
  lemma StepKeepsOrphan<I, S, O>(c: Stage<I, S, O>, s: State<S, O>, step: Step<S>)
    requires c.Legal() && Enabled(c, s, step) && Internal(step)
    ensures Apply(c, s, step).lane.external == s.lane.external
    ensures HasOrphan(s) ==> HasOrphan(Apply(c, s, step))
  {
  }

  /** The bound on the steps left after a run. */
  ghost function WorkAfter<I, S, O>(c: Stage<I, S, O>, steps: seq<Step<S>>): nat
    requires c.Legal() && Runs(c, Init<S, O>(c.n), steps)
  {
    InitInv(c);
    RunKeepsInv(c, Init<S, O>(c.n), steps);
    Work(c, Final(c, Init<S, O>(c.n), steps))
  }

  /** Every run can be continued by the stage's own steps until it can take no more. */
  lemma {:induction false} Exhaust<I, S(!new), O>(c: Stage<I, S, O>, steps: seq<Step<S>>) returns (all: seq<Step<S>>)
    requires c.Legal() && Runs(c, Init<S, O>(c.n), steps)
    ensures steps <= all && Maximal(c, all)
    ensures var s, end := Final(c, Init<S, O>(c.n), steps), Final(c, Init<S, O>(c.n), all);
            end.lane.external == s.lane.external && (HasOrphan(s) ==> HasOrphan(end))
    decreases WorkAfter(c, steps)
  {
    var s := Final(c, Init<S, O>(c.n), steps);
    InitInv(c);
    RunKeepsInv(c, Init<S, O>(c.n), steps);
    if step: Step<S> :| Internal(step) && Enabled(c, s, step) {
      StepDecreasesWork(c, s, step);
      StepKeepsOrphan(c, s, step);
      OneStep(c, Init<S, O>(c.n), steps, step);
      all := Exhaust(c, steps + [step]);
    } else {
      all := steps;
    }
  }

  // ------------------------------------------------------------------ runs that never return

  /** Whatever happens outside, every schedule the stage cannot extend has returned. */
  ghost predicate AlwaysReturns<I, S(!new), O>(c: Stage<I, S, O>)
    requires c.Legal()
  {
    forall steps :: Maximal(c, steps) ==> Final(c, Init<S, O>(c.n), steps).disp.Returned?
  }

  lemma EmptyInputReturns<I, S(!new), O>(c: Stage<I, S, O>, steps: seq<Step<S>>)
    requires c.Legal() && c.job.input == [] && Maximal(c, steps)
    ensures Final(c, Init<S, O>(c.n), steps).disp.Returned?
  {
    InitInv(c);
    RunKeepsInv(c, Init<S, O>(c.n), steps);
    QuietIffNoOrphan(c, steps);
  }

  lemma SomeItemMayBlock<I, S(!new), O>(c: Stage<I, S, O>) returns (steps: seq<Step<S>>)
    requires c.Legal() && c.job.input != []
    ensures Maximal(c, steps) && !Final(c, Init<S, O>(c.n), steps).disp.Returned?
  {
    var s0 := Init<S, O>(c.n);
    var five: seq<Step<S>> := [Read, QueueSlot, OuterCancel, Abort, InLane(Lane.Receive)];
    OrphanBlocksTheStage(c, []);
    InitInv(c);
    RunKeepsInv(c, s0, five);
    steps := Exhaust(c, five);
    var more := steps[5..];
    assert steps == five + more;
    RunsSplit(c, s0, five, more);
    OrphanBlocksTheStage(c, more);
  }

  lemma {:induction false} RunsSplit<I, S, O>(c: Stage<I, S, O>, s: State<S, O>, a: seq<Step<S>>, b: seq<Step<S>>)
    requires c.Legal() && Runs(c, s, a) && Runs(c, s, a + b)
    ensures Runs(c, Final(c, s, a), b) && Final(c, s, a + b) == Final(c, Final(c, s, a), b)
    decreases |a|
  {
    if a == [] {
      assert a + b == b;
    } else {
      assert (a + b)[1..] == a[1..] + b;
      RunsSplit(c, Apply(c, s, a[0]), a[1..], b);
    }
  }

  /** The stage returns in every run, cancelled or not, exactly when it has no item to read. */
  lemma AlwaysReturnsIffEmpty<I, S(!new), O>(c: Stage<I, S, O>)
    requires c.Legal()
    ensures AlwaysReturns(c) <==> c.job.input == []
  {
    if c.job.input == [] {
      forall steps | Maximal(c, steps)
        ensures Final(c, Init<S, O>(c.n), steps).disp.Returned?
      {
        EmptyInputReturns(c, steps);
      }
    } else {
      var steps := SomeItemMayBlock(c);
      assert Maximal(c, steps);
    }
  }

  // ------------------------------------------------------------------ runs that return and leak

  /** Nobody interferes, the stage can take no more steps, and yet some goroutine has not ended. */
  ghost predicate Leaks<I, S(!new), O>(c: Stage<I, S, O>, steps: seq<Step<S>>)
    requires c.Legal()
  {
    Maximal(c, steps) && !Final(c, Init<S, O>(c.n), steps).lane.external && !Quiet(Final(c, Init<S, O>(c.n), steps))
  }

  /** Undisturbed, the drainer fails only on an item that was routed and failed. */
  ghost predicate FailedFirst<I, S, O>(c: Stage<I, S, O>, s: State<S, O>) {
    !s.lane.external && (s.lane.cancelled || s.lane.pc.Cancelling?) ==>
      exists i :: 0 <= i < s.routed && i < |c.job.input| && c.job.ResultAt(i).Fail?
  }

  lemma TakenFailure<I, S, O>(c: Stage<I, S, O>, s: State<S, O>)
    requires Inv(c, s) && Lane.Enabled(s.lane, Lane.Take) && !s.lane.external && s.lane.cell[s.lane.pc.i].Fail?
    ensures s.lane.pc.i < s.routed && s.lane.pc.i < |c.job.input| && c.job.ResultAt(s.lane.pc.i).Fail?
  {
    var i := s.lane.pc.i;
    assert Lane.Progressing(c.job.Results(), s.lane);
    assert s.lane.cell[i] == c.job.Results()[i];
    assert !Pending(c, s, i);
  }

  lemma StepKeepsFailedFirst<I, S, O>(c: Stage<I, S, O>, s: State<S, O>, step: Step<S>)
    requires Inv(c, s) && FailedFirst(c, s) && Enabled(c, s, step)
    ensures FailedFirst(c, Apply(c, s, step))
  {
    if step.InLane? && step.step.Take? && !s.lane.external && s.lane.cell[s.lane.pc.i].Fail? {
      TakenFailure(c, s);
      assert c.job.ResultAt(s.lane.pc.i).Fail?;
    } else {
      OtherStepKeepsFailedFirst(c, s, step);
    }
  }

  lemma OtherStepKeepsFailedFirst<I, S, O>(c: Stage<I, S, O>, s: State<S, O>, step: Step<S>)
    requires c.Legal() && FailedFirst(c, s) && Enabled(c, s, step)
    requires step.InLane? && step.step.Take? && !s.lane.external ==> !s.lane.cell[s.lane.pc.i].Fail?
    ensures FailedFirst(c, Apply(c, s, step))
  {
  }

  lemma {:induction false} RunKeepsFailedFirst<I, S, O>(c: Stage<I, S, O>, s: State<S, O>, steps: seq<Step<S>>)
    requires Inv(c, s) && FailedFirst(c, s) && Runs(c, s, steps)
    ensures FailedFirst(c, Final(c, s, steps))
    decreases |steps|
  {
    if steps != [] {
      StepKeepsFailedFirst(c, s, steps[0]);
      StepKeepsInv(c, s, steps[0]);
      RunKeepsFailedFirst(c, Apply(c, s, steps[0]), steps[1..]);
    }
  }

  lemma LeakNeedsFailure<I, S(!new), O>(c: Stage<I, S, O>, steps: seq<Step<S>>) returns (i: nat)
    requires c.Legal() && Leaks(c, steps)
    ensures i < |c.job.input| - 1 && c.job.ResultAt(i).Fail?
  {
    var s0 := Init<S, O>(c.n);
    InitInv(c);
    RunKeepsInv(c, s0, steps);
    RunKeepsFailedFirst(c, s0, steps);
    QuietIffNoOrphan(c, steps);
    var s := Final(c, s0, steps);
    assert DispatcherInv(c, s);
    i :| 0 <= i < s.routed && i < |c.job.input| && c.job.ResultAt(i).Fail?;
  }

  // A run that leaks: everything before the lowest failing item is handled one by one; then the next item's slot is
  // queued before the drainer's cancellation makes the dispatcher give up.

  predicate Idle<I, S, O>(c: Stage<I, S, O>, s: State<S, O>) {
    |s.workers| == c.n && forall w :: 0 <= w < c.n ==> Free(s.workers[w]) && s.workers[w].core.chan == []
  }

  /** The first k items are handed through the dispatcher and the workers, and nobody has interfered or failed. */
  ghost predicate Through<I, S, O>(c: Stage<I, S, O>, s: State<S, O>, k: nat) {
    && Inv(c, s) && Idle(c, s)
    && s.read == s.routed == s.lane.queued == k && s.disp.Reading?
    && s.lane.slots == [] && s.lane.helper.Off? && !s.lane.cancelled && !s.lane.external
  }

  /** The dispatcher reads the next item, queues its slot and routes it. */
  lemma Dispatch<I, S, O>(c: Stage<I, S, O>, s: State<S, O>, k: nat) returns (steps: seq<Step<S>>)
    requires Inv(c, s) && s.disp.Reading? && s.read == s.routed == s.lane.queued == k < |c.job.input|
    requires s.lane.slots == [] && s.workers[c.OwnerOf(k)].core.chan == []
    ensures Runs(c, s, steps) && Inv(c, Final(c, s, steps))
    ensures Final(c, s, steps) == Dispatched(c, s, k)
  {
    var s1 := s.(read := k + 1, disp := NeedSlot);
    var s2 := s1.(lane := Lane.Queue(s.lane), disp := NeedRoute);
    RunsOne(c, s, Read);
    StepKeepsInv(c, s, Read);
    assert Final(c, s, [Read]) == s1;
    OneStep(c, s, [Read], QueueSlot);
    assert Final(c, s, [Read] + [QueueSlot]) == s2;
    OneStep(c, s, [Read] + [QueueSlot], Route);
    steps := [Read] + [QueueSlot] + [Route];
  }

  function Dispatched<I, S, O>(c: Stage<I, S, O>, s: State<S, O>, k: nat): State<S, O>
    requires c.Legal() && k < |c.job.input| && |s.workers| == c.n
  {
    var w := c.OwnerOf(k);
    State(k + 1, k + 1, Reading, s.workers[w := s.workers[w].(core := s.workers[w].core.Put(k))], Lane.Queue(s.lane))
  }

  /** Its worker receives it and fills the slot. */
  lemma Serve<I, S, O>(c: Stage<I, S, O>, s: State<S, O>, w: nat, k: nat) returns (steps: seq<Step<S>>)
    requires Inv(c, s) && w < c.n && k < |c.job.input| && Free(s.workers[w]) && s.workers[w].core.chan == [k]
    ensures Runs(c, s, steps) && Inv(c, Final(c, s, steps))
    ensures var s' := Final(c, s, steps);
            && s' == s.(workers := s'.workers, lane := s'.lane)
            && s'.lane == s.lane.(cell := s'.lane.cell) && k in s'.lane.cell
            && |s'.workers| == c.n && (forall v :: 0 <= v < c.n && v != w ==> s'.workers[v] == s.workers[v])
            && Free(s'.workers[w]) && s'.workers[w].core.chan == []
  {
    var worker := s.workers[w];
    var s1 := s.(workers := s.workers[w := worker.(core := worker.core.(hand := Some(k), chan := []))]);
    RunsOne(c, s, WorkerReceive(w));
    StepKeepsInv(c, s, WorkerReceive(w));
    assert Final(c, s, [WorkerReceive(w)]) == s1;
    OneStep(c, s, [WorkerReceive(w)], WorkerFill(w));
    steps := [WorkerReceive(w)] + [WorkerFill(w)];
  }

  /** The drainer takes the slot off the queue; what it finds there is the serial result. */
  lemma Fetch<I, S, O>(c: Stage<I, S, O>, s: State<S, O>, k: nat) returns (steps: seq<Step<S>>)
    requires Inv(c, s) && s.lane.pc.Receiving? && s.lane.slots == [k] && k < |c.job.input| && k in s.lane.cell
    requires !s.lane.cancelled
    ensures Runs(c, s, steps) && Inv(c, Final(c, s, steps))
    ensures Final(c, s, steps) == s.(lane := s.lane.(pc := Lane.Waiting(k), slots := []))
    ensures s.lane.cell[k] == c.job.ResultAt(k)
  {
    var step: Step<S> := InLane(Lane.Receive);
    RunsOne(c, s, step);
    StepKeepsInv(c, s, step);
    steps := [step];
    assert Lane.Progressing(c.job.Results(), s.lane);
  }

  /** The next item passes the dispatcher and its worker, up to the drainer. */
  lemma PassOne<I, S, O>(c: Stage<I, S, O>, s: State<S, O>, k: nat) returns (steps: seq<Step<S>>)
    requires Through(c, s, k) && s.lane.pc.Receiving? && k < |c.job.input|
    ensures Runs(c, s, steps) && Through(c, Final(c, s, steps), k + 1)
    ensures var l := Final(c, s, steps).lane; l.pc == Lane.Waiting(k) && k in l.cell && l.cell[k] == c.job.ResultAt(k)
  {
    steps := Dispatch(c, s, k);
    var s1 := Final(c, s, steps);
    var serve := Serve(c, s1, c.OwnerOf(k), k);
    var s2 := Final(c, s1, serve);
    RunsThen(c, s, steps, serve);
    steps := steps + serve;
    var fetch := Fetch(c, s2, k);
    RunsThen(c, s, steps, fetch);
    steps := steps + fetch;
  }

  /** The drainer sends what the item produced. */
  lemma {:induction false} SendAll<I, S, O>(c: Stage<I, S, O>, s: State<S, O>, k: nat) returns (steps: seq<Step<S>>)
    requires Through(c, s, k) && s.lane.pc.Sending?
    ensures Runs(c, s, steps) && Through(c, Final(c, s, steps), k) && Final(c, s, steps).lane.pc.Receiving?
    decreases |s.lane.pc.rest|
  {
    var step: Step<S> := InLane(Lane.Send);
    StepKeepsInv(c, s, step);
    RunsOne(c, s, step);
    steps := [step];
    if Apply(c, s, step).lane.pc.Sending? {
      var rest := SendAll(c, Apply(c, s, step), k);
      RunsThen(c, s, steps, rest);
      steps := steps + rest;
    }
  }

  lemma HandleOne<I, S, O>(c: Stage<I, S, O>, s: State<S, O>, k: nat) returns (steps: seq<Step<S>>)
    requires Through(c, s, k) && s.lane.pc.Receiving? && k < |c.job.input| && !c.job.ResultAt(k).Fail?
    ensures Runs(c, s, steps) && Through(c, Final(c, s, steps), k + 1) && Final(c, s, steps).lane.pc.Receiving?
  {
    steps := PassOne(c, s, k);
    OneStep(c, s, steps, InLane(Lane.Take));
    steps := steps + [InLane(Lane.Take)];
    var s' := Final(c, s, steps);
    if s'.lane.pc.Sending? {
      var rest := SendAll(c, s', k + 1);
      RunsThen(c, s, steps, rest);
      steps := steps + rest;
    }
  }

  lemma {:induction false} HandleFirst<I, S, O>(c: Stage<I, S, O>, k: nat) returns (steps: seq<Step<S>>)
    requires c.Legal() && k <= |c.job.input| && forall i :: 0 <= i < k ==> !c.job.ResultAt(i).Fail?
    ensures Runs(c, Init<S, O>(c.n), steps)
    ensures var s := Final(c, Init<S, O>(c.n), steps); Through(c, s, k) && s.lane.pc.Receiving?
  {
    var s0 := Init<S, O>(c.n);
    if k == 0 {
      InitInv(c);
      steps := [];
    } else {
      steps := HandleFirst(c, k - 1);
      var more := HandleOne(c, Final(c, s0, steps), k - 1);
      RunsThen(c, s0, steps, more);
      steps := steps + more;
    }
  }

  /** Item k fails; the slot of the next one is queued, and then the dispatcher learns of the failure. */
  lemma FailAndOrphan<I, S, O>(c: Stage<I, S, O>, s: State<S, O>, k: nat) returns (steps: seq<Step<S>>)
    requires Through(c, s, k) && s.lane.pc.Receiving? && k + 1 < |c.job.input| && c.job.ResultAt(k).Fail?
    ensures Runs(c, s, steps) && Inv(c, Final(c, s, steps)) && HasOrphan(Final(c, s, steps))
    ensures !Final(c, s, steps).lane.external
  {
    steps := PassOne(c, s, k);
    OneStep(c, s, steps, InLane(Lane.Take));
    steps := steps + [InLane(Lane.Take)];
    var orphan := Orphan(c, Final(c, s, steps));
    RunsThen(c, s, steps, orphan);
    steps := steps + orphan;
  }

  lemma Orphan<I, S, O>(c: Stage<I, S, O>, s: State<S, O>) returns (steps: seq<Step<S>>)
    requires Inv(c, s) && s.disp.Reading? && s.read < |c.job.input| && s.lane.slots == [] && s.lane.pc.Cancelling?
    requires !s.lane.external
    ensures Runs(c, s, steps) && Inv(c, Final(c, s, steps)) && HasOrphan(Final(c, s, steps))
    ensures !Final(c, s, steps).lane.external
  {
    var s1 := s.(read := s.read + 1, disp := NeedSlot);
    var s2 := s1.(lane := Lane.Queue(s.lane), disp := NeedRoute);
    RunsOne(c, s, Read);
    StepKeepsInv(c, s, Read);
    assert Final(c, s, [Read]) == s1;
    OneStep(c, s, [Read], QueueSlot);
    assert Final(c, s, [Read] + [QueueSlot]) == s2;
    OneStep(c, s, [Read] + [QueueSlot], InLane(Lane.Cancel));
    steps := [Read] + [QueueSlot] + [InLane(Lane.Cancel)];
    assert Final(c, s, steps).lane.cancelled;
    OneStep(c, s, steps, Abort);
    steps := steps + [Abort];
  }

  lemma FailureMayLeak<I, S(!new), O>(c: Stage<I, S, O>, k: nat) returns (steps: seq<Step<S>>)
    requires c.Legal() && k + 1 < |c.job.input| && c.job.ResultAt(k).Fail?
    requires forall i :: 0 <= i < k ==> !c.job.ResultAt(i).Fail?
    ensures Leaks(c, steps)
  {
    var s0 := Init<S, O>(c.n);
    steps := HandleFirst(c, k);
    var orphan := FailAndOrphan(c, Final(c, s0, steps), k);
    RunsThen(c, s0, steps, orphan);
    steps := steps + orphan;
    steps := Exhaust(c, steps);
    QuietIffNoOrphan(c, steps);
  }

  lemma {:induction false} LowestFailure<I, S, O>(c: Stage<I, S, O>, i: nat) returns (k: nat)
    requires i < |c.job.input| && c.job.ResultAt(i).Fail?
    ensures k <= i && c.job.ResultAt(k).Fail? && forall j :: 0 <= j < k ==> !c.job.ResultAt(j).Fail?
  {
    if j :| 0 <= j < i && c.job.ResultAt(j).Fail? {
      k := LowestFailure(c, j);
    } else {
      k := i;
    }
  }

  /**
   * Without any cancellation from outside the stage returns, but it may leave the goroutine that empties the slots
   * behind, blocked on an orphan: some run does so exactly when an item other than the last one fails.
   */
  lemma LeaksIffFailureBeforeLast<I, S(!new), O>(c: Stage<I, S, O>)
    requires c.Legal()
    ensures (exists steps :: Leaks(c, steps)) <==> (exists i :: 0 <= i < |c.job.input| - 1 && c.job.ResultAt(i).Fail?)
  {
    if steps :| Leaks(c, steps) {
      var i := LeakNeedsFailure(c, steps);
    }
    if i :| 0 <= i < |c.job.input| - 1 && c.job.ResultAt(i).Fail? {
      var k := LowestFailure(c, i);
      var steps := FailureMayLeak(c, k);
      assert Leaks(c, steps);
    }
  }
}
