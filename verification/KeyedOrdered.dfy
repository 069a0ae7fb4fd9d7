/**
 * MapWithKey and FlatMapWithKey with `Concurrency(n)` and `Ordered()`: a dispatcher queues one slot per
 * item and routes the item to the worker that owns its key; workers keep their keys' state in maps of
 * their own and fill the slots; the ordered lane emits the slots in input order.
 */
module KeyedOrdered {
  import opened Outcomes
  import opened Sharding
  import opened KeyedSpec
  import opened Routing
  import opened Sums
  import Lane

  datatype DispatcherPc = Reading | NeedSlot | NeedRoute | Joining | Awaiting | Returned(err: Option<Error>)

  /** `interrupted` records the first item whose retry wait was cut short by cancellation, if any. */
  datatype Worker<+S> = Worker(core: Core<S>, exited: bool, interrupted: Option<nat>)

  datatype State<+S, +O> = State(
    read: nat,                     // items received from the input channel
    routed: nat,                   // items handed to a worker channel
    disp: DispatcherPc,
    workers: seq<Worker<S>>,
    lane: Lane.Lane<O>)

  function Init<S, O>(n: nat): State<S, O> {
    State(0, 0, Reading, seq(n, _ => Worker(EmptyCore(), false, None)), Lane.Empty())
  }

  datatype Step<+S> =
    | Read | ReadClosed | QueueSlot | Route | Abort | CloseSlots | ReturnReport
    | WorkerReceive(w: nat) | WorkerFill(w: nat) | WorkerInterrupt(w: nat, left: S) | WorkerExit(w: nat)
    | InLane(step: Lane.LaneStep)
    | OuterCancel | CooperativeDrain

  predicate Dispatching(d: DispatcherPc) {
    d.Reading? || d.NeedSlot? || d.NeedRoute?
  }

  predicate Free<S>(worker: Worker<S>) {
    !worker.exited && worker.core.hand.None?
  }

  predicate Holds<I, S, O>(c: Stage<I, S, O>, worker: Worker<S>) {
    !worker.exited && worker.core.hand.Some? && worker.core.hand.value < |c.job.input|
  }

  predicate Enabled<I, S, O>(c: Stage<I, S, O>, s: State<S, O>, step: Step<S>)
    requires c.Legal()
  {
    match step
    case Read => s.disp.Reading? && s.read < |c.job.input|
    case ReadClosed => s.disp.Reading? && s.read == |c.job.input|
    case QueueSlot => s.disp.NeedSlot? && |s.lane.slots| < 2 * c.n
    case Route =>
      && s.disp.NeedRoute? && s.routed < |c.job.input| && c.OwnerOf(s.routed) < |s.workers|
      && |s.workers[c.OwnerOf(s.routed)].core.chan| < c.buffer + 1
    case Abort => s.lane.cancelled && Dispatching(s.disp)
    case CloseSlots => s.disp.Joining? && forall w :: 0 <= w < |s.workers| ==> s.workers[w].exited
    case ReturnReport => s.disp.Awaiting? && s.lane.report.Some?
    case WorkerReceive(w) => w < |s.workers| && Free(s.workers[w]) && s.workers[w].core.chan != []
    case WorkerFill(w) => w < |s.workers| && Holds(c, s.workers[w])
    case WorkerInterrupt(w, _) => w < |s.workers| && Holds(c, s.workers[w]) && s.lane.cancelled
    case WorkerExit(w) =>
      w < |s.workers| && Free(s.workers[w]) && s.workers[w].core.chan == [] && !Dispatching(s.disp)
    case InLane(t) => Lane.Enabled(s.lane, t)
    case OuterCancel => !s.lane.external
    case CooperativeDrain => s.disp.Reading?
  }

  function FirstOf(interrupted: Option<nat>, i: nat): Option<nat> {
    if interrupted.Some? then interrupted else Some(i)
  }

  function Apply<I, S, O>(c: Stage<I, S, O>, s: State<S, O>, step: Step<S>): State<S, O>
    requires c.Legal() && Enabled(c, s, step)
  {
    match step
    case Read => s.(read := s.read + 1, disp := NeedSlot)
    case ReadClosed => s.(disp := Joining)
    case QueueSlot => s.(lane := Lane.Queue(s.lane), disp := NeedRoute)
    case Route =>
      var w := c.OwnerOf(s.routed);
      s.(workers := s.workers[w := s.workers[w].(core := s.workers[w].core.Put(s.routed))],
         routed := s.routed + 1, disp := Reading)
    case Abort => s.(disp := Joining)
    case CloseSlots => s.(disp := Awaiting, lane := Lane.Close(s.lane))
    case ReturnReport => s.(disp := Returned(s.lane.report.value))
    case WorkerReceive(w) => s.(workers := s.workers[w := s.workers[w].(core := s.workers[w].core.Receive())])
    case WorkerFill(w) =>
      var (core, outcome) := Handle(c, s.workers[w].core);
      s.(workers := s.workers[w := s.workers[w].(core := core)],
         lane := Lane.Fill(s.lane, s.workers[w].core.hand.value, outcome))
    case WorkerInterrupt(w, left) =>
      var worker, i := s.workers[w], s.workers[w].core.hand.value;
      s.(workers := s.workers[w := worker.(core := Interrupt(c, worker.core, left),
                                          interrupted := FirstOf(worker.interrupted, i))],
         lane := Lane.Fill(s.lane, i, Fail(Canceled)))
    case WorkerExit(w) => s.(workers := s.workers[w := s.workers[w].(exited := true)])
    case InLane(t) => s.(lane := Lane.Apply(s.lane, t))
    case OuterCancel => s.(lane := Lane.CancelFromOutside(s.lane))
    case CooperativeDrain => s.(disp := Joining, lane := Lane.CancelFromOutside(s.lane))
  }

  /** `steps` is a schedule that can be run from `s`. */
  predicate Runs<I, S, O>(c: Stage<I, S, O>, s: State<S, O>, steps: seq<Step<S>>)
    requires c.Legal()
    decreases |steps|
  {
    steps == [] || (Enabled(c, s, steps[0]) && Runs(c, Apply(c, s, steps[0]), steps[1..]))
  }

  function Final<I, S, O>(c: Stage<I, S, O>, s: State<S, O>, steps: seq<Step<S>>): State<S, O>
    requires c.Legal() && Runs(c, s, steps)
    decreases |steps|
  {
    if steps == [] then s else Final(c, Apply(c, s, steps[0]), steps[1..])
  }

  // ------------------------------------------------------------------ invariant

  ghost predicate InterruptInv<S, O>(worker: Worker<S>, routed: nat, l: Lane.Lane<O>) {
    worker.interrupted.Some? ==>
      && l.cancelled
      && worker.interrupted.value < worker.core.Horizon(routed)
      && (Lane.Active(l) ==> worker.interrupted.value in l.cell && l.cell[worker.interrupted.value].Fail?
                             && Lane.Position(l) <= worker.interrupted.value)
  }

  ghost predicate WorkerInv<I, S, O>(c: Stage<I, S, O>, s: State<S, O>, w: nat)
    requires c.Legal() && w < |s.workers|
  {
    && ChanInv(c, w, s.workers[w].core, s.routed)
    && (s.workers[w].interrupted.None? ==> RefsInv(c, w, s.workers[w].core, s.routed))
    && InterruptInv(s.workers[w], s.routed, s.lane)
    && (s.workers[w].exited ==> !Dispatching(s.disp) && s.workers[w].core.hand.None? && s.workers[w].core.chan == [])
    && (s.disp.Awaiting? || s.disp.Returned? ==> s.workers[w].exited)
  }

  /** Items whose slot somebody still has to fill: in a worker's hands, or queued and not routed yet. */
  predicate Pending<I, S, O>(c: Stage<I, S, O>, s: State<S, O>, i: nat)
    requires c.Legal() && i < |c.job.input| && |s.workers| == c.n
  {
    s.routed <= i || s.workers[c.OwnerOf(i)].core.InHand(i)
  }

  ghost predicate DispatcherInv<I, S, O>(c: Stage<I, S, O>, s: State<S, O>) {
    && s.routed <= s.lane.queued <= s.routed + 1
    && s.lane.queued <= s.read <= |c.job.input|
    && (s.disp.Reading? ==> s.read == s.lane.queued == s.routed)
    && (s.disp.NeedSlot? ==> s.read == s.lane.queued + 1 && s.lane.queued == s.routed)
    && (s.disp.NeedRoute? ==> s.read == s.lane.queued == s.routed + 1)
    && (!Dispatching(s.disp) && !s.lane.cancelled ==> s.routed == |c.job.input|)
    && (s.lane.closed <==> s.disp.Awaiting? || s.disp.Returned?)
    && |s.lane.slots| <= 2 * c.n
    && (s.disp.Returned? ==> s.lane.report == Some(s.disp.err))
  }

  ghost predicate SlotsInv<I, S, O>(c: Stage<I, S, O>, s: State<S, O>)
    requires c.Legal() && |s.workers| == c.n && s.lane.queued <= |c.job.input|
  {
    && (forall i: nat :: i < s.lane.queued && Lane.Owed(s.lane, i) ==> i in s.lane.cell || Pending(c, s, i))
    && (forall i: nat :: i < s.lane.queued && Pending(c, s, i) ==>
          i !in s.lane.cell && (Lane.Active(s.lane) ==> Lane.Position(s.lane) <= i))
  }

  ghost predicate Inv<I, S, O>(c: Stage<I, S, O>, s: State<S, O>) {
    && c.Legal()
    && |s.workers| == c.n
    && Lane.Inv(c.job.Results(), s.lane)
    && DispatcherInv(c, s)
    && SlotsInv(c, s)
    && forall w :: 0 <= w < c.n ==> WorkerInv(c, s, w)
  }

  lemma InitInv<I, S, O>(c: Stage<I, S, O>)
    requires c.Legal()
    ensures Inv(c, Init<S, O>(c.n))
  {
    Lane.EmptyInv(c.job.Results());
  }

  /** Steps that touch neither the workers nor what the lane holds. */
  predicate Plain<S>(step: Step<S>) {
    step.Read? || step.ReadClosed? || step.Abort? || step.ReturnReport? || step.CloseSlots? || step.OuterCancel?
    || step.CooperativeDrain?
  }

  lemma PlainStepKeepsInv<I, S, O>(c: Stage<I, S, O>, s: State<S, O>, step: Step<S>)
    requires Inv(c, s) && Enabled(c, s, step) && Plain(step)
    ensures Inv(c, Apply(c, s, step))
  {
    var os, s' := c.job.Results(), Apply(c, s, step);
    if step.CloseSlots? {
      Lane.CloseKeepsInv(os, s.lane);
    } else if step.OuterCancel? || step.CooperativeDrain? {
      Lane.CancelKeepsInv(os, s.lane);
    }
    PlainStepKeepsSlots(c, s, step);
    forall w | 0 <= w < c.n
      ensures WorkerInv(c, s', w)
    {
      assert WorkerInv(c, s, w);
      PlainStepKeepsWorker(c, s, step, w);
    }
  }

  lemma PlainStepKeepsSlots<I, S, O>(c: Stage<I, S, O>, s: State<S, O>, step: Step<S>)
    requires c.Legal() && |s.workers| == c.n && s.lane.queued <= |c.job.input| && SlotsInv(c, s)
    requires Enabled(c, s, step) && Plain(step)
    ensures SlotsInv(c, Apply(c, s, step))
  {
    var s' := Apply(c, s, step);
    assert forall i: nat :: i < s'.lane.queued && Pending(c, s', i) ==> Pending(c, s, i);
    assert forall i: nat :: Lane.Owed(s'.lane, i) ==> Lane.Owed(s.lane, i);
    assert forall i: nat :: i < s.lane.queued && Pending(c, s, i) ==> Pending(c, s', i);
  }

  lemma PlainStepKeepsWorker<I, S, O>(c: Stage<I, S, O>, s: State<S, O>, step: Step<S>, w: nat)
    requires c.Legal() && w < |s.workers| && Enabled(c, s, step) && Plain(step) && WorkerInv(c, s, w)
    ensures WorkerInv(c, Apply(c, s, step), w)
  {
  }

  lemma QueueSlotKeepsInv<I, S, O>(c: Stage<I, S, O>, s: State<S, O>)
    requires Inv(c, s) && Enabled(c, s, QueueSlot)
    ensures Inv(c, Apply(c, s, QueueSlot))
  {
    var s' := Apply(c, s, QueueSlot);
    Lane.QueueKeepsInv(c.job.Results(), s.lane);
    forall i: nat | i < s'.lane.queued && Lane.Owed(s'.lane, i)
      ensures i in s'.lane.cell || Pending(c, s', i)
    {
      if i < s.lane.queued {
        assert Lane.Owed(s.lane, i);
        assert i in s.lane.cell || Pending(c, s, i);
      }
    }
    forall i: nat | i < s'.lane.queued && Pending(c, s', i)
      ensures i !in s'.lane.cell && (Lane.Active(s'.lane) ==> Lane.Position(s'.lane) <= i)
    {
      if i < s.lane.queued {
        assert Pending(c, s, i);
      }
    }
    forall w | 0 <= w < c.n
      ensures WorkerInv(c, s', w)
    {
      assert WorkerInv(c, s, w);
    }
  }

  lemma WorkerExitKeepsInv<I, S, O>(c: Stage<I, S, O>, s: State<S, O>, w: nat)
    requires Inv(c, s) && Enabled(c, s, WorkerExit(w))
    ensures Inv(c, Apply(c, s, WorkerExit(w)))
  {
    var s' := Apply(c, s, WorkerExit(w));
    assert WorkerInv(c, s, w);
    HandsUnchanged(c, s, s');
    forall v | 0 <= v < c.n
      ensures WorkerInv(c, s', v)
    {
      assert WorkerInv(c, s, v);
    }
  }

  /** When nobody's hands change, neither do the lane's debts. */
  lemma HandsUnchanged<I, S, O>(c: Stage<I, S, O>, s: State<S, O>, s': State<S, O>)
    requires c.Legal() && |s.workers| == |s'.workers| == c.n
    requires s.lane.queued <= |c.job.input| && SlotsInv(c, s)
    requires s'.lane == s.lane && s'.routed == s.routed
    requires forall w, i: nat :: 0 <= w < c.n ==> (s'.workers[w].core.InHand(i) <==> s.workers[w].core.InHand(i))
    ensures SlotsInv(c, s')
  {
    assert forall i: nat :: i < s.lane.queued ==> (Pending(c, s', i) <==> Pending(c, s, i));
  }

  lemma WorkerReceiveKeepsInv<I, S, O>(c: Stage<I, S, O>, s: State<S, O>, w: nat)
    requires Inv(c, s) && Enabled(c, s, WorkerReceive(w))
    ensures Inv(c, Apply(c, s, WorkerReceive(w)))
  {
    var s' := Apply(c, s, WorkerReceive(w));
    assert WorkerInv(c, s, w);
    ReceiveKeeps(c, w, s.workers[w].core, s.routed);
    HandsUnchanged(c, s, s');
    forall v | 0 <= v < c.n
      ensures WorkerInv(c, s', v)
    {
      assert WorkerInv(c, s, v);
    }
  }

  lemma RouteKeepsInv<I, S, O>(c: Stage<I, S, O>, s: State<S, O>)
    requires Inv(c, s) && Enabled(c, s, Route)
    ensures Inv(c, Apply(c, s, Route))
  {
    var s', owner := Apply(c, s, Route), c.OwnerOf(s.routed);
    assert SlotsInv(c, s') by {
      assert WorkerInv(c, s, owner);
      PutKeepsOwner(c, owner, s.workers[owner].core, s.routed);
      assert forall i: nat :: i < s.lane.queued ==> (Pending(c, s', i) <==> Pending(c, s, i));
    }
    forall w | 0 <= w < c.n
      ensures WorkerInv(c, s', w)
    {
      RouteKeepsWorker(c, s, w);
    }
  }

  lemma RouteKeepsWorker<I, S, O>(c: Stage<I, S, O>, s: State<S, O>, w: nat)
    requires c.Legal() && |s.workers| == c.n && Enabled(c, s, Route) && w < c.n && WorkerInv(c, s, w)
    ensures WorkerInv(c, Apply(c, s, Route), w)
  {
    if w == c.OwnerOf(s.routed) {
      PutKeepsOwner(c, w, s.workers[w].core, s.routed);
    } else {
      PutKeepsOther(c, w, s.workers[w].core, s.routed);
    }
  }

  /** Filling the slot in hand pays the lane's debt for that item and for no other. */
  lemma FillKeepsSlots<I, S, O>(c: Stage<I, S, O>, s: State<S, O>, w: nat, next: Worker<S>, o: Outcome<O>)
    requires Inv(c, s) && w < c.n && Holds(c, s.workers[w])
    requires next.core.hand.None? && next.core.chan == s.workers[w].core.chan
    ensures var i := s.workers[w].core.hand.value;
            && Pending(c, s, i) && i < s.lane.queued
            && SlotsInv(c, s.(workers := s.workers[w := next], lane := Lane.Fill(s.lane, i, o)))
  {
    var i := s.workers[w].core.hand.value;
    var s' := s.(workers := s.workers[w := next], lane := Lane.Fill(s.lane, i, o));
    assert WorkerInv(c, s, w) && s.workers[w].core.InHand(i);
    HandledChan(c, w, s.workers[w].core, next.core, s.routed);
    forall j: nat | j < s.lane.queued
      ensures Pending(c, s', j) <==> Pending(c, s, j) && j != i
    {
    }
    assert forall j: nat :: Lane.Owed(s'.lane, j) <==> Lane.Owed(s.lane, j);
  }

  lemma FillKeepsOthers<I, S, O>(c: Stage<I, S, O>, s: State<S, O>, s': State<S, O>, w: nat, i: nat, o: Outcome<O>)
    requires Inv(c, s) && w < c.n && i !in s.lane.cell
    requires s' == s.(workers := s'.workers, lane := Lane.Fill(s.lane, i, o))
    requires |s'.workers| == c.n && forall v :: 0 <= v < c.n && v != w ==> s'.workers[v] == s.workers[v]
    ensures forall v :: 0 <= v < c.n && v != w ==> WorkerInv(c, s', v)
  {
    forall v | 0 <= v < c.n && v != w
      ensures WorkerInv(c, s', v)
    {
      assert WorkerInv(c, s, v);
    }
  }

  lemma WorkerFillKeepsInv<I, S, O>(c: Stage<I, S, O>, s: State<S, O>, w: nat)
    requires Inv(c, s) && Enabled(c, s, WorkerFill(w))
    ensures Inv(c, Apply(c, s, WorkerFill(w)))
  {
    var s', i := Apply(c, s, WorkerFill(w)), s.workers[w].core.hand.value;
    var o := Handle(c, s.workers[w].core).1;
    FillKeepsSlots(c, s, w, s'.workers[w], o);
    FillKeepsOthers(c, s, s', w, i, o);
    FillKeepsFiller(c, s, w);
  }

  lemma FillKeepsFiller<I, S, O>(c: Stage<I, S, O>, s: State<S, O>, w: nat)
    requires Inv(c, s) && Enabled(c, s, WorkerFill(w)) && Pending(c, s, s.workers[w].core.hand.value)
    requires s.workers[w].core.hand.value < s.lane.queued
    ensures var s' := Apply(c, s, WorkerFill(w));
            WorkerInv(c, s', w) && Lane.Inv(c.job.Results(), s'.lane)
  {
    var s', worker := Apply(c, s, WorkerFill(w)), s.workers[w];
    var i := worker.core.hand.value;
    assert WorkerInv(c, s, w);
    HandledChan(c, w, worker.core, s'.workers[w].core, s.routed);
    if worker.interrupted.None? {
      HandledRefs(c, w, worker.core, s.routed);
    } else if Lane.Active(s.lane) {
      assert worker.interrupted.value in s'.lane.cell && s'.lane.cell[worker.interrupted.value].Fail?;
      assert Lane.Poisoned(s'.lane, i);
    }
    Lane.FillKeepsInv(c.job.Results(), s.lane, i, Handle(c, worker.core).1);
  }

  lemma WorkerInterruptKeepsInv<I, S, O>(c: Stage<I, S, O>, s: State<S, O>, w: nat, left: S)
    requires Inv(c, s) && Enabled(c, s, WorkerInterrupt(w, left))
    ensures Inv(c, Apply(c, s, WorkerInterrupt(w, left)))
  {
    var s', i := Apply(c, s, WorkerInterrupt(w, left)), s.workers[w].core.hand.value;
    assert WorkerInv(c, s, w);
    FillKeepsSlots(c, s, w, s'.workers[w], Fail(Canceled));
    FillKeepsOthers(c, s, s', w, i, Fail(Canceled));
    HandledChan(c, w, s.workers[w].core, s'.workers[w].core, s.routed);
    assert i in s'.lane.cell && s'.lane.cell[i].Fail?;
    Lane.FillKeepsInv(c.job.Results(), s.lane, i, Fail(Canceled));
    assert WorkerInv(c, s', w);
  }

  lemma LaneStepKeepsInv<I, S, O>(c: Stage<I, S, O>, s: State<S, O>, t: Lane.LaneStep)
    requires Inv(c, s) && Enabled(c, s, InLane(t))
    ensures Inv(c, Apply(c, s, InLane(t)))
  {
    var s' := Apply(c, s, InLane(t));
    Lane.StepKeepsInv(c.job.Results(), s.lane, t);
    Lane.StepFrame(c.job.Results(), s.lane, t);
    assert forall i: nat :: i < s.lane.queued ==> (Pending(c, s', i) <==> Pending(c, s, i));
    forall w | 0 <= w < c.n
      ensures WorkerInv(c, s', w)
    {
      assert WorkerInv(c, s, w);
      var j := s.workers[w].interrupted;
      if j.Some? && Lane.Active(s'.lane) {
        Lane.FailureStays(c.job.Results(), s.lane, t, j.value);
      }
    }
  }

  lemma StepKeepsInv<I, S, O>(c: Stage<I, S, O>, s: State<S, O>, step: Step<S>)
    requires Inv(c, s) && Enabled(c, s, step)
    ensures Inv(c, Apply(c, s, step))
  {
    match step
    case QueueSlot => QueueSlotKeepsInv(c, s);
    case Route => RouteKeepsInv(c, s);
    case WorkerReceive(w) => WorkerReceiveKeepsInv(c, s, w);
    case WorkerFill(w) => WorkerFillKeepsInv(c, s, w);
    case WorkerInterrupt(w, left) => WorkerInterruptKeepsInv(c, s, w, left);
    case WorkerExit(w) => WorkerExitKeepsInv(c, s, w);
    case InLane(t) => LaneStepKeepsInv(c, s, t);
    case _ => PlainStepKeepsInv(c, s, step);
  }

  lemma {:induction false} RunKeepsInv<I, S, O>(c: Stage<I, S, O>, s: State<S, O>, steps: seq<Step<S>>)
    requires Inv(c, s) && Runs(c, s, steps)
    ensures Inv(c, Final(c, s, steps))
    decreases |steps|
  {
    if steps != [] {
      StepKeepsInv(c, s, steps[0]);
      RunKeepsInv(c, Apply(c, s, steps[0]), steps[1..]);
    }
  }

  // ------------------------------------------------------------------ main results: values

  /**
   * In every schedule the output is a prefix of the serial run's, and when nobody outside interferes the
   * stage returns exactly the serial run's output and error. After a run without error every key is left
   * with the state the serial run leaves it.
   */
  lemma EveryScheduleIsSerial<I, S, O>(c: Stage<I, S, O>, steps: seq<Step<S>>)
    requires c.Legal() && Runs(c, Init<S, O>(c.n), steps)
    ensures var s := Final(c, Init<S, O>(c.n), steps);
            && s.lane.out <= Serial(c.job.Results()).out
            && (s.disp.Returned? && !s.lane.external ==>
                  RunResult(s.lane.out, s.disp.err) == Serial(c.job.Results()))
            && (s.disp.Returned? && !s.lane.external && s.disp.err.None? ==>
                  |s.workers| == c.n
                  && forall k: Key ::
                       RefAt(s.workers[Owner(k, c.n)].core.refs, k, c.job.initial) == c.job.StateAt(|c.job.input|, k))
  {
    InitInv(c);
    RunKeepsInv(c, Init<S, O>(c.n), steps);
    var s := Final(c, Init<S, O>(c.n), steps);
    Lane.OutputIsPrefix(c.job.Results(), s.lane);
    assert s.lane.report.Some? ==> s.lane.pc.Stopped?;
    if s.disp.Returned? && !s.lane.external && s.disp.err.None? {
      forall k: Key
        ensures RefAt(s.workers[Owner(k, c.n)].core.refs, k, c.job.initial) == c.job.StateAt(|c.job.input|, k)
      {
        assert WorkerInv(c, s, Owner(k, c.n));
      }
    }
  }

  // ------------------------------------------------------------------ main results: progress

  /** The stage function returned and every goroutine it started has ended. */
  ghost predicate Quiet<S, O>(s: State<S, O>) {
    s.disp.Returned? && Lane.Finished(s.lane) && forall w :: 0 <= w < |s.workers| ==> s.workers[w].exited
  }

  predicate Internal<S>(step: Step<S>) {
    !step.OuterCancel? && !step.CooperativeDrain?
  }

  /** A slot was queued and its item will never reach a worker: the dispatcher gave up in between. */
  predicate HasOrphan<S, O>(s: State<S, O>) {
    s.routed < s.lane.queued && !Dispatching(s.disp)
  }

  /** Somebody waits for the slot that is queued but not routed. */
  ghost predicate OrphanOwed<S, O>(s: State<S, O>) {
    s.routed < s.lane.queued ==> Lane.Owed(s.lane, s.routed)
  }

  lemma StepKeepsOrphanOwed<I, S, O>(c: Stage<I, S, O>, s: State<S, O>, step: Step<S>)
    requires Inv(c, s) && OrphanOwed(s) && Enabled(c, s, step)
    ensures OrphanOwed(Apply(c, s, step))
  {
    var s' := Apply(c, s, step);
    match step
    case QueueSlot => assert s'.lane.slots[|s.lane.slots|] == s.routed;
    case InLane(t) =>
      if s.routed < s.lane.queued {
        assert Pending(c, s, s.routed);
        OwedStays(s.lane, t, s.routed);
      }
    case _ =>
  }

  /** A slot nobody filled stays owed. */
  lemma OwedStays<O>(l: Lane.Lane<O>, t: Lane.LaneStep, i: nat)
    requires Lane.Enabled(l, t) && Lane.Owed(l, i) && i !in l.cell && (l.pc.Cancelling? ==> l.helper.Off?)
    ensures Lane.Owed(Lane.Apply(l, t), i)
  {
    if i in l.slots {
      assert l.slots == [l.slots[0]] + l.slots[1..];
    }
  }

  lemma {:induction false} RunKeepsOrphanOwed<I, S, O>(c: Stage<I, S, O>, s: State<S, O>, steps: seq<Step<S>>)
    requires Inv(c, s) && OrphanOwed(s) && Runs(c, s, steps)
    ensures OrphanOwed(Final(c, s, steps))
    decreases |steps|
  {
    if steps != [] {
      StepKeepsInv(c, s, steps[0]);
      StepKeepsOrphanOwed(c, s, steps[0]);
      RunKeepsOrphanOwed(c, Apply(c, s, steps[0]), steps[1..]);
    }
  }

  /** Without an orphan slot the stage can always take a step until everything has ended. */
  lemma NeverStuckWithoutOrphan<I, S, O>(c: Stage<I, S, O>, s: State<S, O>) returns (step: Step<S>)
    requires Inv(c, s) && !Quiet(s) && !HasOrphan(s)
    ensures Internal(step) && Enabled(c, s, step)
  {
    if w :| 0 <= w < c.n && s.workers[w].core.hand.Some? {
      assert WorkerInv(c, s, w) && s.workers[w].core.InHand(s.workers[w].core.hand.value);
      return WorkerFill(w);
    }
    if w :| 0 <= w < c.n && s.workers[w].core.chan != [] {
      assert WorkerInv(c, s, w);
      return WorkerReceive(w);
    }
    assert forall i: nat :: i < s.routed ==> !Pending(c, s, i);
    match s.disp
    case Reading => step := if s.read < |c.job.input| then Read else ReadClosed;
    case NeedRoute => step := Route;
    case NeedSlot =>
      if |s.lane.slots| < 2 * c.n {
        step := QueueSlot;
      } else {
        var t := Lane.LaneProgress(c.job.Results(), s.lane);
        step := InLane(t);
      }
    case Joining =>
      if w :| 0 <= w < c.n && !s.workers[w].exited {
        step := WorkerExit(w);
      } else {
        step := CloseSlots;
      }
    case Awaiting =>
      if s.lane.report.Some? {
        step := ReturnReport;
      } else {
        var t := Lane.LaneProgress(c.job.Results(), s.lane);
        step := InLane(t);
      }
    case Returned(_) =>
      forall w | 0 <= w < c.n
        ensures s.workers[w].exited
      {
        assert WorkerInv(c, s, w);
      }
      assert !Lane.Finished(s.lane);
      var t := Lane.LaneProgress(c.job.Results(), s.lane);
      step := InLane(t);
  }

  ghost predicate Maximal<I, S(!new), O>(c: Stage<I, S, O>, steps: seq<Step<S>>)
    requires c.Legal()
  {
    && Runs(c, Init<S, O>(c.n), steps)
    && forall step: Step<S> :: Internal(step) ==> !Enabled(c, Final(c, Init<S, O>(c.n), steps), step)
  }

  /**
   * Exactly when every goroutine ends: a schedule the stage cannot extend has shut everything down if and
   * only if no slot was orphaned. The stage function itself fails to return exactly when the drainer is
   * the one blocked on the orphan.
   */
  lemma QuietIffNoOrphan<I, S(!new), O>(c: Stage<I, S, O>, steps: seq<Step<S>>)
    requires c.Legal() && Maximal(c, steps)
    ensures var s := Final(c, Init<S, O>(c.n), steps);
            && (Quiet(s) <==> !HasOrphan(s))
            && (s.disp.Returned? <==> !(HasOrphan(s) && s.lane.pc == Lane.Waiting(s.routed)))
  {
    var s0 := Init<S, O>(c.n);
    InitInv(c);
    RunKeepsInv(c, s0, steps);
    RunKeepsOrphanOwed(c, s0, steps);
    var s := Final(c, s0, steps);
    if !HasOrphan(s) {
      if !Quiet(s) {
        var step := NeverStuckWithoutOrphan(c, s);
        assert false;
      }
    } else {
      assert Lane.Owed(s.lane, s.routed);
      MaximalReturns(c, s);
    }
  }

  /**
   * With an orphan, a stage that can take no step has at least got its result out unless the drainer waits for the
   * orphan.
   */
  lemma MaximalReturns<I, S(!new), O>(c: Stage<I, S, O>, s: State<S, O>)
    requires Inv(c, s) && HasOrphan(s) && Lane.Owed(s.lane, s.routed)
    requires forall step: Step<S> :: Internal(step) ==> !Enabled(c, s, step)
    ensures s.disp.Returned? <==> s.lane.pc != Lane.Waiting(s.routed)
  {
    AllExited(c, s);
    assert !Enabled(c, s, CloseSlots) && !Enabled(c, s, ReturnReport);
    if s.disp.Awaiting? {
      forall t
        ensures !Lane.Enabled(s.lane, t)
      {
        assert !Enabled(c, s, InLane(t));
      }
      Lane.BlockedDrainer(s.lane);
      if s.lane.pc.Waiting? {
        NobodyElseIsOwed(c, s, s.lane.pc.i);
      }
    }
  }

  lemma AllExited<I, S(!new), O>(c: Stage<I, S, O>, s: State<S, O>)
    requires Inv(c, s) && !Dispatching(s.disp)
    requires forall step: Step<S> :: Internal(step) ==> !Enabled(c, s, step)
    ensures forall w :: 0 <= w < c.n ==> s.workers[w].exited
  {
    forall w | 0 <= w < c.n
      ensures s.workers[w].exited
    {
      assert WorkerInv(c, s, w);
      assert s.workers[w].core.hand.Some? ==> s.workers[w].core.InHand(s.workers[w].core.hand.value);
      assert !Enabled(c, s, WorkerFill(w)) && !Enabled(c, s, WorkerReceive(w)) && !Enabled(c, s, WorkerExit(w));
    }
  }

  /** With every worker gone, an empty slot somebody waits for is the orphan. */
  lemma NobodyElseIsOwed<I, S, O>(c: Stage<I, S, O>, s: State<S, O>, i: nat)
    requires Inv(c, s) && i < s.lane.queued && Lane.Owed(s.lane, i) && i !in s.lane.cell
    requires forall w :: 0 <= w < c.n ==> s.workers[w].exited
    ensures i == s.routed
  {
    assert Pending(c, s, i);
    assert WorkerInv(c, s, c.OwnerOf(i));
  }

  /** Without outside interference every schedule the stage cannot extend has returned the serial result. */
  lemma MaximalScheduleDelivers<I, S(!new), O>(c: Stage<I, S, O>, steps: seq<Step<S>>)
    requires c.Legal() && Maximal(c, steps) && !Final(c, Init<S, O>(c.n), steps).lane.external
    ensures var s := Final(c, Init<S, O>(c.n), steps);
            s.disp.Returned? && RunResult(s.lane.out, s.disp.err) == Serial(c.job.Results())
  {
    InitInv(c);
    RunKeepsInv(c, Init<S, O>(c.n), steps);
    QuietIffNoOrphan(c, steps);
    EveryScheduleIsSerial(c, steps);
  }

  /**
   * Cancelling from outside between queueing a slot and routing its item blocks the stage for good: after
   * these five steps no continuation ever returns.
   */
  lemma OrphanBlocksTheStage<I, S, O>(c: Stage<I, S, O>, more: seq<Step<S>>)
    requires c.Legal() && |c.job.input| >= 1
    ensures var steps := [Read, QueueSlot, OuterCancel, Abort, InLane(Lane.Receive)];
            && Runs(c, Init<S, O>(c.n), steps)
            && (Runs(c, Final(c, Init<S, O>(c.n), steps), more) ==>
                  !Final(c, Final(c, Init<S, O>(c.n), steps), more).disp.Returned?)
  {
    var s0 := Init<S, O>(c.n);
    var s1 := Apply(c, s0, Read);
    var s2 := Apply(c, s1, QueueSlot);
    var s3 := Apply(c, s2, OuterCancel);
    var s4 := Apply(c, s3, Abort);
    var s5 := Apply(c, s4, InLane(Lane.Receive));
    RunsFive(c, s0, [Read, QueueSlot, OuterCancel, Abort, InLane(Lane.Receive)]);
    InitInv(c);
    RunKeepsInv(c, s0, [Read, QueueSlot, OuterCancel, Abort, InLane(Lane.Receive)]);
    if Runs(c, s5, more) {
      OrphanIsForever(c, s5, more);
    }
  }

  lemma RunsFive<I, S, O>(c: Stage<I, S, O>, s: State<S, O>, t: seq<Step<S>>)
    requires c.Legal() && |t| == 5
    requires Enabled(c, s, t[0])
    requires var s1 := Apply(c, s, t[0]); Enabled(c, s1, t[1])
    requires var s2 := Apply(c, Apply(c, s, t[0]), t[1]); Enabled(c, s2, t[2])
    requires var s3 := Apply(c, Apply(c, Apply(c, s, t[0]), t[1]), t[2]); Enabled(c, s3, t[3])
    requires var s4 := Apply(c, Apply(c, Apply(c, Apply(c, s, t[0]), t[1]), t[2]), t[3]); Enabled(c, s4, t[4])
    ensures Runs(c, s, t)
    ensures Final(c, s, t) == Apply(c, Apply(c, Apply(c, Apply(c, Apply(c, s, t[0]), t[1]), t[2]), t[3]), t[4])
  {
    var s1 := Apply(c, s, t[0]);
    var s2 := Apply(c, s1, t[1]);
    var s3 := Apply(c, s2, t[2]);
    var s4 := Apply(c, s3, t[3]);
    var s5 := Apply(c, s4, t[4]);
    assert t[1..][1..] == t[2..] && t[2..][1..] == t[3..] && t[3..][1..] == t[4..] && t[4..][1..] == [];
    assert Runs(c, s5, []) && Final(c, s5, []) == s5;
    assert Runs(c, s4, t[4..]) && Final(c, s4, t[4..]) == s5;
    assert Runs(c, s3, t[3..]) && Final(c, s3, t[3..]) == s5;
    assert Runs(c, s2, t[2..]) && Final(c, s2, t[2..]) == s5;
    assert Runs(c, s1, t[1..]) && Final(c, s1, t[1..]) == s5;
  }

  lemma {:induction false} OrphanIsForever<I, S, O>(c: Stage<I, S, O>, s: State<S, O>, steps: seq<Step<S>>)
    requires Inv(c, s) && Runs(c, s, steps)
    requires HasOrphan(s) && s.lane.pc == Lane.Waiting(s.routed)
    ensures !Final(c, s, steps).disp.Returned?
    decreases |steps|
  {
    assert s.lane.report.None?;
    if steps != [] {
      assert Pending(c, s, s.routed);
      StepKeepsInv(c, s, steps[0]);
      OrphanIsForever(c, Apply(c, s, steps[0]), steps[1..]);
    }
  }

  // ------------------------------------------------------------------ main results: termination

  function WorkerWork<S>(worker: Worker<S>): nat {
    2 * |worker.core.chan| + (if worker.core.hand.Some? then 1 else 0) + (if worker.exited then 0 else 1)
  }

  function Works<S>(workers: seq<Worker<S>>): seq<nat> {
    seq(|workers|, w requires 0 <= w < |workers| => WorkerWork(workers[w]))
  }

  lemma UpdateWork<S>(workers: seq<Worker<S>>, w: nat, worker: Worker<S>)
    requires w < |workers|
    ensures Total(Works(workers[w := worker])) + WorkerWork(workers[w]) == Total(Works(workers)) + WorkerWork(worker)
  {
    assert Works(workers[w := worker]) == Works(workers)[w := WorkerWork(worker)];
    TotalUpdate(Works(workers), w, WorkerWork(worker));
  }

  function OutsideWork<I, S, O>(c: Stage<I, S, O>, s: State<S, O>): nat
    requires s.read <= |c.job.input|
  {
    8 * (|c.job.input| - s.read)
    + (match s.disp
       case Reading => 3
       case NeedSlot => 10
       case NeedRoute => 7
       case Joining => 2
       case Awaiting => 1
       case Returned(_) => 0)
    + Total(Works(s.workers))
    + (if s.lane.external then 0 else 1)
  }

  /** A bound on the number of steps left. */
  function Work<I, S, O>(c: Stage<I, S, O>, s: State<S, O>): nat
    requires Inv(c, s)
  {
    OutsideWork(c, s) + Lane.Work(c.job.Results(), s.lane)
  }

  lemma OutsideStepDecreasesWork<I, S, O>(c: Stage<I, S, O>, s: State<S, O>, step: Step<S>)
    requires c.Legal() && s.read <= |c.job.input| && Enabled(c, s, step) && !step.InLane?
    ensures Apply(c, s, step).read <= |c.job.input|
    ensures OutsideWork(c, Apply(c, s, step)) + (if step.QueueSlot? then 3 else 1) <= OutsideWork(c, s)
  {
    var s' := Apply(c, s, step);
    match step
    case Route => UpdateWork(s.workers, c.OwnerOf(s.routed), s'.workers[c.OwnerOf(s.routed)]);
    case WorkerReceive(w) => UpdateWork(s.workers, w, s'.workers[w]);
    case WorkerFill(w) => UpdateWork(s.workers, w, s'.workers[w]);
    case WorkerInterrupt(w, _) => UpdateWork(s.workers, w, s'.workers[w]);
    case WorkerExit(w) => UpdateWork(s.workers, w, s'.workers[w]);
    case _ =>
  }

  lemma StepDecreasesWork<I, S, O>(c: Stage<I, S, O>, s: State<S, O>, step: Step<S>)
    requires Inv(c, s) && Enabled(c, s, step)
    ensures Inv(c, Apply(c, s, step)) && Work(c, Apply(c, s, step)) < Work(c, s)
  {
    var s' := Apply(c, s, step);
    StepKeepsInv(c, s, step);
    if step.InLane? {
      LaneStepDecreasesWork(c, s, step.step);
    } else {
      OutsideStepDecreasesWork(c, s, step);
      LaneUntouched(c, s, step);
      Lane.WorkFrame(c.job.Results(), s.lane, s'.lane);
    }
  }

  lemma LaneStepDecreasesWork<I, S, O>(c: Stage<I, S, O>, s: State<S, O>, t: Lane.LaneStep)
    requires c.Legal() && s.read <= |c.job.input| && Lane.Inv(c.job.Results(), s.lane) && Lane.Enabled(s.lane, t)
    ensures var s' := Apply(c, s, InLane(t));
            && s'.read == s.read && OutsideWork(c, s') == OutsideWork(c, s)
            && Lane.Inv(c.job.Results(), s'.lane)
            && Lane.Work(c.job.Results(), s'.lane) < Lane.Work(c.job.Results(), s.lane)
  {
    Lane.StepDecreasesWork(c.job.Results(), s.lane, t);
    Lane.StepFrame(c.job.Results(), s.lane, t);
  }

  lemma LaneUntouched<I, S, O>(c: Stage<I, S, O>, s: State<S, O>, step: Step<S>)
    requires c.Legal() && Enabled(c, s, step) && !step.InLane?
    ensures var l' := Apply(c, s, step).lane;
            && l'.pc == s.lane.pc && l'.helper == s.lane.helper && Lane.Taken(l') == Lane.Taken(s.lane)
            && |l'.slots| == |s.lane.slots| + (if step.QueueSlot? then 1 else 0)
  {
  }

  /** Termination: no schedule is longer than the initial bound. */
  lemma {:induction false} SchedulesAreBounded<I, S, O>(c: Stage<I, S, O>, s: State<S, O>, steps: seq<Step<S>>)
    requires Inv(c, s) && Runs(c, s, steps)
    ensures |steps| <= Work(c, s)
    decreases |steps|
  {
    if steps != [] {
      StepDecreasesWork(c, s, steps[0]);
      SchedulesAreBounded(c, Apply(c, s, steps[0]), steps[1..]);
    }
  }
}
