/**
 * The ordered parallel stages (Map, FlatMap and ForEach with `Concurrency(n)` and `Ordered()`), as a
 * transition system with one step per channel operation. The three differ only in how many values an
 * item yields: exactly one, any number, none.
 */
module OrderedMap {
  import opened Outcomes
  import Lane

  /** `f` is the user function under its error handler; `concurrency` is the number of semaphore tokens. */
  datatype Stage<!I, !O> = Stage(input: seq<I>, f: I -> Outcome<O>, concurrency: nat)

  function Results<I, O>(c: Stage<I, O>): (os: seq<Outcome<O>>)
    ensures |os| == |c.input|
  {
    seq(|c.input|, i requires 0 <= i < |c.input| => c.f(c.input[i]))
  }

  datatype DispatcherPc =
    | Reading                      // select over input, cancellation and drain
    | NeedSem                      // holds the item read last, waits for a token
    | NeedSlot                     // holds a token too, waits for room in `slots`
    | Collecting(got: nat)         // taking every token back, to wait for the workers
    | Awaiting                     // `slots` closed, waiting for the drainer's report
    | Returned(err: Option<Error>)

  datatype State<+O> = State(
    read: nat,                     // items received from the input channel
    disp: DispatcherPc,
    sem: int,                      // tokens in the semaphore channel
    running: set<nat>,             // workers executing f
    posted: set<nat>,              // workers that filled their slot but still hold a token
    lane: Lane.Lane<O>)

  function Init<O>(): State<O> {
    State(0, Reading, 0, {}, {}, Lane.Empty())
  }

  datatype Step =
    | Read | ReadClosed | AcquireSem | QueueSlot | Abort | Collect | CloseSlots | ReturnReport
    | Finish(i: nat) | Interrupt(i: nat) | Release(i: nat)
    | InLane(step: Lane.LaneStep)
    | OuterCancel | CooperativeDrain

  predicate Enabled<I, O>(c: Stage<I, O>, s: State<O>, step: Step) {
    match step
    case Read => s.disp.Reading? && s.read < |c.input|
    case ReadClosed => s.disp.Reading? && s.read == |c.input|
    case AcquireSem => s.disp.NeedSem? && s.sem < c.concurrency
    case QueueSlot => s.disp.NeedSlot? && |s.lane.slots| < 2 * c.concurrency
    case Abort => s.lane.cancelled && (s.disp.Reading? || s.disp.NeedSem? || s.disp.NeedSlot?)
    case Collect => s.disp.Collecting? && s.disp.got < c.concurrency && s.sem < c.concurrency
    case CloseSlots => s.disp.Collecting? && s.disp.got == c.concurrency
    case ReturnReport => s.disp.Awaiting? && s.lane.report.Some?
    case Finish(i) => i in s.running && i < |c.input|
    case Interrupt(i) => i in s.running && s.lane.cancelled
    case Release(i) => i in s.posted
    case InLane(t) => Lane.Enabled(s.lane, t)
    case OuterCancel => !s.lane.external
    case CooperativeDrain => s.disp.Reading?
  }

  function Apply<I, O>(c: Stage<I, O>, s: State<O>, step: Step): State<O>
    requires Enabled(c, s, step)
  {
    match step
    case Read => s.(read := s.read + 1, disp := NeedSem)
    case ReadClosed => s.(disp := Collecting(0))
    case AcquireSem => s.(sem := s.sem + 1, disp := NeedSlot)
    case QueueSlot => s.(lane := Lane.Queue(s.lane), running := s.running + {s.lane.queued}, disp := Reading)
    case Abort => s.(disp := Collecting(0), sem := if s.disp.NeedSlot? then s.sem - 1 else s.sem)
    case Collect => s.(disp := Collecting(s.disp.got + 1), sem := s.sem + 1)
    case CloseSlots => s.(disp := Awaiting, lane := Lane.Close(s.lane))
    case ReturnReport => s.(disp := Returned(s.lane.report.value))
    case Finish(i) => Post(s, i, Results(c)[i])
    // Only the wait between two retries looks at the context: the item ends with the context's error.
    case Interrupt(i) => Post(s, i, Fail(Canceled))
    case Release(i) => s.(posted := s.posted - {i}, sem := s.sem - 1)
    case InLane(t) => s.(lane := Lane.Apply(s.lane, t))
    case OuterCancel => s.(lane := Lane.CancelFromOutside(s.lane))
    case CooperativeDrain => s.(disp := Collecting(0), lane := Lane.CancelFromOutside(s.lane))
  }

  function Post<O>(s: State<O>, i: nat, o: Outcome<O>): State<O> {
    s.(running := s.running - {i}, posted := s.posted + {i}, lane := Lane.Fill(s.lane, i, o))
  }

  /** `steps` is a schedule that can be run from `s`. */
  predicate Runs<I, O>(c: Stage<I, O>, s: State<O>, steps: seq<Step>)
    decreases |steps|
  {
    steps == [] || (Enabled(c, s, steps[0]) && Runs(c, Apply(c, s, steps[0]), steps[1..]))
  }

  function Final<I, O>(c: Stage<I, O>, s: State<O>, steps: seq<Step>): State<O>
    requires Runs(c, s, steps)
    decreases |steps|
  {
    if steps == [] then s else Final(c, Apply(c, s, steps[0]), steps[1..])
  }

  // ------------------------------------------------------------------ invariant

  function HeldByDispatcher(d: DispatcherPc, concurrency: nat): nat {
    match d
    case NeedSlot => 1
    case Collecting(got) => got
    case Awaiting => concurrency
    case Returned(_) => concurrency
    case _ => 0
  }

  predicate Dispatching(d: DispatcherPc) {
    d.Reading? || d.NeedSem? || d.NeedSlot?
  }

  ghost predicate Inv<I, O>(c: Stage<I, O>, s: State<O>) {
    Lane.Inv(Results(c), s.lane) && Outside(c, s)
  }

  ghost predicate Outside<I, O>(c: Stage<I, O>, s: State<O>) {
    && s.lane.queued <= s.read <= |c.input|
    && (s.disp.Reading? ==> s.read == s.lane.queued)
    && (s.disp.NeedSem? || s.disp.NeedSlot? ==> s.read == s.lane.queued + 1)
    && s.read <= s.lane.queued + 1
    && (!Dispatching(s.disp) && !s.lane.cancelled ==> s.lane.queued == |c.input|)
    && (s.disp.Collecting? ==> s.disp.got <= c.concurrency)
    && s.sem == |s.running| + |s.posted| + HeldByDispatcher(s.disp, c.concurrency) <= c.concurrency
    && s.running !! s.posted
    && (forall i :: i in s.posted ==> i < s.lane.queued)
    && (forall i :: i in s.running ==>
          i < s.lane.queued && i !in s.lane.cell && (Lane.Active(s.lane) ==> Lane.Position(s.lane) <= i))
    && (forall i: nat :: i < s.lane.queued && Lane.Owed(s.lane, i) ==> i in s.running || i in s.lane.cell)
    && (s.lane.closed <==> s.disp.Awaiting? || s.disp.Returned?)
    && |s.lane.slots| <= 2 * c.concurrency
    && (s.disp.Returned? ==> s.lane.report == Some(s.disp.err))
  }

  lemma InitInv<I, O>(c: Stage<I, O>)
    ensures Inv(c, Init<O>())
  {
    Lane.EmptyInv(Results(c));
  }

  predicate WorkerStep(step: Step) {
    step.Finish? || step.Interrupt? || step.Release?
  }

  lemma QueueSlotKeepsInv<I, O>(c: Stage<I, O>, s: State<O>)
    requires Inv(c, s) && Enabled(c, s, QueueSlot)
    ensures Inv(c, Apply(c, s, QueueSlot))
  {
    Lane.QueueKeepsInv(Results(c), s.lane);
  }

  lemma CancelStepKeepsInv<I, O>(c: Stage<I, O>, s: State<O>, step: Step)
    requires Inv(c, s) && Enabled(c, s, step) && (step.OuterCancel? || step.CooperativeDrain? || step.CloseSlots?)
    ensures Inv(c, Apply(c, s, step))
  {
    if step.CloseSlots? {
      Lane.CloseKeepsInv(Results(c), s.lane);
    } else {
      Lane.CancelKeepsInv(Results(c), s.lane);
    }
  }

  lemma DispatcherStepKeepsInv<I, O>(c: Stage<I, O>, s: State<O>, step: Step)
    requires Inv(c, s) && Enabled(c, s, step) && !WorkerStep(step) && !step.InLane?
    ensures Inv(c, Apply(c, s, step))
  {
    match step
    case QueueSlot => QueueSlotKeepsInv(c, s);
    case CloseSlots => CancelStepKeepsInv(c, s, step);
    case OuterCancel => CancelStepKeepsInv(c, s, step);
    case CooperativeDrain => CancelStepKeepsInv(c, s, step);
    case _ =>
  }

  lemma WorkerStepKeepsInv<I, O>(c: Stage<I, O>, s: State<O>, step: Step)
    requires Inv(c, s) && Enabled(c, s, step) && WorkerStep(step)
    ensures Inv(c, Apply(c, s, step))
  {
    match step
    case Finish(i) => PostKeepsInv(c, s, i, Results(c)[i]);
    case Interrupt(i) => PostKeepsInv(c, s, i, Fail(Canceled));
    case Release(i) => ReleaseKeepsInv(c, s, i);
  }

  lemma PostKeepsInv<I, O>(c: Stage<I, O>, s: State<O>, i: nat, o: Outcome<O>)
    requires Inv(c, s) && i in s.running && i < |c.input|
    requires o == Results(c)[i] || (o == Fail(Canceled) && s.lane.cancelled)
    ensures Inv(c, Post(s, i, o))
  {
    var l' := Lane.Fill(s.lane, i, o);
    assert i in l'.cell && l'.cell[i] == o;
    Lane.FillKeepsInv(Results(c), s.lane, i, o);
    PostKeepsOutside(c, s, i, o);
  }

  lemma PostKeepsOutside<I, O>(c: Stage<I, O>, s: State<O>, i: nat, o: Outcome<O>)
    requires Outside(c, s) && i in s.running
    ensures Outside(c, Post(s, i, o))
  {
  }

  lemma ReleaseKeepsInv<I, O>(c: Stage<I, O>, s: State<O>, i: nat)
    requires Inv(c, s) && Enabled(c, s, Release(i))
    ensures Inv(c, Apply(c, s, Release(i)))
  {
  }

  lemma LaneStepKeepsRest<I, O>(c: Stage<I, O>, s: State<O>, l': Lane.Lane<O>)
    requires Outside(c, s)
    requires l'.queued == s.lane.queued && l'.closed == s.lane.closed && (s.lane.cancelled ==> l'.cancelled)
    requires |l'.slots| <= |s.lane.slots| && (s.lane.report.Some? ==> l'.report == s.lane.report)
    requires l'.cell.Keys <= s.lane.cell.Keys && (Lane.Active(l') ==> Lane.Active(s.lane))
    requires forall i: nat :: Lane.Owed(l', i) ==> Lane.Owed(s.lane, i) && (i in s.lane.cell ==> i in l'.cell)
    requires forall i :: i !in s.lane.cell && Lane.Active(l') && Lane.Position(s.lane) <= i ==> Lane.Position(l') <= i
    ensures Outside(c, s.(lane := l'))
  {
  }

  lemma LaneStepKeepsInv<I, O>(c: Stage<I, O>, s: State<O>, step: Step)
    requires Inv(c, s) && Enabled(c, s, step) && step.InLane?
    ensures Inv(c, Apply(c, s, step))
  {
    Lane.StepKeepsInv(Results(c), s.lane, step.step);
    Lane.StepFrame(Results(c), s.lane, step.step);
    LaneStepKeepsRest(c, s, Lane.Apply(s.lane, step.step));
  }

  lemma StepKeepsInv<I, O>(c: Stage<I, O>, s: State<O>, step: Step)
    requires Inv(c, s) && Enabled(c, s, step)
    ensures Inv(c, Apply(c, s, step))
  {
    if step.InLane? {
      LaneStepKeepsInv(c, s, step);
    } else if WorkerStep(step) {
      WorkerStepKeepsInv(c, s, step);
    } else {
      DispatcherStepKeepsInv(c, s, step);
    }
  }

  lemma {:induction false} RunKeepsInv<I, O>(c: Stage<I, O>, s: State<O>, steps: seq<Step>)
    requires Inv(c, s) && Runs(c, s, steps)
    ensures Inv(c, Final(c, s, steps))
    decreases |steps|
  {
    if steps != [] {
      StepKeepsInv(c, s, steps[0]);
      RunKeepsInv(c, Apply(c, s, steps[0]), steps[1..]);
    }
  }

  // ------------------------------------------------------------------ main results

  /** Parallel execution is sequential list processing, whatever the schedule. */
  lemma EveryScheduleIsSerial<I, O>(c: Stage<I, O>, steps: seq<Step>)
    requires Runs(c, Init<O>(), steps)
    ensures var s := Final(c, Init<O>(), steps);
            && s.lane.out <= Serial(Results(c)).out
            && (s.disp.Returned? && !s.lane.external ==> RunResult(s.lane.out, s.disp.err) == Serial(Results(c)))
  {
    InitInv(c);
    RunKeepsInv(c, Init<O>(), steps);
    var s := Final(c, Init<O>(), steps);
    Lane.OutputIsPrefix(Results(c), s.lane);
    assert s.lane.report.Some? ==> s.lane.pc.Stopped?;
  }

  function Mapped<I, O>(g: I -> O, xs: seq<I>): (r: seq<O>)
    ensures |r| == |xs| && forall j :: 0 <= j < |xs| ==> r[j] == g(xs[j])
  {
    seq(|xs|, j requires 0 <= j < |xs| => g(xs[j]))
  }

  lemma {:induction false} SerialOfPureMap<I, O>(c: Stage<I, O>, g: I -> O, i: nat)
    requires i <= |c.input|
    requires forall j :: 0 <= j < |c.input| ==> c.f(c.input[j]) == Emit([g(c.input[j])])
    ensures SerialFrom(Results(c), i) == RunResult(Mapped(g, c.input[i..]), None)
    decreases |c.input| - i
  {
    if i < |c.input| {
      SerialOfPureMap(c, g, i + 1);
      assert Results(c)[i] == Emit([g(c.input[i])]);
      assert Mapped(g, c.input[i..]) == [g(c.input[i])] + Mapped(g, c.input[i + 1..]);
    }
  }

  /** A parallel ordered Map of a function that never fails is the pointwise map of its input. */
  lemma ParallelMapIsMap<I, O>(c: Stage<I, O>, g: I -> O, steps: seq<Step>)
    requires forall j :: 0 <= j < |c.input| ==> c.f(c.input[j]) == Emit([g(c.input[j])])
    requires Runs(c, Init<O>(), steps)
    ensures var s := Final(c, Init<O>(), steps);
            && s.lane.out <= Mapped(g, c.input)
            && (s.disp.Returned? && !s.lane.external ==> s.lane.out == Mapped(g, c.input) && s.disp.err == None)
  {
    EveryScheduleIsSerial(c, steps);
    SerialOfPureMap(c, g, 0);
    assert c.input[0..] == c.input;
  }

  /** Items received from the input that are neither emitted nor skipped yet. */
  function Backlog<O>(s: State<O>): int {
    s.read - (Lane.Taken(s.lane) - (if s.lane.pc.Receiving? then 0 else 1))
  }

  /** Back-pressure: bounded parallelism, and a bounded read-ahead until the drainer stops. */
  lemma Bounds<I, O>(c: Stage<I, O>, steps: seq<Step>)
    requires Runs(c, Init<O>(), steps)
    ensures var s := Final(c, Init<O>(), steps);
            && |s.running| + |s.posted| <= c.concurrency
            && |s.lane.slots| <= 2 * c.concurrency
            && (Lane.Active(s.lane) ==> Backlog(s) <= 2 * c.concurrency + 2)
  {
    InitInv(c);
    RunKeepsInv(c, Init<O>(), steps);
  }

  /** The stage function returned and every goroutine it started has ended. */
  predicate Quiet<O>(s: State<O>) {
    s.disp.Returned? && Lane.Finished(s.lane) && s.running == {} && s.posted == {}
  }

  predicate Internal(step: Step) {
    !step.OuterCancel? && !step.CooperativeDrain?
  }

  /** No deadlock: until everything has ended, the stage itself can take a step. */
  lemma NeverStuck<I, O>(c: Stage<I, O>, s: State<O>) returns (step: Step)
    requires c.concurrency >= 1 && Inv(c, s) && !Quiet(s)
    ensures Internal(step) && Enabled(c, s, step)
  {
    if s.running != {} {
      var i :| i in s.running;
      return Finish(i);
    }
    if s.posted != {} {
      var i :| i in s.posted;
      return Release(i);
    }
    assert !Lane.Starved(s.lane) || (s.lane.slots == [] && !s.lane.closed);
    match s.disp
    case Reading => step := if s.read < |c.input| then Read else ReadClosed;
    case NeedSem => step := AcquireSem;
    case NeedSlot =>
      if |s.lane.slots| < 2 * c.concurrency {
        step := QueueSlot;
      } else {
        var t := Lane.LaneProgress(Results(c), s.lane);
        step := InLane(t);
      }
    case Collecting(got) => step := if got < c.concurrency then Collect else CloseSlots;
    case Awaiting =>
      if s.lane.report.Some? {
        step := ReturnReport;
      } else {
        var t := Lane.LaneProgress(Results(c), s.lane);
        step := InLane(t);
      }
    case Returned(_) =>
      var t := Lane.LaneProgress(Results(c), s.lane);
      step := InLane(t);
  }

  /** A bound on the number of steps left: the lane's, plus what the dispatcher and the workers can still do. */
  function Work<I, O>(c: Stage<I, O>, s: State<O>): nat
    requires Inv(c, s)
  {
    OutsideWork(c, s) + Lane.Work(Results(c), s.lane)
  }

  function OutsideWork<I, O>(c: Stage<I, O>, s: State<O>): nat
    requires s.read <= |c.input| && (s.disp.Collecting? ==> s.disp.got <= c.concurrency)
  {
    8 * (|c.input| - s.read)
    + (match s.disp
       case Reading => c.concurrency + 3
       case NeedSem => c.concurrency + 9
       case NeedSlot => c.concurrency + 8
       case Collecting(got) => c.concurrency - got + 2
       case Awaiting => 1
       case Returned(_) => 0)
    + 2 * |s.running| + |s.posted|
    + (if s.lane.external then 0 else 1)
  }

  lemma StepDecreasesWork<I, O>(c: Stage<I, O>, s: State<O>, step: Step)
    requires Inv(c, s) && Enabled(c, s, step)
    ensures Inv(c, Apply(c, s, step)) && Work(c, Apply(c, s, step)) < Work(c, s)
  {
    StepKeepsInv(c, s, step);
    if step.InLane? {
      LaneStepDecreasesWork(c, s, step.step);
    } else {
      LaneWorkOutside(c, s, step);
      OutsideStepDecreasesWork(c, s, step);
    }
  }

  lemma LaneStepDecreasesWork<I, O>(c: Stage<I, O>, s: State<O>, t: Lane.LaneStep)
    requires s.read <= |c.input| && (s.disp.Collecting? ==> s.disp.got <= c.concurrency)
    requires Lane.Inv(Results(c), s.lane) && Lane.Enabled(s.lane, t)
    ensures var s' := Apply(c, s, InLane(t));
            && s'.read == s.read && s'.disp == s.disp && OutsideWork(c, s') == OutsideWork(c, s)
            && Lane.Inv(Results(c), s'.lane)
            && Lane.Work(Results(c), s'.lane) < Lane.Work(Results(c), s.lane)
  {
    Lane.StepDecreasesWork(Results(c), s.lane, t);
    Lane.StepFrame(Results(c), s.lane, t);
  }

  lemma OutsideStepDecreasesWork<I, O>(c: Stage<I, O>, s: State<O>, step: Step)
    requires Enabled(c, s, step) && !step.InLane?
    requires s.read <= |c.input| && (s.disp.Collecting? ==> s.disp.got <= c.concurrency)
    ensures var s' := Apply(c, s, step);
            && s'.read <= |c.input| && (s'.disp.Collecting? ==> s'.disp.got <= c.concurrency)
            && OutsideWork(c, s') + (if step.QueueSlot? then 3 else 1) <= OutsideWork(c, s)
  {
  }

  lemma LaneWorkOutside<I, O>(c: Stage<I, O>, s: State<O>, step: Step)
    requires Inv(c, s) && Enabled(c, s, step) && !step.InLane? && Inv(c, Apply(c, s, step))
    ensures Lane.Work(Results(c), Apply(c, s, step).lane) ==
              Lane.Work(Results(c), s.lane) + (if step.QueueSlot? then 2 else 0)
  {
    LaneUntouched(c, s, step);
    Lane.WorkFrame(Results(c), s.lane, Apply(c, s, step).lane);
  }

  lemma LaneUntouched<I, O>(c: Stage<I, O>, s: State<O>, step: Step)
    requires Enabled(c, s, step) && !step.InLane?
    ensures var l' := Apply(c, s, step).lane;
            && l'.pc == s.lane.pc && l'.helper == s.lane.helper && Lane.Taken(l') == Lane.Taken(s.lane)
            && |l'.slots| == |s.lane.slots| + (if step.QueueSlot? then 1 else 0)
  {
  }

  /** Termination: no schedule is longer than the initial bound. */
  lemma {:induction false} SchedulesAreBounded<I, O>(c: Stage<I, O>, s: State<O>, steps: seq<Step>)
    requires Inv(c, s) && Runs(c, s, steps)
    ensures |steps| <= Work(c, s)
    decreases |steps|
  {
    if steps != [] {
      StepDecreasesWork(c, s, steps[0]);
      SchedulesAreBounded(c, Apply(c, s, steps[0]), steps[1..]);
    }
  }

  /**
   * A schedule that cannot be extended by the stage itself ended with the stage returned and nothing left
   * running, and without outside interference it delivered exactly the serial output and error.
   */
  lemma MaximalScheduleDelivers<I, O>(c: Stage<I, O>, steps: seq<Step>)
    requires c.concurrency >= 1
    requires Runs(c, Init<O>(), steps)
    requires forall step :: Internal(step) ==> !Enabled(c, Final(c, Init<O>(), steps), step)
    ensures var s := Final(c, Init<O>(), steps);
            && Quiet(s)
            && (!s.lane.external ==> RunResult(s.lane.out, s.disp.err) == Serial(Results(c)))
  {
    InitInv(c);
    RunKeepsInv(c, Init<O>(), steps);
    EveryScheduleIsSerial(c, steps);
    var s := Final(c, Init<O>(), steps);
    if !Quiet(s) {
      var step := NeverStuck(c, s);
      assert false;
    }
  }
}
