/**
 * The ordered lane shared by every `Ordered()` stage: a queue of one-item result slots, the drainer
 * goroutine that empties them in queueing order, and the helper goroutine that takes over after an
 * error. Slot `i` belongs to input item `i`; `cell[i]` is what a worker put in it and nobody has
 * taken yet.
 */
module Lane {
  import opened Outcomes

  datatype DrainerPc<+O> =
    | Receiving                    // at the head of the loop over `slots`
    | Waiting(i: nat)              // blocked on slot i
    | Sending(rest: seq<O>)        // handing an item's values to the outbox
    | Cancelling(e: Error)         // failed, about to cancel the inner context
    | Reporting(e: Error)          // about to put the error in `drainErrs`
    | Stopped

  datatype HelperPc = Off | HelpReceiving | HelpWaiting(i: nat) | HelpDone

  datatype Lane<+O> = Lane(
    queued: nat,                   // slots ever queued
    slots: seq<nat>,               // contents of the `slots` channel
    closed: bool,                  // `slots` closed
    cell: map<nat, Outcome<O>>,    // filled, untaken slot channels
    cancelled: bool,               // inner context cancelled
    external: bool,                // ... by the outer context or by cooperative drain
    pc: DrainerPc<O>,
    helper: HelperPc,
    out: seq<O>,                   // everything handed to the outbox
    report: Option<Option<Error>>) // what was put in `drainErrs`

  function Empty<O>(): Lane<O> {
    Lane(0, [], false, map[], false, false, Receiving, Off, [], None)
  }

  datatype LaneStep =
    | Receive | SeeClosed | Take | Send | SendCancelled | Cancel | Report
    | HelperReceive | HelperTake | HelperSeeClosed

  function AfterSending<O>(rest: seq<O>): DrainerPc<O> {
    if rest == [] then Receiving else Sending(rest)
  }

  predicate Enabled<O>(l: Lane<O>, step: LaneStep) {
    match step
    case Receive => l.pc.Receiving? && l.slots != []
    case SeeClosed => l.pc.Receiving? && l.slots == [] && l.closed
    case Take => l.pc.Waiting? && l.pc.i in l.cell
    case Send => l.pc.Sending? && l.pc.rest != []
    case SendCancelled => l.pc.Sending? && l.cancelled
    case Cancel => l.pc.Cancelling?
    case Report => l.pc.Reporting?
    case HelperReceive => l.helper.HelpReceiving? && l.slots != []
    case HelperTake => l.helper.HelpWaiting? && l.helper.i in l.cell
    case HelperSeeClosed => l.helper.HelpReceiving? && l.slots == [] && l.closed
  }

  function Apply<O>(l: Lane<O>, step: LaneStep): Lane<O>
    requires Enabled(l, step)
  {
    match step
    case Receive => l.(pc := Waiting(l.slots[0]), slots := l.slots[1..])
    case SeeClosed => l.(pc := Stopped, report := Some(None))
    case Take =>
      var taken := l.(cell := l.cell - {l.pc.i});
      (match l.cell[l.pc.i]
       case Skip => taken.(pc := Receiving)
       case Emit(vs) => taken.(pc := AfterSending(vs))
       case Fail(e) => taken.(pc := Cancelling(e)))
    case Send => l.(out := l.out + [l.pc.rest[0]], pc := AfterSending(l.pc.rest[1..]))
    case SendCancelled => l.(pc := Cancelling(Canceled))
    case Cancel => l.(cancelled := true, helper := HelpReceiving, pc := Reporting(l.pc.e))
    case Report => l.(pc := Stopped, report := Some(Some(l.pc.e)))
    case HelperReceive => l.(helper := HelpWaiting(l.slots[0]), slots := l.slots[1..])
    case HelperTake => l.(helper := HelpReceiving, cell := l.cell - {l.helper.i})
    case HelperSeeClosed => l.(helper := HelpDone)
  }

  // What the dispatcher and the workers do to the lane.

  function Queue<O>(l: Lane<O>): Lane<O> {
    l.(slots := l.slots + [l.queued], queued := l.queued + 1)
  }

  function Fill<O>(l: Lane<O>, i: nat, o: Outcome<O>): Lane<O> {
    l.(cell := l.cell[i := o])
  }

  function CancelFromOutside<O>(l: Lane<O>): Lane<O> {
    l.(cancelled := true, external := true)
  }

  function Close<O>(l: Lane<O>): Lane<O> {
    l.(closed := true)
  }

  // ------------------------------------------------------------------ invariant

  predicate Active<O>(l: Lane<O>) {
    l.pc.Receiving? || l.pc.Waiting? || l.pc.Sending?
  }

  /** Slots taken off the queue, by the drainer or by the helper. */
  function Taken<O>(l: Lane<O>): int {
    l.queued - |l.slots|
  }

  /** The first item the drainer has neither emitted nor skipped nor started to emit. */
  function Position<O>(l: Lane<O>): int {
    if l.pc.Waiting? then l.pc.i else Taken(l)
  }

  /** Slots somebody will wait for: still queued, or taken off the queue by a goroutine now blocked on them. */
  predicate Owed<O>(l: Lane<O>, i: nat) {
    i in l.slots || l.pc == Waiting(i) || l.helper == HelpWaiting(i)
  }

  ghost predicate Poisoned<O>(l: Lane<O>, i: nat) {
    exists j :: Position(l) <= j <= i && j in l.cell && l.cell[j].Fail?
  }

  /** A verdict `e` is consistent with the serial run: never more output, and exact when nobody outside interfered. */
  ghost predicate Verdict<O>(os: seq<Outcome<O>>, l: Lane<O>, e: Option<Error>) {
    && l.out <= Serial(os).out
    && (!l.external ==> Serial(os) == RunResult(l.out, e))
  }

  ghost predicate Shape<O>(os: seq<Outcome<O>>, l: Lane<O>) {
    && |l.slots| <= l.queued <= |os|
    && (forall k :: 0 <= k < |l.slots| ==> l.slots[k] == Taken(l) + k)
    && (forall i :: i in l.cell ==> i < l.queued)
    && (l.pc.Waiting? ==> l.pc.i + 1 == Taken(l))
    && (l.helper.HelpWaiting? ==> l.helper.i < Taken(l))
    && (l.pc.Sending? ==> l.pc.rest != [])
    && (l.external ==> l.cancelled)
    && (l.closed && !l.cancelled ==> l.queued == |os|)
  }

  ghost predicate Progressing<O>(os: seq<Outcome<O>>, l: Lane<O>)
    requires Shape(os, l)
  {
    && l.helper.Off?
    && l.report.None?
    && (l.cancelled ==> l.external)
    && Serial(os) == Prepend(l.out + (if l.pc.Sending? then l.pc.rest else []), SerialFrom(os, Position(l)))
    && (forall i :: i in l.cell && i >= Position(l) ==> l.cell[i] == os[i] || (l.cancelled && Poisoned(l, i)))
  }

  ghost predicate Inv<O>(os: seq<Outcome<O>>, l: Lane<O>) {
    && Shape(os, l)
    && (Active(l) ==> Progressing(os, l))
    && (l.pc.Cancelling? ==> l.helper.Off? && l.report.None? && Verdict(os, l, Some(l.pc.e)))
    && (l.pc.Reporting? ==> l.cancelled && !l.helper.Off? && l.report.None? && Verdict(os, l, Some(l.pc.e)))
    && (l.pc.Stopped? ==> l.report.Some? && Verdict(os, l, l.report.value))
    && (l.pc.Stopped? && l.helper.Off? ==> l.closed && l.slots == [])
    && (l.helper.HelpDone? ==> l.closed && l.slots == [])
    && (l.report == Some(None) ==> l.helper.Off? && (l.cancelled ==> l.external))
  }

  lemma EmptyInv<O>(os: seq<Outcome<O>>)
    ensures Inv(os, Empty())
  {
    assert [] + Serial(os).out == Serial(os).out;
  }

  /** Every step of the drainer and of the helper keeps the invariant. */
  lemma StepKeepsInv<O>(os: seq<Outcome<O>>, l: Lane<O>, step: LaneStep)
    requires Inv(os, l) && Enabled(l, step)
    ensures Inv(os, Apply(l, step))
  {
    var l' := Apply(l, step);
    match step
    case Take =>
      TakeKeepsInv(os, l);
    case Send =>
      assert l'.out + l.pc.rest[1..] == l.out + l.pc.rest;
      assert l'.pc.Receiving? ==> l'.out + [] == l.out + l.pc.rest;
      SamePoison(l, l');
    case SendCancelled =>
      assert Serial(os).out == l.out + (l.pc.rest + SerialFrom(os, Taken(l)).out);
    case Receive =>
      SamePoison(l, l');
    case SeeClosed =>
      assert Serial(os).out == l.out + SerialFrom(os, Taken(l)).out;
    case _ =>
  }

  /** What a lane step leaves alone, as its dispatcher and workers see it. */
  lemma StepFrame<O>(os: seq<Outcome<O>>, l: Lane<O>, step: LaneStep)
    requires Inv(os, l) && Enabled(l, step)
    ensures var l' := Apply(l, step);
            && l'.queued == l.queued && l'.closed == l.closed && l'.external == l.external
            && (l.cancelled ==> l'.cancelled) && |l'.slots| <= |l.slots|
            && (l.report.Some? ==> l'.report == l.report)
            && l'.cell.Keys <= l.cell.Keys
            && (forall i: nat :: Owed(l', i) ==> Owed(l, i) && (i in l.cell ==> i in l'.cell))
            && (forall i :: i !in l.cell && Active(l') && Position(l) <= i ==> Position(l') <= i)
            && (Active(l') ==> Active(l))
  {
    PositionFrame(os, l, step);
  }

  lemma PositionFrame<O>(os: seq<Outcome<O>>, l: Lane<O>, step: LaneStep)
    requires Inv(os, l) && Enabled(l, step)
    ensures var l' := Apply(l, step);
            && (Active(l') ==> Active(l))
            && (forall i :: i !in l.cell && Active(l') && Position(l) <= i ==> Position(l') <= i)
  {
  }

  /** An unconsumed failure stays where it is for as long as the drainer is active. */
  lemma FailureStays<O>(os: seq<Outcome<O>>, l: Lane<O>, step: LaneStep, i: nat)
    requires Inv(os, l) && Enabled(l, step) && Active(Apply(l, step))
    requires i in l.cell && l.cell[i].Fail? && Position(l) <= i
    ensures var l' := Apply(l, step); i in l'.cell && l'.cell[i] == l.cell[i] && Position(l') <= i
  {
  }

  lemma SamePoison<O>(l: Lane<O>, l': Lane<O>)
    requires Position(l') == Position(l) && l'.cell == l.cell
    ensures forall i :: Poisoned(l, i) ==> Poisoned(l', i)
  {
  }

  lemma TakeKeepsInv<O>(os: seq<Outcome<O>>, l: Lane<O>)
    requires Inv(os, l) && Enabled(l, Take)
    ensures Inv(os, Apply(l, Take))
  {
    var l', i := Apply(l, Take), l.pc.i;
    assert Serial(os).out == l.out + SerialFrom(os, i).out;
    if !l.cell[i].Fail? {
      assert l.cell[i] == os[i];
      TakeKeepsCells(os, l);
      TakeKeepsOutput(os, l);
    }
  }

  lemma TakeKeepsOutput<O>(os: seq<Outcome<O>>, l: Lane<O>)
    requires Inv(os, l) && Enabled(l, Take) && !l.cell[l.pc.i].Fail? && l.cell[l.pc.i] == os[l.pc.i]
    ensures var l' := Apply(l, Take);
            Serial(os) == Prepend(l'.out + (if l'.pc.Sending? then l'.pc.rest else []), SerialFrom(os, Position(l')))
  {
    var l', i := Apply(l, Take), l.pc.i;
    var r := SerialFrom(os, i + 1);
    assert l.out + [] == l.out;
    if os[i].Emit? {
      assert l.out + (os[i].values + r.out) == (l.out + os[i].values) + r.out;
      assert SerialFrom(os, i) == Prepend(os[i].values, r);
    } else {
      assert SerialFrom(os, i) == r;
    }
  }

  lemma TakeKeepsCells<O>(os: seq<Outcome<O>>, l: Lane<O>)
    requires Inv(os, l) && Enabled(l, Take) && !l.cell[l.pc.i].Fail?
    ensures var l' := Apply(l, Take);
            forall k :: k in l'.cell && k >= Position(l') ==> l'.cell[k] == os[k] || (l'.cancelled && Poisoned(l', k))
  {
    var l' := Apply(l, Take);
    forall k | k in l'.cell && k >= Position(l') && l'.cell[k] != os[k]
      ensures l'.cancelled && Poisoned(l', k)
    {
      var j :| Position(l) <= j <= k && j in l.cell && l.cell[j].Fail?;
      assert j in l'.cell && l'.cell[j].Fail?;
    }
  }

  lemma QueueKeepsInv<O>(os: seq<Outcome<O>>, l: Lane<O>)
    requires Inv(os, l) && !l.closed && l.queued < |os|
    ensures Inv(os, Queue(l))
  {
    SamePoison(l, Queue(l));
  }

  /**
   * A worker may fill slot `i` with the item's outcome, or, once the context is cancelled, with anything
   * as long as an unconsumed failure stands at or before it.
   */
  lemma FillKeepsInv<O>(os: seq<Outcome<O>>, l: Lane<O>, i: nat, o: Outcome<O>)
    requires Inv(os, l) && i < l.queued && i !in l.cell
    requires o == os[i] || (l.cancelled && (Active(l) ==> Poisoned(Fill(l, i, o), i)))
    ensures Inv(os, Fill(l, i, o))
  {
    var l' := Fill(l, i, o);
    forall k | Poisoned(l, k)
      ensures Poisoned(l', k)
    {
      var j :| Position(l) <= j <= k && j in l.cell && l.cell[j].Fail?;
      assert j in l'.cell && l'.cell[j].Fail?;
    }
  }

  lemma CancelKeepsInv<O>(os: seq<Outcome<O>>, l: Lane<O>)
    requires Inv(os, l)
    ensures Inv(os, CancelFromOutside(l))
  {
    SamePoison(l, CancelFromOutside(l));
  }

  lemma CloseKeepsInv<O>(os: seq<Outcome<O>>, l: Lane<O>)
    requires Inv(os, l) && (l.cancelled || l.queued == |os|)
    ensures Inv(os, Close(l))
  {
    SamePoison(l, Close(l));
  }

  /** Whatever happens, the output is a prefix of the serial output. */
  lemma OutputIsPrefix<O>(os: seq<Outcome<O>>, l: Lane<O>)
    requires Inv(os, l)
    ensures l.out <= Serial(os).out
  {
    if Active(l) {
      var rest := if l.pc.Sending? then l.pc.rest else [];
      assert Serial(os).out == l.out + (rest + SerialFrom(os, Position(l)).out);
    }
  }

  // ------------------------------------------------------------------ progress

  /** Both goroutines of the lane have ended. */
  predicate Finished<O>(l: Lane<O>) {
    l.pc.Stopped? && (l.helper.Off? || l.helper.HelpDone?)
  }

  /** The lane can only be idle because a worker owes it a result or because the queue is still open. */
  ghost predicate Starved<O>(l: Lane<O>) {
    || (exists i :: Owed(l, i) && i !in l.slots && i !in l.cell)
    || (l.slots == [] && !l.closed)
  }

  lemma LaneProgress<O>(os: seq<Outcome<O>>, l: Lane<O>) returns (step: LaneStep)
    requires Inv(os, l) && !Finished(l) && !Starved(l)
    ensures Enabled(l, step)
  {
    if l.pc.Receiving? {
      step := if l.slots != [] then Receive else SeeClosed;
    } else if l.pc.Waiting? {
      assert l.pc.i !in l.cell && l.pc.i !in l.slots ==> Starved(l) by { assert Owed(l, l.pc.i); }
      step := Take;
    } else if l.pc.Sending? {
      step := Send;
    } else if l.pc.Cancelling? {
      step := Cancel;
    } else if l.pc.Reporting? {
      step := Report;
    } else if l.helper.HelpReceiving? {
      step := if l.slots != [] then HelperReceive else HelperSeeClosed;
    } else {
      assert Owed(l, l.helper.i);
      step := HelperTake;
    }
  }

  /** Once the queue is closed, a drainer that can take no step has stopped or waits for an empty slot. */
  lemma BlockedDrainer<O>(l: Lane<O>)
    requires l.closed && (l.pc.Sending? ==> l.pc.rest != [])
    requires forall t :: !Enabled(l, t)
    ensures l.pc.Stopped? || (l.pc.Waiting? && l.pc.i !in l.cell)
  {
    assert !Enabled(l, Receive) && !Enabled(l, SeeClosed) && !Enabled(l, Take) && !Enabled(l, Send);
    assert !Enabled(l, Cancel) && !Enabled(l, Report);
  }

  /** Bounds the steps the lane can still take on its own. */
  function Work<O>(os: seq<Outcome<O>>, l: Lane<O>): nat
    requires Inv(os, l)
  {
    2 * |l.slots|
    + (match l.pc
       case Receiving => 4 + ValuesFrom(os, Taken(l))
       case Waiting(i) => 5 + ValuesFrom(os, i)
       case Sending(rest) => 4 + |rest| + ValuesFrom(os, Taken(l))
       case Cancelling(_) => 3
       case Reporting(_) => 1
       case Stopped => 0)
    + (match l.helper
       case Off => 0
       case HelpReceiving => 1
       case HelpWaiting(_) => 2
       case HelpDone => 0)
  }

  /** The work left depends only on the queue's length and on where the two goroutines are. */
  lemma WorkFrame<O>(os: seq<Outcome<O>>, l: Lane<O>, l': Lane<O>)
    requires Inv(os, l) && Inv(os, l')
    requires l'.pc == l.pc && l'.helper == l.helper && Taken(l') == Taken(l)
    ensures Work(os, l') == Work(os, l) + 2 * (|l'.slots| - |l.slots|)
  {
  }

  lemma StepDecreasesWork<O>(os: seq<Outcome<O>>, l: Lane<O>, step: LaneStep)
    requires Inv(os, l) && Enabled(l, step)
    ensures Inv(os, Apply(l, step)) && Work(os, Apply(l, step)) < Work(os, l)
  {
    StepKeepsInv(os, l, step);
    if step.HelperReceive? || step.HelperTake? || step.HelperSeeClosed? {
      HelperDecreasesWork(os, l, step);
    } else if step.Receive? || step.Take? || step.Send? {
      ItemStepDecreasesWork(os, l, step);
    }
  }

  lemma HelperDecreasesWork<O>(os: seq<Outcome<O>>, l: Lane<O>, step: LaneStep)
    requires Inv(os, l) && Enabled(l, step) && Inv(os, Apply(l, step))
    requires step.HelperReceive? || step.HelperTake? || step.HelperSeeClosed?
    ensures Work(os, Apply(l, step)) < Work(os, l)
  {
  }

  lemma ItemStepDecreasesWork<O>(os: seq<Outcome<O>>, l: Lane<O>, step: LaneStep)
    requires Inv(os, l) && Enabled(l, step) && Inv(os, Apply(l, step))
    requires step.Receive? || step.Take? || step.Send?
    ensures Work(os, Apply(l, step)) < Work(os, l)
  {
  }
}
