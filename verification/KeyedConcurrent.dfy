/**
 * MapWithKey and FlatMapWithKey with `Concurrency(n)` and no ordering: workers send their own results.
 * Across keys the output order is free; for every single key the stage must behave like the serial run.
 */
module KeyedConcurrent {
  import opened Outcomes
  import opened Sharding
  import opened KeyedSpec
  import opened Routing
  import opened Sums

  datatype DispatcherPc = Reading | NeedRoute | Joining | Returned(err: Option<Error>)

  datatype WorkerPc<+O> =
    | Working                       // between items, or handling the one in hand
    | Sending(i: nat, rest: seq<O>) // sending what item i produced
    | Failed(e: Error)              // about to report an error
    | Reported                      // about to cancel the inner context
    | Exited(clean: bool)           // clean: its channel was closed and empty

  datatype Worker<+S, +O> = Worker(core: Core<S>, pc: WorkerPc<O>)

  /** `out` tags every value with the item that produced it; the tag is not visible downstream. */
  datatype State<+S, +O> = State(
    read: nat,
    routed: nat,
    disp: DispatcherPc,
    workers: seq<Worker<S, O>>,
    cancelled: bool,
    external: bool,
    errCh: Option<Error>,
    out: seq<(nat, O)>)

  function Init<S, O>(n: nat): State<S, O> {
    State(0, 0, Reading, seq(n, _ => Worker(EmptyCore(), Working)), false, false, None, [])
  }

  datatype Step<+S> =
    | Read | ReadClosed | Route | Abort | Return
    | Receive(w: nat) | Work(w: nat) | Interrupt(w: nat, left: S)
    | Send(w: nat) | SendCancelled(w: nat) | Report(w: nat) | Cancel(w: nat) | Exit(w: nat)
    | OuterCancel | CooperativeDrain

  predicate Dispatching(d: DispatcherPc) {
    d.Reading? || d.NeedRoute?
  }

  predicate Free<S, O>(worker: Worker<S, O>) {
    worker.pc.Working? && worker.core.hand.None?
  }

  predicate Holds<I, S, O>(c: Stage<I, S, O>, worker: Worker<S, O>) {
    worker.pc.Working? && worker.core.hand.Some? && worker.core.hand.value < |c.job.input|
  }

  predicate Enabled<I, S, O>(c: Stage<I, S, O>, s: State<S, O>, step: Step<S>)
    requires c.Legal()
  {
    match step
    case Read => s.disp.Reading? && s.read < |c.job.input|
    case ReadClosed => s.disp.Reading? && s.read == |c.job.input|
    case Route =>
      && s.disp.NeedRoute? && s.routed < |c.job.input| && c.OwnerOf(s.routed) < |s.workers|
      && |s.workers[c.OwnerOf(s.routed)].core.chan| < c.buffer + 1
    case Abort => s.cancelled && Dispatching(s.disp)
    case Return => s.disp.Joining? && forall w :: 0 <= w < |s.workers| ==> s.workers[w].pc.Exited?
    case Receive(w) => w < |s.workers| && Free(s.workers[w]) && s.workers[w].core.chan != []
    case Work(w) => w < |s.workers| && Holds(c, s.workers[w])
    case Interrupt(w, _) => w < |s.workers| && Holds(c, s.workers[w]) && s.cancelled
    case Send(w) => w < |s.workers| && s.workers[w].pc.Sending? && s.workers[w].pc.rest != []
    case SendCancelled(w) => w < |s.workers| && s.workers[w].pc.Sending? && s.cancelled
    case Report(w) => w < |s.workers| && s.workers[w].pc.Failed?
    case Cancel(w) => w < |s.workers| && s.workers[w].pc.Reported?
    case Exit(w) =>
      w < |s.workers| && Free(s.workers[w]) && s.workers[w].core.chan == [] && !Dispatching(s.disp)
    case OuterCancel => !s.external
    case CooperativeDrain => s.disp.Reading?
  }

  function AfterSending<O>(i: nat, rest: seq<O>): WorkerPc<O> {
    if rest == [] then Working else Sending(i, rest)
  }

  function AfterHandling<O>(i: nat, o: Outcome<O>): WorkerPc<O> {
    match o
    case Skip => Working
    case Emit(vs) => AfterSending(i, vs)
    case Fail(e) => Failed(e)
  }

  function SetWorker<S, O>(s: State<S, O>, w: nat, worker: Worker<S, O>): State<S, O>
    requires w < |s.workers|
  {
    s.(workers := s.workers[w := worker])
  }

  function Apply<I, S, O>(c: Stage<I, S, O>, s: State<S, O>, step: Step<S>): State<S, O>
    requires c.Legal() && Enabled(c, s, step)
  {
    match step
    case Read => s.(read := s.read + 1, disp := NeedRoute)
    case ReadClosed => s.(disp := Joining)
    case Route =>
      var w := c.OwnerOf(s.routed);
      SetWorker(s, w, s.workers[w].(core := s.workers[w].core.Put(s.routed))).(routed := s.routed + 1, disp := Reading)
    case Abort => s.(disp := Joining)
    case Return => s.(disp := Returned(s.errCh))
    case Receive(w) => SetWorker(s, w, s.workers[w].(core := s.workers[w].core.Receive()))
    case Work(w) =>
      var (core, outcome) := Handle(c, s.workers[w].core);
      SetWorker(s, w, Worker(core, AfterHandling(s.workers[w].core.hand.value, outcome)))
    case Interrupt(w, left) =>
      SetWorker(s, w, Worker(Routing.Interrupt(c, s.workers[w].core, left), Failed(Canceled)))
    case Send(w) =>
      var worker := s.workers[w];
      SetWorker(s, w, worker.(pc := AfterSending(worker.pc.i, worker.pc.rest[1..])))
        .(out := s.out + [(worker.pc.i, worker.pc.rest[0])])
    case SendCancelled(w) => SetWorker(s, w, s.workers[w].(pc := Failed(Canceled)))
    // The error channel holds one error: the first report stays, later ones are dropped.
    case Report(w) =>
      SetWorker(s, w, s.workers[w].(pc := Reported))
        .(errCh := if s.errCh.Some? then s.errCh else Some(s.workers[w].pc.e))
    case Cancel(w) => SetWorker(s, w, s.workers[w].(pc := Exited(false))).(cancelled := true)
    case Exit(w) => SetWorker(s, w, s.workers[w].(pc := Exited(true)))
    case OuterCancel => s.(cancelled := true, external := true)
    case CooperativeDrain => s.(disp := Joining, cancelled := true, external := true)
  }

  /** `steps` is a schedule that can be run from `s`. */
  predicate Runs<I, S, O>(c: Stage<I, S, O>, s: State<S, O>, steps: seq<Step<S>>)
    requires c.Legal()
    decreases |steps|
  {
    steps == [] || (Enabled(c, s, steps[0]) && Runs(c, Apply(c, s, steps[0]), steps[1..]))
  }

  function Final<I, S, O>(c: Stage<I, S, O>, s: State<S, O>, steps: seq<Step<S>>): State<S, O>
    requires c.Legal() && Runs(c, s, steps)
    decreases |steps|
  {
    if steps == [] then s else Final(c, Apply(c, s, steps[0]), steps[1..])
  }

  // ------------------------------------------------------------------ invariant

  /** A worker that neither failed nor was interrupted. */
  predicate Healthy<S, O>(worker: Worker<S, O>) {
    worker.pc.Working? || worker.pc.Sending? || worker.pc == Exited(true)
  }

  function Unsent<I, S, O>(c: Stage<I, S, O>, worker: Worker<S, O>, k: Key): seq<O> {
    if worker.pc.Sending? && worker.pc.i < |c.job.input| && c.job.KeyOf(worker.pc.i) == k then worker.pc.rest else []
  }

  /** What key `k` has sent, plus what its worker is about to send, plus what its items from the horizon on
      will produce, is the serial run of that key. */
  ghost predicate KeyInv<I, S, O>(c: Stage<I, S, O>, worker: Worker<S, O>, routed: nat, sent: seq<O>, k: Key)
    requires c.Legal()
  {
    var os := c.job.KeyResults(k);
    && sent <= Serial(os).out
    && (Healthy(worker) ==>
          && worker.core.Horizon(routed) <= |os|
          && Serial(os) == Prepend(sent + Unsent(c, worker, k), SerialFrom(os, worker.core.Horizon(routed))))
  }

  ghost predicate KeysInv<I, S, O>(c: Stage<I, S, O>, s: State<S, O>, w: nat)
    requires c.Legal() && w < |s.workers|
  {
    forall k: Key :: Owner(k, c.n) == w ==> KeyInv(c, s.workers[w], s.routed, OfKey(c.job, s.out, k), k)
  }

  ghost predicate SomeItemFails<I, S, O>(c: Stage<I, S, O>, e: Error) {
    exists i :: 0 <= i < |c.job.input| && c.job.ResultAt(i) == Fail(e)
  }

  /** What worker w holds, and how it relates to the items routed so far. */
  ghost predicate HoldsInv<I, S, O>(c: Stage<I, S, O>, w: nat, worker: Worker<S, O>, routed: nat)
    requires c.Legal()
  {
    && ChanInv(c, w, worker.core, routed)
    && (Healthy(worker) ==> RefsInv(c, w, worker.core, routed))
    && (Healthy(worker) ==>
          forall i :: 0 <= i < worker.core.Horizon(routed) && c.OwnerOf(i) == w ==> !c.job.ResultAt(i).Fail?)
    && (!worker.pc.Working? && Healthy(worker) ==> worker.core.hand.None?)
    && (worker.pc.Sending? ==> worker.pc.rest != [] && worker.pc.i < |c.job.input| && c.OwnerOf(worker.pc.i) == w)
  }

  /** How a worker's position agrees with the flags it shares with the others. */
  ghost predicate FlagsInv<I, S, O>(c: Stage<I, S, O>, s: State<S, O>, worker: Worker<S, O>) {
    && (worker.pc.Failed? ==> SomeItemFails(c, worker.pc.e) || s.external || (s.cancelled && s.errCh.Some?))
    && (worker.pc.Reported? ==> s.errCh.Some?)
    && (worker.pc.Exited? && !worker.pc.clean ==> s.errCh.Some? && s.cancelled)
    && (worker.pc == Exited(true) ==> worker.core.chan == [] && !Dispatching(s.disp))
    && (s.disp.Returned? ==> worker.pc.Exited?)
  }

  ghost predicate WorkerInv<I, S, O>(c: Stage<I, S, O>, s: State<S, O>, w: nat)
    requires c.Legal() && w < |s.workers|
  {
    HoldsInv(c, w, s.workers[w], s.routed) && FlagsInv(c, s, s.workers[w]) && KeysInv(c, s, w)
  }

  ghost predicate ControlInv<I, S, O>(c: Stage<I, S, O>, s: State<S, O>) {
    && s.routed <= s.read <= |c.job.input|
    && (s.disp.Reading? ==> s.read == s.routed)
    && (s.disp.NeedRoute? ==> s.read == s.routed + 1)
    && (!Dispatching(s.disp) && !s.cancelled ==> s.routed == |c.job.input|)
    && (s.external ==> s.cancelled)
    && (s.cancelled ==> s.external || s.errCh.Some?)
    && (s.errCh.Some? ==> s.external || SomeItemFails(c, s.errCh.value))
    && (s.disp.Returned? ==> s.disp.err == s.errCh)
  }

  ghost predicate Inv<I, S, O>(c: Stage<I, S, O>, s: State<S, O>) {
    && c.Legal()
    && |s.workers| == c.n
    && ControlInv(c, s)
    && forall w :: 0 <= w < c.n ==> WorkerInv(c, s, w)
  }

  lemma InitInv<I, S, O>(c: Stage<I, S, O>)
    requires c.Legal()
    ensures Inv(c, Init<S, O>(c.n))
  {
    var s := Init<S, O>(c.n);
    forall w, k: Key | 0 <= w < c.n
      ensures KeyInv(c, s.workers[w], s.routed, OfKey(c.job, s.out, k), k)
    {
      assert [] + Serial(c.job.KeyResults(k)).out == Serial(c.job.KeyResults(k)).out;
    }
  }

  /** Steps that leave workers and output alone. */
  lemma ControlStepKeepsInv<I, S, O>(c: Stage<I, S, O>, s: State<S, O>, step: Step<S>)
    requires Inv(c, s) && Enabled(c, s, step)
    requires || step.Read? || step.ReadClosed? || step.Abort? || step.Return?
             || step.OuterCancel? || step.CooperativeDrain?
    ensures Inv(c, Apply(c, s, step))
  {
    var s' := Apply(c, s, step);
    forall w | 0 <= w < c.n
      ensures WorkerInv(c, s', w)
    {
      assert WorkerInv(c, s, w);
      assert KeysInv(c, s', w);
    }
  }

  lemma RouteKeepsInv<I, S, O>(c: Stage<I, S, O>, s: State<S, O>)
    requires Inv(c, s) && Enabled(c, s, Route)
    ensures Inv(c, Apply(c, s, Route))
  {
    var s' := Apply(c, s, Route);
    forall w | 0 <= w < c.n
      ensures WorkerInv(c, s', w)
    {
      assert WorkerInv(c, s, w);
      if w == c.OwnerOf(s.routed) {
        RouteKeepsOwner(c, s);
      } else {
        RouteKeepsOther(c, s, w);
      }
    }
  }

  lemma RouteKeepsOwner<I, S, O>(c: Stage<I, S, O>, s: State<S, O>)
    requires c.Legal() && Enabled(c, s, Route) && WorkerInv(c, s, c.OwnerOf(s.routed))
    ensures WorkerInv(c, Apply(c, s, Route), c.OwnerOf(s.routed))
  {
    var s', w := Apply(c, s, Route), c.OwnerOf(s.routed);
    OwnerHolds(c, w, s.workers[w], s.routed);
    OwnerKeepsKeys(c, s);
    assert s'.workers[w] == s.workers[w].(core := s.workers[w].core.Put(s.routed));
  }

  lemma OwnerKeepsKeys<I, S, O>(c: Stage<I, S, O>, s: State<S, O>)
    requires c.Legal() && Enabled(c, s, Route)
    requires ChanInv(c, c.OwnerOf(s.routed), s.workers[c.OwnerOf(s.routed)].core, s.routed)
    requires KeysInv(c, s, c.OwnerOf(s.routed))
    ensures KeysInv(c, Apply(c, s, Route), c.OwnerOf(s.routed))
  {
    var s', w := Apply(c, s, Route), c.OwnerOf(s.routed);
    forall k: Key | Owner(k, c.n) == w
      ensures KeyInv(c, s'.workers[w], s'.routed, OfKey(c.job, s'.out, k), k)
    {
      assert KeyInv(c, s.workers[w], s.routed, OfKey(c.job, s.out, k), k);
      OwnerKeepsKey(c, w, s.workers[w], s.routed, OfKey(c.job, s.out, k), k);
    }
  }

  lemma OwnerHolds<I, S, O>(c: Stage<I, S, O>, w: nat, worker: Worker<S, O>, routed: nat)
    requires c.Legal() && routed < |c.job.input| && c.OwnerOf(routed) == w && HoldsInv(c, w, worker, routed)
    ensures HoldsInv(c, w, worker.(core := worker.core.Put(routed)), routed + 1)
  {
    PutKeepsOwner(c, w, worker.core, routed);
  }

  lemma OwnerKeepsKey<I, S, O>(c: Stage<I, S, O>, w: nat, worker: Worker<S, O>, routed: nat, sent: seq<O>, k: Key)
    requires c.Legal() && routed < |c.job.input| && c.OwnerOf(routed) == w && ChanInv(c, w, worker.core, routed)
    requires KeyInv(c, worker, routed, sent, k)
    ensures KeyInv(c, worker.(core := worker.core.Put(routed)), routed + 1, sent, k)
  {
    PutKeepsOwner(c, w, worker.core, routed);
  }

  lemma RouteKeepsOther<I, S, O>(c: Stage<I, S, O>, s: State<S, O>, w: nat)
    requires c.Legal() && Enabled(c, s, Route) && w < |s.workers| == c.n && w != c.OwnerOf(s.routed)
    requires WorkerInv(c, s, w)
    ensures WorkerInv(c, Apply(c, s, Route), w)
  {
    OtherHolds(c, w, s.workers[w], s.routed);
    RouteKeepsOtherKeys(c, s, w);
  }

  lemma OtherHolds<I, S, O>(c: Stage<I, S, O>, w: nat, worker: Worker<S, O>, routed: nat)
    requires c.Legal() && routed < |c.job.input| && c.OwnerOf(routed) != w && HoldsInv(c, w, worker, routed)
    ensures HoldsInv(c, w, worker, routed + 1)
  {
    PutKeepsOther(c, w, worker.core, routed);
  }

  lemma RouteKeepsOtherKeys<I, S, O>(c: Stage<I, S, O>, s: State<S, O>, w: nat)
    requires c.Legal() && Enabled(c, s, Route) && w < |s.workers| == c.n && w != c.OwnerOf(s.routed)
    requires KeysInv(c, s, w)
    ensures KeysInv(c, Apply(c, s, Route), w)
  {
    var s' := Apply(c, s, Route);
    forall k: Key | Owner(k, c.n) == w
      ensures KeyInv(c, s'.workers[w], s'.routed, OfKey(c.job, s'.out, k), k)
    {
      assert KeyInv(c, s.workers[w], s.routed, OfKey(c.job, s.out, k), k);
      RouteKeepsOtherKey(c, s.workers[w], s.routed, OfKey(c.job, s.out, k), k);
    }
  }

  lemma RouteKeepsOtherKey<I, S, O>(c: Stage<I, S, O>, worker: Worker<S, O>, routed: nat, sent: seq<O>, k: Key)
    requires c.Legal() && routed < |c.job.input| && c.OwnerOf(routed) != Owner(k, c.n)
    requires KeyInv(c, worker, routed, sent, k)
    ensures KeyInv(c, worker, routed + 1, sent, k)
  {
    OthersSkipped(c, routed, routed + 1, k);
  }

  /** Items of other keys change nothing in a key's serial run. */
  lemma {:induction false} OthersSkipped<I, S, O>(c: Stage<I, S, O>, a: nat, b: nat, k: Key)
    requires a <= b <= |c.job.input|
    requires forall i :: a <= i < b ==> c.job.KeyOf(i) != k
    ensures SerialFrom(c.job.KeyResults(k), a) == SerialFrom(c.job.KeyResults(k), b)
    decreases b - a
  {
    if a < b {
      OthersSkipped(c, a + 1, b, k);
    }
  }

  /** A step of worker `w` that leaves the others, and the flags they depend on, alone. */
  lemma OthersKeepInv<I, S, O>(c: Stage<I, S, O>, s: State<S, O>, s': State<S, O>, w: nat)
    requires Inv(c, s) && w < c.n
    requires s' == s.(workers := s'.workers, cancelled := s'.cancelled, errCh := s'.errCh, out := s'.out)
    requires (s.cancelled ==> s'.cancelled) && (s.errCh.Some? ==> s'.errCh == s.errCh)
    requires !s.disp.Returned?
    requires |s'.workers| == c.n && forall v :: 0 <= v < c.n && v != w ==> s'.workers[v] == s.workers[v]
    requires forall k: Key :: Owner(k, c.n) != w ==> OfKey(c.job, s'.out, k) == OfKey(c.job, s.out, k)
    ensures forall v :: 0 <= v < c.n && v != w ==> WorkerInv(c, s', v)
  {
    forall v | 0 <= v < c.n && v != w
      ensures WorkerInv(c, s', v)
    {
      assert WorkerInv(c, s, v);
      assert KeysInv(c, s', v);
    }
  }

  lemma WorkKeepsInv<I, S, O>(c: Stage<I, S, O>, s: State<S, O>, w: nat)
    requires Inv(c, s) && Enabled(c, s, Work(w))
    ensures Inv(c, Apply(c, s, Work(w)))
  {
    var s' := Apply(c, s, Work(w));
    assert WorkerInv(c, s, w);
    OthersKeepInv(c, s, s', w);
    WorkKeepsHolds(c, s, w);
    WorkKeepsKeys(c, s, w);
    assert WorkerInv(c, s', w);
  }

  lemma WorkKeepsHolds<I, S, O>(c: Stage<I, S, O>, s: State<S, O>, w: nat)
    requires c.Legal() && Enabled(c, s, Work(w)) && HoldsInv(c, w, s.workers[w], s.routed)
    requires FlagsInv(c, s, s.workers[w])
    ensures HoldsInv(c, w, Apply(c, s, Work(w)).workers[w], s.routed)
    ensures FlagsInv(c, Apply(c, s, Work(w)), Apply(c, s, Work(w)).workers[w])
  {
    var worker, next := s.workers[w], Apply(c, s, Work(w)).workers[w];
    HandledChan(c, w, worker.core, next.core, s.routed);
    HandledRefs(c, w, worker.core, s.routed);
  }

  lemma WorkKeepsKeys<I, S, O>(c: Stage<I, S, O>, s: State<S, O>, w: nat)
    requires Inv(c, s) && Enabled(c, s, Work(w))
    ensures KeysInv(c, Apply(c, s, Work(w)), w)
  {
    var s', worker := Apply(c, s, Work(w)), s.workers[w];
    var i, next := worker.core.hand.value, s'.workers[w];
    assert WorkerInv(c, s, w);
    HandledChan(c, w, worker.core, next.core, s.routed);
    HandledRefs(c, w, worker.core, s.routed);
    forall k: Key | Owner(k, c.n) == w
      ensures KeyInv(c, next, s'.routed, OfKey(c.job, s'.out, k), k)
    {
      assert KeyInv(c, worker, s.routed, OfKey(c.job, s.out, k), k);
      WorkKeepsKey(c, worker, next, s.routed, OfKey(c.job, s.out, k), k);
    }
  }

  lemma WorkKeepsKey<I, S, O>(c: Stage<I, S, O>, worker: Worker<S, O>, next: Worker<S, O>, routed: nat, sent: seq<O>,
                              k: Key)
    requires c.Legal() && routed <= |c.job.input| && worker.pc.Working?
    requires KeyInv(c, worker, routed, sent, k)
    requires worker.core.hand.Some? && worker.core.hand.value < next.core.Horizon(routed) <= |c.job.input|
    requires var i := worker.core.hand.value;
             && next.pc == AfterHandling(i, c.job.ResultAt(i))
             && forall j :: i < j < next.core.Horizon(routed) ==> c.OwnerOf(j) != Owner(k, c.n)
    ensures KeyInv(c, next, routed, sent, k)
  {
    var i, h, os := worker.core.hand.value, next.core.Horizon(routed), c.job.KeyResults(k);
    forall j | i < j < h
      ensures c.job.KeyOf(j) != k
    {
      assert c.OwnerOf(j) != Owner(k, c.n);
    }
    OthersSkipped(c, i + 1, h, k);
    var r := SerialFrom(os, h);
    assert sent + [] == sent;
    if c.job.KeyOf(i) == k && os[i].Emit? {
      assert SerialFrom(os, i) == Prepend(os[i].values, r);
      assert sent + (os[i].values + r.out) == (sent + os[i].values) + r.out;
      assert Unsent(c, next, k) == os[i].values;
    }
  }

  lemma SendKeepsInv<I, S, O>(c: Stage<I, S, O>, s: State<S, O>, w: nat)
    requires Inv(c, s) && Enabled(c, s, Send(w))
    ensures Inv(c, Apply(c, s, Send(w)))
  {
    var s', worker := Apply(c, s, Send(w)), s.workers[w];
    assert WorkerInv(c, s, w);
    SentByOneWorker(c, s.out, worker.pc.i, worker.pc.rest[0]);
    OthersKeepInv(c, s, s', w);
    SendKeepsHolds(c, s, w);
    SendKeepsKeys(c, s, w);
    assert WorkerInv(c, s', w);
  }

  lemma SendKeepsHolds<I, S, O>(c: Stage<I, S, O>, s: State<S, O>, w: nat)
    requires c.Legal() && Enabled(c, s, Send(w)) && HoldsInv(c, w, s.workers[w], s.routed)
    requires FlagsInv(c, s, s.workers[w])
    ensures HoldsInv(c, w, Apply(c, s, Send(w)).workers[w], s.routed)
    ensures FlagsInv(c, Apply(c, s, Send(w)), Apply(c, s, Send(w)).workers[w])
  {
  }

  lemma SentByOneWorker<I, S, O>(c: Stage<I, S, O>, out: seq<(nat, O)>, i: nat, v: O)
    requires c.Legal() && i < |c.job.input|
    ensures forall k: Key :: Owner(k, c.n) != c.OwnerOf(i) ==> OfKey(c.job, out + [(i, v)], k) == OfKey(c.job, out, k)
  {
    forall k: Key | Owner(k, c.n) != c.OwnerOf(i)
      ensures OfKey(c.job, out + [(i, v)], k) == OfKey(c.job, out, k)
    {
      OfKeyAppend(c.job, out, i, v, k);
      assert OfKey(c.job, out, k) + [] == OfKey(c.job, out, k);
    }
  }

  lemma SendKeepsKeys<I, S, O>(c: Stage<I, S, O>, s: State<S, O>, w: nat)
    requires Inv(c, s) && Enabled(c, s, Send(w))
    ensures KeysInv(c, Apply(c, s, Send(w)), w)
  {
    var s', worker := Apply(c, s, Send(w)), s.workers[w];
    assert WorkerInv(c, s, w);
    forall k: Key | Owner(k, c.n) == w
      ensures KeyInv(c, s'.workers[w], s'.routed, OfKey(c.job, s'.out, k), k)
    {
      assert KeyInv(c, worker, s.routed, OfKey(c.job, s.out, k), k);
      OfKeyAppend(c.job, s.out, worker.pc.i, worker.pc.rest[0], k);
      SendKeepsKey(c, worker, s'.workers[w], s.routed, OfKey(c.job, s.out, k), k);
    }
  }

  lemma SendKeepsKey<I, S, O>(c: Stage<I, S, O>, worker: Worker<S, O>, next: Worker<S, O>, routed: nat, sent: seq<O>,
                              k: Key)
    requires c.Legal() && worker.pc.Sending? && worker.pc.rest != [] && worker.pc.i < |c.job.input|
    requires KeyInv(c, worker, routed, sent, k)
    requires next == worker.(pc := AfterSending(worker.pc.i, worker.pc.rest[1..]))
    ensures KeyInv(c, next, routed, sent + (if c.job.KeyOf(worker.pc.i) == k then [worker.pc.rest[0]] else []), k)
  {
    var rest := worker.pc.rest;
    assert rest == [rest[0]] + rest[1..];
    assert sent + [] == sent;
    assert sent + rest == (sent + [rest[0]]) + rest[1..];
    assert rest[1..] == [] ==> (sent + [rest[0]]) + [] == sent + rest;
    var r := SerialFrom(c.job.KeyResults(k), worker.core.Horizon(routed));
    assert (sent + rest) + r.out == (sent + [rest[0]]) + (rest[1..] + r.out);
  }

  predicate Quiet<S>(step: Step<S>) {
    step.Receive? || step.Interrupt? || step.SendCancelled? || step.Report? || step.Cancel? || step.Exit?
  }

  /** Steps of one worker that send nothing and handle nothing. */
  lemma QuietWorkerStepKeepsInv<I, S, O>(c: Stage<I, S, O>, s: State<S, O>, step: Step<S>)
    requires Inv(c, s) && Enabled(c, s, step) && Quiet(step)
    ensures Inv(c, Apply(c, s, step))
  {
    var s', w := Apply(c, s, step), step.w;
    assert WorkerInv(c, s, w);
    OthersKeepInv(c, s, s', w);
    QuietKeepsHolds(c, s, step);
    QuietKeepsFlags(c, s, step);
    QuietKeepsKeys(c, s, step);
    assert WorkerInv(c, s', w);
  }

  lemma QuietKeepsHolds<I, S, O>(c: Stage<I, S, O>, s: State<S, O>, step: Step<S>)
    requires c.Legal() && Enabled(c, s, step) && Quiet(step) && HoldsInv(c, step.w, s.workers[step.w], s.routed)
    ensures HoldsInv(c, step.w, Apply(c, s, step).workers[step.w], s.routed)
  {
    var w := step.w;
    var worker, next := s.workers[w], Apply(c, s, step).workers[w];
    if step.Receive? {
      ReceiveKeeps(c, w, worker.core, s.routed);
    } else if step.Interrupt? {
      HandledChan(c, w, worker.core, next.core, s.routed);
    }
  }

  lemma QuietKeepsFlags<I, S, O>(c: Stage<I, S, O>, s: State<S, O>, step: Step<S>)
    requires c.Legal() && Enabled(c, s, step) && Quiet(step) && FlagsInv(c, s, s.workers[step.w]) && ControlInv(c, s)
    ensures FlagsInv(c, Apply(c, s, step), Apply(c, s, step).workers[step.w])
  {
  }

  lemma QuietKeepsKeys<I, S, O>(c: Stage<I, S, O>, s: State<S, O>, step: Step<S>)
    requires c.Legal() && Enabled(c, s, step) && Quiet(step) && step.w < |s.workers|
    requires ChanInv(c, step.w, s.workers[step.w].core, s.routed) && KeysInv(c, s, step.w)
    ensures KeysInv(c, Apply(c, s, step), step.w)
  {
    var s', w := Apply(c, s, step), step.w;
    if step.Receive? {
      ReceiveKeeps(c, w, s.workers[w].core, s.routed);
    }
    forall k: Key | Owner(k, c.n) == w
      ensures KeyInv(c, s'.workers[w], s'.routed, OfKey(c.job, s'.out, k), k)
    {
      assert KeyInv(c, s.workers[w], s.routed, OfKey(c.job, s.out, k), k);
    }
  }

  lemma StepKeepsInv<I, S, O>(c: Stage<I, S, O>, s: State<S, O>, step: Step<S>)
    requires Inv(c, s) && Enabled(c, s, step)
    ensures Inv(c, Apply(c, s, step))
  {
    match step
    case Route => RouteKeepsInv(c, s);
    case Work(w) => WorkKeepsInv(c, s, w);
    case Send(w) => SendKeepsInv(c, s, w);
    case Receive(_) => QuietWorkerStepKeepsInv(c, s, step);
    case Interrupt(_, _) => QuietWorkerStepKeepsInv(c, s, step);
    case SendCancelled(_) => QuietWorkerStepKeepsInv(c, s, step);
    case Report(_) => QuietWorkerStepKeepsInv(c, s, step);
    case Cancel(_) => QuietWorkerStepKeepsInv(c, s, step);
    case Exit(_) => QuietWorkerStepKeepsInv(c, s, step);
    case _ => ControlStepKeepsInv(c, s, step);
  }

  lemma {:induction false} RunKeepsInv<I, S, O>(c: Stage<I, S, O>, s: State<S, O>, steps: seq<Step<S>>)
    requires Inv(c, s) && Runs(c, s, steps)
    ensures Inv(c, Final(c, s, steps))
    decreases |steps|
  {
    if steps != [] {
      StepKeepsInv(c, s, steps[0]);
      RunKeepsInv(c, Apply(c, s, steps[0]), steps[1..]);
    }
  }

  // ------------------------------------------------------------------ main results

  /**
   * In every schedule, whatever fails or gets cancelled, each key's output is a prefix of that key's serial
   * run. When the stage returns without outside interference, it returns an error exactly if some item
   * fails, the error is such an item's own, and a run without error leaves every key with the whole serial
   * output and the final serial state.
   */
  lemma EveryScheduleIsSerialPerKey<I, S, O>(c: Stage<I, S, O>, steps: seq<Step<S>>)
    requires c.Legal() && Runs(c, Init<S, O>(c.n), steps)
    ensures var s := Final(c, Init<S, O>(c.n), steps);
            && (forall k: Key :: OfKey(c.job, s.out, k) <= Serial(c.job.KeyResults(k)).out)
            && (s.disp.Returned? && !s.external ==>
                  && (s.disp.err.Some? ==> SomeItemFails(c, s.disp.err.value))
                  && (s.disp.err.None? ==>
                        && (forall i :: 0 <= i < |c.job.input| ==> !c.job.ResultAt(i).Fail?)
                        && |s.workers| == c.n
                        && forall k: Key ::
                             && OfKey(c.job, s.out, k) == Serial(c.job.KeyResults(k)).out
                             && RefAt(s.workers[Owner(k, c.n)].core.refs, k, c.job.initial)
                                == c.job.StateAt(|c.job.input|, k)))
  {
    InitInv(c);
    RunKeepsInv(c, Init<S, O>(c.n), steps);
    var s := Final(c, Init<S, O>(c.n), steps);
    forall k: Key
      ensures OfKey(c.job, s.out, k) <= Serial(c.job.KeyResults(k)).out
    {
      assert WorkerInv(c, s, Owner(k, c.n)) && KeysInv(c, s, Owner(k, c.n));
      assert KeyInv(c, s.workers[Owner(k, c.n)], s.routed, OfKey(c.job, s.out, k), k);
    }
    if s.disp.Returned? && !s.external && s.disp.err.None? {
      forall i | 0 <= i < |c.job.input|
        ensures !c.job.ResultAt(i).Fail?
      {
        CleanExit(c, s, c.OwnerOf(i), c.job.KeyOf(i));
      }
      forall k: Key
        ensures OfKey(c.job, s.out, k) == Serial(c.job.KeyResults(k)).out
        ensures RefAt(s.workers[Owner(k, c.n)].core.refs, k, c.job.initial) == c.job.StateAt(|c.job.input|, k)
      {
        CleanExit(c, s, Owner(k, c.n), k);
      }
    }
  }

  lemma CleanExit<I, S, O>(c: Stage<I, S, O>, s: State<S, O>, w: nat, k: Key)
    requires c.Legal() && |s.workers| == c.n && ControlInv(c, s) && w == Owner(k, c.n) && WorkerInv(c, s, w)
    requires s.disp.Returned? && !s.external && s.disp.err.None?
    ensures OfKey(c.job, s.out, k) == Serial(c.job.KeyResults(k)).out
    ensures RefAt(s.workers[w].core.refs, k, c.job.initial) == c.job.StateAt(|c.job.input|, k)
    ensures forall i :: 0 <= i < |c.job.input| && c.OwnerOf(i) == w ==> !c.job.ResultAt(i).Fail?
  {
    var worker := s.workers[w];
    assert worker.pc == Exited(true);
    assert worker.core.Horizon(s.routed) == |c.job.input|;
    var sent := OfKey(c.job, s.out, k);
    assert KeyInv(c, worker, s.routed, sent, k);
    assert sent + [] == sent;
  }

  predicate Internal<S>(step: Step<S>) {
    !step.OuterCancel? && !step.CooperativeDrain?
  }

  /** No deadlock: until the stage has returned, and with it every worker, it can itself take a step. */
  lemma NeverStuck<I, S, O>(c: Stage<I, S, O>, s: State<S, O>) returns (step: Step<S>)
    requires Inv(c, s) && !s.disp.Returned?
    ensures Internal(step) && Enabled(c, s, step)
  {
    if w: nat :| w < c.n && !s.workers[w].pc.Exited?
                 && !(Free(s.workers[w]) && s.workers[w].core.chan == [] && Dispatching(s.disp)) {
      step := BusyWorkerSteps(c, s, w);
    } else {
      match s.disp
      case Reading => step := if s.read < |c.job.input| then Read else ReadClosed;
      case NeedRoute =>
        var w := c.OwnerOf(s.routed);
        assert WorkerInv(c, s, w);
        step := if s.workers[w].pc.Exited? then Abort else Route;
      case Joining => step := Return;
    }
  }

  lemma BusyWorkerSteps<I, S, O>(c: Stage<I, S, O>, s: State<S, O>, w: nat) returns (step: Step<S>)
    requires c.Legal() && w < |s.workers| == c.n && WorkerInv(c, s, w) && !s.workers[w].pc.Exited?
    requires !(Free(s.workers[w]) && s.workers[w].core.chan == [] && Dispatching(s.disp))
    ensures Internal(step) && Enabled(c, s, step)
  {
    var worker := s.workers[w];
    match worker.pc
    case Sending(_, _) => step := Send(w);
    case Failed(_) => step := Report(w);
    case Reported => step := Cancel(w);
    case Working =>
      if worker.core.hand.Some? {
        assert worker.core.InHand(worker.core.hand.value);
        step := Work(w);
      } else {
        step := if worker.core.chan != [] then Receive(w) else Exit(w);
      }
  }

  // ------------------------------------------------------------------ termination

  function ItemValues<I, S, O>(c: Stage<I, S, O>, i: nat): nat {
    if i < |c.job.input| && c.job.ResultAt(i).Emit? then |c.job.ResultAt(i).values| else 0
  }

  function ValuesFromItem<I, S, O>(c: Stage<I, S, O>, i: nat): nat
    decreases |c.job.input| - i
  {
    if i >= |c.job.input| then 0 else ItemValues(c, i) + ValuesFromItem(c, i + 1)
  }

  function ChanWork<I, S, O>(c: Stage<I, S, O>, chan: seq<nat>): seq<nat> {
    seq(|chan|, j requires 0 <= j < |chan| => 5 + ItemValues(c, chan[j]))
  }

  function WorkerWork<I, S, O>(c: Stage<I, S, O>, worker: Worker<S, O>): nat {
    Total(ChanWork(c, worker.core.chan))
    + (if worker.core.hand.Some? then 4 + ItemValues(c, worker.core.hand.value) else 0)
    + (match worker.pc
       case Working => 3
       case Sending(_, rest) => 3 + |rest|
       case Failed(_) => 2
       case Reported => 1
       case Exited(_) => 0)
  }

  function Works<I, S, O>(c: Stage<I, S, O>, workers: seq<Worker<S, O>>): seq<nat> {
    seq(|workers|, w requires 0 <= w < |workers| => WorkerWork(c, workers[w]))
  }

  /** A bound on the number of steps left. */
  function StepsLeft<I, S, O>(c: Stage<I, S, O>, s: State<S, O>): nat
    requires s.read <= |c.job.input|
  {
    8 * (|c.job.input| - s.read)
    + ValuesFromItem(c, s.routed)
    + (match s.disp
       case Reading => 3
       case NeedRoute => 10
       case Joining => 2
       case Returned(_) => 0)
    + Total(Works(c, s.workers))
    + (if s.external then 0 else 1)
  }

  lemma UpdateWorks<I, S, O>(c: Stage<I, S, O>, workers: seq<Worker<S, O>>, w: nat, worker: Worker<S, O>)
    requires w < |workers|
    ensures Total(Works(c, workers[w := worker])) + WorkerWork(c, workers[w]) ==
              Total(Works(c, workers)) + WorkerWork(c, worker)
  {
    assert Works(c, workers[w := worker]) == Works(c, workers)[w := WorkerWork(c, worker)];
    TotalUpdate(Works(c, workers), w, WorkerWork(c, worker));
  }

  predicate WorkerStep<S>(step: Step<S>) {
    || step.Receive? || step.Work? || step.Interrupt? || step.Send? || step.SendCancelled?
    || step.Report? || step.Cancel? || step.Exit?
  }

  lemma WorkerStepDecreasesWork<I, S, O>(c: Stage<I, S, O>, s: State<S, O>, step: Step<S>)
    requires c.Legal() && Enabled(c, s, step) && WorkerStep(step)
    requires HoldsInv(c, step.w, s.workers[step.w], s.routed)
    ensures WorkerWork(c, Apply(c, s, step).workers[step.w]) < WorkerWork(c, s.workers[step.w])
  {
    match step
    case Receive(w) => ReceiveUsesWork(c, s.workers[w].core.chan);
    case Work(w) => WorkUsesWork(c, s, w);
    case _ =>
  }

  lemma ReceiveUsesWork<I, S, O>(c: Stage<I, S, O>, chan: seq<nat>)
    requires chan != []
    ensures Total(ChanWork(c, chan)) == 5 + ItemValues(c, chan[0]) + Total(ChanWork(c, chan[1..]))
  {
    assert ChanWork(c, chan)[1..] == ChanWork(c, chan[1..]);
  }

  lemma WorkUsesWork<I, S, O>(c: Stage<I, S, O>, s: State<S, O>, w: nat)
    requires c.Legal() && Enabled(c, s, Work(w)) && HoldsInv(c, w, s.workers[w], s.routed)
    ensures WorkerWork(c, Apply(c, s, Work(w)).workers[w]) < WorkerWork(c, s.workers[w])
  {
    HandledRefs(c, w, s.workers[w].core, s.routed);
  }

  lemma RouteDecreasesWork<I, S, O>(c: Stage<I, S, O>, s: State<S, O>)
    requires c.Legal() && Enabled(c, s, Route) && s.read <= |c.job.input|
    ensures StepsLeft(c, Apply(c, s, Route)) < StepsLeft(c, s)
  {
    var s', w := Apply(c, s, Route), c.OwnerOf(s.routed);
    PutAddsWork(c, s.workers[w].core.chan, s.routed);
    UpdateWorks(c, s.workers, w, s'.workers[w]);
  }

  lemma PutAddsWork<I, S, O>(c: Stage<I, S, O>, chan: seq<nat>, i: nat)
    ensures Total(ChanWork(c, chan + [i])) == Total(ChanWork(c, chan)) + 5 + ItemValues(c, i)
  {
    assert ChanWork(c, chan + [i]) == ChanWork(c, chan) + [5 + ItemValues(c, i)];
    TotalAppend(ChanWork(c, chan), [5 + ItemValues(c, i)]);
    assert [5 + ItemValues(c, i)][1..] == [];
  }

  lemma StepDecreasesWork<I, S, O>(c: Stage<I, S, O>, s: State<S, O>, step: Step<S>)
    requires Inv(c, s) && Enabled(c, s, step)
    ensures s.read <= |c.job.input| && Apply(c, s, step).read <= |c.job.input|
    ensures StepsLeft(c, Apply(c, s, step)) < StepsLeft(c, s)
  {
    if step.Route? {
      RouteDecreasesWork(c, s);
    } else if WorkerStep(step) {
      assert WorkerInv(c, s, step.w);
      WorkerStepLeavesFewer(c, s, step);
    } else {
      ControlStepDecreasesWork(c, s, step);
    }
  }

  lemma WorkerStepLeavesFewer<I, S, O>(c: Stage<I, S, O>, s: State<S, O>, step: Step<S>)
    requires c.Legal() && Enabled(c, s, step) && WorkerStep(step) && s.read <= |c.job.input|
    requires HoldsInv(c, step.w, s.workers[step.w], s.routed)
    ensures Apply(c, s, step).read == s.read && StepsLeft(c, Apply(c, s, step)) < StepsLeft(c, s)
  {
    var s', w := Apply(c, s, step), step.w;
    WorkerStepDecreasesWork(c, s, step);
    UpdateWorks(c, s.workers, w, s'.workers[w]);
    assert s'.workers == s.workers[w := s'.workers[w]];
    assert s'.disp == s.disp && s'.routed == s.routed && s'.external == s.external;
  }

  lemma ControlStepDecreasesWork<I, S, O>(c: Stage<I, S, O>, s: State<S, O>, step: Step<S>)
    requires c.Legal() && Enabled(c, s, step) && !step.Route? && !WorkerStep(step) && s.read <= |c.job.input|
    ensures Apply(c, s, step).read <= |c.job.input| && StepsLeft(c, Apply(c, s, step)) < StepsLeft(c, s)
  {
    assert Apply(c, s, step).workers == s.workers;
  }

  /** Termination: no schedule is longer than the initial bound. */
  lemma {:induction false} SchedulesAreBounded<I, S, O>(c: Stage<I, S, O>, s: State<S, O>, steps: seq<Step<S>>)
    requires Inv(c, s) && Runs(c, s, steps)
    ensures s.read <= |c.job.input| && |steps| <= StepsLeft(c, s)
    decreases |steps|
  {
    if steps != [] {
      StepKeepsInv(c, s, steps[0]);
      StepDecreasesWork(c, s, steps[0]);
      SchedulesAreBounded(c, Apply(c, s, steps[0]), steps[1..]);
    }
  }
}
