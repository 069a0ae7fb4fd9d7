/**
 * The DropOldest outbox: when the output channel is full, a sender evicts the oldest buffered item and
 * sends its own. Any number of senders, spread over shards with one mutex each, and a receiver.
 */
module Outbox {
  import opened Sums

  datatype SenderPc<+T> =
    | Idle
    | Locking(x: T)     // found the channel full, wants its shard's mutex
    | Trying(x: T)      // holds the mutex, tries once more
    | Evicting(x: T)    // still full, about to take the oldest item out
    | Resending(x: T)   // about to send into the freed place

  /** `todo` are the items this sender will still offer, in order; `shard` is the mutex it uses. */
  datatype Sender<+T> = Sender(todo: seq<T>, shard: nat, pc: SenderPc<T>)

  datatype State<+T> = State(
    cap: nat,
    buf: seq<T>,            // contents of the shared output channel
    senders: seq<Sender<T>>,
    locked: set<nat>,       // shards whose mutex is held
    received: seq<T>,
    reports: seq<T>,        // items passed to the drop hook
    dropped: nat)           // the shared atomic counter

  /** `waiting` says a receiver is blocked on the channel, which lets a send succeed without buffer space. */
  datatype Step =
    | Offer(w: nat, waiting: bool) | Lock(w: nat) | Retry(w: nat, waiting: bool)
    | Evict(w: nat) | Resend(w: nat, waiting: bool)
    | Receive

  predicate Enabled<T>(s: State<T>, step: Step) {
    match step
    case Offer(w, _) => w < |s.senders| && s.senders[w].pc.Idle? && s.senders[w].todo != []
    case Lock(w) => w < |s.senders| && s.senders[w].pc.Locking? && s.senders[w].shard !in s.locked
    case Retry(w, _) => w < |s.senders| && s.senders[w].pc.Trying?
    case Evict(w) => w < |s.senders| && s.senders[w].pc.Evicting?
    case Resend(w, _) => w < |s.senders| && s.senders[w].pc.Resending?
    case Receive => s.buf != []
  }

  predicate CanSend<T>(s: State<T>, waiting: bool) {
    |s.buf| < s.cap || (waiting && s.buf == [])
  }

  /** A send that succeeds: to a waiting receiver when there is one and nothing is buffered, else into the buffer. */
  function Deliver<T>(s: State<T>, x: T, waiting: bool): State<T> {
    if waiting && s.buf == [] then s.(received := s.received + [x]) else s.(buf := s.buf + [x])
  }

  function Drop<T>(s: State<T>, x: T): State<T> {
    s.(reports := s.reports + [x], dropped := s.dropped + 1)
  }

  function SetPc<T>(s: State<T>, w: nat, pc: SenderPc<T>): State<T>
    requires w < |s.senders|
  {
    s.(senders := s.senders[w := s.senders[w].(pc := pc)])
  }

  function Unlock<T>(s: State<T>, w: nat): State<T>
    requires w < |s.senders|
  {
    SetPc(s, w, Idle).(locked := s.locked - {s.senders[w].shard})
  }

  function Apply<T>(s: State<T>, step: Step): State<T>
    requires Enabled(s, step)
  {
    match step
    case Offer(w, waiting) =>
      var x := s.senders[w].todo[0];
      var rest := s.senders[w].(todo := s.senders[w].todo[1..]);
      if CanSend(s, waiting) then Deliver(s.(senders := s.senders[w := rest]), x, waiting)
      else s.(senders := s.senders[w := rest.(pc := Locking(x))])
    case Lock(w) => SetPc(s, w, Trying(s.senders[w].pc.x)).(locked := s.locked + {s.senders[w].shard})
    case Retry(w, waiting) =>
      var x := s.senders[w].pc.x;
      if CanSend(s, waiting) then Deliver(Unlock(s, w), x, waiting) else SetPc(s, w, Evicting(x))
    case Evict(w) =>
      var s' := SetPc(s, w, Resending(s.senders[w].pc.x));
      if s.buf == [] then s' else Drop(s', s.buf[0]).(buf := s.buf[1..])
    case Resend(w, waiting) =>
      var x := s.senders[w].pc.x;
      if CanSend(s, waiting) then Deliver(Unlock(s, w), x, waiting) else Drop(Unlock(s, w), x)
    case Receive => s.(received := s.received + [s.buf[0]], buf := s.buf[1..])
  }

  predicate Runs<T>(s: State<T>, steps: seq<Step>)
    decreases |steps|
  {
    steps == [] || (Enabled(s, steps[0]) && Runs(Apply(s, steps[0]), steps[1..]))
  }

  function Final<T>(s: State<T>, steps: seq<Step>): State<T>
    requires Runs(s, steps)
    decreases |steps|
  {
    if steps == [] then s else Final(Apply(s, steps[0]), steps[1..])
  }

  /** `scripts[w]` is what sender w offers, `shards[w]` its mutex; one shard gives the unsharded outbox. */
  function Init<T>(cap: nat, scripts: seq<seq<T>>, shards: seq<nat>): State<T>
    requires |scripts| == |shards|
  {
    State(cap, [], seq(|scripts|, w requires 0 <= w < |scripts| => Sender(scripts[w], shards[w], Idle)), {}, [], [], 0)
  }

  // ------------------------------------------------------------------ conservation

  function InFlight<T>(pc: SenderPc<T>): seq<T> {
    if pc.Idle? then [] else [pc.x]
  }

  /** How often a sender still has x: to be offered, or offered and in flight. */
  function HeldBy<T(==)>(sender: Sender<T>, x: T): nat {
    Count(sender.todo, x) + Count(InFlight(sender.pc), x)
  }

  function HeldCounts<T(==)>(senders: seq<Sender<T>>, x: T): seq<nat> {
    seq(|senders|, w requires 0 <= w < |senders| => HeldBy(senders[w], x))
  }

  /** How often x exists at all: held by senders, buffered, received, or reported as dropped. */
  function Copies<T(==)>(s: State<T>, x: T): nat {
    Total(HeldCounts(s.senders, x)) + Count(s.buf, x) + Count(s.received, x) + Count(s.reports, x)
  }

  lemma HeldUpdate<T>(senders: seq<Sender<T>>, w: nat, sender: Sender<T>, x: T)
    requires w < |senders|
    ensures Total(HeldCounts(senders[w := sender], x)) + HeldBy(senders[w], x) ==
              Total(HeldCounts(senders, x)) + HeldBy(sender, x)
  {
    assert HeldCounts(senders[w := sender], x) == HeldCounts(senders, x)[w := HeldBy(sender, x)];
    TotalUpdate(HeldCounts(senders, x), w, HeldBy(sender, x));
  }

  /** What a step does to the channel, the receiver and the drop reports, as counts of x. */
  lemma DeliverCounts<T>(s: State<T>, y: T, waiting: bool, x: T)
    ensures var s' := Deliver(s, y, waiting);
            s'.senders == s.senders && s'.reports == s.reports &&
            Count(s'.buf, x) + Count(s'.received, x) ==
            Count(s.buf, x) + Count(s.received, x) + (if y == x then 1 else 0)
  {
    CountLast(s.buf, y, x);
    CountLast(s.received, y, x);
  }

  lemma OfferConserves<T>(s: State<T>, step: Step, x: T)
    requires step.Offer? && Enabled(s, step)
    ensures Copies(Apply(s, step), x) == Copies(s, x)
  {
    var s', w := Apply(s, step), step.w;
    var y := s.senders[w].todo[0];
    HeldUpdate(s.senders, w, s'.senders[w], x);
    if CanSend(s, step.waiting) {
      DeliverCounts(s, y, step.waiting, x);
    } else {
      CountOne(y, x);
    }
  }

  lemma EvictConserves<T>(s: State<T>, step: Step, x: T)
    requires step.Evict? && Enabled(s, step)
    ensures Copies(Apply(s, step), x) == Copies(s, x)
  {
    HeldUpdate(s.senders, step.w, Apply(s, step).senders[step.w], x);
    if s.buf != [] {
      CountLast(s.reports, s.buf[0], x);
    }
  }

  lemma UnlockedCounts<T>(s: State<T>, w: nat, x: T)
    requires w < |s.senders| && !s.senders[w].pc.Idle?
    ensures Copies(Unlock(s, w), x) + (if s.senders[w].pc.x == x then 1 else 0) == Copies(s, x)
  {
    HeldUpdate(s.senders, w, Unlock(s, w).senders[w], x);
    CountOne(s.senders[w].pc.x, x);
  }

  lemma RetryConserves<T>(s: State<T>, w: nat, waiting: bool, x: T)
    requires Enabled(s, Retry(w, waiting))
    ensures Copies(Apply(s, Retry(w, waiting)), x) == Copies(s, x)
  {
    if CanSend(s, waiting) {
      UnlockedCounts(s, w, x);
      DeliverCounts(Unlock(s, w), s.senders[w].pc.x, waiting, x);
    } else {
      HeldUpdate(s.senders, w, Apply(s, Retry(w, waiting)).senders[w], x);
    }
  }

  lemma ResendConserves<T>(s: State<T>, w: nat, waiting: bool, x: T)
    requires Enabled(s, Resend(w, waiting))
    ensures Copies(Apply(s, Resend(w, waiting)), x) == Copies(s, x)
  {
    var y := s.senders[w].pc.x;
    UnlockedCounts(s, w, x);
    if CanSend(s, waiting) {
      DeliverCounts(Unlock(s, w), y, waiting, x);
    } else {
      CountLast(s.reports, y, x);
    }
  }

  /** Every step moves items between the places they can be and loses or duplicates none. */
  lemma StepConserves<T>(s: State<T>, step: Step, x: T)
    requires Enabled(s, step)
    ensures Copies(Apply(s, step), x) == Copies(s, x)
  {
    match step
    case Receive =>
      CountLast(s.received, s.buf[0], x);
    case Offer(_, _) => OfferConserves(s, step, x);
    case Evict(_) => EvictConserves(s, step, x);
    case Lock(w) => HeldUpdate(s.senders, w, Apply(s, step).senders[w], x);
    case Retry(w, waiting) => RetryConserves(s, w, waiting, x);
    case Resend(w, waiting) => ResendConserves(s, w, waiting, x);
  }

  // ------------------------------------------------------------------ locking and capacity

  predicate Critical<T>(pc: SenderPc<T>) {
    pc.Trying? || pc.Evicting? || pc.Resending?
  }

  /** A sender in its critical section holds its shard's mutex, alone; and held mutexes are held by someone. */
  ghost predicate LockInv<T>(senders: seq<Sender<T>>, locked: set<nat>) {
    && (forall w :: 0 <= w < |senders| && Critical(senders[w].pc) ==> senders[w].shard in locked)
    && (forall h :: h in locked ==> exists w :: 0 <= w < |senders| && Critical(senders[w].pc) && senders[w].shard == h)
    && (forall v, w :: 0 <= v < w < |senders| && Critical(senders[v].pc) && Critical(senders[w].pc) ==>
          senders[v].shard != senders[w].shard)
  }

  ghost predicate Inv<T>(s: State<T>) {
    && |s.buf| <= s.cap
    && s.dropped == |s.reports|
    && LockInv(s.senders, s.locked)
  }

  /** One sender moves: it stays on its side of the lock, takes a free mutex, or gives its own back. */
  lemma LockStep<T>(senders: seq<Sender<T>>, locked: set<nat>, w: nat, sender: Sender<T>, locked': set<nat>)
    requires LockInv(senders, locked) && w < |senders| && sender.shard == senders[w].shard
    requires
      || (Critical(sender.pc) == Critical(senders[w].pc) && locked' == locked)
      || (!Critical(senders[w].pc) && Critical(sender.pc) && sender.shard !in locked
          && locked' == locked + {sender.shard})
      || (Critical(senders[w].pc) && !Critical(sender.pc) && locked' == locked - {sender.shard})
    ensures LockInv(senders[w := sender], locked')
  {
    var senders' := senders[w := sender];
    forall h | h in locked'
      ensures exists v :: 0 <= v < |senders'| && Critical(senders'[v].pc) && senders'[v].shard == h
    {
      if h in locked {
        var v :| 0 <= v < |senders| && Critical(senders[v].pc) && senders[v].shard == h;
        assert Critical(senders'[v].pc) && senders'[v].shard == h;
      } else {
        assert Critical(senders'[w].pc);
      }
    }
  }

  lemma StepKeepsInv<T>(s: State<T>, step: Step)
    requires Inv(s) && Enabled(s, step)
    ensures Inv(Apply(s, step))
  {
    if !step.Receive? {
      var s' := Apply(s, step);
      assert s'.senders == s.senders[step.w := s'.senders[step.w]];
      LockStep(s.senders, s.locked, step.w, s'.senders[step.w], s'.locked);
    }
  }

  /**
   * In every interleaving of any number of senders over any shards with a receiver: what was to be offered
   * is received, buffered, reported as dropped, in flight or still to come, with multiplicities; the counter
   * is the number of reports; the buffer respects its capacity; and no two senders hold one mutex.
   */
  lemma {:induction false} Conservation<T>(s: State<T>, steps: seq<Step>, x: T)
    requires Inv(s) && Runs(s, steps)
    ensures Copies(Final(s, steps), x) == Copies(s, x) && Inv(Final(s, steps))
    decreases |steps|
  {
    if steps != [] {
      StepConserves(s, steps[0], x);
      StepKeepsInv(s, steps[0]);
      Conservation(Apply(s, steps[0]), steps[1..], x);
    }
  }

  lemma InitInv<T>(cap: nat, scripts: seq<seq<T>>, shards: seq<nat>)
    requires |scripts| == |shards|
    ensures Inv(Init(cap, scripts, shards))
  {
  }

  /** Drop modes never block: while a sender has work left, some sender can step, whatever the receiver does. */
  lemma SendersNeverBlock<T>(s: State<T>) returns (step: Step)
    requires Inv(s)
    requires exists w :: 0 <= w < |s.senders| && (s.senders[w].todo != [] || !s.senders[w].pc.Idle?)
    ensures Enabled(s, step) && !step.Receive?
  {
    var w: nat :| w < |s.senders| && (s.senders[w].todo != [] || !s.senders[w].pc.Idle?);
    var v := w;
    if s.senders[w].pc.Locking? && s.senders[w].shard in s.locked {
      v :| 0 <= v < |s.senders| && Critical(s.senders[v].pc) && s.senders[v].shard == s.senders[w].shard;
    }
    match s.senders[v].pc
    case Idle => step := Offer(v, false);
    case Locking(_) => step := Lock(v);
    case Trying(_) => step := Retry(v, false);
    case Evicting(_) => step := Evict(v);
    case Resending(_) => step := Resend(v, false);
  }

  // ------------------------------------------------------------------ one sender

  /** The items the single sender has disposed of so far. */
  function Settled<T>(script: seq<T>, sender: Sender<T>): int {
    |script| - |sender.todo| - |InFlight(sender.pc)|
  }

  ghost predicate SingleInv<T>(script: seq<T>, s: State<T>) {
    && s.cap >= 1 && |s.senders| == 1 && |s.buf| <= s.cap
    && (var sender := s.senders[0];
        && |sender.todo| + |InFlight(sender.pc)| <= |script|
        && sender.todo == script[|script| - |sender.todo|..]
        && (!sender.pc.Idle? ==> sender.pc.x == script[Settled(script, sender)])
        && |s.buf| <= Settled(script, sender)
        && s.buf == script[Settled(script, sender) - |s.buf|..Settled(script, sender)]
        && (sender.pc.Resending? ==> |s.buf| < s.cap))
  }

  lemma SingleOffer<T>(script: seq<T>, s: State<T>, waiting: bool)
    requires SingleInv(script, s) && Enabled(s, Offer(0, waiting))
    ensures SingleInv(script, Apply(s, Offer(0, waiting)))
  {
    var sender, n := s.senders[0], Settled(script, s.senders[0]);
    assert sender.todo[0] == script[n] && sender.todo[1..] == script[n + 1..];
    assert script[n - |s.buf|..n] + [script[n]] == script[n - |s.buf|..n + 1];
  }

  lemma SingleRetry<T>(script: seq<T>, s: State<T>, waiting: bool)
    requires SingleInv(script, s) && Enabled(s, Retry(0, waiting))
    ensures SingleInv(script, Apply(s, Retry(0, waiting)))
  {
  }

  lemma SingleResend<T>(script: seq<T>, s: State<T>, waiting: bool)
    requires SingleInv(script, s) && Enabled(s, Resend(0, waiting))
    ensures SingleInv(script, Apply(s, Resend(0, waiting)))
  {
  }

  lemma SingleStep<T>(script: seq<T>, s: State<T>, step: Step)
    requires SingleInv(script, s) && Enabled(s, step)
    ensures SingleInv(script, Apply(s, step))
  {
    match step
    case Offer(_, waiting) => SingleOffer(script, s, waiting);
    case Retry(_, waiting) => SingleRetry(script, s, waiting);
    case Resend(_, waiting) => SingleResend(script, s, waiting);
    case _ =>
  }

  /**
   * With one sender and room for at least one item, the buffer is at every moment a contiguous run of the
   * script that ends with the last item settled, and what was received or dropped is exactly the script
   * before it: only the oldest items are ever dropped, so the newest is not.
   */
  lemma SingleSenderKeepsNewest<T>(cap: nat, script: seq<T>, shard: nat, steps: seq<Step>, x: T)
    requires cap >= 1 && Runs(Init(cap, [script], [shard]), steps)
    ensures var s := Final(Init(cap, [script], [shard]), steps);
            && |s.senders| == 1
            && (var n := Settled(script, s.senders[0]);
                && |s.buf| <= n <= |script|
                && s.buf == script[n - |s.buf|..n]
                && Count(s.received, x) + Count(s.reports, x) == Count(script[..n - |s.buf|], x))
  {
    SingleInit(cap, script, shard);
    SingleInitCopies(cap, script, shard, x);
    SingleTotalRun(script, Init(cap, [script], [shard]), steps, x);
    SingleSettled(script, Final(Init(cap, [script], [shard]), steps), x);
  }

  ghost predicate SingleTotal<T>(script: seq<T>, s: State<T>, x: T) {
    SingleInv(script, s) && Copies(s, x) == Count(script, x)
  }

  lemma SingleTotalStep<T>(script: seq<T>, s: State<T>, step: Step, x: T)
    requires SingleTotal(script, s, x) && Enabled(s, step)
    ensures SingleTotal(script, Apply(s, step), x)
  {
    StepConserves(s, step, x);
    SingleStep(script, s, step);
  }

  lemma {:induction false} SingleTotalRun<T>(script: seq<T>, s: State<T>, steps: seq<Step>, x: T)
    requires SingleTotal(script, s, x) && Runs(s, steps)
    ensures SingleTotal(script, Final(s, steps), x)
    decreases |steps|
  {
    if steps != [] {
      SingleTotalStep(script, s, steps[0], x);
      SingleTotalRun(script, Apply(s, steps[0]), steps[1..], x);
    }
  }

  lemma SingleSettled<T>(script: seq<T>, s: State<T>, x: T)
    requires SingleInv(script, s) && Copies(s, x) == Count(script, x)
    ensures var n := Settled(script, s.senders[0]);
            Count(s.received, x) + Count(s.reports, x) == Count(script[..n - |s.buf|], x)
  {
    OneSenderCopies(s, x);
    SingleCounts(script, s, x);
  }

  lemma SingleInitCopies<T>(cap: nat, script: seq<T>, shard: nat, x: T)
    ensures Copies(Init(cap, [script], [shard]), x) == Count(script, x)
  {
    OneSenderCopies(Init(cap, [script], [shard]), x);
  }

  lemma SingleCounts<T>(script: seq<T>, s: State<T>, x: T)
    requires SingleInv(script, s)
    ensures var n := Settled(script, s.senders[0]);
            Count(script, x) == Count(script[..n - |s.buf|], x) + Count(s.buf, x) + HeldBy(s.senders[0], x)
  {
    var sender := s.senders[0];
    var n := Settled(script, sender);
    var before, held := script[..n - |s.buf|], InFlight(sender.pc) + sender.todo;
    assert script == before + (s.buf + held);
    CountConcat(before, s.buf + held, x);
    CountConcat(s.buf, held, x);
    CountConcat(InFlight(sender.pc), sender.todo, x);
  }

  lemma OneSenderCopies<T>(s: State<T>, x: T)
    requires |s.senders| == 1
    ensures Copies(s, x) == HeldBy(s.senders[0], x) + Count(s.buf, x) + Count(s.received, x) + Count(s.reports, x)
  {
    var h := HeldBy(s.senders[0], x);
    assert HeldCounts(s.senders, x) == [h];
    assert [h][1..] == [] && Total([h]) == h;
  }

  lemma SingleInit<T>(cap: nat, script: seq<T>, shard: nat)
    requires cap >= 1
    ensures SingleInv(script, Init(cap, [script], [shard]))
  {
    assert script[|script|..] == [] && script[0..] == script;
  }

  // ------------------------------------------------------------------ the evicting sender's own item

  lemma {:induction false} RunsThen<T>(s: State<T>, a: seq<Step>, b: seq<Step>)
    requires Runs(s, a) && Runs(Final(s, a), b)
    ensures Runs(s, a + b) && Final(s, a + b) == Final(Final(s, a), b)
    decreases |a|
  {
    if a == [] {
      assert a + b == b;
    } else {
      assert (a + b)[1..] == a[1..] + b;
      RunsThen(Apply(s, a[0]), a[1..], b);
    }
  }

  lemma RunOne<T>(s: State<T>, step: Step)
    requires Enabled(s, step)
    ensures Runs(s, [step]) && Final(s, [step]) == Apply(s, step)
  {
    assert [step][1..] == [];
    assert Runs(Apply(s, step), []) && Final(Apply(s, step), []) == Apply(s, step);
  }

  /** One more step at the end of a run. */
  lemma OneStep<T>(s: State<T>, steps: seq<Step>, step: Step)
    requires Runs(s, steps) && Enabled(Final(s, steps), step)
    ensures Runs(s, steps + [step]) && Final(s, steps + [step]) == Apply(Final(s, steps), step)
  {
    RunOne(Final(s, steps), step);
    RunsThen(s, steps, [step]);
  }

  /** Sender 0 puts its first k items into the free buffer. */
  lemma {:induction false} Fill<T>(s: State<T>, k: nat) returns (steps: seq<Step>)
    requires |s.senders| >= 1 && s.senders[0].pc.Idle? && k <= |s.senders[0].todo| && |s.buf| + k <= s.cap
    ensures Runs(s, steps)
    ensures var sender := s.senders[0].(todo := s.senders[0].todo[k..]);
            Final(s, steps) == s.(buf := s.buf + s.senders[0].todo[..k], senders := s.senders[0 := sender])
    decreases k
  {
    var todo := s.senders[0].todo;
    if k == 0 {
      steps := [];
      assert s.senders[0 := s.senders[0].(todo := todo[0..])] == s.senders;
    } else {
      steps := Fill(s, k - 1);
      var full := Final(s, steps);
      assert todo[k - 1..][0] == todo[k - 1] && todo[k - 1..][1..] == todo[k..];
      assert s.buf + todo[..k - 1] + [todo[k - 1]] == s.buf + todo[..k];
      OneStep(s, steps, Offer(0, false));
      steps := steps + [Offer(0, false)];
    }
  }

  /** Sender 0 finds the channel full, takes its mutex, and makes room. */
  lemma MakeRoom<T>(s: State<T>, x: T) returns (steps: seq<Step>)
    requires |s.senders| >= 1 && s.senders[0].pc.Idle? && s.senders[0].todo == [x]
    requires |s.buf| == s.cap && s.locked == {}
    ensures Runs(s, steps)
    ensures var s' := Final(s, steps);
            && s'.senders == s.senders[0 := Sender([], s.senders[0].shard, Resending(x))]
            && s'.cap == s.cap && s'.buf == (if s.buf == [] then [] else s.buf[1..])
            && s'.reports == s.reports + (if s.buf == [] then [] else [s.buf[0]])
  {
    assert [x][1..] == [];
    RunOne(s, Offer(0, false));
    OneStep(s, [Offer(0, false)], Lock(0));
    OneStep(s, [Offer(0, false)] + [Lock(0)], Retry(0, false));
    OneStep(s, [Offer(0, false)] + [Lock(0)] + [Retry(0, false)], Evict(0));
    steps := [Offer(0, false)] + [Lock(0)] + [Retry(0, false)] + [Evict(0)];
  }

  /** In this state the sender is about to drop the item it made room for. */
  predicate LosesOwn<T>(s: State<T>, step: Step) {
    step.Resend? && Enabled(s, step) && !CanSend(s, step.waiting)
  }

  /** Sender 0 offers xs, one item more than fit, sender 1 offers y, and the others nothing. */
  ghost predicate Contended<T>(cap: nat, xs: seq<T>, y: T, scripts: seq<seq<T>>) {
    |scripts| >= 2 && |xs| == cap + 1 && scripts[0] == xs && scripts[1] == [y]
  }

  /**
   * The place freed by an eviction is not guaranteed, whatever the capacity, the items and the shards, not even
   * under a single mutex: the lock-free first attempt of another sender can take it, and then the
   * evicting sender drops its own item, the newest of all it offered.
   */
  lemma EvictingSenderLosesItsOwnItem<T>(cap: nat, xs: seq<T>, y: T, scripts: seq<seq<T>>, shards: seq<nat>)
      returns (steps: seq<Step>)
    requires cap >= 1 && Contended(cap, xs, y, scripts) && |shards| == |scripts|
    ensures Runs(Init(cap, scripts, shards), steps)
    ensures LosesOwn(Final(Init(cap, scripts, shards), steps), Resend(0, false))
    ensures var s := Apply(Final(Init(cap, scripts, shards), steps), Resend(0, false));
            s.reports == [xs[0], xs[cap]] && s.buf == xs[1..cap] + [y]
  {
    var s0 := Init(cap, scripts, shards);
    steps := Fill(s0, cap);
    var s1 := Final(s0, steps);
    assert xs[cap..] == [xs[cap]] && [] + xs[..cap] == xs[..cap];
    var room := MakeRoom(s1, xs[cap]);
    RunsThen(s0, steps, room);
    steps := steps + room;
    var s2 := Final(s0, steps);
    assert s2.senders[1] == Sender([y], shards[1], Idle) && s2.buf == xs[1..cap] && s2.reports == [xs[0]];
    OneStep(s0, steps, Offer(1, false));
    steps := steps + [Offer(1, false)];
    assert [xs[0]] + [xs[cap]] == [xs[0], xs[cap]];
  }

  /** An unbuffered channel without a receiver has no room to make. */
  lemma UnbufferedSenderLosesItsOwnItem<T>(x: T, scripts: seq<seq<T>>, shards: seq<nat>) returns (steps: seq<Step>)
    requires |scripts| >= 1 && scripts[0] == [x] && |shards| == |scripts|
    ensures Runs(Init(0, scripts, shards), steps)
    ensures LosesOwn(Final(Init(0, scripts, shards), steps), Resend(0, false))
  {
    steps := MakeRoom(Init(0, scripts, shards), x);
  }

  /** With n senders, in every run from every script, no sender drops the item it evicted for. */
  ghost predicate OwnItemIsSafe<T(!new)>(cap: nat, n: nat) {
    forall scripts: seq<seq<T>>, shards: seq<nat>, steps, step ::
      |scripts| == n && |shards| == n && Runs(Init(cap, scripts, shards), steps) ==>
        !LosesOwn(Final(Init(cap, scripts, shards), steps), step)
  }

  lemma SingleSenderIsSafe<T>(cap: nat, script: seq<T>, shard: nat, steps: seq<Step>, step: Step)
    requires cap >= 1 && Runs(Init(cap, [script], [shard]), steps)
    ensures !LosesOwn(Final(Init(cap, [script], [shard]), steps), step)
  {
    SingleInit(cap, script, shard);
    SingleRun(script, Init(cap, [script], [shard]), steps);
    NothingLost(script, Final(Init(cap, [script], [shard]), steps), step);
  }

  lemma NothingLost<T>(script: seq<T>, s: State<T>, step: Step)
    requires SingleInv(script, s)
    ensures !LosesOwn(s, step)
  {
  }

  lemma {:induction false} SingleRun<T>(script: seq<T>, s: State<T>, steps: seq<Step>)
    requires SingleInv(script, s) && Runs(s, steps)
    ensures SingleInv(script, Final(s, steps))
    decreases |steps|
  {
    if steps != [] {
      SingleStep(script, s, steps[0]);
      SingleRun(script, Apply(s, steps[0]), steps[1..]);
    }
  }

  /** Exactly when the newest item survives an eviction: one sender, and room for at least one item. */
  lemma OwnItemIsSafeIff<T(!new)>(cap: nat, n: nat, x: T)
    requires n >= 1
    ensures OwnItemIsSafe<T>(cap, n) <==> n == 1 && cap >= 1
  {
    if n == 1 && cap >= 1 {
      forall scripts: seq<seq<T>>, shards: seq<nat>, steps, step |
        |scripts| == n && |shards| == n && Runs(Init(cap, scripts, shards), steps)
        ensures !LosesOwn(Final(Init(cap, scripts, shards), steps), step)
      {
        assert scripts == [scripts[0]] && shards == [shards[0]];
        SingleSenderIsSafe(cap, scripts[0], shards[0], steps, step);
      }
    } else {
      var xs, shards := seq(cap + 1, _ => x), seq(n, _ => 0);
      var scripts := seq(n, w => if w == 0 then xs else [x]);
      var steps;
      if cap == 0 {
        assert xs == [x];
        steps := UnbufferedSenderLosesItsOwnItem(x, scripts, shards);
      } else {
        steps := EvictingSenderLosesItsOwnItem(cap, xs, x, scripts, shards);
      }
      assert LosesOwn(Final(Init(cap, scripts, shards), steps), Resend(0, false));
    }
  }

  // ------------------------------------------------------------------ without interference

  /** The last `cap` items of xs. */
  function Newest<T>(cap: nat, xs: seq<T>): seq<T> {
    if |xs| <= cap then xs else xs[|xs| - cap..]
  }

  /** The outbox as one goroutine sees it when nobody receives: every Send returns at once. */
  class DropOldestOutbox<T> {
    const cap: nat
    var ch: seq<T>
    var dropped: nat
    ghost var offered: seq<T>

    /** The channel holds the newest items offered, and every other one was counted as dropped. */
    ghost predicate Valid()
      reads this
    {
      ch == Newest(cap, offered) && dropped + |ch| == |offered|
    }

    constructor (cap: nat)
      ensures Valid() && this.cap == cap && offered == []
    {
      this.cap, ch, dropped, offered := cap, [], 0, [];
    }

    method Send(item: T)
      requires Valid()
      modifies this
      ensures Valid() && offered == old(offered) + [item]
    {
      offered := offered + [item];
      if |ch| < cap {
        ch := ch + [item];
        return;
      }
      if |ch| > 0 {
        ch := ch[1..];
        dropped := dropped + 1;
      }
      if |ch| < cap {
        ch := ch + [item];
      } else {
        dropped := dropped + 1;
      }
    }
  }
}
