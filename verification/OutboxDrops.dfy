/**
 * When the DropOldest outbox drops: only after a sender, holding its mutex, has met a full channel. Said of every run,
 * moment by moment.
 */
module OutboxDrops {
  import opened Outbox

  /** The state before step i of a run; after the last step for i == |steps|. */
  function StateAt<T>(s: State<T>, steps: seq<Step>, i: nat): State<T>
    requires Runs(s, steps) && i <= |steps|
    decreases i
  {
    if i == 0 then s else StateAt(Apply(s, steps[0]), steps[1..], i - 1)
  }

  lemma {:induction false} StateNext<T>(s: State<T>, steps: seq<Step>, i: nat)
    requires Runs(s, steps) && i < |steps|
    ensures Enabled(StateAt(s, steps, i), steps[i])
    ensures StateAt(s, steps, i + 1) == Apply(StateAt(s, steps, i), steps[i])
    decreases i
  {
    if i > 0 {
      StateNext(Apply(s, steps[0]), steps[1..], i - 1);
    }
  }

  lemma {:induction false} StateEnd<T>(s: State<T>, steps: seq<Step>)
    requires Runs(s, steps)
    ensures StateAt(s, steps, |steps|) == Final(s, steps)
    decreases |steps|
  {
    if steps != [] {
      StateEnd(Apply(s, steps[0]), steps[1..]);
    }
  }

  /** At every moment of a run from a state that keeps the invariant there are the same senders, and it is kept. */
  lemma {:induction false} InvAt<T>(s: State<T>, steps: seq<Step>, i: nat)
    requires Inv(s) && Runs(s, steps) && i <= |steps|
    ensures var s' := StateAt(s, steps, i); Inv(s') && |s'.senders| == |s.senders| && s'.cap == s.cap
    decreases i
  {
    if i > 0 {
      StepKeepsInv(s, steps[0]);
      InvAt(Apply(s, steps[0]), steps[1..], i - 1);
    }
  }

  predicate AllIdle<T>(s: State<T>) {
    s.locked == {} && forall w :: 0 <= w < |s.senders| ==> s.senders[w].pc.Idle?
  }

  /** Sender w last took its mutex in step l, counted from moment i. */
  predicate LastLock(steps: seq<Step>, w: nat, l: nat, i: nat)
    requires i <= |steps|
  {
    l < i && steps[l] == Lock(w) && forall j :: l < j < i ==> steps[j] != Lock(w)
  }

  /** A step by another sender, or the receiver, leaves sender w alone. */
  lemma OtherStep<T>(s: State<T>, step: Step, w: nat)
    requires Enabled(s, step) && w < |s.senders| && (step.Receive? || step.w != w)
    ensures w < |Apply(s, step).senders| && Apply(s, step).senders[w] == s.senders[w]
  {
  }

  /** A sender in its critical section got there by taking the mutex. */
  lemma {:induction false} CameByLock<T>(s: State<T>, steps: seq<Step>, w: nat, i: nat) returns (l: nat)
    requires Inv(s) && AllIdle(s) && Runs(s, steps) && i <= |steps| && w < |s.senders|
    requires w < |StateAt(s, steps, i).senders| && Critical(StateAt(s, steps, i).senders[w].pc)
    ensures LastLock(steps, w, l, i)
    decreases i
  {
    var before := StateAt(s, steps, i - 1);
    InvAt(s, steps, i - 1);
    StateNext(s, steps, i - 1);
    if steps[i - 1] == Lock(w) {
      l := i - 1;
    } else {
      if steps[i - 1].Receive? || steps[i - 1].w != w {
        OtherStep(before, steps[i - 1], w);
      }
      l := CameByLock(s, steps, w, i - 1);
    }
  }

  /** By its own steps a sender comes to evict only from an attempt that met a full channel. */
  lemma OwnStep<T>(s: State<T>, step: Step, w: nat)
    requires Inv(s) && Enabled(s, step) && !step.Receive? && step.w == w
    requires Apply(s, step).senders[w].pc.Evicting? || Apply(s, step).senders[w].pc.Resending?
    ensures step.Retry? || step.Evict?
    ensures step.Retry? ==> s.senders[w].pc.Trying? && |s.buf| == s.cap
    ensures step.Evict? ==> s.senders[w].pc.Evicting?
  {
  }

  /** A sender that evicts, or has evicted, tried once more under the mutex and met a full channel. */
  lemma {:induction false} MetFull<T>(s: State<T>, steps: seq<Step>, w: nat, i: nat) returns (l: nat, u: nat)
    requires Inv(s) && AllIdle(s) && Runs(s, steps) && i <= |steps| && w < |s.senders|
    requires w < |StateAt(s, steps, i).senders|
    requires StateAt(s, steps, i).senders[w].pc.Evicting? || StateAt(s, steps, i).senders[w].pc.Resending?
    ensures LastLock(steps, w, l, i) && l < u < i
    ensures steps[u].Retry? && steps[u].w == w && |StateAt(s, steps, u).buf| == s.cap
    decreases i
  {
    var before, step := StateAt(s, steps, i - 1), steps[i - 1];
    InvAt(s, steps, i - 1);
    StateNext(s, steps, i - 1);
    if step.Receive? || step.w != w {
      OtherStep(before, step, w);
      l, u := MetFull(s, steps, w, i - 1);
    } else if step.Evict? {
      OwnStep(before, step, w);
      l, u := MetFull(s, steps, w, i - 1);
    } else {
      OwnStep(before, step, w);
      l := CameByLock(s, steps, w, i - 1);
      u := i - 1;
    }
  }

  /**
   * Every drop was necessary: the step that reports one is a sender's, and since that sender last took its mutex it
   * has, still holding it, tried to send and met the buffer with cap items in it.
   */
  lemma DropsOnlyWhenFull<T>(cap: nat, scripts: seq<seq<T>>, shards: seq<nat>, steps: seq<Step>, t: nat)
      returns (l: nat, u: nat)
    requires |scripts| == |shards| && Runs(Init(cap, scripts, shards), steps) && t < |steps|
    requires StateAt(Init(cap, scripts, shards), steps, t + 1).reports !=
             StateAt(Init(cap, scripts, shards), steps, t).reports
    ensures !steps[t].Receive? && LastLock(steps, steps[t].w, l, t)
    ensures l < u < t && steps[u].Retry? && steps[u].w == steps[t].w
    ensures |StateAt(Init(cap, scripts, shards), steps, u).buf| == cap
  {
    var s := Init(cap, scripts, shards);
    InitInv(cap, scripts, shards);
    InvAt(s, steps, t);
    StateNext(s, steps, t);
    l, u := MetFull(s, steps, steps[t].w, t);
  }

  /** A run in which no sender that holds its mutex finds the channel full reports no drop. */
  lemma NeverFullNeverDrops<T>(cap: nat, scripts: seq<seq<T>>, shards: seq<nat>, steps: seq<Step>)
    requires |scripts| == |shards| && Runs(Init(cap, scripts, shards), steps)
    requires forall u: nat :: u < |steps| && steps[u].Retry? ==>
               |StateAt(Init(cap, scripts, shards), steps, u).buf| < cap
    ensures Final(Init(cap, scripts, shards), steps).reports == []
    ensures Final(Init(cap, scripts, shards), steps).dropped == 0
  {
    var s := Init(cap, scripts, shards);
    var t := 0;
    while t < |steps|
      invariant t <= |steps| && StateAt(s, steps, t).reports == []
    {
      if StateAt(s, steps, t + 1).reports != StateAt(s, steps, t).reports {
        var l, u := DropsOnlyWhenFull(cap, scripts, shards, steps, t);
      }
      t := t + 1;
    }
    StateEnd(s, steps);
    InitInv(cap, scripts, shards);
    InvAt(s, steps, |steps|);
  }

  /** While every offer finds room, no sender takes a mutex, none is ever under way, and nothing is dropped. */
  lemma FastPathIsLockFree<T>(cap: nat, scripts: seq<seq<T>>, shards: seq<nat>, steps: seq<Step>)
    requires |scripts| == |shards| && Runs(Init(cap, scripts, shards), steps)
    requires forall u: nat :: u < |steps| && steps[u].Offer? ==>
               |StateAt(Init(cap, scripts, shards), steps, u).buf| < cap
    ensures forall u :: 0 <= u < |steps| ==> steps[u].Offer? || steps[u].Receive?
    ensures AllIdle(Final(Init(cap, scripts, shards), steps))
    ensures Final(Init(cap, scripts, shards), steps).reports == []
  {
    var s := Init(cap, scripts, shards);
    InitInv(cap, scripts, shards);
    var t := 0;
    while t < |steps|
      invariant t <= |steps| && AllIdle(StateAt(s, steps, t)) && StateAt(s, steps, t).reports == []
      invariant forall u :: 0 <= u < t ==> steps[u].Offer? || steps[u].Receive?
    {
      InvAt(s, steps, t);
      StateNext(s, steps, t);
      t := t + 1;
    }
    StateEnd(s, steps);
  }
}
