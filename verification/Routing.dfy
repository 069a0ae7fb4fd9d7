/**
 * One worker of a key-sharded stage: the channel it receives from, the item it holds, and the refs of
 * the keys it owns. Shared by the ordered and the unordered variants.
 */
module Routing {
  import opened Outcomes
  import opened Sharding
  import opened KeyedSpec

  datatype Stage<!I, !S, !O> = Stage(job: Keyed<I, S, O>, n: nat, buffer: nat)
  {
    predicate Legal() {
      n >= 1
    }

    function OwnerOf(i: nat): (w: nat)
      requires Legal() && i < |job.input|
      ensures w < n
    {
      Owner(job.KeyOf(i), n)
    }
  }

  datatype Core<+S> = Core(chan: seq<nat>, hand: Option<nat>, refs: map<Key, S>)
  {
    /** Item `i` was routed here and not handled yet. */
    predicate InHand(i: nat) {
      hand == Some(i) || i in chan
    }

    /** Every item of this worker before its horizon has been handled. */
    function Horizon(routed: nat): nat {
      if hand.Some? then hand.value else if chan != [] then chan[0] else routed
    }

    function Put(i: nat): Core<S> {
      this.(chan := chan + [i])
    }

    function Receive(): Core<S>
      requires hand.None? && chan != []
    {
      this.(hand := Some(chan[0]), chan := chan[1..])
    }
  }

  function EmptyCore<S>(): Core<S> {
    Core([], None, map[])
  }

  /** Handle the item in hand: the ref of its key is read, updated and kept. */
  function Handle<I, S, O>(c: Stage<I, S, O>, core: Core<S>): (r: (Core<S>, Outcome<O>))
    requires core.hand.Some? && core.hand.value < |c.job.input|
  {
    var k := c.job.KeyOf(core.hand.value);
    var (state, outcome) := c.job.step(RefAt(core.refs, k, c.job.initial), c.job.input[core.hand.value]);
    (core.(hand := None, refs := core.refs[k := state]), outcome)
  }

  /** The wait between two retries was cut short: the attempts made so far left some state. */
  function Interrupt<I, S, O>(c: Stage<I, S, O>, core: Core<S>, left: S): Core<S>
    requires core.hand.Some? && core.hand.value < |c.job.input|
  {
    core.(hand := None, refs := core.refs[c.job.KeyOf(core.hand.value) := left])
  }

  /** Worker `w` holds, in order, exactly the routed items it owns and has not handled. */
  ghost predicate ChanInv<I, S, O>(c: Stage<I, S, O>, w: nat, core: Core<S>, routed: nat)
    requires c.Legal()
  {
    && routed <= |c.job.input|
    && (forall i: nat :: core.InHand(i) ==> i < routed && c.OwnerOf(i) == w)
    && (forall a, b :: 0 <= a < b < |core.chan| ==> core.chan[a] < core.chan[b])
    && (core.hand.Some? ==> forall a :: 0 <= a < |core.chan| ==> core.hand.value < core.chan[a])
    && (forall i: nat :: core.Horizon(routed) <= i < routed && c.OwnerOf(i) == w ==> core.InHand(i))
  }

  /** The worker's keys have the states the serial run gives them just before the worker's horizon. */
  ghost predicate RefsInv<I, S, O>(c: Stage<I, S, O>, w: nat, core: Core<S>, routed: nat)
    requires c.Legal()
  {
    && core.Horizon(routed) <= |c.job.input|
    && forall k: Key :: Owner(k, c.n) == w ==>
         RefAt(core.refs, k, c.job.initial) == c.job.StateAt(core.Horizon(routed), k)
  }

  lemma HorizonInRange<I, S, O>(c: Stage<I, S, O>, w: nat, core: Core<S>, routed: nat)
    requires c.Legal() && ChanInv(c, w, core, routed)
    ensures core.Horizon(routed) <= routed
    ensures core.Horizon(routed) == routed <==> core.hand.None? && core.chan == []
  {
    assert core.hand.Some? ==> core.InHand(core.hand.value);
    assert core.chan != [] ==> core.InHand(core.chan[0]);
  }

  lemma ReceiveKeeps<I, S, O>(c: Stage<I, S, O>, w: nat, core: Core<S>, routed: nat)
    requires c.Legal() && ChanInv(c, w, core, routed) && core.hand.None? && core.chan != []
    ensures ChanInv(c, w, core.Receive(), routed)
    ensures core.Receive().Horizon(routed) == core.Horizon(routed)
    ensures forall i: nat :: core.Receive().InHand(i) <==> core.InHand(i)
  {
    assert core.chan == [core.chan[0]] + core.chan[1..];
    assert forall i: nat :: core.Receive().InHand(i) <==> core.InHand(i);
  }

  lemma PutKeepsOwner<I, S, O>(c: Stage<I, S, O>, w: nat, core: Core<S>, routed: nat)
    requires c.Legal() && ChanInv(c, w, core, routed) && routed < |c.job.input| && c.OwnerOf(routed) == w
    ensures ChanInv(c, w, core.Put(routed), routed + 1)
    ensures core.Put(routed).Horizon(routed + 1) == core.Horizon(routed)
    ensures forall i: nat :: core.Put(routed).InHand(i) <==> core.InHand(i) || i == routed
  {
    PutInHand(core, routed);
    assert forall j :: 0 <= j < |core.chan| ==> core.InHand(core.chan[j]);
    assert core.hand.Some? ==> core.InHand(core.hand.value);
  }

  lemma PutInHand<S>(core: Core<S>, i: nat)
    ensures forall j: nat :: core.Put(i).InHand(j) <==> core.InHand(j) || j == i
  {
    forall j: nat
      ensures core.Put(i).InHand(j) <==> core.InHand(j) || j == i
    {
    }
  }

  lemma PutKeepsOther<I, S, O>(c: Stage<I, S, O>, w: nat, core: Core<S>, routed: nat)
    requires c.Legal() && ChanInv(c, w, core, routed) && routed < |c.job.input| && c.OwnerOf(routed) != w
    ensures ChanInv(c, w, core, routed + 1)
    ensures RefsInv(c, w, core, routed) ==> RefsInv(c, w, core, routed + 1)
  {
    forall k: Key | Owner(k, c.n) == w
      ensures c.job.StateAt(routed, k) == c.job.StateAt(routed + 1, k)
    {
    }
  }

  /** Between the item just handled and the next horizon lies no item of this worker. */
  lemma HandledChan<I, S, O>(c: Stage<I, S, O>, w: nat, core: Core<S>, next: Core<S>, routed: nat)
    requires c.Legal() && ChanInv(c, w, core, routed)
    requires core.hand.Some? && next.hand.None? && next.chan == core.chan
    ensures core.hand.value < routed && c.OwnerOf(core.hand.value) == w
    ensures ChanInv(c, w, next, routed) && core.hand.value < next.Horizon(routed) <= routed
    ensures forall j: nat :: next.InHand(j) <==> core.InHand(j) && j != core.hand.value
    ensures forall j :: core.hand.value < j < next.Horizon(routed) ==> c.OwnerOf(j) != w
  {
    assert core.InHand(core.hand.value);
    forall j: nat | next.InHand(j)
      ensures core.InHand(j)
    {
    }
    HorizonInRange(c, w, next, routed);
    forall j | core.hand.value < j < next.Horizon(routed)
      ensures c.OwnerOf(j) != w
    {
      assert c.OwnerOf(j) == w ==> core.InHand(j);
    }
  }

  /** Handling an item keeps the worker's states serial, and produces the serial result. */
  lemma HandledRefs<I, S, O>(c: Stage<I, S, O>, w: nat, core: Core<S>, routed: nat)
    requires c.Legal() && ChanInv(c, w, core, routed) && RefsInv(c, w, core, routed)
    requires core.hand.Some? && core.hand.value < |c.job.input|
    ensures RefsInv(c, w, Handle(c, core).0, routed)
    ensures Handle(c, core).1 == c.job.ResultAt(core.hand.value)
  {
    var i, next := core.hand.value, Handle(c, core).0;
    HandledChan(c, w, core, next, routed);
    var h := next.Horizon(routed);
    assert forall j :: i < j < h ==> c.OwnerOf(j) != w;
    forall k: Key | Owner(k, c.n) == w
      ensures RefAt(next.refs, k, c.job.initial) == c.job.StateAt(h, k)
    {
      HandledRef(c, w, i, h, core.refs, k);
    }
  }

  lemma HandledRef<I, S, O>(c: Stage<I, S, O>, w: nat, i: nat, h: nat, refs: map<Key, S>, k: Key)
    requires c.Legal() && i < h <= |c.job.input| && Owner(k, c.n) == w
    requires forall j :: i < j < h ==> c.OwnerOf(j) != w
    requires RefAt(refs, k, c.job.initial) == c.job.StateAt(i, k)
    requires RefAt(refs, c.job.KeyOf(i), c.job.initial) == c.job.StateAt(i, c.job.KeyOf(i))
    ensures var state := c.job.step(RefAt(refs, c.job.KeyOf(i), c.job.initial), c.job.input[i]).0;
            RefAt(refs[c.job.KeyOf(i) := state], k, c.job.initial) == c.job.StateAt(h, k)
  {
    forall j | i + 1 <= j < h
      ensures c.job.KeyOf(j) != k
    {
      assert c.OwnerOf(j) != w;
    }
    c.job.StateUnchanged(i + 1, h, k);
  }
}
