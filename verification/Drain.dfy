/**
 * Cooperative drain: shutdown travelling from the sinks back to the sources. Every stage owns one drain
 * entry, shared by all its output pipelines, with a count of the consumers still to come; a stage that
 * exits decrements the entry of each of its inputs, and the decrement that reaches zero closes the
 * producer's drain channel.
 */
module Drain {
  import opened Sums

  /**
   * Stages are numbered in construction order. `producer[p]` is the stage whose output pipeline p is,
   * `tracked[p]` the number of consumers counted when the graph was built, `inputs[t]` the pipelines
   * stage t consumes.
   */
  datatype Graph = Graph(inputs: seq<seq<nat>>, producer: seq<nat>, tracked: seq<nat>)
  {
    predicate WellFormed() {
      && |tracked| == |producer|
      && (forall p :: 0 <= p < |producer| ==> producer[p] < |inputs|)
      && (forall t, j :: 0 <= t < |inputs| && 0 <= j < |inputs[t]| ==>
            inputs[t][j] < |producer| && producer[inputs[t][j]] < t)
    }

    function Stages(): nat {
      |inputs|
    }

    /** Entries of `list` that name an output of stage s. */
    function Uses(list: seq<nat>, s: nat): nat {
      if list == [] then 0
      else
        var p := list[|list| - 1];
        Uses(list[..|list| - 1], s) + (if p < |producer| && producer[p] == s then 1 else 0)
    }

    /** The consumers registered for stage s: the sum over all its outputs. */
    function Registered(s: nat): nat
      requires |tracked| == |producer|
    {
      Total(Shares(s))
    }

    function Shares(s: nat): seq<nat>
      requires |tracked| == |producer|
    {
      seq(|producer|, p requires 0 <= p < |producer| => if producer[p] == s then tracked[p] else 0)
    }

    /** The consumers of stage s that are part of the run. */
    function InRun(s: nat): nat {
      Total(UseCounts(s))
    }

    function UseCounts(s: nat): seq<nat> {
      seq(|inputs|, t requires 0 <= t < |inputs| => Uses(inputs[t], s))
    }
  }

  datatype Phase = Running | Exiting(sent: nat) | Exited

  datatype State = State(phase: seq<Phase>, refs: seq<int>, closes: seq<nat>)

  /** The count starts at one when no consumer was tracked. */
  function Init(g: Graph): State
    requires g.WellFormed()
  {
    State(seq(g.Stages(), _ => Running),
          seq(g.Stages(), s requires 0 <= s < g.Stages() => if g.Registered(s) < 1 then 1 else g.Registered(s)),
          seq(g.Stages(), _ => 0))
  }

  datatype Step =
    | Leave(t: nat)    // stage t leaves its loop, for whatever reason
    | Signal(t: nat)   // stage t, on its way out, signals its next input
    | Finish(t: nat)   // stage t has signalled every input

  predicate Enabled(g: Graph, s: State, step: Step) {
    match step
    case Leave(t) => t < g.Stages() && t < |s.phase| && s.phase[t].Running?
    case Signal(t) =>
      && t < g.Stages() && t < |s.phase| && s.phase[t].Exiting? && s.phase[t].sent < |g.inputs[t]|
      && g.inputs[t][s.phase[t].sent] < |g.producer|
      && g.producer[g.inputs[t][s.phase[t].sent]] < |s.refs| && |s.refs| == |s.closes|
    case Finish(t) =>
      t < g.Stages() && t < |s.phase| && s.phase[t].Exiting? && s.phase[t].sent == |g.inputs[t]|
  }

  /** The atomic decrement, and the close by whoever reaches zero. */
  function SignalDrain(s: State, e: nat): State
    requires e < |s.refs| == |s.closes|
  {
    var left := s.refs[e] - 1;
    s.(refs := s.refs[e := left], closes := if left == 0 then s.closes[e := s.closes[e] + 1] else s.closes)
  }

  function Apply(g: Graph, s: State, step: Step): State
    requires Enabled(g, s, step)
  {
    match step
    case Leave(t) => s.(phase := s.phase[t := Exiting(0)])
    case Signal(t) =>
      SignalDrain(s.(phase := s.phase[t := Exiting(s.phase[t].sent + 1)]), g.producer[g.inputs[t][s.phase[t].sent]])
    case Finish(t) => s.(phase := s.phase[t := Exited])
  }

  predicate Runs(g: Graph, s: State, steps: seq<Step>)
    decreases |steps|
  {
    steps == [] || (Enabled(g, s, steps[0]) && Runs(g, Apply(g, s, steps[0]), steps[1..]))
  }

  function Final(g: Graph, s: State, steps: seq<Step>): State
    requires Runs(g, s, steps)
    decreases |steps|
  {
    if steps == [] then s else Final(g, Apply(g, s, steps[0]), steps[1..])
  }

  // ------------------------------------------------------------------ invariant

  /** The inputs stage t has signalled so far. */
  function Done(g: Graph, t: nat, phase: Phase): seq<nat>
    requires t < g.Stages()
  {
    match phase
    case Running => []
    case Exiting(sent) => if sent <= |g.inputs[t]| then g.inputs[t][..sent] else g.inputs[t]
    case Exited => g.inputs[t]
  }

  function SentBy(g: Graph, phases: seq<Phase>, e: nat): seq<nat>
    requires |phases| == g.Stages()
  {
    seq(|phases|, t requires 0 <= t < |phases| => g.Uses(Done(g, t, phases[t]), e))
  }

  ghost predicate Inv(g: Graph, s: State) {
    && g.WellFormed()
    && |s.phase| == |s.refs| == |s.closes| == g.Stages()
    && (forall t :: 0 <= t < g.Stages() && s.phase[t].Exiting? ==> s.phase[t].sent <= |g.inputs[t]|)
    && (forall e :: 0 <= e < g.Stages() ==> s.refs[e] == Init(g).refs[e] - Total(SentBy(g, s.phase, e)))
    && (forall e :: 0 <= e < g.Stages() ==> s.closes[e] == if s.refs[e] <= 0 then 1 else 0)
  }

  lemma InitInv(g: Graph)
    requires g.WellFormed()
    ensures Inv(g, Init(g))
  {
    forall e | 0 <= e < g.Stages()
      ensures Total(SentBy(g, Init(g).phase, e)) == 0
    {
      TotalZero(SentBy(g, Init(g).phase, e));
    }
  }

  lemma SetPhase(g: Graph, phases: seq<Phase>, t: nat, phase: Phase, e: nat)
    requires |phases| == g.Stages() && t < g.Stages()
    ensures Total(SentBy(g, phases[t := phase], e)) + g.Uses(Done(g, t, phases[t]), e) ==
            Total(SentBy(g, phases, e)) + g.Uses(Done(g, t, phase), e)
  {
    assert SentBy(g, phases[t := phase], e) == SentBy(g, phases, e)[t := g.Uses(Done(g, t, phase), e)];
    TotalUpdate(SentBy(g, phases, e), t, g.Uses(Done(g, t, phase), e));
  }

  lemma StepKeepsInv(g: Graph, s: State, step: Step)
    requires Inv(g, s) && Enabled(g, s, step)
    ensures Inv(g, Apply(g, s, step))
  {
    var s', t := Apply(g, s, step), step.t;
    forall e | 0 <= e < g.Stages()
      ensures s'.refs[e] == Init(g).refs[e] - Total(SentBy(g, s'.phase, e))
    {
      SetPhase(g, s.phase, t, s'.phase[t], e);
      if step.Signal? {
        var k := s.phase[t].sent;
        assert g.inputs[t][..k + 1][..k] == g.inputs[t][..k];
      } else if step.Finish? {
        assert g.inputs[t][..|g.inputs[t]|] == g.inputs[t];
      }
    }
  }

  lemma {:induction false} RunKeepsInv(g: Graph, s: State, steps: seq<Step>)
    requires Inv(g, s) && Runs(g, s, steps)
    ensures Inv(g, Final(g, s, steps))
    decreases |steps|
  {
    if steps != [] {
      StepKeepsInv(g, s, steps[0]);
      RunKeepsInv(g, Apply(g, s, steps[0]), steps[1..]);
    }
  }

  // ------------------------------------------------------------------ main results

  predicate Closed(s: State, e: nat)
    requires e < |s.closes|
  {
    s.closes[e] > 0
  }

  /** Stage t has signalled every pipeline of stage e it consumes. */
  predicate DoneWith(g: Graph, s: State, t: nat, e: nat)
    requires t < g.Stages() == |s.phase|
  {
    g.Uses(Done(g, t, s.phase[t]), e) == g.Uses(g.inputs[t], e)
  }

  /** Every consumer counted at construction is part of the run. */
  predicate AllTrackedInRun(g: Graph, e: nat)
    requires g.WellFormed()
  {
    g.Registered(e) == g.InRun(e) >= 1
  }

  /**
   * In every run of every graph, no drain channel is closed twice; and a channel whose consumers are all
   * part of the run is closed exactly when the last of them has signalled.
   */
  lemma ClosedOnceAndOnTime(g: Graph, steps: seq<Step>, e: nat)
    requires g.WellFormed() && Runs(g, Init(g), steps) && e < g.Stages()
    ensures var s := Final(g, Init(g), steps);
            && |s.closes| == |s.phase| == g.Stages()
            && s.closes[e] <= 1
            && (AllTrackedInRun(g, e) ==> (Closed(s, e) <==> forall t :: 0 <= t < g.Stages() ==> DoneWith(g, s, t, e)))
  {
    InitInv(g);
    RunKeepsInv(g, Init(g), steps);
    var s := Final(g, Init(g), steps);
    if AllTrackedInRun(g, e) {
      SentUpTo(g, s, e);
    }
  }

  /** The signals sent never exceed the consumers in the run, and equal them when every consumer is done. */
  lemma SentUpTo(g: Graph, s: State, e: nat)
    requires Inv(g, s) && e < g.Stages()
    ensures Total(SentBy(g, s.phase, e)) <= g.InRun(e)
    ensures Total(SentBy(g, s.phase, e)) == g.InRun(e) <==> forall t :: 0 <= t < g.Stages() ==> DoneWith(g, s, t, e)
  {
    var all := g.UseCounts(e);
    forall t | 0 <= t < g.Stages()
      ensures g.Uses(Done(g, t, s.phase[t]), e) <= g.Uses(g.inputs[t], e)
    {
      UsesPrefix(g, g.inputs[t], |Done(g, t, s.phase[t])|, e);
    }
    TotalMono(SentBy(g, s.phase, e), all);
    if forall t :: 0 <= t < g.Stages() ==> DoneWith(g, s, t, e) {
      forall t | 0 <= t < g.Stages()
        ensures SentBy(g, s.phase, e)[t] == all[t]
      {
        assert DoneWith(g, s, t, e);
      }
      assert SentBy(g, s.phase, e) == all;
    } else {
      var t :| 0 <= t < g.Stages() && !DoneWith(g, s, t, e);
      assert SentBy(g, s.phase, e)[t] != all[t];
    }
  }

  lemma {:induction false} UsesPrefix(g: Graph, list: seq<nat>, n: nat, e: nat)
    requires n <= |list|
    ensures g.Uses(list[..n], e) <= g.Uses(list, e)
  {
    if n < |list| {
      UsesPrefix(g, list[..|list| - 1], n, e);
      assert list[..|list| - 1][..n] == list[..n];
    } else {
      assert list[..n] == list;
    }
  }

  /**
   * Drain never takes the producer away from a live consumer: whatever else exits, a stage's drain channel
   * stays open while one of its consumers is still running. Consumers counted but left out of the run only
   * keep it open longer.
   */
  lemma NoLiveConsumerLosesItsProducer(g: Graph, steps: seq<Step>, t: nat, j: nat)
    requires g.WellFormed() && Runs(g, Init(g), steps)
    requires t < g.Stages() && j < |g.inputs[t]|
    requires g.Registered(g.producer[g.inputs[t][j]]) >= g.InRun(g.producer[g.inputs[t][j]])
    ensures var s := Final(g, Init(g), steps);
            |s.closes| == |s.phase| == g.Stages()
            && (s.phase[t].Running? ==> !Closed(s, g.producer[g.inputs[t][j]]))
  {
    InitInv(g);
    RunKeepsInv(g, Init(g), steps);
    var s, e := Final(g, Init(g), steps), g.producer[g.inputs[t][j]];
    SentUpTo(g, s, e);
    if s.phase[t].Running? {
      UsesMember(g, g.inputs[t], j, e);
      assert !DoneWith(g, s, t, e);
    }
  }

  lemma {:induction false} UsesMember(g: Graph, list: seq<nat>, j: nat, e: nat)
    requires j < |list| && list[j] < |g.producer| && g.producer[list[j]] == e
    ensures g.Uses(list, e) >= 1
  {
    if j < |list| - 1 {
      UsesMember(g, list[..|list| - 1], j, e);
    }
  }

  /**
   * When every consumer in the run has exited, the producer's drain channel is closed if and only if the
   * consumers counted at construction are exactly those of the run.
   */
  lemma DrainReachesProducerIff(g: Graph, steps: seq<Step>, e: nat)
    requires g.WellFormed() && Runs(g, Init(g), steps) && e < g.Stages()
    requires g.Registered(e) >= g.InRun(e)
    requires var s := Final(g, Init(g), steps);
             forall t :: 0 <= t < g.Stages() && t < |s.phase| && g.Uses(g.inputs[t], e) > 0 ==> s.phase[t].Exited?
    ensures var s := Final(g, Init(g), steps);
            |s.closes| == g.Stages() && (Closed(s, e) <==> AllTrackedInRun(g, e))
  {
    InitInv(g);
    RunKeepsInv(g, Init(g), steps);
    var s := Final(g, Init(g), steps);
    forall t | 0 <= t < g.Stages()
      ensures DoneWith(g, s, t, e)
    {
      UsesPrefix(g, g.inputs[t], |Done(g, t, s.phase[t])|, e);
    }
    SentUpTo(g, s, e);
  }

  // ------------------------------------------------------------------ the cascade

  predicate IsSink(g: Graph, t: nat) {
    forall p :: 0 <= p < |g.producer| ==> g.producer[p] != t
  }

  /** Steps drain alone accounts for: a stage leaves only because its own drain channel is closed. */
  predicate DrainDriven(s: State, step: Step) {
    step.Leave? ==> step.t < |s.closes| && Closed(s, step.t)
  }

  predicate DrainRuns(g: Graph, s: State, steps: seq<Step>)
    decreases |steps|
  {
    steps == [] ||
    (Enabled(g, s, steps[0]) && DrainDriven(s, steps[0]) && DrainRuns(g, Apply(g, s, steps[0]), steps[1..]))
  }

  function AfterDrain(g: Graph, s: State, steps: seq<Step>): State
    requires DrainRuns(g, s, steps)
    decreases |steps|
  {
    if steps == [] then s else AfterDrain(g, Apply(g, s, steps[0]), steps[1..])
  }

  function StepsLeft(g: Graph, s: State): seq<nat>
    requires |s.phase| == g.Stages()
  {
    seq(|s.phase|, t requires 0 <= t < |s.phase| =>
      match s.phase[t]
      case Running => |g.inputs[t]| + 2
      case Exiting(sent) => if sent <= |g.inputs[t]| then |g.inputs[t]| - sent + 1 else 0
      case Exited => 0)
  }

  /** Reverse topological order: the last stage that has not exited can always go on. */
  lemma LastStageCanExit(g: Graph, s: State, t: nat) returns (step: Step)
    requires Inv(g, s) && t < g.Stages() && !s.phase[t].Exited?
    requires forall u :: t < u < g.Stages() ==> s.phase[u].Exited?
    requires IsSink(g, t) ==> !s.phase[t].Running?
    requires !IsSink(g, t) ==> AllTrackedInRun(g, t)
    ensures Enabled(g, s, step) && DrainDriven(s, step) && step.t == t
  {
    if s.phase[t].Exiting? {
      step := if s.phase[t].sent < |g.inputs[t]| then Signal(t) else Finish(t);
    } else {
      step := Leave(t);
      forall u | 0 <= u < g.Stages()
        ensures DoneWith(g, s, u, t)
      {
        if u <= t {
          UsesNone(g, g.inputs[u], t);
          UsesPrefix(g, g.inputs[u], |Done(g, u, s.phase[u])|, t);
        }
      }
      SentUpTo(g, s, t);
    }
  }

  lemma {:induction false} UsesNone(g: Graph, list: seq<nat>, e: nat)
    requires forall j :: 0 <= j < |list| ==> list[j] < |g.producer| && g.producer[list[j]] != e
    ensures g.Uses(list, e) == 0
  {
    if list != [] {
      UsesNone(g, list[..|list| - 1], e);
    }
  }

  ghost predicate CanDrain(g: Graph, s: State) {
    && Inv(g, s)
    && (forall t :: 0 <= t < g.Stages() && IsSink(g, t) ==> !s.phase[t].Running?)
    && (forall t :: 0 <= t < g.Stages() && !IsSink(g, t) ==> AllTrackedInRun(g, t))
  }

  predicate AllExited(g: Graph, s: State) {
    |s.phase| == g.Stages() && forall t :: 0 <= t < g.Stages() ==> s.phase[t].Exited?
  }

  lemma DrainGoesOn(g: Graph, s: State) returns (step: Step)
    requires CanDrain(g, s) && !AllExited(g, s)
    ensures Enabled(g, s, step) && DrainDriven(s, step)
    ensures CanDrain(g, Apply(g, s, step))
    ensures Total(StepsLeft(g, Apply(g, s, step))) < Total(StepsLeft(g, s))
  {
    var t := g.Stages();
    while s.phase[t - 1].Exited?
      invariant 0 < t <= g.Stages()
      invariant forall u :: t <= u < g.Stages() ==> s.phase[u].Exited?
      decreases t
    {
      t := t - 1;
    }
    step := LastStageCanExit(g, s, t - 1);
    StepKeepsInv(g, s, step);
    StepUsesWork(g, s, step);
  }

  lemma StepUsesWork(g: Graph, s: State, step: Step)
    requires Inv(g, s) && Enabled(g, s, step) && |Apply(g, s, step).phase| == g.Stages()
    ensures Total(StepsLeft(g, Apply(g, s, step))) < Total(StepsLeft(g, s))
  {
    var s', t := Apply(g, s, step), step.t;
    assert StepsLeft(g, s') == StepsLeft(g, s)[t := StepsLeft(g, s')[t]];
    TotalUpdate(StepsLeft(g, s), t, StepsLeft(g, s')[t]);
  }

  lemma StepKeepsCanDrain(g: Graph, s: State, step: Step)
    requires CanDrain(g, s) && Enabled(g, s, step)
    ensures CanDrain(g, Apply(g, s, step))
  {
    StepKeepsInv(g, s, step);
    var s' := Apply(g, s, step);
    forall t | 0 <= t < g.Stages() && IsSink(g, t)
      ensures !s'.phase[t].Running?
    {
      assert !s.phase[t].Running?;
    }
  }

  /** No step that drain accounts for is left. */
  ghost predicate DrainStuck(g: Graph, s: State) {
    forall step :: Enabled(g, s, step) ==> !DrainDriven(s, step)
  }

  /**
   * Once every sink is on its way out, drain alone shuts the whole graph down, however its steps interleave: every
   * run of such steps is bounded, and one that cannot be extended has ended every stage.
   */
  lemma {:induction false} DrainShutsEverythingDown(g: Graph, s: State, steps: seq<Step>)
    requires CanDrain(g, s) && DrainRuns(g, s, steps)
    ensures |steps| <= Total(StepsLeft(g, s))
    ensures CanDrain(g, AfterDrain(g, s, steps))
    ensures DrainStuck(g, AfterDrain(g, s, steps)) <==> AllExited(g, AfterDrain(g, s, steps))
    decreases |steps|
  {
    if steps == [] {
      if !AllExited(g, s) {
        var step := DrainGoesOn(g, s);
      }
    } else {
      StepKeepsCanDrain(g, s, steps[0]);
      StepUsesWork(g, s, steps[0]);
      DrainShutsEverythingDown(g, Apply(g, s, steps[0]), steps[1..]);
    }
  }

  /** So some run does. */
  lemma {:induction false} DrainFinishes(g: Graph, s: State) returns (steps: seq<Step>)
    requires CanDrain(g, s)
    ensures DrainRuns(g, s, steps) && AllExited(g, AfterDrain(g, s, steps))
    decreases Total(StepsLeft(g, s))
  {
    if AllExited(g, s) {
      return [];
    }
    var step := DrainGoesOn(g, s);
    var rest := DrainFinishes(g, Apply(g, s, step));
    steps := [step] + rest;
    assert steps[1..] == rest;
  }

  // ------------------------------------------------------------------ counting consumers

  /** Entries of `list` that name pipeline p itself. */
  function Occurs(list: seq<nat>, p: nat): nat {
    if list == [] then 0 else Occurs(list[..|list| - 1], p) + (if list[|list| - 1] == p then 1 else 0)
  }

  function OccursInRun(g: Graph, p: nat): nat {
    Total(OccursCounts(g, p))
  }

  /** Entries of `list` that name an output of stage e with a number below m. */
  function UsesBelow(g: Graph, list: seq<nat>, e: nat, m: nat): nat
    requires m <= |g.producer|
  {
    if list == [] then 0
    else
      var p := list[|list| - 1];
      UsesBelow(g, list[..|list| - 1], e, m) + (if p < m && g.producer[p] == e then 1 else 0)
  }

  /**
   * Counting pipeline by pipeline is counting stage by stage: when each output of a stage was tracked once
   * per use in the run, the shared entry starts at the number of signals the run will send it.
   */
  lemma SharedEntryCountsEveryUse(g: Graph, e: nat)
    requires g.WellFormed()
    requires forall p :: 0 <= p < |g.producer| && g.producer[p] == e ==> g.tracked[p] == OccursInRun(g, p)
    ensures g.Registered(e) == g.InRun(e)
  {
    RegisteredBelow(g, e, |g.producer|);
    assert g.Shares(e)[..|g.producer|] == g.Shares(e);
    forall t | 0 <= t < |g.inputs|
      ensures BelowCounts(g, e, |g.producer|)[t] == g.UseCounts(e)[t]
    {
      AllBelow(g, g.inputs[t], e);
    }
    assert BelowCounts(g, e, |g.producer|) == g.UseCounts(e);
  }

  function BelowCounts(g: Graph, e: nat, m: nat): seq<nat>
    requires m <= |g.producer|
  {
    seq(|g.inputs|, t requires 0 <= t < |g.inputs| => UsesBelow(g, g.inputs[t], e, m))
  }

  function OccursCounts(g: Graph, p: nat): seq<nat> {
    seq(|g.inputs|, t requires 0 <= t < |g.inputs| => Occurs(g.inputs[t], p))
  }

  lemma {:induction false} AllBelow(g: Graph, list: seq<nat>, e: nat)
    ensures UsesBelow(g, list, e, |g.producer|) == g.Uses(list, e)
  {
    if list != [] {
      AllBelow(g, list[..|list| - 1], e);
    }
  }

  lemma {:induction false} OneMorePipeline(g: Graph, list: seq<nat>, e: nat, m: nat)
    requires m < |g.producer|
    ensures UsesBelow(g, list, e, m + 1) ==
            UsesBelow(g, list, e, m) + (if g.producer[m] == e then Occurs(list, m) else 0)
  {
    if list != [] {
      OneMorePipeline(g, list[..|list| - 1], e, m);
    }
  }

  lemma {:induction false} RegisteredBelow(g: Graph, e: nat, m: nat)
    requires g.WellFormed() && m <= |g.producer|
    requires forall p :: 0 <= p < |g.producer| && g.producer[p] == e ==> g.tracked[p] == OccursInRun(g, p)
    ensures Total(g.Shares(e)[..m]) == Total(BelowCounts(g, e, m))
  {
    var here, shares := BelowCounts(g, e, m), g.Shares(e);
    if m == 0 {
      forall t | 0 <= t < |g.inputs|
        ensures here[t] == 0
      {
        NoneBelowZero(g, g.inputs[t], e);
      }
      TotalZero(here);
    } else {
      RegisteredBelow(g, e, m - 1);
      assert shares[..m] == shares[..m - 1] + [shares[m - 1]];
      TotalAppend(shares[..m - 1], [shares[m - 1]]);
      assert Total([shares[m - 1]]) == shares[m - 1];
      forall t | 0 <= t < |g.inputs|
        ensures here[t] ==
                  BelowCounts(g, e, m - 1)[t] + (if g.producer[m - 1] == e then OccursCounts(g, m - 1)[t] else 0)
      {
        OneMorePipeline(g, g.inputs[t], e, m - 1);
      }
      if g.producer[m - 1] == e {
        TotalAdd(BelowCounts(g, e, m - 1), OccursCounts(g, m - 1), here);
      } else {
        assert here == BelowCounts(g, e, m - 1);
      }
    }
  }

  lemma {:induction false} NoneBelowZero(g: Graph, list: seq<nat>, e: nat)
    ensures UsesBelow(g, list, e, 0) == 0
  {
    if list != [] {
      NoneBelowZero(g, list[..|list| - 1], e);
    }
  }
}
