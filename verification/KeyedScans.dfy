/**
 * What the three forms of the keyed stages compute, said without the specification they were proved against: every
 * key's items, processed alone and in order, with one value threaded through them.
 */
module KeyedScans {
  import opened Outcomes
  import opened Sharding
  import opened KeyedSpec
  import Routing
  import KeyedOrdered
  import KeyedConcurrent

  /** What key k's items emit when they are processed alone, none of them failing. */
  function KeyOutput<I, S, O>(job: Keyed<I, S, O>, k: Key): seq<O> {
    var os := KeyScan(job, k, |job.input|).outcomes;
    ValuesBefore(os, |os|)
  }

  function FinalState<I, S, O>(job: Keyed<I, S, O>, k: Key): S {
    KeyScan(job, k, |job.input|).state
  }

  lemma {:induction false} ScanOfNoFailure<I, S, O>(job: Keyed<I, S, O>, k: Key, m: nat)
    requires m <= |job.input| && forall i :: 0 <= i < m ==> !job.ResultAt(i).Fail?
    ensures forall o :: o in KeyScan(job, k, m).outcomes ==> !o.Fail?
  {
    if m > 0 {
      ScanOfNoFailure(job, k, m - 1);
      if job.KeyOf(m - 1) == k {
        ResultsAreScanned(job, m - 1);
      } else {
        assert ItemsOf(job, k, m) == ItemsOf(job, k, m - 1);
      }
    }
  }

  lemma KeyOutputIsSerial<I, S, O>(job: Keyed<I, S, O>, k: Key)
    requires forall i :: 0 <= i < |job.input| ==> !job.ResultAt(i).Fail?
    ensures Serial(job.KeyResults(k)).out == KeyOutput(job, k)
  {
    var os := KeyScan(job, k, |job.input|).outcomes;
    SerialIsScanned(job);
    ScanOfNoFailure(job, k, |job.input|);
    SerialStopsAtFirstFailure(os, |os|);
  }

  /**
   * Concurrent: in every schedule each key's output is a prefix of its own scan's serial run, and an undisturbed
   * return without error has for every key exactly what its scan emits, and the ref where its scan ends.
   */
  lemma ConcurrentIsScans<I, S, O>(c: Routing.Stage<I, S, O>, steps: seq<KeyedConcurrent.Step<S>>)
    requires c.Legal() && KeyedConcurrent.Runs(c, KeyedConcurrent.Init<S, O>(c.n), steps)
    ensures var s := KeyedConcurrent.Final(c, KeyedConcurrent.Init<S, O>(c.n), steps);
            && (forall k: Key ::
                  OfKey(c.job, s.out, k) <= Serial(KeyScan(c.job, k, |c.job.input|).outcomes).out)
            && (s.disp.Returned? && !s.external && s.disp.err.None? ==>
                  |s.workers| == c.n && forall k: Key ::
                    OfKey(c.job, s.out, k) == KeyOutput(c.job, k) &&
                    RefAt(s.workers[Owner(k, c.n)].core.refs, k, c.job.initial) == FinalState(c.job, k))
  {
    KeyedConcurrent.EveryScheduleIsSerialPerKey(c, steps);
    SerialIsScanned(c.job);
    var s := KeyedConcurrent.Final(c, KeyedConcurrent.Init<S, O>(c.n), steps);
    if s.disp.Returned? && !s.external && s.disp.err.None? {
      forall k: Key
        ensures OfKey(c.job, s.out, k) == KeyOutput(c.job, k)
      {
        KeyOutputIsSerial(c.job, k);
      }
    }
  }

  /**
   * Ordered: in every schedule the output is a prefix of the serial run of the outcomes that the keys' scans give the
   * items, in input order; an undisturbed return is exactly that run, and without error leaves every ref where
   * its key's scan ends.
   */
  lemma OrderedIsScans<I, S, O>(c: Routing.Stage<I, S, O>, steps: seq<KeyedOrdered.Step<S>>)
    requires c.Legal() && KeyedOrdered.Runs(c, KeyedOrdered.Init<S, O>(c.n), steps)
    ensures var s := KeyedOrdered.Final(c, KeyedOrdered.Init<S, O>(c.n), steps);
            && s.lane.out <= Serial(ScannedOutcomes(c.job)).out
            && (s.disp.Returned? && !s.lane.external ==>
                  RunResult(s.lane.out, s.disp.err) == Serial(ScannedOutcomes(c.job)))
            && (s.disp.Returned? && !s.lane.external && s.disp.err.None? ==>
                  && s.lane.out == ValuesBefore(ScannedOutcomes(c.job), |c.job.input|)
                  && |s.workers| == c.n
                  && forall k: Key ::
                       RefAt(s.workers[Owner(k, c.n)].core.refs, k, c.job.initial) == FinalState(c.job, k))
  {
    KeyedOrdered.EveryScheduleIsSerial(c, steps);
    SerialIsScanned(c.job);
    var s := KeyedOrdered.Final(c, KeyedOrdered.Init<S, O>(c.n), steps);
    if s.disp.Returned? && !s.lane.external && s.disp.err.None? {
      SerialOk(ScannedOutcomes(c.job));
    }
  }

  lemma SerialOk<O>(os: seq<Outcome<O>>)
    requires Serial(os).err.None?
    ensures Serial(os).out == ValuesBefore(os, |os|)
  {
    var q := |os|;
    if i :| 0 <= i < |os| && os[i].Fail? {
      q := LowestFailure(os, i);
    }
    SerialStopsAtFirstFailure(os, q);
  }

  lemma {:induction false} LowestFailure<O>(os: seq<Outcome<O>>, p: nat) returns (q: nat)
    requires p < |os| && os[p].Fail?
    ensures q <= p && os[q].Fail? && forall i :: 0 <= i < q ==> !os[i].Fail?
  {
    if i :| 0 <= i < p && os[i].Fail? {
      q := LowestFailure(os, i);
    } else {
      q := p;
    }
  }

  /** The values come in the order of the items, of which there are m. */
  predicate InOrder<O>(tagged: seq<(nat, O)>, m: nat) {
    && (forall b :: 0 <= b < |tagged| ==> tagged[b].0 < m)
    && (forall a, b :: 0 <= a <= b < |tagged| ==> tagged[a].0 <= tagged[b].0)
  }

  /**
   * Serial, and by the above ordered: without failures the output, tagged with the items it comes from, is in input
   * order and holds for every key exactly what its scan emits.
   */
  lemma OutputSplitsIntoScans<I, S, O>(job: Keyed<I, S, O>)
    requires forall i :: 0 <= i < |job.input| ==> !ScannedOutcome(job, i).Fail?
    ensures var tagged := Tagged(job, |job.input|);
            && Untag(tagged) == Serial(ScannedOutcomes(job)).out
            && InOrder(tagged, |job.input|)
            && (forall k: Key :: OfKey(job, tagged, k) == KeyOutput(job, k))
  {
    forall i | 0 <= i < |job.input|
      ensures !job.ResultAt(i).Fail?
    {
      ResultsAreScanned(job, i);
    }
    SerialIsScanned(job);
    TaggedInOrder(job, |job.input|);
    SerialByKey(job, []);
    forall k: Key
      ensures OfKey(job, Tagged(job, |job.input|), k) == KeyOutput(job, k)
    {
      SerialByKey(job, k);
      KeyOutputIsSerial(job, k);
    }
  }

  lemma {:induction false} TaggedInOrder<I, S, O>(job: Keyed<I, S, O>, m: nat)
    requires m <= |job.input|
    ensures InOrder(Tagged(job, m), m)
  {
    if m > 0 {
      TaggedInOrder(job, m - 1);
      InOrderAppend(Tagged(job, m - 1), m - 1, if job.ResultAt(m - 1).Emit? then job.ResultAt(m - 1).values else []);
      assert Tag<O>(m - 1, []) == [];
    }
  }

  lemma InOrderAppend<O>(tagged: seq<(nat, O)>, m: nat, vs: seq<O>)
    requires InOrder(tagged, m)
    ensures InOrder(tagged + Tag(m, vs), m + 1)
  {
  }
}
