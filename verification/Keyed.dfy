/** FNV-1a hashing of entity keys, and the choice of the worker that owns a key. */
module Sharding {
  type Key = seq<bv8>
  type Word = x: int | 0 <= x < 0x1_0000_0000

  const OFFSET_BASIS: Word := 2166136261
  const PRIME: Word := 16777619

  /** `h ^ b`: only the low byte of the word changes. */
  function XorByte(h: Word, b: bv8): Word {
    HighBytes(h) + Xor(h % 256, b)
  }

  function HighBytes(h: Word): (r: nat)
    ensures r <= 0xFFFF_FF00
  {
    h / 256 * 256
  }

  function Xor(low: nat, b: bv8): (r: nat)
    requires low < 256
    ensures r < 256
  {
    ((low as bv8) ^ b) as nat
  }

  /** 32-bit multiplication by the FNV prime, with wrap-around. */
  function TimesPrime(h: Word): Word {
    h * PRIME % 0x1_0000_0000
  }

  /** Byte by byte from the left: xor the byte in, then multiply. */
  function Fnv(s: Key): Word {
    if s == [] then OFFSET_BASIS
    else TimesPrime(XorByte(Fnv(s[..|s| - 1]), s[|s| - 1]))
  }

  method Fnv32(s: Key) returns (h: Word)
    ensures h == Fnv(s)
  {
    h := OFFSET_BASIS;
    for i := 0 to |s|
      invariant h == Fnv(s[..i])
    {
      h := XorByte(h, s[i]);
      h := TimesPrime(h);
      assert s[..i + 1][..i] == s[..i];
    }
    assert s[..|s|] == s;
  }

  /** A published test vector of 32-bit FNV-1a: the hash of the one byte 'a'. */
  lemma HashOfA()
    ensures Fnv([97]) == 0xE40C292C
  {
    assert OFFSET_BASIS % 256 == 197 && (197 as bv8) ^ 97 == 164;
    assert XorByte(OFFSET_BASIS, 97) == 2166136228;
    assert [97 as bv8][..0] == [];
  }

  /** The conversion `int(h)` on a platform with `width`-bit ints. */
  function ToInt(h: Word, width: int): int
    requires width == 32 || width == 64
  {
    if width == 32 && h >= 0x8000_0000 then h - 0x1_0000_0000 else h
  }

  /** Remainder that takes the sign of the dividend. */
  function Remainder(a: int, n: int): int
    requires n > 0
  {
    if a >= 0 then a % n else -((-a) % n)
  }

  function Shard(s: Key, n: nat, width: int): int
    requires n > 0 && (width == 32 || width == 64)
  {
    Remainder(ToInt(Fnv(s), width), n)
  }

  /**
   * The shard indexes the workers exactly when the int is 64 bits wide, or the hash has its top bit clear,
   * or n divides the negative value it converts to.
   */
  lemma ShardInRange(s: Key, n: nat, width: int)
    requires n > 0 && (width == 32 || width == 64)
    ensures 0 <= Shard(s, n, width) < n <==>
            width == 64 || Fnv(s) < 0x8000_0000 || (0x1_0000_0000 - Fnv(s)) % n == 0
  {
  }

  /** With 32-bit ints the empty key already selects worker -1 of 2. */
  lemma EmptyKeyOutOfRangeOn32Bits()
    ensures Shard([], 2, 32) == -1
  {
  }

  /** The shard the dispatcher uses on the 64-bit platforms modelled from here on. */
  function Owner(s: Key, n: nat): (w: nat)
    requires n > 0
    ensures w < n
  {
    Shard(s, n, 64)
  }
}

/** Serial per-key processing: the specification of every variant of MapWithKey and FlatMapWithKey. */
module KeyedSpec {
  import opened Outcomes
  import opened Sharding

  /**
   * `step` is the user function under its error handler, applied to the value of the key's Ref; it
   * returns the new value as well as the outcome. Keys start at `initial` and never expire.
   */
  datatype Keyed<!I, !S, !O> = Keyed(key: I -> Key, initial: S, step: (S, I) -> (S, Outcome<O>), input: seq<I>)
  {
    function KeyOf(i: nat): Key
      requires i < |input|
    {
      key(input[i])
    }

    /** The value of key `k` after the first `m` items. */
    function StateAt(m: nat, k: Key): S
      requires m <= |input|
    {
      if m == 0 then initial
      else if KeyOf(m - 1) == k then step(StateAt(m - 1, k), input[m - 1]).0
      else StateAt(m - 1, k)
    }

    /** What item `i` produces when its key saw all and only its earlier items. */
    function ResultAt(i: nat): Outcome<O>
      requires i < |input|
    {
      step(StateAt(i, KeyOf(i)), input[i]).1
    }

    function Results(): (os: seq<Outcome<O>>)
      ensures |os| == |input|
      ensures forall i :: 0 <= i < |input| ==> os[i] == ResultAt(i)
    {
      seq(|input|, i requires 0 <= i < |input| => ResultAt(i))
    }

    /** The results of one key's items, with the other keys' items left out. */
    function KeyResults(k: Key): (os: seq<Outcome<O>>)
      ensures |os| == |input|
      ensures forall i :: 0 <= i < |input| ==> os[i] == if KeyOf(i) == k then ResultAt(i) else Skip
    {
      seq(|input|, i requires 0 <= i < |input| => if KeyOf(i) == k then ResultAt(i) else Skip)
    }

    lemma {:induction false} StateUnchanged(a: nat, b: nat, k: Key)
      requires a <= b <= |input|
      requires forall i :: a <= i < b ==> KeyOf(i) != k
      ensures StateAt(a, k) == StateAt(b, k)
      decreases b - a
    {
      if a < b {
        StateUnchanged(a, b - 1, k);
      }
    }
  }

  function RefAt<S>(refs: map<Key, S>, k: Key, initial: S): S {
    if k in refs then refs[k] else initial
  }

  // ------------------------------------------------------------------ one key at a time

  /** The items of key k among the first m, in input order. */
  function ItemsOf<I, S, O>(job: Keyed<I, S, O>, k: Key, m: nat): seq<I>
    requires m <= |job.input|
  {
    if m == 0 then []
    else ItemsOf(job, k, m - 1) + (if job.key(job.input[m - 1]) == k then [job.input[m - 1]] else [])
  }

  datatype Scan<+S, +O> = Scan(state: S, outcomes: seq<Outcome<O>>)

  /** One value threaded through a list of items: every call gets what the call before left. */
  function ScanOf<I, S, O>(step: (S, I) -> (S, Outcome<O>), s: S, xs: seq<I>): (r: Scan<S, O>)
    ensures |r.outcomes| == |xs|
  {
    if xs == [] then Scan(s, [])
    else
      var (s', o) := step(s, xs[0]);
      var rest := ScanOf(step, s', xs[1..]);
      Scan(rest.state, [o] + rest.outcomes)
  }

  /** Key k's items among the first m, processed alone. */
  function KeyScan<I, S, O>(job: Keyed<I, S, O>, k: Key, m: nat): Scan<S, O>
    requires m <= |job.input|
  {
    ScanOf(job.step, job.initial, ItemsOf(job, k, m))
  }

  /** What item i produces when its key's items up to it are processed alone. */
  function ScannedOutcome<I, S, O>(job: Keyed<I, S, O>, i: nat): Outcome<O>
    requires i < |job.input|
  {
    var outcomes := KeyScan(job, job.key(job.input[i]), i + 1).outcomes;
    outcomes[|outcomes| - 1]
  }

  /** What every item produces, each in the scan of its own key. */
  function ScannedOutcomes<I, S, O>(job: Keyed<I, S, O>): (os: seq<Outcome<O>>)
    ensures |os| == |job.input| && forall i :: 0 <= i < |os| ==> os[i] == ScannedOutcome(job, i)
  {
    seq(|job.input|, i requires 0 <= i < |job.input| => ScannedOutcome(job, i))
  }

  lemma {:induction false} ScanAppend<I, S, O>(step: (S, I) -> (S, Outcome<O>), s: S, xs: seq<I>, x: I)
    ensures var r := ScanOf(step, s, xs);
            ScanOf(step, s, xs + [x]) == Scan(step(r.state, x).0, r.outcomes + [step(r.state, x).1])
  {
    if xs == [] {
      assert xs + [x] == [x];
      assert [x][1..] == [];
    } else {
      assert (xs + [x])[1..] == xs[1..] + [x];
      ScanAppend(step, step(s, xs[0]).0, xs[1..], x);
    }
  }

  /** The state of a key is where its scan ends. */
  lemma {:induction false} StatesAreScanned<I, S, O>(job: Keyed<I, S, O>, k: Key, m: nat)
    requires m <= |job.input|
    ensures job.StateAt(m, k) == KeyScan(job, k, m).state
  {
    if m > 0 {
      StatesAreScanned(job, k, m - 1);
      var x := job.input[m - 1];
      if job.key(x) == k {
        ScanAppend(job.step, job.initial, ItemsOf(job, k, m - 1), x);
      } else {
        assert ItemsOf(job, k, m) == ItemsOf(job, k, m - 1);
      }
    }
  }

  /** Every item's result is the next outcome of its key's scan. */
  lemma ResultsAreScanned<I, S, O>(job: Keyed<I, S, O>, i: nat)
    requires i < |job.input|
    ensures KeyScan(job, job.KeyOf(i), i + 1).outcomes == KeyScan(job, job.KeyOf(i), i).outcomes + [job.ResultAt(i)]
    ensures job.ResultAt(i) == ScannedOutcome(job, i)
  {
    StatesAreScanned(job, job.KeyOf(i), i);
    ScanAppend(job.step, job.initial, ItemsOf(job, job.KeyOf(i), i), job.input[i]);
  }

  lemma {:induction false} SerialFromAppend<O>(os: seq<Outcome<O>>, o: Outcome<O>, i: nat)
    requires i <= |os|
    ensures var r := SerialFrom(os, i);
            SerialFrom(os + [o], i) ==
              if r.err.Some? then r
              else match o
                   case Skip => r
                   case Emit(vs) => RunResult(r.out + vs, None)
                   case Fail(e) => RunResult(r.out, Some(e))
    decreases |os| - i
  {
    var r := SerialFrom(os + [o], i);
    if i < |os| {
      SerialFromAppend(os, o, i + 1);
      var rest := SerialFrom(os, i + 1);
      if os[i].Emit? && o.Emit? {
        assert os[i].values + (rest.out + o.values) == (os[i].values + rest.out) + o.values;
      }
    } else if o.Emit? {
      assert SerialFrom(os + [o], i + 1) == RunResult([], None);
      assert o.values + [] == [] + o.values;
    }
  }

  /** The serial run of one key, the other keys' items skipped, is the serial run of its scan, failures included. */
  lemma {:induction false} KeyRunIsScan<I, S, O>(job: Keyed<I, S, O>, k: Key, m: nat)
    requires m <= |job.input|
    ensures Serial(job.KeyResults(k)[..m]) == Serial(KeyScan(job, k, m).outcomes)
  {
    if m > 0 {
      KeyRunIsScan(job, k, m - 1);
      var os := job.KeyResults(k);
      assert os[..m] == os[..m - 1] + [os[m - 1]];
      SerialFromAppend(os[..m - 1], os[m - 1], 0);
      if job.KeyOf(m - 1) == k {
        ResultsAreScanned(job, m - 1);
        SerialFromAppend(KeyScan(job, k, m - 1).outcomes, job.ResultAt(m - 1), 0);
      } else {
        assert ItemsOf(job, k, m) == ItemsOf(job, k, m - 1);
      }
    }
  }

  /** The results the serial run is made of are what the keys' scans produce, and the states are where the scans end. */
  lemma SerialIsScanned<I, S, O>(job: Keyed<I, S, O>)
    ensures job.Results() == ScannedOutcomes(job)
    ensures forall m: nat, k: Key :: m <= |job.input| ==> job.StateAt(m, k) == KeyScan(job, k, m).state
    ensures forall k: Key :: Serial(job.KeyResults(k)) == Serial(KeyScan(job, k, |job.input|).outcomes)
  {
    forall i | 0 <= i < |job.input|
      ensures job.Results()[i] == ScannedOutcome(job, i)
    {
      ResultsAreScanned(job, i);
    }
    forall m: nat, k: Key | m <= |job.input|
      ensures job.StateAt(m, k) == KeyScan(job, k, m).state
    {
      StatesAreScanned(job, k, m);
    }
    forall k: Key
      ensures Serial(job.KeyResults(k)) == Serial(KeyScan(job, k, |job.input|).outcomes)
    {
      KeyRunIsScan(job, k, |job.input|);
      assert job.KeyResults(k)[..|job.input|] == job.KeyResults(k);
    }
  }

  /**
   * The serial loop over one shared map of refs. It computes the specification: the serial run of the
   * per-key results, and for every key the state its items up to the stopping point leave.
   */
  method MapWithKeySerial<I, S, O>(c: Keyed<I, S, O>)
      returns (out: seq<O>, err: Option<Error>, refs: map<Key, S>, stop: nat)
    ensures RunResult(out, err) == Serial(c.Results())
    ensures stop <= |c.input| && (err.None? <==> stop == |c.input|)
    ensures err.None? ==> forall k :: RefAt(refs, k, c.initial) == c.StateAt(|c.input|, k)
    ensures err.Some? ==> c.ResultAt(stop) == Fail(err.value) &&
                          forall k :: RefAt(refs, k, c.initial) == c.StateAt(stop + 1, k)
  {
    out, err, refs, stop := [], None, map[], 0;
    assert [] + Serial(c.Results()).out == Serial(c.Results()).out;
    while stop < |c.input|
      invariant stop <= |c.input| && err.None?
      invariant Serial(c.Results()) == Prepend(out, SerialFrom(c.Results(), stop))
      invariant forall k :: RefAt(refs, k, c.initial) == c.StateAt(stop, k)
    {
      var item := c.input[stop];
      var k := c.key(item);
      var (state, outcome) := c.step(RefAt(refs, k, c.initial), item);
      refs := refs[k := state];
      assert outcome == c.Results()[stop];
      match outcome {
        case Skip =>
        case Emit(vs) =>
          var r := SerialFrom(c.Results(), stop + 1);
          assert out + (vs + r.out) == (out + vs) + r.out;
          out := out + vs;
        case Fail(e) =>
          assert out + [] == out;
          err := Some(e);
          return;
      }
      stop := stop + 1;
    }
    assert out + [] == out;
  }

  /** The values of one key in a stream of values tagged with the items that produced them. */
  function OfKey<I, S, O>(job: Keyed<I, S, O>, out: seq<(nat, O)>, k: Key): seq<O> {
    if out == [] then []
    else
      var (i, v) := out[|out| - 1];
      OfKey(job, out[..|out| - 1], k) + (if i < |job.input| && job.KeyOf(i) == k then [v] else [])
  }

  lemma OfKeyAppend<I, S, O>(job: Keyed<I, S, O>, out: seq<(nat, O)>, i: nat, v: O, k: Key)
    requires i < |job.input|
    ensures OfKey(job, out + [(i, v)], k) == OfKey(job, out, k) + (if job.KeyOf(i) == k then [v] else [])
  {
    assert (out + [(i, v)])[..|out|] == out;
  }

  lemma {:induction false} OfKeyAppendAll<I, S, O>(job: Keyed<I, S, O>, out: seq<(nat, O)>, i: nat, vs: seq<O>, k: Key)
    requires i < |job.input|
    ensures OfKey(job, out + Tag(i, vs), k) == OfKey(job, out, k) + (if job.KeyOf(i) == k then vs else [])
    decreases |vs|
  {
    if vs == [] {
      assert out + Tag(i, vs) == out;
      assert OfKey(job, out, k) + [] == OfKey(job, out, k);
    } else {
      var m := |vs| - 1;
      assert out + Tag(i, vs) == (out + Tag(i, vs[..m])) + [(i, vs[m])];
      OfKeyAppend(job, out + Tag(i, vs[..m]), i, vs[m], k);
      OfKeyAppendAll(job, out, i, vs[..m], k);
      assert vs == vs[..m] + [vs[m]];
    }
  }

  function Tag<O>(i: nat, vs: seq<O>): seq<(nat, O)> {
    seq(|vs|, j requires 0 <= j < |vs| => (i, vs[j]))
  }

  function Untag<O>(out: seq<(nat, O)>): seq<O> {
    seq(|out|, j requires 0 <= j < |out| => out[j].1)
  }

  /** The serial run's output up to item `m`, tagged. */
  function Tagged<I, S, O>(job: Keyed<I, S, O>, m: nat): seq<(nat, O)>
    requires m <= |job.input|
  {
    if m == 0 then []
    else Tagged(job, m - 1) + (if job.ResultAt(m - 1).Emit? then Tag(m - 1, job.ResultAt(m - 1).values) else [])
  }

  /** The serial run of one key is what that key contributes to the serial run of everything, when no item fails. */
  lemma SerialByKey<I, S, O>(job: Keyed<I, S, O>, k: Key)
    requires forall i :: 0 <= i < |job.input| ==> !job.ResultAt(i).Fail?
    ensures Untag(Tagged(job, |job.input|)) == Serial(job.Results()).out
    ensures OfKey(job, Tagged(job, |job.input|), k) == Serial(job.KeyResults(k)).out
  {
    TaggedValues(job, |job.input|);
    TaggedKeyValues(job, |job.input|, k);
    SerialStopsAtFirstFailure(job.Results(), |job.input|);
    SerialStopsAtFirstFailure(job.KeyResults(k), |job.input|);
  }

  lemma {:induction false} TaggedValues<I, S, O>(job: Keyed<I, S, O>, m: nat)
    requires m <= |job.input|
    ensures Untag(Tagged(job, m)) == ValuesBefore(job.Results(), m)
  {
    if m > 0 {
      TaggedValues(job, m - 1);
      var o := job.Results()[m - 1];
      var vs := if o.Emit? then o.values else [];
      assert Untag(Tagged(job, m - 1) + (if o.Emit? then Tag(m - 1, o.values) else []))
          == Untag(Tagged(job, m - 1)) + vs;
    }
  }

  lemma {:induction false} TaggedKeyValues<I, S, O>(job: Keyed<I, S, O>, m: nat, k: Key)
    requires m <= |job.input|
    ensures OfKey(job, Tagged(job, m), k) == ValuesBefore(job.KeyResults(k), m)
  {
    if m > 0 {
      TaggedKeyValues(job, m - 1, k);
      TaggedKeyStep(job, m - 1, k);
    }
  }

  lemma TaggedKeyStep<I, S, O>(job: Keyed<I, S, O>, i: nat, k: Key)
    requires i < |job.input|
    ensures var o := job.KeyResults(k)[i];
            OfKey(job, Tagged(job, i + 1), k) == OfKey(job, Tagged(job, i), k) + (if o.Emit? then o.values else [])
  {
    var o, before := job.ResultAt(i), Tagged(job, i);
    assert OfKey(job, before, k) + [] == OfKey(job, before, k);
    if o.Emit? {
      OfKeyAppendAll(job, before, i, o.values, k);
      assert Tagged(job, i + 1) == before + Tag(i, o.values);
    } else {
      assert Tagged(job, i + 1) == before;
    }
  }
}
