/** Batch, Unbatch and SlidingWindow: the loops that cut a stream into slices and join slices again. */
module Batches {
  import opened Outcomes
  import opened Division

  /** count 0: no count trigger. `ticks`: a batch timeout is set. */
  datatype Config<!T> = Config(count: int, measure: Option<T -> int>, measureMax: int, ticks: bool, dropPartial: bool)
  {
    /** Batch panics at construction without any trigger. */
    predicate Valid() {
      count != 0 || measure.Some? || ticks
    }
  }

  /** What the select of the loop sees: an item, or the ticker of the batch timeout. */
  datatype Event<+T> = Item(x: T) | Tick

  function Items<T>(events: seq<Event<T>>): seq<T> {
    if events == [] then []
    else Items(events[..|events| - 1]) + (if events[|events| - 1].Item? then [events[|events| - 1].x] else [])
  }

  function Concat<T>(batches: seq<seq<T>>): seq<T> {
    if batches == [] then [] else batches[0] + Concat(batches[1..])
  }

  function Measured<T>(measure: T -> int, buf: seq<T>): int {
    if buf == [] then 0 else Measured(measure, buf[..|buf| - 1]) + measure(buf[|buf| - 1])
  }

  /** These items meet a count or measure trigger. */
  predicate Full<T>(cfg: Config<T>, buf: seq<T>) {
    || (cfg.count > 0 && |buf| >= cfg.count)
    || (cfg.measure.Some? && Measured(cfg.measure.value, buf) >= cfg.measureMax)
  }

  /** No non-empty prefix shorter than n is full: nothing here was due to be flushed earlier. */
  ghost predicate NotLate<T>(cfg: Config<T>, buf: seq<T>, n: nat)
    requires n <= |buf| + 1
  {
    forall j {:trigger buf[..j]} :: 0 < j < n ==> !Full(cfg, buf[..j])
  }

  // ------------------------------------------------------------------ Batch

  datatype Split<T> = Split(batches: seq<seq<T>>, buf: seq<T>)

  /** The batches flushed by these events, and the items not flushed yet. */
  function Cut<T>(cfg: Config<T>, events: seq<Event<T>>): Split<T> {
    if events == [] then Split([], [])
    else
      var s := Cut(cfg, events[..|events| - 1]);
      match events[|events| - 1]
      case Item(x) =>
        if Full(cfg, s.buf + [x]) then Split(s.batches + [s.buf + [x]], []) else Split(s.batches, s.buf + [x])
      case Tick =>
        if s.buf == [] then s else Split(s.batches + [s.buf], [])
  }

  /** All batches of a closed stream. */
  function Batched<T>(cfg: Config<T>, events: seq<Event<T>>): seq<seq<T>> {
    var s := Cut(cfg, events);
    if cfg.dropPartial || s.buf == [] then s.batches else s.batches + [s.buf]
  }

  lemma MeasuredAppend<T>(measure: T -> int, buf: seq<T>, x: T)
    ensures Measured(measure, buf + [x]) == Measured(measure, buf) + measure(x)
  {
    assert (buf + [x])[..|buf|] == buf;
  }

  method Batch<T>(cfg: Config<T>, events: seq<Event<T>>) returns (batches: seq<seq<T>>)
    requires cfg.Valid()
    requires !cfg.ticks ==> forall e | e in events :: e.Item?
    ensures batches == Batched(cfg, events)
  {
    batches := [];
    var buf: seq<T> := [];
    var measure := 0;
    for i := 0 to |events|
      invariant Split(batches, buf) == Cut(cfg, events[..i])
      invariant cfg.measure.Some? ==> measure == Measured(cfg.measure.value, buf)
    {
      assert events[..i + 1][..i] == events[..i];
      match events[i] {
        case Item(x) =>
          if cfg.measure.Some? {
            measure := measure + cfg.measure.value(x);
            MeasuredAppend(cfg.measure.value, buf, x);
          }
          buf := buf + [x];
          if (cfg.count > 0 && |buf| >= cfg.count) || (cfg.measure.Some? && measure >= cfg.measureMax) {
            batches, buf, measure := batches + [buf], [], 0;
          }
        case Tick =>
          if buf != [] {
            batches, buf, measure := batches + [buf], [], 0;
          }
      }
    }
    assert events[..|events|] == events;
    if !cfg.dropPartial && buf != [] {
      batches := batches + [buf];
    }
  }

  lemma {:induction false} ConcatAppend<T>(batches: seq<seq<T>>, b: seq<T>)
    ensures Concat(batches + [b]) == Concat(batches) + b
  {
    if batches != [] {
      ConcatAppend(batches[1..], b);
      assert (batches + [b])[1..] == batches[1..] + [b];
    }
  }

  /** Nothing is lost, duplicated or reordered, for every mix of items and ticks. */
  lemma {:induction false} CutConserves<T>(cfg: Config<T>, events: seq<Event<T>>)
    ensures var s := Cut(cfg, events); Concat(s.batches) + s.buf == Items(events)
  {
    if events != [] {
      var s := Cut(cfg, events[..|events| - 1]);
      CutConserves(cfg, events[..|events| - 1]);
      match events[|events| - 1]
      case Item(x) => ConcatAppend(s.batches, s.buf + [x]);
      case Tick => ConcatAppend(s.batches, s.buf);
    }
  }

  lemma OneMoreItem<T>(cfg: Config<T>, buf: seq<T>, x: T)
    requires NotLate(cfg, buf, |buf| + 1)
    ensures var more := buf + [x];
            NotLate(cfg, more, |more|) && (!Full(cfg, more) ==> NotLate(cfg, more, |more| + 1))
  {
    var more := buf + [x];
    forall j | 0 < j < |more|
      ensures !Full(cfg, more[..j])
    {
      assert more[..j] == buf[..j];
    }
    assert more[..|more|] == more;
  }

  /**
   * Batches are flushed as soon as they are due: none is empty, none has a proper non-empty prefix that meets a
   * trigger, and neither has the buffer. Without ticks every flushed batch meets a trigger itself.
   */
  lemma {:induction false} CutIsPrompt<T>(cfg: Config<T>, events: seq<Event<T>>)
    ensures var s := Cut(cfg, events);
            && (forall b | b in s.batches :: b != [] && NotLate(cfg, b, |b|))
            && NotLate(cfg, s.buf, |s.buf| + 1)
            && ((forall e | e in events :: e.Item?) ==> forall b | b in s.batches :: Full(cfg, b))
  {
    if events != [] {
      var n := |events| - 1;
      var s := Cut(cfg, events[..n]);
      CutIsPrompt(cfg, events[..n]);
      assert (forall e | e in events :: e.Item?) ==> (forall e | e in events[..n] :: e.Item?) && events[n].Item?;
      match events[n]
      case Item(x) =>
        OneMoreItem(cfg, s.buf, x);
      case Tick =>
    }
  }

  /** Unbatch(Batch(s)) == s when partial batches are kept. */
  lemma UnbatchUndoesBatch<T>(cfg: Config<T>, events: seq<Event<T>>)
    requires !cfg.dropPartial
    ensures Concat(Batched(cfg, events)) == Items(events)
  {
    CutConserves(cfg, events);
    var s := Cut(cfg, events);
    ConcatAppend(s.batches, s.buf);
  }

  /** With DropPartial exactly the unflushed tail is lost. */
  lemma DropPartialLosesTheTail<T>(cfg: Config<T>, events: seq<Event<T>>)
    requires cfg.dropPartial
    ensures Concat(Batched(cfg, events)) + Cut(cfg, events).buf == Items(events)
    ensures NotLate(cfg, Cut(cfg, events).buf, |Cut(cfg, events).buf| + 1)
  {
    CutConserves(cfg, events);
    CutIsPrompt(cfg, events);
  }

  /** Every batch is full and was not due earlier; the rest is not due. */
  ghost predicate Greedy<T>(cfg: Config<T>, s: Split<T>) {
    && (forall b | b in s.batches :: b != [] && NotLate(cfg, b, |b|) && Full(cfg, b))
    && NotLate(cfg, s.buf, |s.buf| + 1)
  }

  /** There is only one such way to cut a list of items. */
  lemma {:induction false} GreedyIsUnique<T>(cfg: Config<T>, s: Split<T>, t: Split<T>)
    requires Greedy(cfg, s) && Greedy(cfg, t)
    requires Concat(s.batches) + s.buf == Concat(t.batches) + t.buf
    ensures s == t
    decreases |s.batches|
  {
    if s.batches == [] && t.batches == [] {
      assert s.buf == [] + s.buf == [] + t.buf == t.buf;
    } else if s.batches == [] {
      NoFullPrefix(cfg, t, s);
    } else if t.batches == [] {
      NoFullPrefix(cfg, s, t);
    } else {
      var b, c := s.batches[0], t.batches[0];
      var ss, tt := Split(s.batches[1..], s.buf), Split(t.batches[1..], t.buf);
      var restS, restT := Concat(ss.batches) + s.buf, Concat(tt.batches) + t.buf;
      assert Concat(s.batches) + s.buf == b + restS && Concat(t.batches) + t.buf == c + restT;
      HeadsAgree(cfg, b, restS, c, restT);
      GreedyIsUnique(cfg, ss, tt);
      assert s.batches == [b] + ss.batches && t.batches == [c] + tt.batches;
    }
  }

  /** Two first batches of one list are the same. */
  lemma HeadsAgree<T>(cfg: Config<T>, b: seq<T>, restB: seq<T>, c: seq<T>, restC: seq<T>)
    requires b + restB == c + restC
    requires b != [] && NotLate(cfg, b, |b|) && Full(cfg, b)
    requires c != [] && NotLate(cfg, c, |c|) && Full(cfg, c)
    ensures b == c && restB == restC
  {
    if |b| < |c| {
      SharedPrefix(b, restB, c, restC);
    } else if |c| < |b| {
      SharedPrefix(c, restC, b, restB);
    }
    assert b == (b + restB)[..|b|] && c == (c + restC)[..|c|];
    assert restB == (b + restB)[|b|..] && restC == (c + restC)[|c|..];
  }

  lemma SharedPrefix<T>(b: seq<T>, restB: seq<T>, c: seq<T>, restC: seq<T>)
    requires b + restB == c + restC && |b| <= |c|
    ensures c[..|b|] == b
  {
    assert (b + restB)[..|b|] == b && (c + restC)[..|b|] == c[..|b|];
  }

  lemma NoFullPrefix<T>(cfg: Config<T>, s: Split<T>, t: Split<T>)
    requires Greedy(cfg, s) && Greedy(cfg, t) && t.batches == [] && s.batches != []
    ensures Concat(s.batches) + s.buf != [] + t.buf
  {
    var b := s.batches[0];
    assert (Concat(s.batches) + s.buf)[..|b|] == b;
    assert |b| <= |t.buf| ==> t.buf[..|b|] != b;
  }

  /** Without ticks: Batch is the one greedy cut of its input. */
  lemma BatchIsTheGreedyCut<T>(cfg: Config<T>, events: seq<Event<T>>, t: Split<T>)
    requires forall e | e in events :: e.Item?
    ensures t == Cut(cfg, events) <==> Greedy(cfg, t) && Concat(t.batches) + t.buf == Items(events)
  {
    CutConserves(cfg, events);
    CutIsPrompt(cfg, events);
    if Greedy(cfg, t) && Concat(t.batches) + t.buf == Items(events) {
      GreedyIsUnique(cfg, t, Cut(cfg, events));
    }
  }

  /**
   * A count trigger bounds every batch, the last partial one included; and when it is the only trigger, the batches
   * are the input in slices of exactly that many items.
   */
  lemma BatchesByCount<T>(cfg: Config<T>, events: seq<Event<T>>)
    requires cfg.count > 0
    ensures forall b | b in Batched(cfg, events) :: 0 < |b| <= cfg.count
    ensures var s := Cut(cfg, events);
            cfg.measure.None? && (forall e | e in events :: e.Item?) ==>
              && (forall b | b in s.batches :: |b| == cfg.count)
              && |s.batches| == |Items(events)| / cfg.count && |s.buf| == |Items(events)| % cfg.count
  {
    CutIsPrompt(cfg, events);
    var s := Cut(cfg, events);
    forall b | b in s.batches
      ensures 0 < |b| <= cfg.count
    {
      if |b| > cfg.count {
        LateByCount(cfg, b, |b|);
      }
    }
    if |s.buf| + 1 > cfg.count {
      LateByCount(cfg, s.buf, |s.buf| + 1);
    }
    if cfg.measure.None? && forall e | e in events :: e.Item? {
      forall b | b in s.batches
        ensures |b| == cfg.count
      {
        assert Full(cfg, b);
      }
      CutConserves(cfg, events);
      ConcatLength(s.batches, cfg.count);
      QuotientUnique(|Items(events)|, cfg.count, |s.batches|, |s.buf|);
    }
  }

  lemma LateByCount<T>(cfg: Config<T>, buf: seq<T>, n: nat)
    requires 0 < cfg.count < n <= |buf| + 1
    ensures !NotLate(cfg, buf, n)
  {
    assert Full(cfg, buf[..cfg.count]);
  }

  lemma {:induction false} ConcatLength<T>(batches: seq<seq<T>>, count: int)
    requires forall b | b in batches :: |b| == count
    ensures |Concat(batches)| == Times(|batches|, count)
  {
    if batches == [] {
      NoTimes(count);
    } else {
      ConcatLength(batches[1..], count);
      TimesNext(|batches| - 1, |batches|, count);
      assert batches[0] in batches;
    }
  }

  /**
   * A measure trigger: a batch without its last item is below the limit, and without ticks a flushed batch is
   * at it or has reached the count.
   */
  lemma BatchesByMeasure<T>(cfg: Config<T>, events: seq<Event<T>>)
    requires cfg.measure.Some?
    ensures forall b | b in Batched(cfg, events) && |b| > 1 ::
              Measured(cfg.measure.value, b[..|b| - 1]) < cfg.measureMax
    ensures (forall e | e in events :: e.Item?) ==>
              forall b | b in Cut(cfg, events).batches ::
                Measured(cfg.measure.value, b) >= cfg.measureMax || (cfg.count > 0 && |b| == cfg.count)
  {
    CutIsPrompt(cfg, events);
    var s := Cut(cfg, events);
    forall b | b in Batched(cfg, events) && |b| > 1
      ensures Measured(cfg.measure.value, b[..|b| - 1]) < cfg.measureMax
    {
      assert !Full(cfg, b[..|b| - 1]);
    }
    if cfg.count > 0 {
      BatchesByCount(cfg, events);
    }
    if forall e | e in events :: e.Item? {
      forall b | b in s.batches
        ensures Measured(cfg.measure.value, b) >= cfg.measureMax || (cfg.count > 0 && |b| == cfg.count)
      {
        assert Full(cfg, b) && b in Batched(cfg, events);
      }
    }
  }

  method Unbatch<T>(batches: seq<seq<T>>) returns (out: seq<T>)
    ensures out == Concat(batches)
  {
    out := [];
    for i := 0 to |batches|
      invariant out + Concat(batches[i..]) == Concat(batches)
    {
      var batch := batches[i];
      ghost var before := out;
      for j := 0 to |batch|
        invariant out == before + batch[..j]
      {
        out := out + [batch[j]];
      }
      assert batch[..|batch|] == batch;
      assert batches[i..][1..] == batches[i + 1..];
    }
  }

  // ------------------------------------------------------------------ SlidingWindow

  function Window<T>(items: seq<T>, start: int, size: nat): seq<T>
    requires 0 <= start <= start + size <= |items|
  {
    items[start..start + size]
  }

  /** How many windows n items give. */
  function Windows(n: nat, size: nat, step: nat): nat
    requires 0 < step <= size
  {
    if n < size then 0 else (n - size) / step + 1
  }

  lemma CountOfWindows(n: nat, size: nat, step: nat, w: nat)
    requires 0 < step <= size
    requires Times(w, step) <= n < Times(w, step) + size
    requires w == 0 || Times(w - 1, step) + size <= n
    ensures w == Windows(n, size, step)
  {
    assert Times(w, step) == Times(w - 1, step) + step;
    if w > 0 {
      QuotientUnique(n - size, step, w - 1, n - size - Times(w - 1, step));
    }
  }

  /** Window k of the list is the window of the input that starts at k*step. */
  ghost predicate AreWindows<T>(items: seq<T>, n: nat, size: nat, step: nat, windows: seq<seq<T>>)
    requires n <= |items|
  {
    forall k {:trigger windows[k]} :: 0 <= k < |windows| ==>
      0 <= Times(k, step) <= Times(k, step) + size <= n && windows[k] == Window(items, Times(k, step), size)
  }

  lemma OneMoreWindow<T>(items: seq<T>, n: nat, size: nat, step: nat, windows: seq<seq<T>>)
    requires n <= |items| && AreWindows(items, n, size, step, windows)
    requires 0 <= Times(|windows|, step) <= Times(|windows|, step) + size <= n
    ensures AreWindows(items, n, size, step, windows + [Window(items, Times(|windows|, step), size)])
    ensures Times(|windows| + 1, step) == Times(|windows|, step) + step
  {
    var more := windows + [Window(items, Times(|windows|, step), size)];
    forall k | 0 <= k < |more|
      ensures 0 <= Times(k, step) <= Times(k, step) + size <= n && more[k] == Window(items, Times(k, step), size)
    {
      assert k < |windows| ==> more[k] == windows[k];
    }
  }

  lemma LaterEnd<T>(items: seq<T>, n: nat, size: nat, step: nat, windows: seq<seq<T>>)
    requires n < |items| && AreWindows(items, n, size, step, windows)
    ensures AreWindows(items, n + 1, size, step, windows)
  {
    forall k | 0 <= k < |windows|
      ensures 0 <= Times(k, step) <= Times(k, step) + size <= n + 1 && windows[k] == Window(items, Times(k, step), size)
    {
      var _ := windows[k];
    }
  }

  /** Window k holds the `size` items from k*step on; there are (n - size) / step + 1 of them. */
  method SlidingWindow<T>(items: seq<T>, size: nat, step: nat) returns (windows: seq<seq<T>>)
    requires 0 < step <= size
    ensures |windows| == Windows(|items|, size, step)
    ensures AreWindows(items, |items|, size, step, windows)
  {
    windows := [];
    var buf: seq<T> := [];
    ghost var base := 0;
    for i := 0 to |items|
      invariant base == Times(|windows|, step) && 0 <= base <= i < base + size
      invariant windows != [] ==> Times(|windows| - 1, step) + size <= i
      invariant buf == items[base..i]
      invariant AreWindows(items, i, size, step, windows)
    {
      buf := buf + [items[i]];
      assert buf == items[base..i + 1];
      LaterEnd(items, i, size, step, windows);
      if |buf| == size {
        OneMoreWindow(items, i + 1, size, step, windows);
        windows := windows + [buf];
        buf := buf[step..];
        base := base + step;
      }
    }
    CountOfWindows(|items|, size, step, |windows|);
  }

}
