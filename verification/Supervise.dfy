/**
 * Supervise: restart a stage function after a failure or a panic, at most MaxRestarts times per window.
 * Times are readings of one clock in nanoseconds.
 */
module Supervise {
  import opened Outcomes
  import opened Division

  datatype PanicAction = PanicPropagate | PanicRestart | PanicSkip

  datatype Policy = Policy(
    maxRestarts: int,
    window: int,                       // 0: the counter is never reset
    backoff: Option<int -> int>,
    onPanic: PanicAction,
    panicOnly: bool)
  {
    predicate HasSupervision() {
      maxRestarts > 0 || !onPanic.PanicPropagate?
    }
  }

  datatype Ending<E> = Returned | Failed(e: E) | Panicked(v: E)

  /**
   * One run of the stage function and what the world around it showed: whether the context was
   * cancelled, the clock at the window check and at the restart, and whether a backoff wait was cut short.
   */
  datatype Run<E> = Run(ending: Ending<E>, cancelled: bool, checkedAt: int, restartedAt: int, waitCancelled: bool)

  datatype Exit<E> =
    | Finished                  // nil
    | GaveUp(e: Ending<E>)      // the error of the last run, or the error made from its panic
    | Rethrown(v: E)
    | Cancelled
    | StillRunning              // the script of runs ended before the stage did

  /** The policy treats this ending as one to restart from. */
  predicate Crash<E>(p: Policy, ending: Ending<E>) {
    match ending
    case Returned => false
    case Failed(_) => !p.panicOnly
    case Panicked(_) => p.onPanic.PanicRestart?
  }

  predicate WaitCutShort<E>(p: Policy, run: Run<E>, restarts: int) {
    p.backoff.Some? && p.backoff.value(restarts - 1) > 0 && run.waitCancelled
  }

  /**
   * The restart that opened the window which restart i belongs to. A window is open until a check more
   * than `window` after its first restart.
   */
  function Head<E>(p: Policy, runs: seq<Run<E>>, i: nat): (h: nat)
    requires i < |runs|
    ensures h <= i
  {
    if i == 0 then 0
    else
      var h := Head(p, runs, i - 1);
      if p.window > 0 && runs[i].checkedAt - runs[h].restartedAt > p.window then i else h
  }

  /** Restart i is within the limit of its window. */
  predicate Granted<E>(p: Policy, runs: seq<Run<E>>, i: nat)
    requires i < |runs|
  {
    i - Head(p, runs, i) < p.maxRestarts
  }

  /** How the run after the last restart ended the stage. */
  ghost predicate EndsWith<E>(p: Policy, runs: seq<Run<E>>, i: nat, exit: Exit<E>)
    requires i < |runs|
  {
    var ending := runs[i].ending;
    if ending.Returned? || (ending.Panicked? && p.onPanic.PanicSkip?) then exit == Finished
    else if ending.Panicked? && p.onPanic.PanicPropagate? then exit == Rethrown(ending.v)
    else if (ending.Failed? && p.panicOnly) || !p.HasSupervision() then exit == GaveUp(ending)
    else if runs[i].cancelled then exit == Cancelled
    else !Granted(p, runs, i) && exit == GaveUp(ending)
  }

  /** Each reported restart followed a crash within the limit of its window, and carries its number there. */
  ghost predicate Restarts<E>(p: Policy, runs: seq<Run<E>>, hook: seq<int>) {
    && |hook| <= |runs|
    && forall i {:trigger hook[i]} {:trigger Granted(p, runs, i)} :: 0 <= i < |hook| ==>
         && Crash(p, runs[i].ending) && !runs[i].cancelled && Granted(p, runs, i)
         && hook[i] == i - Head(p, runs, i) + 1
  }

  ghost predicate Waited<E>(p: Policy, runs: seq<Run<E>>, hook: seq<int>)
    requires |hook| <= |runs|
  {
    forall i {:trigger hook[i]} :: 0 <= i < |hook| ==> !WaitCutShort(p, runs[i], hook[i])
  }

  ghost predicate StoppedAtRun<E>(p: Policy, runs: seq<Run<E>>, hook: seq<int>, exit: Exit<E>)
    requires |hook| <= |runs|
  {
    |hook| < |runs| && Waited(p, runs, hook) && EndsWith(p, runs, |hook|, exit)
  }

  ghost predicate StoppedInWait<E>(p: Policy, runs: seq<Run<E>>, hook: seq<int>, exit: Exit<E>)
    requires |hook| <= |runs|
  {
    var n := |hook| - 1;
    n >= 0 && exit == Cancelled && WaitCutShort(p, runs[n], hook[n]) && Waited(p, runs, hook[..n])
  }

  lemma OneMoreWait<E>(p: Policy, runs: seq<Run<E>>, hook: seq<int>, number: int)
    requires |hook| < |runs| && Waited(p, runs, hook) && !WaitCutShort(p, runs[|hook|], number)
    ensures Waited(p, runs, hook + [number])
  {
    forall i | 0 <= i < |hook| + 1
      ensures !WaitCutShort(p, runs[i], (hook + [number])[i])
    {
      assert i < |hook| ==> (hook + [number])[i] == hook[i];
    }
  }

  lemma OneMoreRestart<E>(p: Policy, runs: seq<Run<E>>, hook: seq<int>, number: int)
    requires Restarts(p, runs, hook) && |hook| < |runs|
    requires var i := |hook|;
             && Crash(p, runs[i].ending) && !runs[i].cancelled && Granted(p, runs, i)
             && number == i - Head(p, runs, i) + 1
    ensures Restarts(p, runs, hook + [number])
  {
    var longer := hook + [number];
    forall i | 0 <= i < |longer|
      ensures Crash(p, runs[i].ending) && !runs[i].cancelled && Granted(p, runs, i)
      ensures longer[i] == i - Head(p, runs, i) + 1
    {
      assert i < |hook| ==> longer[i] == hook[i];
    }
  }

  /**
   * `hook` is the restart number reported at each restart. Restarts happen exactly after crashes that are
   * within the limit of their window; the stage ends at the first run that is not one of these, or in the
   * first backoff wait that is cancelled.
   */
  method Supervise<E>(p: Policy, runs: seq<Run<E>>) returns (exit: Exit<E>, hook: seq<int>)
    ensures Restarts(p, runs, hook)
    ensures exit == StillRunning ==> |hook| == |runs| && Waited(p, runs, hook)
    ensures exit != StillRunning ==> StoppedAtRun(p, runs, hook, exit) || StoppedInWait(p, runs, hook, exit)
  {
    hook := [];
    if !p.HasSupervision() {
      if runs == [] {
        return StillRunning, hook;
      }
      match runs[0].ending
      case Returned => return Finished, hook;
      case Failed(_) => return GaveUp(runs[0].ending), hook;
      case Panicked(v) => return Rethrown(v), hook;
    }
    var restarts := 0;
    var windowStart: Option<int> := None;
    var i := 0;
    while i < |runs|
      invariant 0 <= i <= |runs| && |hook| == i
      invariant Restarts(p, runs, hook) && Waited(p, runs, hook)
      invariant i == 0 ==> windowStart.None? && restarts == 0
      invariant i > 0 ==> windowStart == Some(runs[Head(p, runs, i - 1)].restartedAt)
      invariant i > 0 ==> restarts == i - Head(p, runs, i - 1)
    {
      var run := runs[i];
      match run.ending {
        case Returned => return Finished, hook;
        case Panicked(v) =>
          match p.onPanic {
            case PanicPropagate => return Rethrown(v), hook;
            case PanicSkip => return Finished, hook;
            case PanicRestart =>
          }
        case Failed(_) =>
          if p.panicOnly {
            return GaveUp(run.ending), hook;
          }
      }
      if run.cancelled {
        return Cancelled, hook;
      }
      if p.window > 0 && windowStart.Some? && run.checkedAt - windowStart.value > p.window {
        restarts := 0;
        windowStart := None;
      }
      assert restarts == i - Head(p, runs, i);
      assert windowStart == if Head(p, runs, i) == i then None else Some(runs[Head(p, runs, i)].restartedAt);
      if restarts >= p.maxRestarts {
        return GaveUp(run.ending), hook;
      }
      restarts := restarts + 1;
      if windowStart.None? {
        windowStart := Some(run.restartedAt);
      }
      OneMoreRestart(p, runs, hook, restarts);
      ghost var before := hook;
      hook := hook + [restarts];
      i := i + 1;
      if p.backoff.Some? {
        var d := p.backoff.value(restarts - 1);
        if d > 0 && run.waitCancelled {
          assert hook[..i - 1] == before;
          return Cancelled, hook;
        }
      }
      OneMoreWait(p, runs, before, restarts);
    }
    return StillRunning, hook;
  }

  /** Without supervision the function runs once, and how that run ends is how the stage ends. */
  lemma PassThrough<E>(p: Policy, runs: seq<Run<E>>, hook: seq<int>, exit: Exit<E>)
    requires !p.HasSupervision() && Restarts(p, runs, hook)
    ensures hook == []
    ensures StoppedAtRun(p, runs, hook, exit) ==>
              match runs[0].ending
              case Returned => exit == Finished
              case Failed(_) => exit == GaveUp(runs[0].ending)
              case Panicked(v) => exit == Rethrown(v)
  {
    assert runs != [] ==> !Granted(p, runs, 0);
  }

  // ------------------------------------------------------------------ how often it restarts

  /** The first n restarts all happened. */
  ghost predicate AllGranted<E>(p: Policy, runs: seq<Run<E>>, n: nat)
    requires n <= |runs|
  {
    forall i {:trigger Granted(p, runs, i)} :: 0 <= i < n ==> Granted(p, runs, i)
  }

  ghost predicate Monotone<E>(runs: seq<Run<E>>) {
    && (forall i :: 0 <= i < |runs| ==> runs[i].checkedAt <= runs[i].restartedAt)
    && (forall i, j :: 0 <= i < j < |runs| ==> runs[i].restartedAt <= runs[j].checkedAt)
  }

  lemma {:induction false} NeverReset<E>(p: Policy, runs: seq<Run<E>>, i: nat)
    requires i < |runs| && p.window <= 0
    ensures Head(p, runs, i) == 0
  {
    if i > 0 {
      NeverReset(p, runs, i - 1);
    }
  }

  /**
   * Without a window: restart i is granted exactly when i < MaxRestarts, so the function runs at most MaxRestarts + 1
   * times.
   */
  lemma RestartsBoundedWithoutWindow<E>(p: Policy, runs: seq<Run<E>>, n: nat)
    requires n <= |runs| && p.window <= 0
    ensures AllGranted(p, runs, n) <==> n == 0 || n <= p.maxRestarts
  {
    forall i: nat | i < n
      ensures Granted(p, runs, i) <==> i < p.maxRestarts
    {
      NeverReset(p, runs, i);
    }
    if n > 0 && AllGranted(p, runs, n) {
      assert Granted(p, runs, n - 1);
    }
  }

  /** Restarts h..i share a window exactly when none of them opened a new one. */
  lemma {:induction false} HeadStays<E>(p: Policy, runs: seq<Run<E>>, h: nat, i: nat)
    requires h <= i < |runs|
    ensures Head(p, runs, i) <= h ==> Head(p, runs, i) == Head(p, runs, h)
    ensures Head(p, runs, h) <= Head(p, runs, i)
    ensures Head(p, runs, Head(p, runs, i)) == Head(p, runs, i)
  {
    if h < i {
      HeadStays(p, runs, h, i - 1);
    } else if i > 0 && Head(p, runs, i) < i {
      HeadStays(p, runs, Head(p, runs, i - 1), i - 1);
    }
  }

  lemma RestartsOrdered<E>(runs: seq<Run<E>>, i: nat, j: nat)
    requires i <= j < |runs| && Monotone(runs)
    ensures runs[i].restartedAt <= runs[j].restartedAt
  {
    assert runs[j].checkedAt <= runs[j].restartedAt;
  }

  /** A window starts more than `window` after the window before it. */
  lemma WindowOpens<E>(p: Policy, runs: seq<Run<E>>, j: nat)
    requires j < |runs| && p.window > 0 && Monotone(runs) && Head(p, runs, j) > 0
    ensures var h := Head(p, runs, j);
            Head(p, runs, h) == h && runs[h].restartedAt - runs[Head(p, runs, h - 1)].restartedAt > p.window
  {
    var h := Head(p, runs, j);
    HeadStays(p, runs, j, j);
    assert Head(p, runs, h) == h;
    assert runs[h].checkedAt <= runs[h].restartedAt;
  }

  /** Between different windows there is a window start. */
  lemma LaterWindow<E>(p: Policy, runs: seq<Run<E>>, i: nat, j: nat)
    requires i < j < |runs| && Head(p, runs, i) != Head(p, runs, j)
    ensures i < Head(p, runs, j) && Head(p, runs, i) <= Head(p, runs, Head(p, runs, j) - 1)
  {
    HeadStays(p, runs, i, j);
    HeadStays(p, runs, i, Head(p, runs, j) - 1);
  }

  /** Any two windows start more than `window` apart. */
  lemma WindowStartsApart<E>(p: Policy, runs: seq<Run<E>>, i: nat, j: nat)
    requires i < j < |runs| && p.window > 0 && Monotone(runs)
    requires Head(p, runs, i) != Head(p, runs, j)
    ensures runs[Head(p, runs, j)].restartedAt - runs[Head(p, runs, i)].restartedAt > p.window
  {
    LaterWindow(p, runs, i, j);
    WindowOpens(p, runs, j);
    RestartsOrdered(runs, Head(p, runs, i), Head(p, runs, Head(p, runs, j) - 1));
  }

  /** Of any 2*MaxRestarts successive restarts, the first and the last are more than `window` apart. */
  lemma BurstsSpanTheWindow<E>(p: Policy, runs: seq<Run<E>>, n: nat, i: nat)
    requires p.window > 0 && p.maxRestarts > 0 && Monotone(runs)
    requires n <= |runs| && AllGranted(p, runs, n) && i + 2 * p.maxRestarts - 1 < n
    ensures runs[i + 2 * p.maxRestarts - 1].restartedAt - runs[i].restartedAt > p.window
  {
    var last := i + 2 * p.maxRestarts - 1;
    assert Granted(p, runs, last);
    var h2 := Head(p, runs, last);
    assert Granted(p, runs, h2 - 1);
    var h1 := Head(p, runs, h2 - 1);
    WindowOpens(p, runs, last);
    RestartsOrdered(runs, i, h1);
    RestartsOrdered(runs, h2, last);
  }

  /** It gives up only when the last MaxRestarts restarts and this crash all fall within one `window`. */
  lemma GivesUpOnlyAfterABurst<E>(p: Policy, runs: seq<Run<E>>, i: nat)
    requires i < |runs| && p.window > 0 && p.maxRestarts > 0 && Monotone(runs)
    requires !Granted(p, runs, i)
    ensures i >= p.maxRestarts && runs[i].checkedAt - runs[i - p.maxRestarts].restartedAt <= p.window
  {
    RestartsOrdered(runs, Head(p, runs, i), i - p.maxRestarts);
  }

  function CountWithin(times: seq<int>, from: int, to: int): nat {
    if times == [] then 0
    else CountWithin(times[..|times| - 1], from, to) + (if from <= times[|times| - 1] <= to then 1 else 0)
  }

  ghost predicate Sorted(times: seq<int>) {
    forall i, j :: 0 <= i < j < |times| ==> times[i] <= times[j]
  }

  /** The c readings from place i on lie within [from, to], and those after them do not. */
  ghost predicate LastWithin(times: seq<int>, from: int, to: int, i: nat, c: nat) {
    && 0 < c && i + c <= |times|
    && from <= times[i] && times[i + c - 1] <= to
    && (forall j :: i + c <= j < |times| ==> times[j] > to)
  }

  /** In sorted times, the readings within [from, to] stand next to each other. */
  lemma {:induction false} CountedAreAdjacent(times: seq<int>, from: int, to: int) returns (i: nat)
    requires Sorted(times) && CountWithin(times, from, to) > 0
    ensures LastWithin(times, from, to, i, CountWithin(times, from, to))
  {
    var n, c := |times|, CountWithin(times, from, to);
    var init := times[..n - 1];
    var c' := CountWithin(init, from, to);
    i := n - 1;
    if c' > 0 {
      i := CountedAreAdjacent(init, from, to);
      assert times[i] == init[i] && times[i + c' - 1] == init[i + c' - 1];
      assert forall j :: i + c' <= j < n - 1 ==> times[j] == init[j];
      if c == c' + 1 {
        assert i + c' == n - 1;
      } else {
        assert times[i] <= times[n - 1];
      }
    }
  }

  ghost function RestartTimes<E>(runs: seq<Run<E>>, n: nat): (times: seq<int>)
    requires n <= |runs|
    ensures |times| == n && forall i :: 0 <= i < n ==> times[i] == runs[i].restartedAt
  {
    seq(n, i requires 0 <= i < n => runs[i].restartedAt)
  }

  /** Any interval of length `window` holds fewer than 2*MaxRestarts restarts. */
  lemma RestartRateBounded<E>(p: Policy, runs: seq<Run<E>>, n: nat, from: int)
    requires p.window > 0 && p.maxRestarts > 0 && Monotone(runs)
    requires n <= |runs| && AllGranted(p, runs, n)
    ensures CountWithin(RestartTimes(runs, n), from, from + p.window) <= 2 * p.maxRestarts - 1
  {
    var times := RestartTimes(runs, n);
    forall i, j | 0 <= i < j < n
      ensures times[i] <= times[j]
    {
      assert runs[i].restartedAt <= runs[j].checkedAt <= runs[j].restartedAt;
    }
    var c := CountWithin(times, from, from + p.window);
    if c >= 2 * p.maxRestarts {
      var i := CountedAreAdjacent(times, from, from + p.window);
      RestartsOrdered(runs, i + 2 * p.maxRestarts - 1, i + c - 1);
      BurstsSpanTheWindow(p, runs, n, i);
    }
  }

  // ------------------------------------------------------------------ the window is not a quiet period

  /** Crash after crash, `period` apart. */
  ghost predicate Steady<E>(runs: seq<Run<E>>, period: int) {
    forall i {:trigger runs[i]} :: 0 <= i < |runs| ==>
      runs[i].checkedAt == Times(i, period) && runs[i].restartedAt == Times(i, period)
  }

  lemma SteadyGap<E>(p: Policy, runs: seq<Run<E>>, period: int, q: int, h: nat, i: nat)
    requires h <= i < |runs| && period > 0 && p.window > 0 && Steady(runs, period) && q == p.window / period + 1
    ensures runs[i].checkedAt - runs[h].restartedAt > p.window <==> i - h >= q
  {
    TimesMinus(i, h, period);
    TimesAbove(i - h, period, p.window);
  }

  /** A window holds q crashes. */
  lemma {:induction false} SteadyHead<E>(p: Policy, runs: seq<Run<E>>, period: int, q: int, i: nat)
    requires i < |runs| && period > 0 && p.window > 0 && Steady(runs, period) && q == p.window / period + 1 >= 1
    ensures Head(p, runs, i) == i - Mod(i, q)
  {
    if i > 0 {
      SteadyHead(p, runs, period, q, i - 1);
      SteadyNext(p, runs, period, q, i - 1, i);
    } else {
      SmallMod(0, q);
    }
  }

  lemma SteadyNext<E>(p: Policy, runs: seq<Run<E>>, period: int, q: int, i: nat, next: nat)
    requires next == i + 1 < |runs| && period > 0 && p.window > 0 && Steady(runs, period)
    requires q == p.window / period + 1 >= 1 && Head(p, runs, i) == i - Mod(i, q)
    ensures Head(p, runs, next) == next - Mod(next, q)
  {
    SteadyGap(p, runs, period, q, Head(p, runs, i), next);
    NextMod(i, next, q);
    ModBelow(i, q);
  }

  /**
   * A stage that crashes every `period` is restarted for ever exactly when fewer than MaxRestarts periods
   * fit in the window, although it is never quiet: the window counts from its first restart, not from
   * the last crash.
   */
  lemma SteadyCrashesRestartForever<E>(p: Policy, runs: seq<Run<E>>, period: int)
    requires period > 0 && p.window > 0 && Steady(runs, period) && |runs| > p.maxRestarts > 0
    ensures AllGranted(p, runs, |runs|) <==> p.window / period < p.maxRestarts
  {
    var q, M := p.window / period + 1, p.maxRestarts;
    if q <= M {
      forall i: nat | i < |runs|
        ensures Granted(p, runs, i)
      {
        SteadyHead(p, runs, period, q, i);
        ModBelow(i, q);
      }
    } else {
      SteadyHead(p, runs, period, q, M);
      SmallMod(M, q);
      assert !Granted(p, runs, M);
    }
  }

  // ------------------------------------------------------------------ the documented policy

  /** The restart from which a policy that resets after `window` without a crash would count. */
  function QuietHead<E>(p: Policy, runs: seq<Run<E>>, i: nat): (h: nat)
    requires i < |runs|
    ensures h <= i
  {
    if i == 0 then 0
    else if p.window > 0 && runs[i].checkedAt - runs[i - 1].restartedAt > p.window then i
    else QuietHead(p, runs, i - 1)
  }

  /** Crash n, when all earlier ones were restarted, is restarted exactly if the documented policy would. */
  ghost predicate AsDocumented<E>(p: Policy, runs: seq<Run<E>>, n: nat)
    requires n < |runs|
  {
    Monotone(runs) && AllGranted(p, runs, n) ==>
      (Granted(p, runs, n) <==> n - QuietHead(p, runs, n) < p.maxRestarts)
  }

  /** With at most one restart per window, every restart opens a window of its own. */
  lemma OneRestartIsAsDocumented<E>(p: Policy, runs: seq<Run<E>>, n: nat)
    requires p.maxRestarts <= 1 && n < |runs|
    ensures AsDocumented(p, runs, n)
  {
    if p.maxRestarts == 1 && n > 0 && AllGranted(p, runs, n) {
      assert Granted(p, runs, n - 1);
    }
  }

  /** A crash at 0, the next M-1 exactly `window` later, and one more just after that. */
  function UnevenTime(p: Policy, i: int): int {
    if i == 0 then 0 else if i < p.maxRestarts then p.window else p.window + 1
  }

  function Uneven<E>(p: Policy, e: E): (runs: seq<Run<E>>)
    requires p.window > 0 && p.maxRestarts >= 2
    ensures |runs| == p.maxRestarts + 1
    ensures forall i :: 0 <= i < |runs| ==> runs[i] == Run(Failed(e), false, UnevenTime(p, i), UnevenTime(p, i), false)
  {
    seq(p.maxRestarts + 1, i => Run(Failed(e), false, UnevenTime(p, i), UnevenTime(p, i), false))
  }

  lemma {:induction false} UnevenHeads<E>(p: Policy, e: E, i: nat)
    requires p.window > 0 && p.maxRestarts >= 2 && i <= p.maxRestarts
    ensures QuietHead(p, Uneven(p, e), i) == 0
    ensures Head(p, Uneven(p, e), i) == if i < p.maxRestarts then 0 else i
  {
    if i > 0 {
      UnevenHeads(p, e, i - 1);
    }
  }

  /** The last of these crashes is restarted, although no `window` passed without a crash. */
  lemma UnevenIsNotAsDocumented<E>(p: Policy, e: E)
    requires p.window > 0 && p.maxRestarts >= 2
    ensures !AsDocumented(p, Uneven(p, e), p.maxRestarts)
  {
    var runs, M := Uneven(p, e), p.maxRestarts;
    forall i: nat | i < M
      ensures Granted(p, runs, i)
    {
      UnevenHeads(p, e, i);
    }
    UnevenHeads(p, e, M);
  }

  /**
   * The documentation resets the restart counter after `window` without a crash; the code resets it `window` after the
   * first restart it counted. For all runs the two restart alike exactly when MaxRestarts is at most 1.
   */
  lemma WindowIsQuietPeriodIff<E(!new)>(p: Policy, e: E)
    requires p.window > 0
    ensures (forall runs: seq<Run<E>>, n: nat :: n < |runs| ==> AsDocumented(p, runs, n)) <==> p.maxRestarts <= 1
  {
    if p.maxRestarts <= 1 {
      forall runs: seq<Run<E>>, n: nat | n < |runs|
        ensures AsDocumented(p, runs, n)
      {
        OneRestartIsAsDocumented(p, runs, n);
      }
    } else {
      UnevenIsNotAsDocumented(p, e);
      assert p.maxRestarts < |Uneven(p, e)|;
    }
  }
}
