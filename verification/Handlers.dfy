/** Error handlers, the retry loop around the user function, and the choice of the fast path. */
module Handlers {
  import opened Outcomes
  import opened Supervise

  datatype Handler<!O> =
    | Halt
    | Drop
    | Substitute(value: O)
    | Retry(max: int, backoff: bool, fallback: Handler<O>)
    | RetryIf(retryable: Error -> bool, backoff: bool, fallback: Handler<O>)

  datatype Action = DoHalt | DoSkip | DoReturn | DoRetry

  /** Delegation restarts the attempt count at 0. */
  function Handle<O>(h: Handler<O>, e: Error, attempt: nat): Action {
    match h
    case Halt => DoHalt
    case Drop => DoSkip
    case Substitute(_) => DoReturn
    case Retry(max, _, fallback) => if attempt < max then DoRetry else Handle(fallback, e, 0)
    case RetryIf(retryable, _, fallback) => if retryable(e) then DoRetry else Handle(fallback, e, 0)
  }

  /** The value a handler substitutes, looked up through its fallbacks. */
  function Replacement<O>(h: Handler<O>): Option<O> {
    match h
    case Substitute(v) => Some(v)
    case Retry(_, _, fallback) => Replacement(fallback)
    case RetryIf(_, _, fallback) => Replacement(fallback)
    case _ => None
  }

  /** Whether a retry has a backoff to wait for; without one the error is returned. Only the outermost counts. */
  predicate HasBackoff<O>(h: Handler<O>) {
    match h
    case Retry(_, backoff, _) => backoff
    case RetryIf(_, backoff, _) => backoff
    case _ => false
  }

  datatype Attempt<+O> = Good(value: O) | Bad(error: Error)

  /** The outcome once the attempts up to and including number `attempt` were made and it is not retried. */
  function Settle<O>(h: Handler<O>, a: Attempt<O>, attempt: nat): Outcome<O> {
    match a
    case Good(v) => Emit([v])
    case Bad(e) =>
      (match Handle(h, e, attempt)
       case DoSkip => Skip
       case DoReturn => if Replacement(h).Some? then Emit([Replacement(h).value]) else Fail(e)
       case _ => Fail(e))
  }

  predicate Retried<O>(h: Handler<O>, a: Attempt<O>, attempt: nat) {
    a.Bad? && Handle(h, a.error, attempt).DoRetry? && HasBackoff(h)
  }

  /**
   * A script of attempts. After attempt k that is retried, the wait before the next one ends with the context if
   * `cut(k)`.
   */
  datatype Script<!A> = Script(attempts: seq<A>, cut: nat -> bool)

  /** Attempts 0..n-1 were all retried, and no wait after them was cut short. */
  ghost predicate RetriedUpTo<O>(script: Script<Attempt<O>>, h: Handler<O>, n: nat)
    requires n <= |script.attempts|
  {
    forall k :: 0 <= k < n ==> Retried(h, script.attempts[k], k) && !script.cut(k)
  }

  /**
   * The retry loop. It settles on the first attempt that is not retried, or ends with the context's error in the
   * first wait that is cut short; `None`: the script ended before either.
   */
  method ProcessItem<O>(script: Script<Attempt<O>>, h: Handler<O>) returns (o: Option<Outcome<O>>, attempt: nat)
    ensures attempt <= |script.attempts| && RetriedUpTo(script, h, attempt)
    ensures o.None? <==> attempt == |script.attempts|
    ensures o.Some? ==>
              var a := script.attempts[attempt];
              if Retried(h, a, attempt) then script.cut(attempt) && o.value == Fail(Canceled)
              else o.value == Settle(h, a, attempt)
  {
    attempt := 0;
    while attempt < |script.attempts|
      invariant attempt <= |script.attempts| && RetriedUpTo(script, h, attempt)
    {
      match script.attempts[attempt] {
        case Good(v) => return Some(Emit([v])), attempt;
        case Bad(e) =>
          match Handle(h, e, attempt) {
            case DoSkip => return Some(Skip), attempt;
            case DoReturn =>
              match Replacement(h) {
                case Some(v) => return Some(Emit([v])), attempt;
                case None => return Some(Fail(e)), attempt;
              }
            case DoRetry =>
              if !HasBackoff(h) {
                return Some(Fail(e)), attempt;
              }
              if script.cut(attempt) {
                return Some(Fail(Canceled)), attempt;
              }
              attempt := attempt + 1;
            case DoHalt => return Some(Fail(e)), attempt;
          }
      }
    }
    return None, attempt;
  }

  /** One attempt of a FlatMap function: what it yields, and the error it may end with all the same. */
  datatype Yields<+O> = Yields(values: seq<O>, err: Option<Error>)

  /** The outcome for a FlatMap item: there is no value to substitute, so Return skips. */
  function SettleMany<O>(h: Handler<O>, y: Yields<O>, attempt: nat): Outcome<O> {
    if y.err.None? then Emit(y.values)
    else
      match Handle(h, y.err.value, attempt)
      case DoSkip => Skip
      case DoReturn => Skip
      case _ => Fail(y.err.value)
  }

  predicate RetriedMany<O>(h: Handler<O>, y: Yields<O>, attempt: nat) {
    y.err.Some? && Retried(h, Bad(y.err.value), attempt)
  }

  ghost predicate RetriedManyUpTo<O>(script: Script<Yields<O>>, h: Handler<O>, n: nat)
    requires n <= |script.attempts|
  {
    forall k :: 0 <= k < n ==> RetriedMany(h, script.attempts[k], k) && !script.cut(k)
  }

  /** What is sent for an outcome when `room` sends succeed before the cancelled context refuses one. */
  function Flushed<O>(o: Outcome<O>, room: nat): (seq<O>, Outcome<O>) {
    if o.Emit? && |o.values| > room then (o.values[..room], Fail(Canceled))
    else if o.Emit? then (o.values, o)
    else ([], o)
  }

  /**
   * The FlatMap loop. Values are buffered per attempt and sent only after an attempt without error, so nothing a
   * failed attempt yielded is ever sent.
   */
  method ProcessFlatMapItem<O>(script: Script<Yields<O>>, h: Handler<O>, room: nat)
      returns (sent: seq<O>, o: Option<Outcome<O>>, attempt: nat)
    ensures attempt <= |script.attempts| && RetriedManyUpTo(script, h, attempt)
    ensures o.None? <==> attempt == |script.attempts|
    ensures o.None? ==> sent == []
    ensures o.Some? ==>
              var a := script.attempts[attempt];
              if RetriedMany(h, a, attempt) then script.cut(attempt) && sent == [] && o.value == Fail(Canceled)
              else (sent, o.value) == Flushed(SettleMany(h, a, attempt), room)
  {
    sent, attempt := [], 0;
    while attempt < |script.attempts|
      invariant attempt <= |script.attempts| && sent == [] && RetriedManyUpTo(script, h, attempt)
    {
      var buf := script.attempts[attempt].values;
      match script.attempts[attempt].err {
        case None =>
          for i := 0 to |buf|
            invariant i <= room && sent == buf[..i]
          {
            if i == room {
              return sent, Some(Fail(Canceled)), attempt;
            }
            sent := sent + [buf[i]];
          }
          assert buf[..|buf|] == buf;
          return sent, Some(Emit(buf)), attempt;
        case Some(e) =>
          match Handle(h, e, attempt) {
            case DoSkip => return sent, Some(Skip), attempt;
            case DoReturn => return sent, Some(Skip), attempt;
            case DoRetry =>
              if !HasBackoff(h) {
                return sent, Some(Fail(e)), attempt;
              }
              if script.cut(attempt) {
                return sent, Some(Fail(Canceled)), attempt;
              }
              attempt := attempt + 1;
            case DoHalt => return sent, Some(Fail(e)), attempt;
          }
      }
    }
    return sent, None, attempt;
  }

  // ------------------------------------------------------------------ how often it retries

  /** Under handler h an item that always fails with e is tried again after every attempt below n. */
  ghost predicate TriedAgain<O>(h: Handler<O>, e: Error, n: nat) {
    forall k {:trigger Retried<O>(h, Bad(e), k)} :: 0 <= k < n ==> Retried(h, Bad(e), k)
  }

  /** The handler asks for a retry after every attempt below n. */
  ghost predicate AsksAgain<O>(h: Handler<O>, e: Error, n: nat) {
    forall k {:trigger Handle(h, e, k)} :: 0 <= k < n ==> Handle(h, e, k) == DoRetry
  }

  /**
   * A handler's requests to retry are followed exactly when it has a backoff of its own: without one the first
   * request already ends the item with its error, and a backoff of its fallback does not help.
   */
  lemma RetryNeedsBackoff<O>(h: Handler<O>, e: Error, n: nat)
    requires n >= 1 && AsksAgain(h, e, n)
    ensures TriedAgain(h, e, n) <==> HasBackoff(h)
    ensures !HasBackoff(h) ==> !Retried(h, Bad(e), 0) && Settle(h, Bad(e), 0) == Fail(e)
  {
    assert Handle(h, e, 0) == DoRetry;
    if HasBackoff(h) {
      forall k | 0 <= k < n
        ensures Retried(h, Bad(e), k)
      {
        assert Handle(h, e, k) == DoRetry;
      }
    } else {
      assert !Retried(h, Bad(e), 0);
    }
  }

  /** Ten retries granted and none made, although the fallback has a backoff. */
  lemma RetryWithoutBackoffHalts(e: Error)
    ensures var h: Handler<int> := Retry(10, false, Retry(10, true, Drop));
            && AsksAgain(h, e, 10) && !Retried(h, Bad(e), 0) && Settle(h, Bad(e), 0) == Fail(e)
  {
  }

  /** Attempts a bounded retry may use up before its fallback decides. */
  function Tries<O>(h: Handler<O>): nat {
    if h.Retry? && h.max > 0 then h.max else 0
  }

  /**
   * A bounded retry bounds an item that keeps failing with `e` exactly when its fallback does not itself ask
   * for a retry: the fallback is always consulted as if it were the first attempt.
   */
  lemma RetriesBoundedIff<O>(h: Handler<O>, e: Error)
    requires h.Retry? && h.backoff
    ensures (exists n: nat :: !Retried(h, Bad(e), n)) <==> Handle(h.fallback, e, 0) != DoRetry
    ensures Handle(h.fallback, e, 0) != DoRetry ==> !Retried(h, Bad(e), Tries(h))
  {
    if Handle(h.fallback, e, 0) != DoRetry {
      assert !Retried(h, Bad(e), Tries(h));
    } else {
      assert forall n: nat :: Retried(h, Bad(e), n);
    }
  }

  /** The nested retry that never gives up: three tries that fall back to two tries run forever. */
  lemma NestedRetryNeverGivesUp(n: nat)
    ensures var h: Handler<int> := Retry(3, true, Retry(2, true, Halt));
            Retried(h, Bad(UserError(0)), n)
  {
  }

  // ------------------------------------------------------------------ nested handlers

  /** The handler and the fallbacks it delegates to, outermost first. */
  function Levels<O>(h: Handler<O>): (hs: seq<Handler<O>>)
    ensures hs != [] && hs[0] == h
  {
    match h
    case Retry(_, _, fallback) => [h] + Levels(fallback)
    case RetryIf(_, _, fallback) => [h] + Levels(fallback)
    case _ => [h]
  }

  /** One level's own reason to retry: attempts left, which only the outermost counts, or a retryable error. */
  predicate Wants<O>(h: Handler<O>, e: Error, attempt: nat) {
    (h.Retry? && attempt < h.max) || (h.RetryIf? && h.retryable(e))
  }

  predicate SomeLevelWants<O>(hs: seq<Handler<O>>, e: Error) {
    exists j :: 0 <= j < |hs| && Wants(hs[j], e, 0)
  }

  lemma {:induction false} AsksFirst<O>(h: Handler<O>, e: Error)
    ensures Handle(h, e, 0) == DoRetry <==> SomeLevelWants(Levels(h), e)
  {
    if h.Retry? || h.RetryIf? {
      var inner := Levels(h.fallback);
      AsksFirst(h.fallback, e);
      WantsCons(h, inner, e);
    }
  }

  lemma WantsCons<O>(h: Handler<O>, hs: seq<Handler<O>>, e: Error)
    ensures SomeLevelWants([h] + hs, e) <==> Wants(h, e, 0) || SomeLevelWants(hs, e)
  {
    var all := [h] + hs;
    if j :| 0 <= j < |hs| && Wants(hs[j], e, 0) {
      assert Wants(all[j + 1], e, 0);
    }
    assert all[0] == h && all[1..] == hs;
  }

  /**
   * An error is retried exactly when some level wants to, the outermost at this attempt and the fallbacks as if it were
   * the first; RetryIf does so at every attempt, for exactly its errors.
   */
  lemma RetriesIffSomeLevelWants<O>(h: Handler<O>, e: Error, attempt: nat)
    ensures Handle(h, e, attempt) == DoRetry <==> Wants(h, e, attempt) || SomeLevelWants(Levels(h)[1..], e)
  {
    if h.Retry? || h.RetryIf? {
      AsksFirst(h.fallback, e);
      assert Levels(h)[1..] == Levels(h.fallback);
    }
  }

  /**
   * Once no level wants to retry, the innermost handler decides: its value comes out, the item is dropped, or the stage
   * halts.
   */
  lemma {:induction false} InnermostDecides<O>(h: Handler<O>, e: Error, attempt: nat)
    requires Handle(h, e, attempt) != DoRetry
    ensures Settle(h, Bad(e), attempt) ==
            match Levels(h)[|Levels(h)| - 1]
            case Substitute(v) => Emit([v])
            case Drop => Skip
            case _ => Fail(e)
  {
    if h.Retry? || h.RetryIf? {
      InnermostDecides(h.fallback, e, 0);
    }
  }

  /** RetryIf over Return: its errors are tried again for as long as they come, any other gives the value at once. */
  lemma RetryIfThenReturn<O>(retryable: Error -> bool, v: O, a: Attempt<O>, attempt: nat)
    ensures var h := RetryIf(retryable, true, Substitute(v));
            && (Retried(h, a, attempt) <==> a.Bad? && retryable(a.error))
            && (!Retried(h, a, attempt) ==> Settle(h, a, attempt) == Emit([if a.Good? then a.value else v]))
  {
    var fallback: Handler<O> := Substitute(v);
    assert Replacement(fallback) == Some(v);
    assert a.Bad? ==> Handle(fallback, a.error, 0) == DoReturn;
  }

  // ------------------------------------------------------------------ choosing the fast path

  datatype Overflow = Block | DropNewest | DropOldest

  datatype StageConfig<!O> = StageConfig(
    concurrency: int,
    supervision: Policy,
    handler: Option<Handler<O>>,
    overflow: Overflow,
    timeout: int,
    contextMapper: bool)

  predicate IsDefault<O>(h: Option<Handler<O>>) {
    h.None? || h.value.Halt?
  }

  predicate EligibleCfg<O>(cfg: StageConfig<O>) {
    && cfg.concurrency <= 1
    && !cfg.supervision.HasSupervision()
    && IsDefault(cfg.handler)
    && cfg.overflow.Block?
    && cfg.timeout == 0
    && !cfg.contextMapper
  }

  predicate Eligible<O>(cfg: StageConfig<O>, noopHook: bool) {
    EligibleCfg(cfg) && noopHook
  }

  /** The stage's own handler, else the pipeline's default, else halt. */
  function Resolve<O>(cfg: StageConfig<O>, pipelineDefault: Option<Handler<O>>): Handler<O> {
    if cfg.handler.Some? then cfg.handler.value
    else if pipelineDefault.Some? then pipelineDefault.value
    else Halt
  }

  /** ForEach fuses its upstream only under these conditions. */
  predicate Fuses<O>(cfg: StageConfig<O>, pipelineDefault: Option<Handler<O>>, noopHook: bool, hasEntry: bool,
                     consumers: int) {
    hasEntry && consumers == 1 && EligibleCfg(cfg) && noopHook && IsDefault(pipelineDefault)
  }

  /**
   * Where a fast path may be taken, the retry loop it leaves out does nothing but call the function once:
   * its result is the first attempt's, emitted or returned as the halting error.
   */
  lemma FastPathSkipsNothing<O>(cfg: StageConfig<O>, pipelineDefault: Option<Handler<O>>, noopHook: bool, a: Attempt<O>)
    requires || Eligible(cfg.(handler := Some(Resolve(cfg, pipelineDefault))), noopHook)
             || (exists hasEntry, consumers :: Fuses(cfg, pipelineDefault, noopHook, hasEntry, consumers))
    ensures var h := Resolve(cfg, pipelineDefault);
            && !Retried(h, a, 0)
            && Settle(h, a, 0) == (match a case Good(v) => Emit([v]) case Bad(e) => Fail(e))
  {
  }

  /** The check of the pipeline default is needed: without it fusion would drop a pipeline-wide Skip. */
  lemma FusionNeedsDefaultCheck<O>(e: Error)
    ensures var cfg: StageConfig<O> := StageConfig(1, Policy(0, 0, None, PanicPropagate, false), None, Block, 0, false);
            EligibleCfg(cfg) && Settle(Resolve(cfg, Some(Drop)), Bad(e), 0) == Skip
  {
  }
}
