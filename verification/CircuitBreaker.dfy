/**
 * CircuitBreaker: a breaker shared by the workers of one Map stage. Every method holds the mutex, so a
 * concurrent run is a sequence of the three operations; a serial run is a sequence of guarded calls.
 */
module CircuitBreakers {

  datatype Config = Config(failureThreshold: int, cooldown: int, halfOpenProbes: int, halfOpenTimeout: int)
  {
    predicate Valid() {
      failureThreshold >= 1 && cooldown >= 1 && halfOpenProbes >= 1 && halfOpenTimeout >= 0
    }
  }

  datatype Kind = FailureThreshold | CooldownDuration | HalfOpenProbes | HalfOpenTimeout

  datatype Setting = Setting(kind: Kind, amount: int)

  /** The last positive setting of a kind decides, wherever it stands; without one the default does. */
  function Effective(settings: seq<Setting>, kind: Kind, default: int): int {
    if settings == [] then default
    else
      var last := settings[|settings| - 1];
      if last.kind == kind && last.amount > 0 then last.amount
      else Effective(settings[..|settings| - 1], kind, default)
  }

  function Configured(settings: seq<Setting>): Config {
    Config(Effective(settings, FailureThreshold, 5), Effective(settings, CooldownDuration, 10_000_000_000),
           Effective(settings, HalfOpenProbes, 1), Effective(settings, HalfOpenTimeout, 0))
  }

  /** Settings that are not positive are ignored, so every configuration is usable. */
  method Configure(settings: seq<Setting>) returns (cfg: Config)
    ensures cfg == Configured(settings) && cfg.Valid()
  {
    cfg := Config(5, 10_000_000_000, 1, 0);
    for i := 0 to |settings|
      invariant cfg == Configured(settings[..i]) && cfg.Valid()
    {
      assert settings[..i + 1][..i] == settings[..i];
      var amount := settings[i].amount;
      match settings[i].kind {
        case FailureThreshold => if amount > 0 { cfg := cfg.(failureThreshold := amount); }
        case CooldownDuration => if amount > 0 { cfg := cfg.(cooldown := amount); }
        case HalfOpenProbes => if amount > 0 { cfg := cfg.(halfOpenProbes := amount); }
        case HalfOpenTimeout => if amount > 0 { cfg := cfg.(halfOpenTimeout := amount); }
      }
    }
    assert settings[..|settings|] == settings;
  }

  // ------------------------------------------------------------------ what the breaker means

  /**
   * `late` counts failures reported while open, by calls that were let through earlier.
   * A probing breaker has a deadline only when a half-open timeout is configured.
   */
  datatype Phase =
    | Closed(failures: nat)
    | Open(until: int, late: nat)
    | Probing(left: int, deadline: int)

  function Admit(cfg: Config, ph: Phase, now: int): (Phase, bool) {
    match ph
    case Closed(_) => (ph, true)
    case Open(until, _) =>
      if now < until then (ph, false)
      else (Probing(cfg.halfOpenProbes, if cfg.halfOpenTimeout > 0 then now + cfg.halfOpenTimeout else 0), true)
    case Probing(_, deadline) =>
      if cfg.halfOpenTimeout > 0 && now > deadline then (Open(now + cfg.cooldown, 0), false) else (ph, true)
  }

  function Succeed(ph: Phase): Phase {
    match ph
    case Closed(_) => Closed(0)
    case Open(until, _) => Open(until, 0)
    case Probing(left, deadline) => if left <= 1 then Closed(0) else Probing(left - 1, deadline)
  }

  function Fail(cfg: Config, ph: Phase, now: int): Phase {
    match ph
    case Closed(f) => if f + 1 >= cfg.failureThreshold then Open(now + cfg.cooldown, 0) else Closed(f + 1)
    case Open(until, late) =>
      if late + 1 >= cfg.failureThreshold then Open(now + cfg.cooldown, 0) else Open(until, late + 1)
    case Probing(_, _) => Open(now + cfg.cooldown, 0)
  }

  // ------------------------------------------------------------------ the class

  datatype CbState = CbClosed | CbOpen | CbHalfOpen

  class CircuitBreaker {
    const cfg: Config
    var state: CbState
    var failures: int
    var successesNeeded: int
    var openUntil: int
    var halfOpenDeadline: int

    predicate Valid()
      reads this
    {
      && cfg.Valid() && failures >= 0
      && (cfg.halfOpenTimeout == 0 ==> halfOpenDeadline == 0)
    }

    function Phase(): Phase
      requires Valid()
      reads this
    {
      match state
      case CbClosed => Closed(failures)
      case CbOpen => Open(openUntil, failures)
      case CbHalfOpen => Probing(successesNeeded, halfOpenDeadline)
    }

    constructor (cfg: Config)
      requires cfg.Valid()
      ensures this.cfg == cfg && Valid() && Phase() == Closed(0)
    {
      this.cfg := cfg;
      state, failures, successesNeeded, openUntil, halfOpenDeadline := CbClosed, 0, 0, 0, 0;
    }

    method Allow(now: int) returns (allowed: bool, open: bool)
      requires Valid()
      modifies this
      ensures Valid()
      ensures (Phase(), allowed) == Admit(cfg, old(Phase()), now)
      ensures open == !allowed
    {
      match state
      case CbClosed => return true, false;
      case CbOpen =>
        if now < openUntil {
          return false, true;
        }
        state := CbHalfOpen;
        successesNeeded := cfg.halfOpenProbes;
        if cfg.halfOpenTimeout > 0 {
          halfOpenDeadline := now + cfg.halfOpenTimeout;
        }
        return true, false;
      case CbHalfOpen =>
        if cfg.halfOpenTimeout > 0 && now > halfOpenDeadline {
          state := CbOpen;
          openUntil := now + cfg.cooldown;
          failures := 0;
          halfOpenDeadline := 0;
          return false, true;
        }
        return true, false;
    }

    method RecordSuccess()
      requires Valid()
      modifies this
      ensures Valid()
      ensures Phase() == Succeed(old(Phase()))
    {
      if state.CbHalfOpen? {
        successesNeeded := successesNeeded - 1;
        if successesNeeded <= 0 {
          state := CbClosed;
          failures := 0;
          halfOpenDeadline := 0;
        }
      } else {
        failures := 0;
      }
    }

    method RecordFailure(now: int)
      requires Valid()
      modifies this
      ensures Valid()
      ensures Phase() == Fail(cfg, old(Phase()), now)
    {
      failures := failures + 1;
      if state.CbHalfOpen? || failures >= cfg.failureThreshold {
        state := CbOpen;
        openUntil := now + cfg.cooldown;
        failures := 0;
      }
    }

    /** The wrapped function; when `called` is false it returned the circuit-open error without calling fn. */
    method Guarded(call: Call) returns (called: bool)
      requires Valid()
      modifies this
      ensures Valid()
      ensures Phase() == After(cfg, old(Phase()), call)
      ensures called == Admit(cfg, old(Phase()), call.at).1
    {
      var allowed, open := Allow(call.at);
      if open || !allowed {
        return false;
      }
      if !call.ok {
        RecordFailure(call.endedAt);
        return true;
      }
      RecordSuccess();
      return true;
    }
  }

  // ------------------------------------------------------------------ every interleaving: the cooldown

  /** One use of a method. The caller reads the clock before it takes the mutex: `now` is that reading. */
  datatype Op = DoAllow(now: int) | DoSuccess | DoFailure(now: int)

  function Apply(cfg: Config, ph: Phase, op: Op): Phase {
    match op
    case DoAllow(now) => Admit(cfg, ph, now).0
    case DoSuccess => Succeed(ph)
    case DoFailure(now) => Fail(cfg, ph, now)
  }

  /** An operation and the time at which it got the mutex. */
  datatype Locked = Locked(op: Op, at: int)

  /** The phase before operation i, in the order the mutex was taken. */
  function PhaseBefore(cfg: Config, ops: seq<Locked>, i: nat): Phase
    requires i <= |ops|
  {
    if i == 0 then Closed(0) else Apply(cfg, PhaseBefore(cfg, ops, i - 1), ops[i - 1].op)
  }

  /** The mutex is taken in time order, and at most `skew` after the clock was read. */
  ghost predicate WithinSkew(ops: seq<Locked>, skew: int) {
    && (forall i, j :: 0 <= i <= j < |ops| ==> ops[i].at <= ops[j].at)
    && (forall i :: 0 <= i < |ops| && !ops[i].op.DoSuccess? ==> ops[i].op.now <= ops[i].at <= ops[i].op.now + skew)
  }

  /** Operation i opens the circuit, or moves the end of its cooldown. */
  predicate Opens(cfg: Config, ops: seq<Locked>, i: nat)
    requires i < |ops|
  {
    var before, after := PhaseBefore(cfg, ops, i), PhaseBefore(cfg, ops, i + 1);
    after.Open? && (!before.Open? || before.until != after.until)
  }

  predicate Admitted(cfg: Config, ops: seq<Locked>, j: nat)
    requires j < |ops|
  {
    ops[j].op.DoAllow? && Admit(cfg, PhaseBefore(cfg, ops, j), ops[j].op.now).1
  }

  /** From the moment the circuit opens nothing is let through for at least `rest`. */
  ghost predicate RestsFor(cfg: Config, ops: seq<Locked>, rest: int) {
    forall i, j :: 0 <= i < j < |ops| && Opens(cfg, ops, i) && Admitted(cfg, ops, j) ==> ops[j].at >= ops[i].at + rest
  }

  /** Until somebody gets the mutex at `bound` or later, a circuit that is open until then stays so. */
  lemma {:induction false} StaysOpen(cfg: Config, ops: seq<Locked>, skew: int, i: nat, j: nat)
    requires WithinSkew(ops, skew) && i < j < |ops| && Opens(cfg, ops, i)
    requires ops[j].at < ops[i].at + cfg.cooldown - skew
    ensures PhaseBefore(cfg, ops, j).Open? && PhaseBefore(cfg, ops, j).until >= ops[i].at + cfg.cooldown - skew
    decreases j
  {
    if i + 1 < j {
      assert ops[j - 1].at <= ops[j].at;
      StaysOpen(cfg, ops, skew, i, j - 1);
      assert ops[i].at <= ops[j - 1].at;
    }
  }

  lemma CooldownUpToSkew(cfg: Config, ops: seq<Locked>, skew: int)
    requires WithinSkew(ops, skew)
    ensures RestsFor(cfg, ops, cfg.cooldown - skew) && RestsFor(cfg, ops, 0)
  {
    forall i, j | 0 <= i < j < |ops| && Opens(cfg, ops, i) && Admitted(cfg, ops, j)
      ensures ops[j].at >= ops[i].at + cfg.cooldown - skew && ops[j].at >= ops[i].at
    {
      if ops[j].at < ops[i].at + cfg.cooldown - skew {
        StaysOpen(cfg, ops, skew, i, j);
      }
    }
  }

  /** n admissions or reports in a row. */
  function Same(op: Op, at: int, n: nat): (ops: seq<Locked>)
    ensures |ops| == n && forall i :: 0 <= i < n ==> ops[i] == Locked(op, at)
  {
    seq(n, i => Locked(op, at))
  }

  /** The threshold-th failure report waits `skew` for the mutex, and the next item comes when its cooldown is over. */
  function Shortest(cfg: Config, skew: nat): (ops: seq<Locked>)
    requires cfg.Valid()
  {
    Same(DoAllow(0), 0, cfg.failureThreshold) + Same(DoFailure(0), skew, cfg.failureThreshold)
    + [Locked(DoAllow(cfg.cooldown), if cfg.cooldown < skew then skew else cfg.cooldown)]
  }

  lemma {:induction false} ShortestPhases(cfg: Config, skew: nat, i: nat)
    requires cfg.Valid() && i <= 2 * cfg.failureThreshold
    ensures PhaseBefore(cfg, Shortest(cfg, skew), i) ==
            if i <= cfg.failureThreshold then Closed(0)
            else if i < 2 * cfg.failureThreshold then Closed(i - cfg.failureThreshold)
            else Open(cfg.cooldown, 0)
  {
    if i > 0 {
      ShortestPhases(cfg, skew, i - 1);
      var op := Shortest(cfg, skew)[i - 1].op;
      assert op == if i - 1 < cfg.failureThreshold then DoAllow(0) else DoFailure(0);
    }
  }

  lemma ShortestRest(cfg: Config, skew: nat)
    requires cfg.Valid()
    ensures WithinSkew(Shortest(cfg, skew), skew)
    ensures forall rest :: RestsFor(cfg, Shortest(cfg, skew), rest) ==>
                             rest <= (if cfg.cooldown < skew then 0 else cfg.cooldown - skew)
  {
    var ops, i := Shortest(cfg, skew), 2 * cfg.failureThreshold - 1;
    ShortestPhases(cfg, skew, i);
    ShortestPhases(cfg, skew, i + 1);
    assert ops[i] == Locked(DoFailure(0), skew) && ops[i + 1].op == DoAllow(cfg.cooldown);
    assert Opens(cfg, ops, i) && Admitted(cfg, ops, i + 1);
  }

  /**
   * The cooldown for any number of workers and any interleaving. With clock readings up to `skew` old when
   * the mutex is taken, the time an open circuit is sure to rest is exactly the cooldown less the skew: no run
   * rests less, and one run rests no longer. So the full cooldown is kept by every run exactly when no
   * reading is old.
   */
  lemma CooldownLessSkew(cfg: Config, skew: nat, rest: int)
    requires cfg.Valid()
    ensures (forall ops :: WithinSkew(ops, skew) ==> RestsFor(cfg, ops, rest))
            <==> rest <= (if cfg.cooldown < skew then 0 else cfg.cooldown - skew)
    ensures (forall ops :: WithinSkew(ops, skew) ==> RestsFor(cfg, ops, cfg.cooldown)) <==> skew == 0
  {
    ShortestRest(cfg, skew);
    forall ops | WithinSkew(ops, skew)
      ensures RestsFor(cfg, ops, cfg.cooldown - skew) && RestsFor(cfg, ops, 0)
    {
      CooldownUpToSkew(cfg, ops, skew);
    }
  }

  /**
   * Two calls whose failures take the mutex in the other order than they read the clock: the second
   * report moves the end of the cooldown back, and an item is admitted before the end the first one set.
   */
  lemma LateReportShortensCooldown(cfg: Config, t: int)
    requires cfg.Valid() && cfg.failureThreshold == 1
    ensures var ops := [Locked(DoAllow(t), t), Locked(DoAllow(t), t), Locked(DoFailure(t + 1), t + 1),
                        Locked(DoFailure(t), t + 1), Locked(DoAllow(t + cfg.cooldown), t + cfg.cooldown)];
            && WithinSkew(ops, 1) && PhaseBefore(cfg, ops, 3) == Open(t + 1 + cfg.cooldown, 0)
            && Admitted(cfg, ops, 4) && ops[4].op.now < t + 1 + cfg.cooldown
  {
    var ops := [Locked(DoAllow(t), t), Locked(DoAllow(t), t), Locked(DoFailure(t + 1), t + 1),
                Locked(DoFailure(t), t + 1), Locked(DoAllow(t + cfg.cooldown), t + cfg.cooldown)];
    assert PhaseBefore(cfg, ops, 1) == Closed(0);
    assert PhaseBefore(cfg, ops, 2) == Closed(0);
    assert PhaseBefore(cfg, ops, 3) == Open(t + 1 + cfg.cooldown, 0);
    assert PhaseBefore(cfg, ops, 4) == Open(t + cfg.cooldown, 0);
  }

  // ------------------------------------------------------------------ every interleaving: half-open

  /**
   * The breaker with the calls that were let through and not reported yet: `probing` in the current half-open
   * episode, `older` before it. `probes` and `won` count the episode's items let through and their successes.
   */
  datatype Pool = Pool(phase: Phase, older: nat, probing: nat, probes: nat, won: nat)
  {
    function Busy(): nat { older + probing }
  }

  /** An item asks to be let through, or a call that was let through (`probe`: in this episode) reports how it ended. */
  datatype Act = Ask(now: int) | Report(probe: bool, ok: bool, now: int)

  const IDLE: Pool := Pool(Closed(0), 0, 0, 0, 0)

  function OpOf(act: Act): Op {
    match act
    case Ask(now) => DoAllow(now)
    case Report(_, ok, now) => if ok then DoSuccess else DoFailure(now)
  }

  /** With w workers: an item needs a free one, and only a busy one reports. */
  predicate Possible(w: nat, s: Pool, act: Act) {
    match act
    case Ask(_) => s.Busy() < w
    case Report(probe, _, _) => if probe then s.probing > 0 else s.older > 0
  }

  /** When the phase changes away from probing, what is still out belongs to no episode any more. */
  function Settled(phase: Phase, s: Pool): Pool {
    if phase.Probing? then s.(phase := phase) else Pool(phase, s.Busy(), 0, 0, 0)
  }

  function Advance(cfg: Config, s: Pool, act: Act): Pool
    requires act.Report? ==> (if act.probe then s.probing > 0 else s.older > 0)
  {
    var phase := Apply(cfg, s.phase, OpOf(act));
    match act
    case Ask(now) =>
      if !Admit(cfg, s.phase, now).1 then Settled(phase, s)
      else if !phase.Probing? then Pool(phase, s.Busy() + 1, 0, 0, 0)
      else if s.phase.Probing? then s.(phase := phase, probing := s.probing + 1, probes := s.probes + 1)
      else Pool(phase, s.Busy(), 1, 1, 0)
    case Report(probe, ok, _) =>
      if probe then Settled(phase, s.(probing := s.probing - 1, won := if ok then s.won + 1 else s.won))
      else Settled(phase, s.(older := s.older - 1))
  }

  predicate Works(cfg: Config, w: nat, s: Pool, acts: seq<Act>)
    decreases |acts|
  {
    acts == [] || (Possible(w, s, acts[0]) && Works(cfg, w, Advance(cfg, s, acts[0]), acts[1..]))
  }

  function Worked(cfg: Config, w: nat, s: Pool, acts: seq<Act>): Pool
    requires Works(cfg, w, s, acts)
    decreases |acts|
  {
    if acts == [] then s else Worked(cfg, w, Advance(cfg, s, acts[0]), acts[1..])
  }

  /** Every probe is still out or has used up one of the needed successes; a lone worker has no older call out. */
  ghost predicate ProbesInv(cfg: Config, w: nat, s: Pool) {
    && s.Busy() <= w
    && (s.phase.Probing? ==>
          && 1 <= s.phase.left <= cfg.halfOpenProbes
          && s.probes == s.probing + s.won
          && s.won <= cfg.halfOpenProbes - s.phase.left
          && (w <= 1 ==> s.older == 0 && s.won == cfg.halfOpenProbes - s.phase.left))
    && (!s.phase.Probing? ==> s.probing == 0 && s.probes == 0 && s.won == 0)
  }

  lemma ActKeepsInv(cfg: Config, w: nat, s: Pool, act: Act)
    requires cfg.Valid() && ProbesInv(cfg, w, s) && Possible(w, s, act)
    ensures ProbesInv(cfg, w, Advance(cfg, s, act))
  {
  }

  lemma {:induction false} ProbesBounded(cfg: Config, w: nat, s: Pool, acts: seq<Act>)
    requires cfg.Valid() && ProbesInv(cfg, w, s) && Works(cfg, w, s, acts)
    ensures ProbesInv(cfg, w, Worked(cfg, w, s, acts))
    decreases |acts|
  {
    if acts != [] {
      ActKeepsInv(cfg, w, s, acts[0]);
      ProbesBounded(cfg, w, Advance(cfg, s, acts[0]), acts[1..]);
    }
  }

  lemma {:induction false} WorksThen(cfg: Config, w: nat, s: Pool, a: seq<Act>, b: seq<Act>)
    requires Works(cfg, w, s, a) && Works(cfg, w, Worked(cfg, w, s, a), b)
    ensures Works(cfg, w, s, a + b) && Worked(cfg, w, s, a + b) == Worked(cfg, w, Worked(cfg, w, s, a), b)
    decreases |a|
  {
    if a == [] {
      assert a + b == b;
    } else {
      assert (a + b)[1..] == a[1..] + b;
      WorksThen(cfg, w, Advance(cfg, s, a[0]), a[1..], b);
    }
  }

  lemma One(cfg: Config, w: nat, s: Pool, act: Act)
    requires Possible(w, s, act)
    ensures Works(cfg, w, s, [act]) && Worked(cfg, w, s, [act]) == Advance(cfg, s, act)
  {
    var s' := Advance(cfg, s, act);
    assert [act][1..] == [] && Works(cfg, w, s', []) && Worked(cfg, w, s', []) == s';
  }

  /** One more act at the end of a run. */
  lemma OneMore(cfg: Config, w: nat, s: Pool, acts: seq<Act>, act: Act)
    requires Works(cfg, w, s, acts) && Possible(w, Worked(cfg, w, s, acts), act)
    ensures Works(cfg, w, s, acts + [act])
    ensures Worked(cfg, w, s, acts + [act]) == Advance(cfg, Worked(cfg, w, s, acts), act)
  {
    One(cfg, w, Worked(cfg, w, s, acts), act);
    WorksThen(cfg, w, s, acts, [act]);
  }

  /** Failing calls one after another, beside `older` calls that are out already, until the circuit is open. */
  lemma {:induction false} Trip(cfg: Config, w: nat, older: nat, f: nat) returns (acts: seq<Act>)
    requires cfg.Valid() && older < w && f < cfg.failureThreshold
    ensures Works(cfg, w, Pool(Closed(f), older, 0, 0, 0), acts)
    ensures Worked(cfg, w, Pool(Closed(f), older, 0, 0, 0), acts) == Pool(Open(cfg.cooldown, 0), older, 0, 0, 0)
    decreases cfg.failureThreshold - f
  {
    var s := Pool(Closed(f), older, 0, 0, 0);
    acts := [Ask(0)];
    One(cfg, w, s, Ask(0));
    OneMore(cfg, w, s, acts, Report(false, false, 0));
    acts := acts + [Report(false, false, 0)];
    if f + 1 < cfg.failureThreshold {
      var more := Trip(cfg, w, older, f + 1);
      WorksThen(cfg, w, s, acts, more);
      acts := acts + more;
    }
  }

  /** Probes that succeed one after another, each making room for the next, until one success is missing. */
  lemma {:induction false} ProbeInTurn(cfg: Config, w: nat, s: Pool) returns (acts: seq<Act>)
    requires s.phase.Probing? && s.phase.left >= 1 && s.probing == 1 && s.Busy() <= w
    requires cfg.halfOpenTimeout > 0 ==> cfg.cooldown <= s.phase.deadline
    ensures Works(cfg, w, s, acts)
    ensures var n := s.phase.left - 1;
            Worked(cfg, w, s, acts) == Pool(Probing(1, s.phase.deadline), s.older, 1, s.probes + n, s.won + n)
    decreases s.phase.left
  {
    if s.phase.left == 1 {
      return [];
    }
    acts := [Report(true, true, cfg.cooldown)];
    One(cfg, w, s, acts[0]);
    OneMore(cfg, w, s, acts, Ask(cfg.cooldown));
    acts := acts + [Ask(cfg.cooldown)];
    var more := ProbeInTurn(cfg, w, Worked(cfg, w, s, acts));
    WorksThen(cfg, w, s, acts, more);
    acts := acts + more;
  }

  /** Every free worker is let through at once: admission is not counted. */
  lemma {:induction false} ProbeTogether(cfg: Config, w: nat, s: Pool) returns (acts: seq<Act>)
    requires s.phase.Probing? && s.Busy() <= w
    requires cfg.halfOpenTimeout > 0 ==> cfg.cooldown <= s.phase.deadline
    ensures Works(cfg, w, s, acts)
    ensures Worked(cfg, w, s, acts).probes == s.probes + (w - s.Busy())
    decreases w - s.Busy()
  {
    if s.Busy() == w {
      return [];
    }
    var next := Advance(cfg, s, Ask(cfg.cooldown));
    var more := ProbeTogether(cfg, w, next);
    acts := [Ask(cfg.cooldown)] + more;
    assert acts[1..] == more;
  }

  /**
   * From a closed circuit with `older` calls out: trip it, enter half-open, and let probes succeed until one success
   * is missing.
   */
  lemma LastSuccessMissing(cfg: Config, w: nat, older: nat) returns (acts: seq<Act>)
    requires cfg.Valid() && older < w
    ensures Works(cfg, w, Pool(Closed(0), older, 0, 0, 0), acts)
    ensures Worked(cfg, w, Pool(Closed(0), older, 0, 0, 0), acts) ==
              Pool(Probing(1, Deadline(cfg, cfg.cooldown)), older, 1, cfg.halfOpenProbes, cfg.halfOpenProbes - 1)
  {
    var s := Pool(Closed(0), older, 0, 0, 0);
    acts := Trip(cfg, w, older, 0);
    OneMore(cfg, w, s, acts, Ask(cfg.cooldown));
    acts := acts + [Ask(cfg.cooldown)];
    var inTurn := ProbeInTurn(cfg, w, Worked(cfg, w, s, acts));
    WorksThen(cfg, w, s, acts, inTurn);
    acts := acts + inTurn;
  }

  /** With w >= 1 workers some run lets halfOpenProbes - 1 + w items through in one half-open episode. */
  lemma MostProbes(cfg: Config, w: nat) returns (acts: seq<Act>)
    requires cfg.Valid() && w >= 1
    ensures Works(cfg, w, IDLE, acts)
    ensures Worked(cfg, w, IDLE, acts).probes == cfg.halfOpenProbes - 1 + w
  {
    acts := LastSuccessMissing(cfg, w, 0);
    var together := ProbeTogether(cfg, w, Worked(cfg, w, IDLE, acts));
    WorksThen(cfg, w, IDLE, acts, together);
    acts := acts + together;
  }

  /** No run with w workers lets more than `limit` items through in one half-open episode. */
  ghost predicate ProbeLimit(cfg: Config, w: nat, limit: int) {
    forall acts :: Works(cfg, w, IDLE, acts) ==> Worked(cfg, w, IDLE, acts).probes <= limit
  }

  /**
   * With w workers a half-open episode lets through at most halfOpenProbes - 1 + w items, and that many in some
   * run. So the documented limit of halfOpenProbes holds exactly for one worker.
   */
  lemma HalfOpenLimit(cfg: Config, w: nat, limit: int)
    requires cfg.Valid() && w >= 1
    ensures ProbeLimit(cfg, w, limit) <==> limit >= cfg.halfOpenProbes - 1 + w
    ensures ProbeLimit(cfg, w, cfg.halfOpenProbes) <==> w == 1
  {
    forall acts | Works(cfg, w, IDLE, acts)
      ensures Worked(cfg, w, IDLE, acts).probes <= cfg.halfOpenProbes - 1 + w
    {
      ProbesBounded(cfg, w, IDLE, acts);
    }
    var most := MostProbes(cfg, w);
    assert Works(cfg, w, IDLE, most);
  }

  /** This report closes a half-open circuit. */
  predicate Closes(cfg: Config, s: Pool, act: Act) {
    s.phase.Probing? && act.Report? && Apply(cfg, s.phase, OpOf(act)).Closed?
  }

  predicate ClosesNext(cfg: Config, w: nat, s: Pool, act: Act) {
    Possible(w, s, act) && Closes(cfg, s, act)
  }

  /** Successes of the episode's own items, this report included. */
  function WonBy(s: Pool, act: Act): nat
    requires act.Report?
  {
    s.won + (if act.probe && act.ok then 1 else 0)
  }

  /**
   * In every run with w workers, a half-open circuit closes only by halfOpenProbes successes of items let through in
   * that episode.
   */
  ghost predicate ClosedByProbes(cfg: Config, w: nat) {
    forall acts, act ::
      Works(cfg, w, IDLE, acts) && ClosesNext(cfg, w, Worked(cfg, w, IDLE, acts), act) ==>
        WonBy(Worked(cfg, w, IDLE, acts), act) == cfg.halfOpenProbes
  }

  /** A call let through before the circuit opened supplies the last missing success. */
  lemma OldCallCloses(cfg: Config, w: nat) returns (acts: seq<Act>)
    requires cfg.Valid() && w >= 2
    ensures Works(cfg, w, IDLE, acts)
    ensures var s, act := Worked(cfg, w, IDLE, acts), Report(false, true, 0);
            Possible(w, s, act) && Closes(cfg, s, act) && WonBy(s, act) == cfg.halfOpenProbes - 1
  {
    var first := OneCallOut(cfg, w);
    var more := LastSuccessMissing(cfg, w, 1);
    WorksThen(cfg, w, IDLE, first, more);
    acts := first + more;
    OldSuccessCloses(cfg, w, Worked(cfg, w, IDLE, acts));
  }

  lemma OneCallOut(cfg: Config, w: nat) returns (acts: seq<Act>)
    requires w >= 1
    ensures Works(cfg, w, IDLE, acts) && Worked(cfg, w, IDLE, acts) == Pool(Closed(0), 1, 0, 0, 0)
  {
    acts := [Ask(0)];
    One(cfg, w, IDLE, Ask(0));
  }

  lemma OldSuccessCloses(cfg: Config, w: nat, s: Pool)
    requires cfg.Valid() && s.older >= 1 && s.phase.Probing? && s.phase.left == 1 && s.won == cfg.halfOpenProbes - 1
    ensures var act := Report(false, true, 0);
            Possible(w, s, act) && Closes(cfg, s, act) && WonBy(s, act) == cfg.halfOpenProbes - 1
  {
  }

  /** Successes are not told apart: every run closes the circuit by its probes' successes exactly for one worker. */
  lemma ClosedByProbesIffOneWorker(cfg: Config, w: nat)
    requires cfg.Valid() && w >= 1
    ensures ClosedByProbes(cfg, w) <==> w == 1
  {
    if w == 1 {
      forall acts, act | Works(cfg, w, IDLE, acts) && ClosesNext(cfg, w, Worked(cfg, w, IDLE, acts), act)
        ensures WonBy(Worked(cfg, w, IDLE, acts), act) == cfg.halfOpenProbes
      {
        ProbesBounded(cfg, w, IDLE, acts);
      }
    } else {
      var acts := OldCallCloses(cfg, w);
      assert ClosesNext(cfg, w, Worked(cfg, w, IDLE, acts), Report(false, true, 0));
    }
  }

  // ------------------------------------------------------------------ serial runs

  /** One use of the guarded function: when it is asked for, how fn would end, and when it would have ended. */
  datatype Call = Call(at: int, ok: bool, endedAt: int)

  function After(cfg: Config, ph: Phase, call: Call): Phase {
    var (ph', allowed) := Admit(cfg, ph, call.at);
    if !allowed then ph' else if call.ok then Succeed(ph') else Fail(cfg, ph', call.endedAt)
  }

  /** The phase before call i. */
  function PhaseAt(cfg: Config, calls: seq<Call>, i: nat): Phase
    requires i <= |calls|
  {
    if i == 0 then Closed(0) else After(cfg, PhaseAt(cfg, calls, i - 1), calls[i - 1])
  }

  /** fn is called for item i. */
  predicate Called(cfg: Config, calls: seq<Call>, i: nat)
    requires i < |calls|
  {
    Admit(cfg, PhaseAt(cfg, calls, i), calls[i].at).1
  }

  ghost predicate Monotone(calls: seq<Call>) {
    && (forall i :: 0 <= i < |calls| ==> calls[i].at <= calls[i].endedAt)
    && (forall i, j :: 0 <= i < j < |calls| ==> calls[i].endedAt <= calls[j].at)
  }

  /** fn was called on a closed circuit and failed. */
  predicate FailedClosed(cfg: Config, calls: seq<Call>, j: nat)
    requires j < |calls|
  {
    PhaseAt(cfg, calls, j).Closed? && !calls[j].ok
  }

  /** The n calls before i all were such failures. */
  ghost predicate FailuresBefore(cfg: Config, calls: seq<Call>, i: nat, n: nat)
    requires n <= i <= |calls|
  {
    forall j :: i - n <= j < i ==> FailedClosed(cfg, calls, j)
  }

  lemma OneMoreFailure(cfg: Config, calls: seq<Call>, i: nat, n: nat)
    requires n <= i < |calls|
    ensures FailuresBefore(cfg, calls, i + 1, n + 1) <==>
              FailuresBefore(cfg, calls, i, n) && FailedClosed(cfg, calls, i)
  {
    assert i + 1 - (n + 1) == i - n;
  }

  /** A closed circuit counts the failures directly before, and their count is under the threshold. */
  lemma {:induction false} ClosedCountsFailures(cfg: Config, calls: seq<Call>, i: nat)
    requires cfg.Valid() && i <= |calls| && PhaseAt(cfg, calls, i).Closed?
    ensures var f := PhaseAt(cfg, calls, i).failures;
            && f <= i && f < cfg.failureThreshold && FailuresBefore(cfg, calls, i, f)
            && (forall n: nat :: n <= i && FailuresBefore(cfg, calls, i, n) ==> n <= f)
  {
    var f := PhaseAt(cfg, calls, i).failures;
    if i > 0 {
      if PhaseAt(cfg, calls, i - 1).Closed? {
        ClosedCountsFailures(cfg, calls, i - 1);
      }
      forall n: nat | n <= i && FailuresBefore(cfg, calls, i, n)
        ensures n <= f
      {
        if n > 0 {
          OneMoreFailure(cfg, calls, i - 1, n - 1);
        }
      }
    }
  }

  /** A closed circuit opens exactly at the threshold-th failure in a row. */
  lemma OpensAtThreshold(cfg: Config, calls: seq<Call>, i: nat)
    requires cfg.Valid() && i < |calls| && PhaseAt(cfg, calls, i).Closed?
    ensures Called(cfg, calls, i)
    ensures PhaseAt(cfg, calls, i + 1).Open? <==>
              i + 1 >= cfg.failureThreshold && FailuresBefore(cfg, calls, i + 1, cfg.failureThreshold)
    ensures PhaseAt(cfg, calls, i + 1).Open? ==>
              PhaseAt(cfg, calls, i + 1) == Open(calls[i].endedAt + cfg.cooldown, 0)
  {
    ClosedCountsFailures(cfg, calls, i);
    var f := PhaseAt(cfg, calls, i).failures;
    var T := cfg.failureThreshold;
    if i + 1 >= T {
      OneMoreFailure(cfg, calls, i, T - 1);
    }
  }

  /** While it is open nothing is called: fn is called again only at a time the cooldown has passed. */
  lemma {:induction false} NoCallDuringCooldown(cfg: Config, calls: seq<Call>, i: nat, j: nat)
    requires i <= j < |calls| && Monotone(calls)
    requires PhaseAt(cfg, calls, i).Open? && calls[j].at < PhaseAt(cfg, calls, i).until
    ensures !Called(cfg, calls, j) && PhaseAt(cfg, calls, j + 1) == PhaseAt(cfg, calls, i)
    decreases j
  {
    if i < j {
      assert calls[j - 1].at <= calls[j - 1].endedAt <= calls[j].at;
      NoCallDuringCooldown(cfg, calls, i, j - 1);
    }
  }

  /**
   * Calls first..last are one half-open episode so far: the cooldown ended at `first`, and it was probing before each
   * later one.
   */
  ghost predicate Episode(cfg: Config, calls: seq<Call>, first: nat, last: nat)
    requires first <= last < |calls|
  {
    && PhaseAt(cfg, calls, first).Open? && Called(cfg, calls, first)
    && forall k {:trigger PhaseAt(cfg, calls, k)} :: first < k <= last ==> PhaseAt(cfg, calls, k).Probing?
  }

  function Deadline(cfg: Config, entered: int): int {
    if cfg.halfOpenTimeout > 0 then entered + cfg.halfOpenTimeout else 0
  }

  lemma {:induction false} ProbesLeft(cfg: Config, calls: seq<Call>, first: nat, last: nat)
    requires cfg.Valid() && first < last < |calls| && Episode(cfg, calls, first, last)
    ensures last - first < cfg.halfOpenProbes
    ensures PhaseAt(cfg, calls, last) == Probing(cfg.halfOpenProbes - (last - first), Deadline(cfg, calls[first].at))
    ensures forall k :: first <= k < last ==> Called(cfg, calls, k) && calls[k].ok
    decreases last
  {
    assert PhaseAt(cfg, calls, last).Probing?;
    if last - 1 > first {
      assert Episode(cfg, calls, first, last - 1);
      ProbesLeft(cfg, calls, first, last - 1);
    }
  }

  /**
   * A half-open episode makes at most halfOpenProbes calls, all but the last of them successful. It closes the circuit
   * exactly when the last of that many calls succeeds, and opens it again exactly when a call fails
   * or an item comes after the deadline.
   */
  lemma HalfOpenEpisode(cfg: Config, calls: seq<Call>, first: nat, last: nat)
    requires cfg.Valid() && first <= last < |calls| && Episode(cfg, calls, first, last)
    ensures last - first < cfg.halfOpenProbes
    ensures forall k :: first <= k < last ==> Called(cfg, calls, k) && calls[k].ok
    ensures !Called(cfg, calls, last) <==>
              last > first && cfg.halfOpenTimeout > 0 && calls[last].at > calls[first].at + cfg.halfOpenTimeout
    ensures PhaseAt(cfg, calls, last + 1).Closed? <==>
              Called(cfg, calls, last) && calls[last].ok && last - first + 1 == cfg.halfOpenProbes
    ensures PhaseAt(cfg, calls, last + 1).Open? <==> !Called(cfg, calls, last) || !calls[last].ok
  {
    if first < last {
      ProbesLeft(cfg, calls, first, last);
    }
  }

  /** Where a probing phase came from. */
  lemma {:induction false} ProbingHasEntry(cfg: Config, calls: seq<Call>, i: nat) returns (first: nat)
    requires i < |calls| && PhaseAt(cfg, calls, i).Probing?
    ensures first < i && Episode(cfg, calls, first, i)
  {
    if PhaseAt(cfg, calls, i - 1).Open? {
      first := i - 1;
    } else {
      first := ProbingHasEntry(cfg, calls, i - 1);
    }
  }

  /** A tripped circuit closes only by halfOpenProbes successful calls in a row. */
  lemma ClosesOnlyAfterProbes(cfg: Config, calls: seq<Call>, i: nat)
    requires cfg.Valid() && i < |calls|
    requires !PhaseAt(cfg, calls, i).Closed? && PhaseAt(cfg, calls, i + 1).Closed?
    ensures i + 1 >= cfg.halfOpenProbes && PhaseAt(cfg, calls, i + 1 - cfg.halfOpenProbes).Open?
    ensures forall k :: i + 1 - cfg.halfOpenProbes <= k <= i ==> Called(cfg, calls, k) && calls[k].ok
  {
    var first := i;
    if PhaseAt(cfg, calls, i).Probing? {
      first := ProbingHasEntry(cfg, calls, i);
    }
    HalfOpenEpisode(cfg, calls, first, i);
  }
}
