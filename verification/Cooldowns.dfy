/**
 * How long an open circuit rests, exactly, whatever opened it: the threshold-th failure, a failed probe, the half-open
 * timeout, or failures reported late.
 */
module Cooldowns {
  import opened CircuitBreakers

  // ------------------------------------------------------------------ every interleaving

  /** What opens the circuit or moves the end of its cooldown sets the end to its own clock reading plus cooldown. */
  lemma OpensForCooldown(cfg: Config, ops: seq<Locked>, i: nat)
    requires i < |ops| && Opens(cfg, ops, i)
    ensures !ops[i].op.DoSuccess?
    ensures PhaseBefore(cfg, ops, i + 1) == Open(ops[i].op.now + cfg.cooldown, 0)
  {
    assert PhaseBefore(cfg, ops, i + 1) == Apply(cfg, PhaseBefore(cfg, ops, i), ops[i].op);
  }

  /** Between i and j no item was let through and no operation moved the end of the cooldown. */
  ghost predicate Undisturbed(cfg: Config, ops: seq<Locked>, i: nat, j: nat)
    requires j <= |ops|
  {
    forall k :: i < k < j ==> !Admitted(cfg, ops, k) && !Opens(cfg, ops, k)
  }

  lemma {:induction false} RestsUntil(cfg: Config, ops: seq<Locked>, i: nat, j: nat)
    requires i < j <= |ops| && Opens(cfg, ops, i) && Undisturbed(cfg, ops, i, j)
    ensures !ops[i].op.DoSuccess?
    ensures PhaseBefore(cfg, ops, j).Open? && PhaseBefore(cfg, ops, j).until == ops[i].op.now + cfg.cooldown
    decreases j
  {
    OpensForCooldown(cfg, ops, i);
    if i + 1 < j {
      RestsUntil(cfg, ops, i, j - 1);
      assert !Admitted(cfg, ops, j - 1) && !Opens(cfg, ops, j - 1);
      assert PhaseBefore(cfg, ops, j) == Apply(cfg, PhaseBefore(cfg, ops, j - 1), ops[j - 1].op);
    }
  }

  /**
   * The rest is the cooldown, no less and no more: after an operation that opened the circuit or moved its end the next
   * item to be let through is the first whose clock reading is that operation's plus the cooldown, or later.
   */
  lemma FirstAdmissionAfterOpening(cfg: Config, ops: seq<Locked>, i: nat, j: nat)
    requires i < j < |ops| && Opens(cfg, ops, i) && Undisturbed(cfg, ops, i, j) && ops[j].op.DoAllow?
    ensures !ops[i].op.DoSuccess?
    ensures Admitted(cfg, ops, j) <==> ops[j].op.now >= ops[i].op.now + cfg.cooldown
  {
    RestsUntil(cfg, ops, i, j);
  }

  /** Failures reported after operation i and before j, since the last success if one was reported between. */
  function FailureRun(ops: seq<Locked>, i: nat, j: nat): nat
    requires i < j <= |ops|
    decreases j
  {
    if i + 1 == j then 0
    else match ops[j - 1].op
         case DoAllow(_) => FailureRun(ops, i, j - 1)
         case DoSuccess => 0
         case DoFailure(_) => FailureRun(ops, i, j - 1) + 1
  }

  /** Since operation i nobody was let through, and fewer failures in a row than the threshold were reported. */
  ghost predicate Quiet(cfg: Config, ops: seq<Locked>, i: nat, j: nat)
    requires i < j <= |ops|
  {
    forall k :: i < k < j ==> !Admitted(cfg, ops, k) && FailureRun(ops, i, k + 1) < cfg.failureThreshold
  }

  lemma {:induction false} QuietPhase(cfg: Config, ops: seq<Locked>, i: nat, j: nat)
    requires i < j <= |ops| && Opens(cfg, ops, i) && Quiet(cfg, ops, i, j)
    ensures !ops[i].op.DoSuccess?
    ensures PhaseBefore(cfg, ops, j) == Open(ops[i].op.now + cfg.cooldown, FailureRun(ops, i, j))
    decreases j
  {
    OpensForCooldown(cfg, ops, i);
    if i + 1 < j {
      QuietPhase(cfg, ops, i, j - 1);
      assert !Admitted(cfg, ops, j - 1) && FailureRun(ops, i, j) < cfg.failureThreshold;
    }
  }

  /**
   * Failures reported while the circuit is open, by calls let through before, move the end of its cooldown exactly when
   * they are as many in a row as the threshold, and then to the last report's reading plus the cooldown.
   */
  lemma LateFailuresMoveTheEnd(cfg: Config, ops: seq<Locked>, i: nat, j: nat)
    requires i < j < |ops| && Opens(cfg, ops, i) && Quiet(cfg, ops, i, j) && ops[j].op.DoFailure?
    ensures !ops[i].op.DoSuccess?
    ensures PhaseBefore(cfg, ops, j + 1).Open?
    ensures PhaseBefore(cfg, ops, j + 1).until ==
            (if FailureRun(ops, i, j + 1) >= cfg.failureThreshold then ops[j].op.now else ops[i].op.now) + cfg.cooldown
  {
    QuietPhase(cfg, ops, i, j);
  }

  // ------------------------------------------------------------------ serial runs

  /** Item i leaves the circuit open and did not find it resting: its call failed, or it came after the deadline. */
  predicate OpenedBy(cfg: Config, calls: seq<Call>, i: nat)
    requires i < |calls|
  {
    PhaseAt(cfg, calls, i + 1).Open? && (Called(cfg, calls, i) || !PhaseAt(cfg, calls, i).Open?)
  }

  /** When item i opens the circuit: at the end of its call, or when it comes if it is not called. */
  function Since(cfg: Config, calls: seq<Call>, i: nat): int
    requires i < |calls|
  {
    if Called(cfg, calls, i) then calls[i].endedAt else calls[i].at
  }

  lemma {:induction false} StaysShut(cfg: Config, calls: seq<Call>, i: nat, j: nat)
    requires i < j <= |calls| && OpenedBy(cfg, calls, i)
    requires forall k :: i < k < j ==> !Called(cfg, calls, k)
    ensures PhaseAt(cfg, calls, j) == Open(Since(cfg, calls, i) + cfg.cooldown, 0)
    decreases j
  {
    if i + 1 < j {
      StaysShut(cfg, calls, i, j - 1);
      assert !Called(cfg, calls, j - 1);
    }
  }

  /**
   * One item after another: however the circuit was opened, the next call is made for the first item to come when the
   * cooldown since then has passed.
   */
  lemma NextCallAfterOpening(cfg: Config, calls: seq<Call>, i: nat, j: nat)
    requires i < j < |calls| && OpenedBy(cfg, calls, i)
    requires forall k :: i < k < j ==> !Called(cfg, calls, k)
    ensures Called(cfg, calls, j) <==> calls[j].at >= Since(cfg, calls, i) + cfg.cooldown
  {
    StaysShut(cfg, calls, i, j);
  }
}
