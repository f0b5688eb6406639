// The health state of one scope: counters with hysteresis, a recovery window, a
// cooldown and quarantine, driven by one evaluated cycle after another.
module HealthDecision {
  import opened Basics
  import opened ProbeCycle

  datatype HealthStatus =
    | UnknownHealth | HealthyStatus | Degraded | PartiallyBlocked | QuarantinedStatus | Blocked | Offline
    | DisabledStatus

  datatype HealthState = HealthState(
    status: HealthStatus,
    excludedFromCandidates: bool,
    consecutiveFailureCycles: nat,
    consecutiveRecoverySuccesses: nat,
    recoveryWindowStartedAt: Option<int>,
    consecutiveUncertainCycles: nat,
    cooldownUntil: Option<int>)

  const INITIAL := HealthState(UnknownHealth, true, 0, 0, None, 0, None)

  datatype Reason =
    | PolicyUnavailable | CriticalTrustFailure | StaleHeartbeat | FailedCycleObserved | FailureThresholdReached
    | ExclusionThresholdReached | SuccessConfirmed | RecoveryPending | RecoveryConfirmed | MixedCycle | UnknownCycle
    | UncertaintyThresholdReached

  datatype PolicyVersion = PolicyVersion(id: Id, code: string, config: Policy)

  datatype RecoveryGates =
    RecoveryGates(clockTrusted: bool, servingCheckPassed: bool, desiredVersion: int, appliedVersion: int)

  // What is evaluated, except for the previous state.
  datatype Evaluation = Evaluation(
    policy: Option<PolicyVersion>,
    cycle: Cycle,
    evaluatedAt: int,
    signals: seq<ProbeSignal>,
    lastHeartbeatAt: Option<int>,
    recoveryGates: RecoveryGates,
    criticalTrustFailure: Option<Id>)

  datatype Decision = Decision(
    decision: HealthStatus,
    reason: Reason,
    policyVersion: Option<(Id, string)>,
    signalIds: seq<Id>,
    cycle: Option<CycleResult>,
    state: HealthState,
    allowNewAssignments: bool,
    triggerReplacement: bool,
    triggerIncident: bool)

  function AtLeastDegraded(current: HealthStatus): HealthStatus {
    if current.HealthyStatus? || current.UnknownHealth? then Degraded else current
  }

  predicate PolicyUsable(e: Evaluation) {
    e.policy.Some? && e.policy.value.config.Valid()
  }

  function FinishDecision(
      e: Evaluation, state: HealthState, reason: Reason, cycle: Option<CycleResult>,
      policyVersion: Option<(Id, string)>): Decision
  {
    var cooldownActive := state.cooldownUntil.Some? && e.evaluatedAt < state.cooldownUntil.value;
    Decision(
      state.status, reason, policyVersion,
      if cycle.Some? then cycle.value.signalIds
      else if e.criticalTrustFailure.Some? then [e.criticalTrustFailure.value] else [],
      cycle, state,
      state.status.HealthyStatus? && !state.excludedFromCandidates,
      reason.CriticalTrustFailure? || (reason.ExclusionThresholdReached? && !cooldownActive),
      reason.ExclusionThresholdReached? || reason.CriticalTrustFailure?)
  }

  predicate HeartbeatFresh(policy: Policy, e: Evaluation) {
    e.lastHeartbeatAt.Some? && e.evaluatedAt - e.lastHeartbeatAt.value <= Milliseconds(policy.staleHeartbeatSeconds)
  }

  predicate GatesPass(policy: Policy, e: Evaluation) {
    && HeartbeatFresh(policy, e)
    && e.recoveryGates.clockTrusted
    && e.recoveryGates.servingCheckPassed
    && e.recoveryGates.desiredVersion == e.recoveryGates.appliedVersion
  }

  // ---------- one evaluation, as a function of the outcome of its cycle ----------

  datatype Outcome = Critical | NoPolicy | Judged(decision: CycleDecision)

  function OutcomeOf(e: Evaluation): Outcome {
    if e.criticalTrustFailure.Some? then Critical
    else if !PolicyUsable(e) then NoPolicy
    else Judged(Aggregated(e.policy.value.config, e.cycle, e.signals).decision)
  }

  function AfterFailure(policy: Policy, s: HealthState): (HealthState, Reason) {
    var n := s.(consecutiveFailureCycles := s.consecutiveFailureCycles + 1,
                consecutiveRecoverySuccesses := 0, recoveryWindowStartedAt := None, consecutiveUncertainCycles := 0);
    if policy.excludeFailureCycles <= n.consecutiveFailureCycles then
      (n.(status := AtLeastDegraded(n.status), excludedFromCandidates := true), ExclusionThresholdReached)
    else if policy.degradedFailureCycles <= n.consecutiveFailureCycles then
      (n.(status := AtLeastDegraded(n.status)), FailureThresholdReached)
    else (n, FailedCycleObserved)
  }

  function AfterSuccess(policy: Policy, e: Evaluation, s: HealthState): (HealthState, Reason) {
    var n := s.(consecutiveFailureCycles := 0, consecutiveUncertainCycles := 0);
    if n.status.HealthyStatus? then
      (n.(consecutiveRecoverySuccesses := 0, recoveryWindowStartedAt := None), SuccessConfirmed)
    else
      var started :=
        if n.recoveryWindowStartedAt.Some? then n.recoveryWindowStartedAt.value else e.cycle.cycleStartedAt;
      var m := n.(consecutiveRecoverySuccesses := n.consecutiveRecoverySuccesses + 1,
                  recoveryWindowStartedAt := Some(started));
      if && !m.status.QuarantinedStatus? && !m.status.DisabledStatus?
         && policy.recoverySuccessCycles <= m.consecutiveRecoverySuccesses
         && Milliseconds(policy.recoveryMinimumSeconds) <= e.evaluatedAt - started
         && GatesPass(policy, e)
      then
        (m.(status := HealthyStatus, excludedFromCandidates := false,
            consecutiveRecoverySuccesses := 0, recoveryWindowStartedAt := None,
            cooldownUntil := Some(e.evaluatedAt + Milliseconds(policy.cooldownSeconds))), RecoveryConfirmed)
      else (m, RecoveryPending)
  }

  function AfterUncertainty(policy: Policy, mixed: bool, s: HealthState): (HealthState, Reason) {
    var n := s.(consecutiveUncertainCycles := s.consecutiveUncertainCycles + 1,
                consecutiveRecoverySuccesses := 0, recoveryWindowStartedAt := None);
    if policy.mixedUnknownDegradedCycles <= n.consecutiveUncertainCycles then
      (n.(status := AtLeastDegraded(n.status)), UncertaintyThresholdReached)
    else (n, if mixed then MixedCycle else UnknownCycle)
  }

  function AfterHeartbeat(policy: Policy, e: Evaluation, s: HealthState, reason: Reason): (HealthState, Reason) {
    if !HeartbeatFresh(policy, e) && s.status.HealthyStatus? then (s.(status := Degraded), StaleHeartbeat)
    else (s, reason)
  }

  function Step(e: Evaluation, s: HealthState): (HealthState, Reason) {
    match OutcomeOf(e)
    case Critical =>
      (s.(status := QuarantinedStatus, excludedFromCandidates := true,
          consecutiveRecoverySuccesses := 0, recoveryWindowStartedAt := None), CriticalTrustFailure)
    case NoPolicy => (s.(status := AtLeastDegraded(s.status)), PolicyUnavailable)
    case Judged(decision) =>
      var policy := e.policy.value.config;
      var after :=
        match decision
        case Failed => AfterFailure(policy, s)
        case Success => AfterSuccess(policy, e, s)
        case _ => AfterUncertainty(policy, decision.Mixed?, s);
      AfterHeartbeat(policy, e, after.0, after.1)
  }

  function Decided(e: Evaluation, s: HealthState): Decision {
    var next := Step(e, s);
    match OutcomeOf(e)
    case Critical =>
      FinishDecision(e, next.0, next.1, None,
                     if PolicyUsable(e) then Some((e.policy.value.id, e.policy.value.code)) else None)
    case NoPolicy => FinishDecision(e, next.0, next.1, None, None)
    case Judged(_) =>
      FinishDecision(e, next.0, next.1, Some(Aggregated(e.policy.value.config, e.cycle, e.signals)),
                     Some((e.policy.value.id, e.policy.value.code)))
  }

  // The evaluation as it runs: a copy of the state, changed in place.
  method EvaluateHealthCycle(e: Evaluation, previousState: HealthState) returns (d: Decision)
    ensures d == Decided(e, previousState)
  {
    hide Aggregated, Policy.Valid;
    var state := previousState;
    if e.criticalTrustFailure.Some? {
      state := state.(status := QuarantinedStatus);
      state := state.(excludedFromCandidates := true);
      state := state.(consecutiveRecoverySuccesses := 0);
      state := state.(recoveryWindowStartedAt := None);
      return FinishDecision(e, state, CriticalTrustFailure, None,
                            if PolicyUsable(e) then Some((e.policy.value.id, e.policy.value.code)) else None);
    }
    if !PolicyUsable(e) {
      state := state.(status := AtLeastDegraded(state.status));
      return FinishDecision(e, state, PolicyUnavailable, None, None);
    }
    var policy := e.policy.value.config;
    var cycle := AggregateHealthProbeCycle(policy, e.cycle, e.signals);
    var reason;
    if cycle.decision == Failed {
      state := state.(consecutiveFailureCycles := state.consecutiveFailureCycles + 1);
      state := state.(consecutiveRecoverySuccesses := 0);
      state := state.(recoveryWindowStartedAt := None);
      state := state.(consecutiveUncertainCycles := 0);
      if policy.excludeFailureCycles <= state.consecutiveFailureCycles {
        state := state.(status := AtLeastDegraded(state.status));
        state := state.(excludedFromCandidates := true);
        reason := ExclusionThresholdReached;
      } else if policy.degradedFailureCycles <= state.consecutiveFailureCycles {
        state := state.(status := AtLeastDegraded(state.status));
        reason := FailureThresholdReached;
      } else {
        reason := FailedCycleObserved;
      }
    } else if cycle.decision == Success {
      state := state.(consecutiveFailureCycles := 0);
      state := state.(consecutiveUncertainCycles := 0);
      if state.status == HealthyStatus {
        state := state.(consecutiveRecoverySuccesses := 0);
        state := state.(recoveryWindowStartedAt := None);
        reason := SuccessConfirmed;
      } else {
        state := state.(consecutiveRecoverySuccesses := state.consecutiveRecoverySuccesses + 1);
        if state.recoveryWindowStartedAt.None? {
          state := state.(recoveryWindowStartedAt := Some(e.cycle.cycleStartedAt));
        }
        var recoveryWindowComplete :=
          Milliseconds(policy.recoveryMinimumSeconds) <= e.evaluatedAt - state.recoveryWindowStartedAt.value;
        if state.status != QuarantinedStatus && state.status != DisabledStatus
           && policy.recoverySuccessCycles <= state.consecutiveRecoverySuccesses
           && recoveryWindowComplete && GatesPass(policy, e) {
          state := state.(status := HealthyStatus);
          state := state.(excludedFromCandidates := false);
          state := state.(consecutiveRecoverySuccesses := 0);
          state := state.(recoveryWindowStartedAt := None);
          state := state.(cooldownUntil := Some(e.evaluatedAt + Milliseconds(policy.cooldownSeconds)));
          reason := RecoveryConfirmed;
        } else {
          reason := RecoveryPending;
        }
      }
    } else {
      state := state.(consecutiveUncertainCycles := state.consecutiveUncertainCycles + 1);
      state := state.(consecutiveRecoverySuccesses := 0);
      state := state.(recoveryWindowStartedAt := None);
      if policy.mixedUnknownDegradedCycles <= state.consecutiveUncertainCycles {
        state := state.(status := AtLeastDegraded(state.status));
        reason := UncertaintyThresholdReached;
      } else {
        reason := if cycle.decision == Mixed then MixedCycle else UnknownCycle;
      }
    }
    if !HeartbeatFresh(policy, e) && state.status == HealthyStatus {
      state := state.(status := Degraded);
      reason := StaleHeartbeat;
    }
    d := FinishDecision(e, state, reason, Some(cycle), Some((e.policy.value.id, e.policy.value.code)));
  }

  // ---------- runs ----------

  // The state after a run of evaluations of a scope that starts unknown.
  function StateAfter(run: seq<Evaluation>): HealthState {
    if run == [] then INITIAL else Step(run[|run| - 1], StateAfter(run[..|run| - 1])).0
  }

  // The failed cycles since the last success.
  function FailuresSinceSuccess(run: seq<Evaluation>): nat {
    if run == [] then 0
    else
      match OutcomeOf(run[|run| - 1])
      case Judged(Success) => 0
      case Judged(Failed) => FailuresSinceSuccess(run[..|run| - 1]) + 1
      case _ => FailuresSinceSuccess(run[..|run| - 1])
  }

  // The mixed and unknown cycles since the last that failed or succeeded.
  function UncertainSinceVerdict(run: seq<Evaluation>): nat {
    if run == [] then 0
    else
      match OutcomeOf(run[|run| - 1])
      case Judged(Success) => 0
      case Judged(Failed) => 0
      case Judged(_) => UncertainSinceVerdict(run[..|run| - 1]) + 1
      case _ => UncertainSinceVerdict(run[..|run| - 1])
  }

  predicate IsSuccessCycle(e: Evaluation) {
    OutcomeOf(e) == Judged(Success)
  }

  function SuccessesIn(run: seq<Evaluation>): nat {
    if run == [] then 0 else SuccessesIn(run[..|run| - 1]) + if IsSuccessCycle(run[|run| - 1]) then 1 else 0
  }

  // From its cycle at from on, the run saw n successes and nothing that sets a recovery back.
  ghost predicate RecoveringSince(run: seq<Evaluation>, from: nat, n: nat) {
    && from < |run|
    && IsSuccessCycle(run[from])
    && (forall i | from <= i < |run| :: IsSuccessCycle(run[i]) || OutcomeOf(run[i]).NoPolicy?)
    && SuccessesIn(run[from..]) == n
  }

  // A recovery is being counted exactly while its window is open, and the window opened
  // with the first of the successes counted.
  ghost predicate RecoveryFits(run: seq<Evaluation>, s: HealthState) {
    && (s.recoveryWindowStartedAt.Some? <==> 0 < s.consecutiveRecoverySuccesses)
    && (s.recoveryWindowStartedAt.Some? ==>
          exists from: nat ::
            && RecoveringSince(run, from, s.consecutiveRecoverySuccesses)
            && run[from].cycle.cycleStartedAt == s.recoveryWindowStartedAt.value)
  }

  // What every run establishes.
  ghost predicate StateFits(run: seq<Evaluation>, s: HealthState) {
    && s.consecutiveFailureCycles == FailuresSinceSuccess(run)
    && s.consecutiveUncertainCycles == UncertainSinceVerdict(run)
    && RecoveryFits(run, s)
    && (s.status.HealthyStatus? ==> !s.excludedFromCandidates)
  }

  lemma LastOfSuffix(run: seq<Evaluation>, from: nat)
    requires from < |run| - 1
    ensures SuccessesIn(run[from..])
         == SuccessesIn(run[..|run| - 1][from..]) + if IsSuccessCycle(run[|run| - 1]) then 1 else 0
  {
    var suffix := run[from..];
    assert suffix[..|suffix| - 1] == run[..|run| - 1][from..];
  }

  lemma RecoveryGoesOn(run: seq<Evaluation>, from: nat, n: nat)
    requires run != [] && RecoveringSince(run[..|run| - 1], from, n)
    requires IsSuccessCycle(run[|run| - 1]) || OutcomeOf(run[|run| - 1]).NoPolicy?
    ensures RecoveringSince(run, from, if IsSuccessCycle(run[|run| - 1]) then n + 1 else n)
  {
    hide SuccessesIn, OutcomeOf, IsSuccessCycle;
    LastOfSuffix(run, from);
    var before := run[..|run| - 1];
    assert run[from] == before[from];
    forall i | from <= i < |run| ensures IsSuccessCycle(run[i]) || OutcomeOf(run[i]).NoPolicy? {
      if i < |run| - 1 {
        assert run[i] == before[i];
      }
    }
  }

  lemma RecoveryBegins(run: seq<Evaluation>)
    requires run != [] && IsSuccessCycle(run[|run| - 1])
    ensures RecoveringSince(run, |run| - 1, 1)
  {
    var last := run[|run| - 1..];
    assert last == [run[|run| - 1]];
    assert last[..0] == [];
    assert SuccessesIn(last[..0]) == 0;
  }

  // The recovery that the last cycle of a run continues or begins.
  lemma RecoveryCounted(run: seq<Evaluation>, s: HealthState) returns (from: nat)
    requires run != [] && IsSuccessCycle(run[|run| - 1]) && RecoveryFits(run[..|run| - 1], s)
    ensures RecoveringSince(run, from, s.consecutiveRecoverySuccesses + 1)
    ensures run[from].cycle.cycleStartedAt
         == if s.recoveryWindowStartedAt.Some? then s.recoveryWindowStartedAt.value
            else run[|run| - 1].cycle.cycleStartedAt
  {
    hide SuccessesIn, OutcomeOf;
    if s.recoveryWindowStartedAt.Some? {
      from :| && RecoveringSince(run[..|run| - 1], from, s.consecutiveRecoverySuccesses)
              && run[..|run| - 1][from].cycle.cycleStartedAt == s.recoveryWindowStartedAt.value;
      RecoveryGoesOn(run, from, s.consecutiveRecoverySuccesses);
    } else {
      from := |run| - 1;
      RecoveryBegins(run);
    }
  }

  lemma RecoveryStillFits(run: seq<Evaluation>, s: HealthState)
    requires run != [] && RecoveryFits(run[..|run| - 1], s)
    ensures RecoveryFits(run, Step(run[|run| - 1], s).0)
  {
    hide Aggregated, Policy.Valid, SuccessesIn, GatesPass, HeartbeatFresh;
    var e := run[|run| - 1];
    if IsSuccessCycle(e) {
      var from := RecoveryCounted(run, s);
    } else if OutcomeOf(e).NoPolicy? && s.recoveryWindowStartedAt.Some? {
      var from: nat :| && RecoveringSince(run[..|run| - 1], from, s.consecutiveRecoverySuccesses)
                       && run[..|run| - 1][from].cycle.cycleStartedAt == s.recoveryWindowStartedAt.value;
      RecoveryGoesOn(run, from, s.consecutiveRecoverySuccesses);
    }
  }

  // The counters refine the history: they say of the run exactly what they are named for.
  lemma {:induction false} CountersRefineHistory(run: seq<Evaluation>)
    ensures StateFits(run, StateAfter(run))
  {
    hide Aggregated, Policy.Valid, RecoveryFits, GatesPass, HeartbeatFresh;
    if run == [] {
      assert RecoveryFits(run, INITIAL) by {
        NothingToRecover(run, INITIAL);
      }
    } else {
      CountersRefineHistory(run[..|run| - 1]);
      RecoveryStillFits(run, StateAfter(run[..|run| - 1]));
    }
  }

  lemma NothingToRecover(run: seq<Evaluation>, s: HealthState)
    requires s.recoveryWindowStartedAt.None? && s.consecutiveRecoverySuccesses == 0
    ensures RecoveryFits(run, s)
  {
  }

  // A scope becomes healthy only by a success that completes an unbroken recovery: enough
  // successes, the first begun long enough ago, and every gate passed.
  lemma HealthyOnlyAfterRecovery(run: seq<Evaluation>)
    requires run != []
    requires StateAfter(run).status.HealthyStatus? && !StateAfter(run[..|run| - 1]).status.HealthyStatus?
    ensures var e := run[|run| - 1];
            && OutcomeOf(e) == Judged(Success)
            && GatesPass(e.policy.value.config, e)
            && !StateAfter(run[..|run| - 1]).status.QuarantinedStatus?
            && !StateAfter(run[..|run| - 1]).status.DisabledStatus?
            && exists from: nat, n: nat ::
                 && RecoveringSince(run, from, n)
                 && e.policy.value.config.recoverySuccessCycles <= n
                 && Milliseconds(e.policy.value.config.recoveryMinimumSeconds)
                      <= e.evaluatedAt - run[from].cycle.cycleStartedAt
  {
    hide Aggregated, Policy.Valid, SuccessesIn, RecoveringSince;
    var before := StateAfter(run[..|run| - 1]);
    CountersRefineHistory(run[..|run| - 1]);
    var e := run[|run| - 1];
    assert IsSuccessCycle(e);
    var from := RecoveryCounted(run, before);
  }

  // Quarantine is final.
  lemma {:induction false} QuarantineIsAbsorbing(run: seq<Evaluation>, since: nat)
    requires since <= |run| && StateAfter(run[..since]).status.QuarantinedStatus?
    ensures StateAfter(run).status.QuarantinedStatus?
    decreases |run| - since
  {
    hide Aggregated, Policy.Valid;
    if since < |run| {
      assert run[..since + 1][..since] == run[..since];
      QuarantineIsAbsorbing(run, since + 1);
    } else {
      assert run[..since] == run;
    }
  }

  predicate UnderPolicy(run: seq<Evaluation>, policy: Policy) {
    forall e | e in run && PolicyUsable(e) :: e.policy.value.config == policy
  }

  lemma {:induction false} FewFailuresWhileServing(run: seq<Evaluation>, policy: Policy)
    requires UnderPolicy(run, policy) && policy.Valid()
    ensures StateAfter(run).status.HealthyStatus? || StateAfter(run).status.UnknownHealth? ==>
              StateAfter(run).consecutiveFailureCycles < policy.degradedFailureCycles
  {
    hide Aggregated, GatesPass, HeartbeatFresh;
    if run != [] {
      FewFailuresWhileServing(run[..|run| - 1], policy);
      assert run[|run| - 1] in run;
    }
  }

  // Under one policy, exclusion by failures never strikes a scope that was healthy or unknown just before.
  lemma ExclusionIsNeverSudden(run: seq<Evaluation>, e: Evaluation, policy: Policy)
    requires UnderPolicy(run + [e], policy) && policy.Valid()
    requires Step(e, StateAfter(run)).1.ExclusionThresholdReached?
    ensures !StateAfter(run).status.HealthyStatus? && !StateAfter(run).status.UnknownHealth?
  {
    hide Aggregated, GatesPass, HeartbeatFresh;
    assert forall x | x in run :: x in run + [e];
    assert e in run + [e];
    FewFailuresWhileServing(run, policy);
  }

  // The last time the scope recovered, and the cooldown that its recovery began.
  function LastRecoveryCooldown(run: seq<Evaluation>): Option<int> {
    if run == [] then None
    else
      var e := run[|run| - 1];
      if Step(e, StateAfter(run[..|run| - 1])).1.RecoveryConfirmed? && e.policy.Some?
      then Some(e.evaluatedAt + Milliseconds(e.policy.value.config.cooldownSeconds))
      else LastRecoveryCooldown(run[..|run| - 1])
  }

  // Nothing but a recovery begins a cooldown.
  lemma StepCoolsDown(e: Evaluation, s: HealthState)
    ensures Step(e, s).0.cooldownUntil
         == if Step(e, s).1.RecoveryConfirmed? && e.policy.Some?
            then Some(e.evaluatedAt + Milliseconds(e.policy.value.config.cooldownSeconds)) else s.cooldownUntil
  {
    hide Aggregated, Policy.Valid, HeartbeatFresh, AtLeastDegraded;
  }

  lemma {:induction false} CooldownIsOfLastRecovery(run: seq<Evaluation>)
    ensures StateAfter(run).cooldownUntil == LastRecoveryCooldown(run)
  {
    hide Step;
    if run != [] {
      CooldownIsOfLastRecovery(run[..|run| - 1]);
      StepCoolsDown(run[|run| - 1], StateAfter(run[..|run| - 1]));
    }
  }

  lemma DecidedActions(e: Evaluation, s: HealthState)
    requires s.status.HealthyStatus? ==> !s.excludedFromCandidates
    ensures var d := Decided(e, s);
            && d.state == Step(e, s).0 && d.reason == Step(e, s).1
            && (d.allowNewAssignments <==> d.state.status.HealthyStatus?)
            && (d.triggerReplacement <==>
                  || d.reason.CriticalTrustFailure?
                  || (d.reason.ExclusionThresholdReached?
                      && (s.cooldownUntil.Some? ==> s.cooldownUntil.value <= e.evaluatedAt)))
  {
    hide Aggregated, Policy.Valid, GatesPass, HeartbeatFresh;
  }

  // No exclusion replaces a scope before the cooldown of its most recent recovery has ended;
  // a critical trust failure always does.
  lemma ReplacementWaitsForCooldown(run: seq<Evaluation>, e: Evaluation)
    ensures var d := Decided(e, StateAfter(run));
            d.triggerReplacement <==>
              || d.reason.CriticalTrustFailure?
              || (d.reason.ExclusionThresholdReached?
                  && (LastRecoveryCooldown(run).Some? ==> LastRecoveryCooldown(run).value <= e.evaluatedAt))
    ensures var d := Decided(e, StateAfter(run));
            d.allowNewAssignments <==> StateAfter(run + [e]).status.HealthyStatus?
  {
    hide Step, RecoveryFits, LastRecoveryCooldown;
    CooldownIsOfLastRecovery(run);
    CountersRefineHistory(run);
    assert (run + [e])[..|run|] == run;
    DecidedActions(e, StateAfter(run));
  }
}
