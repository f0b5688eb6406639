// The health of a scope as its history tells it: what the cycles of a run come to, without the counters
// and windows that the evaluation carries from one cycle to the next.
module HealthHistory {
  import opened Basics
  import opened ProbeCycle
  import opened HealthDecision

  // ---------- what one evaluation says ----------

  ghost predicate IsCritical(e: Evaluation) {
    e.criticalTrustFailure != None
  }

  // The policy that judges the cycle of an evaluation, if one does.
  ghost predicate JudgedUnder(e: Evaluation, policy: Policy) {
    !IsCritical(e) && policy.Valid() && exists version :: e.policy == Some(version) && version.config == policy
  }

  ghost predicate Judges(e: Evaluation, decision: CycleDecision) {
    exists policy :: JudgedUnder(e, policy) && Aggregated(policy, e.cycle, e.signals).decision == decision
  }

  ghost predicate Unjudged(e: Evaluation) {
    !IsCritical(e) && forall policy :: !JudgedUnder(e, policy)
  }

  ghost predicate Beats(policy: Policy, e: Evaluation) {
    exists at :: e.lastHeartbeatAt == Some(at) && e.evaluatedAt <= at + 1000 * policy.staleHeartbeatSeconds
  }

  ghost predicate Ready(policy: Policy, e: Evaluation) {
    && Beats(policy, e) && e.recoveryGates.clockTrusted && e.recoveryGates.servingCheckPassed
    && e.recoveryGates.appliedVersion == e.recoveryGates.desiredVersion
  }

  lemma JudgesExactly(e: Evaluation)
    ensures OutcomeOf(e).Critical? <==> IsCritical(e)
    ensures OutcomeOf(e).NoPolicy? <==> Unjudged(e)
    ensures forall d :: OutcomeOf(e) == Judged(d) <==> Judges(e, d)
    ensures OutcomeOf(e).Judged? ==> e.policy.Some? && JudgedUnder(e, e.policy.value.config)
    ensures forall policy :: JudgedUnder(e, policy) ==> OutcomeOf(e).Judged? && policy == e.policy.value.config
  {
    hide Aggregated, Policy.Valid;
    if e.policy.Some? && PolicyUsable(e) && !IsCritical(e) {
      assert JudgedUnder(e, e.policy.value.config);
    }
  }

  lemma BeatsExactly(policy: Policy, e: Evaluation)
    ensures HeartbeatFresh(policy, e) <==> Beats(policy, e)
    ensures GatesPass(policy, e) <==> Ready(policy, e)
  {
  }

  // ---------- what a history says ----------

  function Before(run: seq<Evaluation>): seq<Evaluation>
    requires run != []
  {
    run[..|run| - 1]
  }

  function Final(run: seq<Evaluation>): Evaluation
    requires run != []
  {
    run[|run| - 1]
  }

  ghost predicate Serving(run: seq<Evaluation>) {
    StateAfter(run).status.HealthyStatus?
  }

  ghost predicate Tainted(run: seq<Evaluation>) {
    exists i :: 0 <= i < |run| && run[i].criticalTrustFailure.Some?
  }

  // The last cycle harms: nothing judges it, or it is one failure or one doubt too many.
  ghost predicate Harms(run: seq<Evaluation>) {
    && run != []
    && (|| Unjudged(Final(run))
        || exists policy :: JudgedUnder(Final(run), policy) && HarmsUnder(run, policy))
  }

  ghost predicate HarmsUnder(run: seq<Evaluation>, policy: Policy)
    requires run != []
  {
    || (Judges(Final(run), Failed) && policy.degradedFailureCycles <= FailuresSinceSuccess(run))
    || ((Judges(Final(run), Mixed) || Judges(Final(run), Unknown))
        && policy.mixedUnknownDegradedCycles <= UncertainSinceVerdict(run))
  }

  // The last cycle excludes: trust was lost, or too many cycles failed since the last success.
  ghost predicate Excludes(run: seq<Evaluation>) {
    && run != []
    && (|| IsCritical(Final(run))
        || exists policy :: JudgedUnder(Final(run), policy) && Judges(Final(run), Failed)
                            && policy.excludeFailureCycles <= FailuresSinceSuccess(run))
  }

  // From its success at from on, the run saw only successes and missing policies while it was not serving.
  ghost predicate Undisturbed(run: seq<Evaluation>, from: int)
  {
    && 0 <= from < |run| && Judges(run[from], Success)
    && forall i | from <= i < |run| :: (Judges(run[i], Success) || Unjudged(run[i])) && !Serving(run[..i])
  }

  // The recovery in progress began there.
  ghost predicate OpensAt(run: seq<Evaluation>, from: int)
  {
    0 <= from < |run| && Undisturbed(run, from) && forall j | 0 <= j < from :: !Undisturbed(run, j)
  }

  ghost predicate IsDue(e: Evaluation, first: Evaluation, successes: nat) {
    exists policy :: JudgedUnder(e, policy) && IsDueUnder(policy, e, first, successes)
  }

  ghost predicate IsDueFrom(run: seq<Evaluation>, from: int) {
    0 <= from < |run| && IsDue(Final(run), run[from], SuccessesIn(run[from..]))
  }

  ghost predicate IsDueUnder(policy: Policy, e: Evaluation, first: Evaluation, successes: nat) {
    && policy.recoverySuccessCycles <= successes
    && first.cycle.cycleStartedAt + 1000 * policy.recoveryMinimumSeconds <= e.evaluatedAt
    && Ready(policy, e)
  }

  // The last cycle completes a recovery: enough successes since the scope last served, begun long enough
  // ago, with every gate passed.
  ghost predicate Recovers(run: seq<Evaluation>)
  {
    && run != [] && !Tainted(run) && Judges(Final(run), Success)
    && exists from :: OpensAt(run, from) && IsDueFrom(run, from)
  }

  ghost predicate Keeps(run: seq<Evaluation>)
    requires run != []
  {
    !Harms(run) && exists policy :: JudgedUnder(Final(run), policy) && Beats(policy, Final(run))
  }

  // Nothing has happened to the scope yet.
  ghost predicate Untouched(run: seq<Evaluation>) {
    forall k | 0 < k <= |run| :: !Harms(run[..k]) && !Serving(run[..k])
  }

  // Excluded at the start or by a cycle, and not recovered since.
  ghost predicate Excluded(run: seq<Evaluation>) {
    exists k :: ExcludedAt(run, k)
  }

  ghost predicate ExcludedAt(run: seq<Evaluation>, k: int) {
    0 <= k <= |run| && (k == 0 || Excludes(run[..k])) && forall j | k < j <= |run| :: !Recovers(run[..j])
  }

  // ---------- the history and the state ----------

  lemma TaintedStep(run: seq<Evaluation>)
    requires run != []
    ensures Tainted(run) <==> Tainted(Before(run)) || IsCritical(Final(run))
  {
    if Tainted(Before(run)) {
      var i :| 0 <= i < |Before(run)| && Before(run)[i].criticalTrustFailure.Some?;
      assert run[i] == Before(run)[i];
    }
    if Tainted(run) && !IsCritical(Final(run)) {
      var i :| 0 <= i < |run| && run[i].criticalTrustFailure.Some?;
      assert run[i] == Before(run)[i];
    }
  }

  lemma UndisturbedStep(run: seq<Evaluation>, from: int)
    requires run != []
    ensures Undisturbed(run, from) <==>
              && !Serving(Before(run))
              && (if from == |run| - 1 then Judges(Final(run), Success)
                  else Undisturbed(Before(run), from) && (Judges(Final(run), Success) || Unjudged(Final(run))))
  {
    hide Serving, Judges, Unjudged;
    if 0 <= from < |run| - 1 {
      forall i | from <= i < |run| - 1 ensures run[..i] == Before(run)[..i] && run[i] == Before(run)[i] {
      }
    }
  }

  // The recovery that the state carries is the one in progress.
  ghost predicate WindowFits(run: seq<Evaluation>, s: HealthState) {
    if Serving(run) || s.recoveryWindowStartedAt.None? then
      && s.recoveryWindowStartedAt.None? && s.consecutiveRecoverySuccesses == 0
      && (Serving(run) || forall j :: !Undisturbed(run, j))
    else
      exists from :: OpensAt(run, from) && CountsFrom(run, from, s)
  }

  ghost predicate CountsFrom(run: seq<Evaluation>, from: int, s: HealthState) {
    && 0 <= from < |run|
    && s.recoveryWindowStartedAt == Some(run[from].cycle.cycleStartedAt)
    && s.consecutiveRecoverySuccesses == SuccessesIn(run[from..])
  }

  lemma OpensOnce(run: seq<Evaluation>, a: int, b: int)
    requires OpensAt(run, a) && OpensAt(run, b)
    ensures a == b
  {
    hide Undisturbed;
  }

  lemma OpensStep(run: seq<Evaluation>, from: int)
    requires run != [] && !Serving(Before(run)) && OpensAt(Before(run), from)
    requires Judges(Final(run), Success) || Unjudged(Final(run))
    ensures OpensAt(run, from)
  {
    hide Serving, Judges, Unjudged, Undisturbed;
    forall j | 0 <= j <= from ensures Undisturbed(run, j) <==> Undisturbed(Before(run), j) {
      UndisturbedStep(run, j);
    }
  }

  lemma CountsOn(run: seq<Evaluation>, from: int, s: HealthState)
    requires run != [] && CountsFrom(Before(run), from, s)
    ensures run[from] == Before(run)[from]
    ensures SuccessesIn(run[from..])
         == s.consecutiveRecoverySuccesses + if Judges(Final(run), Success) then 1 else 0
  {
    hide SuccessesIn, Judges, OutcomeOf;
    LastOfSuffix(run, from);
    JudgesExactly(Final(run));
  }

  // Where the recovery that a success continues or begins was opened.
  lemma RecoveryInProgress(run: seq<Evaluation>, s: HealthState) returns (from: int)
    requires run != [] && WindowFits(Before(run), s) && !Serving(Before(run)) && Judges(Final(run), Success)
    ensures OpensAt(run, from)
    ensures SuccessesIn(run[from..]) == s.consecutiveRecoverySuccesses + 1
    ensures run[from].cycle.cycleStartedAt ==
            if s.recoveryWindowStartedAt.Some? then s.recoveryWindowStartedAt.value
            else Final(run).cycle.cycleStartedAt
  {
    hide Serving, Judges, Unjudged, Undisturbed, OpensAt, SuccessesIn, OutcomeOf;
    if s.recoveryWindowStartedAt.Some? {
      from :| OpensAt(Before(run), from) && CountsFrom(Before(run), from, s);
      OpensStep(run, from);
      CountsOn(run, from, s);
    } else {
      from := |run| - 1;
      OpensNow(run);
      JudgesExactly(Final(run));
      RecoveryBegins(run);
    }
  }

  lemma OpensNow(run: seq<Evaluation>)
    requires run != [] && !Serving(Before(run)) && Judges(Final(run), Success)
    requires forall j :: !Undisturbed(Before(run), j)
    ensures OpensAt(run, |run| - 1)
  {
    hide Serving, Judges, Unjudged, Undisturbed;
    forall j | 0 <= j < |run| ensures Undisturbed(run, j) <==> j == |run| - 1 {
      UndisturbedStep(run, j);
    }
  }

  lemma RecoversExactly(run: seq<Evaluation>, from: int)
    requires run != [] && OpensAt(run, from)
    ensures Recovers(run) <==> !Tainted(run) && Judges(Final(run), Success)
                               && IsDue(Final(run), run[from], SuccessesIn(run[from..]))
  {
    hide Tainted, Judges, IsDue, SuccessesIn, Undisturbed;
    if Recovers(run) {
      var at :| OpensAt(run, at) && IsDueFrom(run, at);
      OpensOnce(run, at, from);
    }
    assert IsDue(Final(run), run[from], SuccessesIn(run[from..])) ==> IsDueFrom(run, from);
  }

  // ---------- one step ----------

  // The condition in which a history leaves the scope.
  ghost predicate StatusFits(run: seq<Evaluation>, status: HealthStatus) {
    && (status.QuarantinedStatus? <==> Tainted(run))
    && (status.UnknownHealth? <==> !Tainted(run) && Untouched(run))
    && (status.Degraded? <==> !Tainted(run) && !Untouched(run) && !Serving(run))
    && (status.HealthyStatus? <==> Serving(run))
  }

  // A scope serves when it recovers, and goes on serving while every cycle is judged, in time, and harmless.
  ghost predicate ServingFits(run: seq<Evaluation>) {
    Serving(run) <==> run != [] && (Recovers(run) || (Serving(Before(run)) && Keeps(run)))
  }

  ghost predicate Late(run: seq<Evaluation>)
    requires run != []
  {
    && Serving(Before(run)) && !Harms(run)
    && exists policy :: JudgedUnder(Final(run), policy) && !Beats(policy, Final(run))
  }

  // The reason given for the last cycle.
  ghost predicate ReasonFits(run: seq<Evaluation>, reason: Reason)
    requires run != []
  {
    var e := Final(run);
    && (reason == CriticalTrustFailure <==> IsCritical(e))
    && (reason == PolicyUnavailable <==> Unjudged(e))
    && (reason == ExclusionThresholdReached <==> Excludes(run) && !IsCritical(e))
    && (reason == FailureThresholdReached <==> Judges(e, Failed) && Harms(run) && !Excludes(run))
    && (reason == UncertaintyThresholdReached <==> (Judges(e, Mixed) || Judges(e, Unknown)) && Harms(run))
    && (reason == RecoveryConfirmed <==> Recovers(run))
    && (reason == RecoveryPending <==> Judges(e, Success) && !Serving(Before(run)) && !Recovers(run))
    && (reason == SuccessConfirmed <==> Judges(e, Success) && Serving(Before(run)) && !Late(run))
    && (reason == FailedCycleObserved <==> Judges(e, Failed) && !Harms(run) && !Late(run))
    && (reason == MixedCycle <==> Judges(e, Mixed) && !Harms(run) && !Late(run))
    && (reason == UnknownCycle <==> Judges(e, Unknown) && !Harms(run) && !Late(run))
    && (reason == StaleHeartbeat <==> Late(run))
  }

  lemma UntouchedStep(run: seq<Evaluation>)
    requires run != []
    ensures Untouched(run) <==> Untouched(Before(run)) && !Harms(run) && !Serving(run)
  {
    hide Harms, Serving;
    assert run[..|run|] == run;
    assert forall k | 0 < k < |run| :: run[..k] == Before(run)[..k];
  }

  lemma ExcludedStep(run: seq<Evaluation>)
    requires run != []
    ensures Excluded(run) <==> Excludes(run) || (Excluded(Before(run)) && !Recovers(run))
  {
    hide Excludes, Recovers;
    assert run[..|run|] == run;
    assert forall k | 0 <= k < |run| :: run[..k] == Before(run)[..k];
    if Excludes(run) {
      assert ExcludedAt(run, |run|);
    }
    if Excluded(Before(run)) && !Recovers(run) {
      var k :| ExcludedAt(Before(run), k);
      assert ExcludedAt(run, k);
    }
    if Excluded(run) && !Excludes(run) {
      var k :| ExcludedAt(run, k);
      assert ExcludedAt(Before(run), k);
    }
  }

  // What the history says of the state.
  ghost predicate HistoryFits(run: seq<Evaluation>) {
    var s := StateAfter(run);
    && StatusFits(run, s.status)
    && ServingFits(run)
    && WindowFits(run, s)
    && (s.excludedFromCandidates <==> Excluded(run))
    && s.consecutiveFailureCycles == FailuresSinceSuccess(run)
    && s.consecutiveUncertainCycles == UncertainSinceVerdict(run)
  }

  // What the last step makes of the state before it.
  ghost predicate StepFits(run: seq<Evaluation>)
    requires run != []
  {
    && ServingFits(run)
    && ReasonFits(run, Step(Final(run), StateAfter(Before(run))).1)
    && WindowFits(run, StateAfter(run))
    && StatusFollows(run)
    && (StateAfter(run).excludedFromCandidates <==>
          Excludes(run) || (StateAfter(Before(run)).excludedFromCandidates && !Recovers(run)))
  }

  ghost predicate StatusFollows(run: seq<Evaluation>)
    requires run != []
  {
    var before, after := StateAfter(Before(run)).status, StateAfter(run).status;
    && (after.QuarantinedStatus? <==> before.QuarantinedStatus? || IsCritical(Final(run)))
    && (after.UnknownHealth? <==> before.UnknownHealth? && !IsCritical(Final(run)) && !Harms(run) && !Serving(run))
    && (after.Degraded? || after.QuarantinedStatus? || after.UnknownHealth? || after.HealthyStatus?)
  }

  // Only a success or a missing policy lets a recovery go on.
  lemma NothingOpens(run: seq<Evaluation>)
    requires run != [] && (Serving(Before(run)) || !(Judges(Final(run), Success) || Unjudged(Final(run))))
    ensures forall j :: !Undisturbed(run, j)
    ensures !Recovers(run)
  {
    hide Serving, Judges, Unjudged, Undisturbed;
    forall j ensures !Undisturbed(run, j) {
      UndisturbedStep(run, j);
    }
  }

  // Under the policy that judges it, what the last cycle does.
  lemma UnderItsPolicy(run: seq<Evaluation>, policy: Policy)
    requires run != [] && JudgedUnder(Final(run), policy)
    ensures Harms(run) <==> HarmsUnder(run, policy)
    ensures Excludes(run) <==>
              Judges(Final(run), Failed) && policy.excludeFailureCycles <= FailuresSinceSuccess(run)
    ensures Keeps(run) <==> !Harms(run) && HeartbeatFresh(policy, Final(run))
    ensures Late(run) <==> Serving(Before(run)) && !Harms(run) && !HeartbeatFresh(policy, Final(run))
    ensures forall first, n :: IsDue(Final(run), first, n) <==> IsDueUnder(policy, Final(run), first, n)
    ensures GatesPass(policy, Final(run)) <==> Ready(policy, Final(run))
    ensures !IsCritical(Final(run)) && !Unjudged(Final(run)) && policy.Valid()
  {
    hide Aggregated, Policy.Valid, HarmsUnder, Judges, IsDueUnder, HeartbeatFresh, GatesPass, Ready, Beats, Serving;
    BeatsExactly(policy, Final(run));
    forall other | JudgedUnder(Final(run), other) ensures other == policy {
    }
  }

  // The step of a history whose state fits.
  lemma NextState(run: seq<Evaluation>)
    requires run != []
    ensures StateAfter(run) == Step(Final(run), StateAfter(Before(run))).0
  {
  }

  lemma CriticalStep(run: seq<Evaluation>)
    requires run != [] && HistoryFits(Before(run)) && IsCritical(Final(run))
    ensures StepFits(run)
  {
    hide Aggregated, Policy.Valid, Judges, HarmsUnder, IsDueUnder, Undisturbed, StateAfter, Beats;
    JudgesExactly(Final(run));
    NextState(run);
    NothingOpens(run);
    TaintedStep(run);
    assert forall policy :: !JudgedUnder(Final(run), policy);
  }

  lemma UnjudgedStep(run: seq<Evaluation>)
    requires run != [] && HistoryFits(Before(run)) && Unjudged(Final(run))
    ensures StepFits(run)
  {
    hide Aggregated, Policy.Valid, Judges, HarmsUnder, IsDueUnder, Undisturbed, OpensAt, StateAfter, Beats, SuccessesIn;
    var s := StateAfter(Before(run));
    JudgesExactly(Final(run));
    NextState(run);
    RecoversOnSuccess(run);
    if s.status.HealthyStatus? {
      NothingOpens(run);
    } else if s.recoveryWindowStartedAt.Some? {
      var from :| OpensAt(Before(run), from) && CountsFrom(Before(run), from, s);
      OpensStep(run, from);
      CountsOn(run, from, s);
      assert CountsFrom(run, from, StateAfter(run));
    } else {
      forall j ensures !Undisturbed(run, j) {
        UndisturbedStep(run, j);
      }
    }
  }

  lemma RecoversOnSuccess(run: seq<Evaluation>)
    ensures Recovers(run) ==> run != [] && Judges(Final(run), Success)
  {
  }

  lemma FailedStep(run: seq<Evaluation>)
    requires run != [] && HistoryFits(Before(run)) && Judges(Final(run), Failed)
    ensures StepFits(run)
  {
    hide Aggregated, Judges, Undisturbed, Unjudged, IsDueUnder, StateAfter, Beats, HeartbeatFresh, Harms, Excludes,
         Late, Keeps, GatesPass, Ready;
    JudgesExactly(Final(run));
    NextState(run);
    NothingOpens(run);
    UnderItsPolicy(run, Final(run).policy.value.config);
  }

  lemma DoubtStep(run: seq<Evaluation>)
    requires run != [] && HistoryFits(Before(run)) && (Judges(Final(run), Mixed) || Judges(Final(run), Unknown))
    ensures StepFits(run)
  {
    hide Aggregated, Judges, Undisturbed, Unjudged, IsDueUnder, StateAfter, Beats, HeartbeatFresh, Harms, Excludes,
         Late, Keeps, GatesPass, Ready;
    JudgesExactly(Final(run));
    NextState(run);
    NothingOpens(run);
    UnderItsPolicy(run, Final(run).policy.value.config);
  }

  lemma ServingSuccessStep(run: seq<Evaluation>)
    requires run != [] && HistoryFits(Before(run)) && Judges(Final(run), Success) && Serving(Before(run))
    ensures StepFits(run)
  {
    hide Aggregated, Judges, Undisturbed, Unjudged, IsDueUnder, StateAfter, Beats, HeartbeatFresh, Harms, Excludes,
         Late, Keeps, GatesPass, Ready;
    JudgesExactly(Final(run));
    NextState(run);
    NothingOpens(run);
    UnderItsPolicy(run, Final(run).policy.value.config);
  }

  lemma RecoveringSuccessStep(run: seq<Evaluation>)
    requires run != [] && HistoryFits(Before(run)) && Judges(Final(run), Success) && !Serving(Before(run))
    ensures StepFits(run)
  {
    hide Aggregated, Judges, Undisturbed, Unjudged, StateAfter, Beats, HeartbeatFresh, Harms, Excludes, Late, Keeps,
         Ready, Tainted, Recovers, SuccessesIn, IsDue;
    JudgesExactly(Final(run));
    var s, policy := StateAfter(Before(run)), Final(run).policy.value.config;
    NextState(run);
    UnderItsPolicy(run, policy);
    TaintedStep(run);
    var from := RecoveryInProgress(run, s);
    RecoversExactly(run, from);
    assert GatesPass(policy, Final(run)) ==> HeartbeatFresh(policy, Final(run));
    assert !Recovers(run) ==> CountsFrom(run, from, StateAfter(run));
  }

  lemma AnyStep(run: seq<Evaluation>)
    requires run != [] && HistoryFits(Before(run))
    ensures StepFits(run)
  {
    hide HistoryFits, StepFits, Judges, Unjudged, IsCritical;
    var e := Final(run);
    JudgesExactly(e);
    match OutcomeOf(e) {
      case Critical => CriticalStep(run);
      case NoPolicy => UnjudgedStep(run);
      case Judged(Failed) => FailedStep(run);
      case Judged(Success) =>
        if Serving(Before(run)) {
          ServingSuccessStep(run);
        } else {
          RecoveringSuccessStep(run);
        }
      case Judged(_) => DoubtStep(run);
    }
  }

  // Over every run the state, the reason and the way they change are those of the history.
  lemma {:induction false} HistoryDecides(run: seq<Evaluation>)
    ensures HistoryFits(run)
    ensures run != [] ==> ReasonFits(run, Step(Final(run), StateAfter(Before(run))).1)
  {
    hide ReasonFits, Recovers, Excludes, Harms, Keeps, OpensAt, Undisturbed, Step, RecoveryFits;
    CountersRefineHistory(run);
    if run == [] {
      NoHistory();
    } else {
      HistoryDecides(Before(run));
      AnyStep(run);
      TaintedStep(run);
      UntouchedStep(run);
      ExcludedStep(run);
    }
  }

  lemma NoHistory()
    ensures StatusFits([], INITIAL.status) && ServingFits([]) && WindowFits([], INITIAL) && Excluded([])
  {
    assert ExcludedAt([], 0);
  }

  // A scope is quarantined exactly when its trust failed at some point of the run.
  lemma QuarantinedExactly(run: seq<Evaluation>)
    ensures StateAfter(run).status.QuarantinedStatus? <==>
              exists i :: 0 <= i < |run| && run[i].criticalTrustFailure.Some?
  {
    HistoryDecides(run);
  }

  // ---------- the cooldown ----------

  // The scope last recovered at that cycle of the run.
  ghost predicate LastRecoversAt(run: seq<Evaluation>, k: int) {
    0 < k <= |run| && Recovers(run[..k]) && forall j | k < j <= |run| :: !Recovers(run[..j])
  }

  ghost predicate CoolsFrom(e: Evaluation, until: int) {
    exists policy :: JudgedUnder(e, policy) && until == e.evaluatedAt + 1000 * policy.cooldownSeconds
  }

  ghost predicate CoolsUntil(run: seq<Evaluation>, until: Option<int>) {
    match until
    case None => forall k | 0 < k <= |run| :: !Recovers(run[..k])
    case Some(t) => exists k :: LastRecoversAt(run, k) && CoolsFrom(run[k - 1], t)
  }

  lemma CooldownStep(run: seq<Evaluation>, until: Option<int>)
    requires run != [] && CoolsUntil(Before(run), until) && !Recovers(run)
    ensures CoolsUntil(run, until)
  {
    hide Recovers, JudgedUnder;
    assert run[..|run|] == run;
    assert forall k | 0 < k < |run| :: run[..k] == Before(run)[..k];
    if until.Some? {
      var k :| LastRecoversAt(Before(run), k) && CoolsFrom(Before(run)[k - 1], until.value);
      assert LastRecoversAt(run, k) && run[k - 1] == Before(run)[k - 1];
    }
  }

  lemma CooldownBegins(run: seq<Evaluation>, until: int)
    requires run != [] && Recovers(run) && CoolsFrom(Final(run), until)
    ensures CoolsUntil(run, Some(until))
  {
    hide Recovers, JudgedUnder;
    assert run[..|run|] == run;
    assert LastRecoversAt(run, |run|);
  }

  // The step gives the reason that a recovery was confirmed exactly for recoveries.
  lemma ConfirmedExactly(run: seq<Evaluation>)
    requires run != []
    ensures Step(Final(run), StateAfter(Before(run))).1.RecoveryConfirmed? <==> Recovers(run)
  {
    hide HistoryFits, Recovers, Step, Excludes, Harms, Late, Judges, Unjudged, IsCritical, Serving;
    HistoryDecides(run);
  }

  lemma CooldownOfRecovery(run: seq<Evaluation>)
    requires run != [] && Recovers(run)
    ensures exists t :: StateAfter(run).cooldownUntil == Some(t) && CoolsFrom(Final(run), t)
  {
    hide Step, Aggregated, Policy.Valid, OpensAt, IsDueFrom, Judges, JudgedUnder;
    var e := Final(run);
    ConfirmedExactly(run);
    StepCoolsDown(e, StateAfter(Before(run)));
    JudgesExactly(e);
  }

  // The cooldown is that of the last recovery, and there is none before the first.
  lemma {:induction false} CooldownDecides(run: seq<Evaluation>)
    ensures CoolsUntil(run, StateAfter(run).cooldownUntil)
  {
    hide Recovers, Step, HistoryFits, CoolsFrom;
    if run != [] {
      CooldownDecides(Before(run));
      if Recovers(run) {
        CooldownOfRecovery(run);
        CooldownBegins(run, StateAfter(run).cooldownUntil.value);
      } else {
        ConfirmedExactly(run);
        StepCoolsDown(Final(run), StateAfter(Before(run)));
        CooldownStep(run, StateAfter(Before(run)).cooldownUntil);
      }
    }
  }

  // ---------- the whole decision ----------

  ghost predicate Cooled(run: seq<Evaluation>, now: int) {
    forall until :: CoolsUntil(run, Some(until)) ==> until <= now
  }

  lemma CoolsOnce(run: seq<Evaluation>, a: Option<int>, b: Option<int>)
    requires CoolsUntil(run, a) && CoolsUntil(run, b)
    ensures a == b
  {
    hide Recovers, JudgedUnder;
    if a.Some? && b.Some? {
      var i :| LastRecoversAt(run, i) && CoolsFrom(run[i - 1], a.value);
      var j :| LastRecoversAt(run, j) && CoolsFrom(run[j - 1], b.value);
      assert i == j;
      CoolsFromOnce(run[i - 1], a.value, b.value);
    }
  }

  lemma CoolsFromOnce(e: Evaluation, a: int, b: int)
    requires CoolsFrom(e, a) && CoolsFrom(e, b)
    ensures a == b
  {
    hide Policy.Valid;
  }

  // What is decided, apart from the state: the history, the policy and the cycle tell all of it.
  ghost predicate Decides(run: seq<Evaluation>, e: Evaluation, d: Decision) {
    && d.decision == d.state.status && ReasonFits(run + [e], d.reason)
    && (d.allowNewAssignments <==> Serving(run + [e]))
    && (d.triggerIncident <==> Excludes(run + [e]))
    && (d.triggerReplacement <==> IsCritical(e) || (Excludes(run + [e]) && Cooled(run, e.evaluatedAt)))
    && (forall policy | JudgedUnder(e, policy) :: d.cycle == Some(Aggregated(policy, e.cycle, e.signals)))
    && (d.cycle.Some? <==> !IsCritical(e) && !Unjudged(e))
    && d.signalIds == (if d.cycle.Some? then d.cycle.value.signalIds
                       else if IsCritical(e) then [e.criticalTrustFailure.value] else [])
    && (forall id, code :: d.policyVersion == Some((id, code)) <==>
          exists version :: e.policy == Some(version) && version.config.Valid()
                            && version.id == id && version.code == code)
  }

  lemma DecidedPolicy(e: Evaluation, s: HealthState)
    ensures forall id, code :: Decided(e, s).policyVersion == Some((id, code)) <==>
              exists version :: e.policy == Some(version) && version.config.Valid()
                                && version.id == id && version.code == code
  {
    hide Aggregated, Policy.Valid, Step;
  }

  lemma DecidedCycle(e: Evaluation, s: HealthState)
    ensures var d := Decided(e, s);
            && d.decision == d.state.status && d.state == Step(e, s).0 && d.reason == Step(e, s).1
            && (forall policy | JudgedUnder(e, policy) :: d.cycle == Some(Aggregated(policy, e.cycle, e.signals)))
            && (d.cycle.Some? <==> !IsCritical(e) && !Unjudged(e))
            && d.signalIds == (if d.cycle.Some? then d.cycle.value.signalIds
                               else if IsCritical(e) then [e.criticalTrustFailure.value] else [])
            && (d.triggerIncident <==> d.reason == ExclusionThresholdReached || d.reason == CriticalTrustFailure)
  {
    hide Aggregated, Step, Unjudged, JudgedUnder, Policy.Valid;
    JudgesExactly(e);
  }

  lemma HistoryTells(run: seq<Evaluation>, e: Evaluation)
    ensures Decided(e, StateAfter(run)).state == StateAfter(run + [e])
    ensures Decides(run, e, Decided(e, StateAfter(run)))
  {
    hide Aggregated, Step, Recovers, Harms, Unjudged, JudgedUnder, CoolsUntil, Policy.Valid, StateFits, Judges,
         StatusFits, WindowFits, ServingFits, Late, Decided;
    var s, d := StateAfter(run), Decided(e, StateAfter(run));
    assert Before(run + [e]) == run && Final(run + [e]) == e;
    HistoryDecides(run + [e]);
    DecidedCycle(e, s);
    DecidedPolicy(e, s);
    CooldownDecides(run);
    CountersRefineHistory(run);
    ServingIsNotExcluded(run);
    DecidedActions(e, s);
    assert Cooled(run, e.evaluatedAt) <==> s.cooldownUntil.None? || s.cooldownUntil.value <= e.evaluatedAt by {
      forall until | CoolsUntil(run, Some(until)) ensures s.cooldownUntil == Some(until) {
        CoolsOnce(run, s.cooldownUntil, Some(until));
      }
    }
  }

  lemma ServingIsNotExcluded(run: seq<Evaluation>)
    ensures StateAfter(run).status.HealthyStatus? ==> !StateAfter(run).excludedFromCandidates
  {
    hide Step, RecoveryFits;
    CountersRefineHistory(run);
  }

  // The conditions that no cycle brings about are kept, unless trust fails or a recovery ends them.
  lemma OtherConditionsAreKept(e: Evaluation, s: HealthState)
    requires s.status in {PartiallyBlocked, Blocked, Offline, DisabledStatus}
    ensures Step(e, s).0.status == s.status || Step(e, s).1 in {CriticalTrustFailure, RecoveryConfirmed}
    ensures Step(e, s).1 == RecoveryConfirmed ==> Step(e, s).0.status == HealthyStatus && s.status != DisabledStatus
    ensures Step(e, s).1 == CriticalTrustFailure ==> Step(e, s).0.status == QuarantinedStatus
  {
    hide Aggregated, Policy.Valid, HeartbeatFresh;
  }
}
