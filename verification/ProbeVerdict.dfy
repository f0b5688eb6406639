// What the aggregation of a cycle comes to, without the loops: who votes, what each signal is told, and
// exactly when the votes fail or pass the cycle.
module ProbeVerdict {
  import opened Basics
  import opened Queries
  import opened ProbeCycle

  // ---------- who votes ----------

  // A signal of this cycle and route, fresh, authenticated, from a healthy control and not used before.
  ghost predicate Admits(policy: Policy, cycle: Cycle, s: ProbeSignal) {
    && s.id !in cycle.consumedSignalIds && s.authenticated && s.controlHealthy
    && s.routeVersion == cycle.routeVersion && s.cycleStartedAt == cycle.cycleStartedAt
    && cycle.cycleStartedAt <= s.receivedAt <= cycle.cycleStartedAt + 1000 * policy.resultFreshnessSeconds
  }

  lemma AdmissibleExactly(policy: Policy, cycle: Cycle, s: ProbeSignal)
    ensures Admissible(policy, s, cycle) <==> Admits(policy, cycle, s)
  {
  }

  // No vote received before it has its source or its independence key.
  ghost predicate ComesFirst(votes: seq<ProbeSignal>, s: ProbeSignal) {
    forall v | v in votes && Precedes(v, s) :: v.sourceId != s.sourceId && v.independenceKey != s.independenceKey
  }

  // What was heard before the last signal precedes it and has other identifiers.
  lemma EarlierPrecede(heard: seq<ProbeSignal>)
    requires heard != [] && StrictlyOrdered(heard) && DistinctIds(heard)
    ensures var last := |heard| - 1;
            forall v | v in heard[..last] :: v in heard && Precedes(v, heard[last]) && v.id != heard[last].id
  {
  }

  lemma {:induction false} HeardVotesExactly(policy: Policy, cycle: Cycle, heard: seq<ProbeSignal>, s: ProbeSignal)
    requires StrictlyOrdered(heard) && DistinctIds(heard) && s in heard
    ensures s in HearAll(policy, cycle, heard).votes
            <==> Admits(policy, cycle, s) && ComesFirst(HearAll(policy, cycle, heard).votes, s)
    decreases |heard|
  {
    hide HearAll, Admits, Admissible, Independent, EvaluationsFit;
    var last := |heard| - 1;
    var before, all := HearAll(policy, cycle, heard[..last]).votes, HearAll(policy, cycle, heard).votes;
    AdmissibleExactly(policy, cycle, s);
    LastVoteExactly(policy, cycle, heard);
    VotesAreEarlier(policy, cycle, heard);
    if s == heard[last] {
      LastComesFirst(before, all, s);
    } else {
      assert s in heard[..last];
      HeardVotesExactly(policy, cycle, heard[..last], s);
      assert Precedes(s, heard[last]) by {
        EarlierPrecede(heard);
      }
      OthersComeFirst(before, all, s, heard[last]);
    }
  }

  // The votes before the last signal precede it and have other identifiers.
  lemma VotesAreEarlier(policy: Policy, cycle: Cycle, heard: seq<ProbeSignal>)
    requires heard != [] && StrictlyOrdered(heard) && DistinctIds(heard)
    ensures forall v | v in HearAll(policy, cycle, heard[..|heard| - 1]).votes ::
              Precedes(v, heard[|heard| - 1]) && v.id != heard[|heard| - 1].id
  {
    hide HearAll, Independent, EvaluationsFit;
    HearAllFits(policy, cycle, heard[..|heard| - 1]);
    EarlierPrecede(heard);
  }

  lemma LastComesFirst(before: seq<ProbeSignal>, all: seq<ProbeSignal>, s: ProbeSignal)
    requires all == before || all == before + [s]
    requires forall v | v in before :: Precedes(v, s)
    ensures ComesFirst(all, s) <==>
              forall v | v in before :: v.sourceId != s.sourceId && v.independenceKey != s.independenceKey
  {
  }

  lemma OthersComeFirst(before: seq<ProbeSignal>, all: seq<ProbeSignal>, s: ProbeSignal, last: ProbeSignal)
    requires all == before || all == before + [last]
    requires s != last && Precedes(s, last)
    ensures ComesFirst(all, s) <==> ComesFirst(before, s)
    ensures s in all <==> s in before
  {
  }

  // The last signal heard votes exactly when it is admissible and meets no vote of its source or key.
  lemma LastVoteExactly(policy: Policy, cycle: Cycle, heard: seq<ProbeSignal>)
    requires heard != [] && DistinctIds(heard)
    ensures var s, before := heard[|heard| - 1], HearAll(policy, cycle, heard[..|heard| - 1]).votes;
            HearAll(policy, cycle, heard).votes ==
              if Admissible(policy, s, cycle)
                 && forall v | v in before :: v.sourceId != s.sourceId && v.independenceKey != s.independenceKey
              then before + [s] else before
  {
    hide SignalRejectionReason, Independent, EvaluationsFit;
    var last := |heard| - 1;
    HearAllFits(policy, cycle, heard[..last]);
    NewIdIsUnseen(heard);
  }

  // A signal votes exactly when it is admissible and no vote received before it has its source or its key.
  lemma VotesExactly(policy: Policy, cycle: Cycle, signals: seq<ProbeSignal>, s: ProbeSignal)
    requires DistinctIds(signals)
    ensures s in Votes(policy, cycle, signals) <==>
              s in signals && Admits(policy, cycle, s) && ComesFirst(Votes(policy, cycle, signals), s)
  {
    hide Admits, ComesFirst, HearAll, InOrder;
    var heard := InOrder(signals);
    InOrderIsStrict(signals);
    DistinctInOrder(signals);
    HearAllFits(policy, cycle, heard);
    if s in signals {
      HeardVotesExactly(policy, cycle, heard, s);
    }
  }

  lemma DistinctInOrder(signals: seq<ProbeSignal>)
    requires DistinctIds(signals)
    ensures DistinctIds(InOrder(signals))
  {
    hide InOrder;
    InOrderIsStrict(signals);
    StrictIsDistinct(InOrder(signals));
  }

  // ---------- what each signal is told ----------

  // A test that a signal can fail, in the order in which they are made.
  ghost predicate Fails(policy: Policy, cycle: Cycle, s: ProbeSignal, reason: RejectionReason) {
    match reason
    case AlreadyConsumed => s.id in cycle.consumedSignalIds
    case Unauthenticated => !s.authenticated
    case ControlUnhealthy => !s.controlHealthy
    case RouteVersionMismatch => s.routeVersion != cycle.routeVersion
    case CycleMismatch => s.cycleStartedAt != cycle.cycleStartedAt
    case OutsideFreshnessWindow =>
      s.receivedAt < cycle.cycleStartedAt || cycle.cycleStartedAt + 1000 * policy.resultFreshnessSeconds < s.receivedAt
    case _ => false
  }

  const TESTS: seq<RejectionReason> :=
    [AlreadyConsumed, Unauthenticated, ControlUnhealthy, RouteVersionMismatch, CycleMismatch, OutsideFreshnessWindow]

  // A signal that is not admissible is told the first test that it fails.
  lemma ToldFirstFailure(policy: Policy, cycle: Cycle, s: ProbeSignal)
    ensures SignalRejectionReason(policy, s, cycle).None? <==>
              forall i | 0 <= i < |TESTS| :: !Fails(policy, cycle, s, TESTS[i])
    ensures SignalRejectionReason(policy, s, cycle).Some? ==>
              exists i :: 0 <= i < |TESTS| && SignalRejectionReason(policy, s, cycle) == Some(TESTS[i])
                && Fails(policy, cycle, s, TESTS[i]) && forall j | 0 <= j < i :: !Fails(policy, cycle, s, TESTS[j])
  {
    assert TESTS[0] == AlreadyConsumed && TESTS[1] == Unauthenticated && TESTS[2] == ControlUnhealthy;
    assert TESTS[3] == RouteVersionMismatch && TESTS[4] == CycleMismatch && TESTS[5] == OutsideFreshnessWindow;
  }

  ghost predicate SharesSource(votes: seq<ProbeSignal>, s: ProbeSignal) {
    exists v :: v in votes && Precedes(v, s) && v.sourceId == s.sourceId
  }

  // What a signal is told: nothing if it votes, otherwise why not.
  ghost predicate ToldWhy(
      policy: Policy, cycle: Cycle, votes: seq<ProbeSignal>, s: ProbeSignal, told: Option<RejectionReason>)
  {
    if s in votes then told == None
    else if Admits(policy, cycle, s) then
      told == Some(if SharesSource(votes, s) then DuplicateSource else DuplicateIndependenceKey)
    else told == SignalRejectionReason(policy, s, cycle) && told.Some?
  }

  // The last signal heard is evaluated by the tests and then by the votes before it; what was told before stands.
  lemma LastIsEvaluated(policy: Policy, cycle: Cycle, heard: seq<ProbeSignal>)
    requires heard != [] && DistinctIds(heard)
    ensures var last := |heard| - 1;
            var s, t, before := heard[last], HearAll(policy, cycle, heard), HearAll(policy, cycle, heard[..last]);
            && (forall id | id in before.evaluations && id != s.id ::
                  id in t.evaluations && t.evaluations[id] == before.evaluations[id])
            && s.id in t.evaluations
            && t.evaluations[s.id] ==
                 if SignalRejectionReason(policy, s, cycle).Some? then SignalRejectionReason(policy, s, cycle)
                 else if s.sourceId in before.sources then Some(DuplicateSource)
                 else if s.independenceKey in before.keys then Some(DuplicateIndependenceKey)
                 else None
  {
    hide SignalRejectionReason, Independent, EvaluationsFit;
    HearAllFits(policy, cycle, heard[..|heard| - 1]);
    NewIdIsUnseen(heard);
  }

  lemma LastToldWhy(policy: Policy, cycle: Cycle, heard: seq<ProbeSignal>)
    requires heard != [] && StrictlyOrdered(heard) && DistinctIds(heard)
    ensures var s, t := heard[|heard| - 1], HearAll(policy, cycle, heard);
            s.id in t.evaluations && ToldWhy(policy, cycle, t.votes, s, t.evaluations[s.id])
  {
    hide HearAll, Admits, SignalRejectionReason, Independent, EvaluationsFit, StrictlyOrdered, DistinctIds;
    var last := |heard| - 1;
    var s, before := heard[last], HearAll(policy, cycle, heard[..last]);
    AdmissibleExactly(policy, cycle, s);
    HearAllFits(policy, cycle, heard[..last]);
    LastVoteExactly(policy, cycle, heard);
    LastIsEvaluated(policy, cycle, heard);
    EarlierPrecede(heard);
    assert forall v | v in before.votes :: v in heard[..last];
    assert s !in before.votes;
    assert SharesSource(before.votes, s) <==> s.sourceId in before.sources;
  }

  lemma {:induction false} HeardToldWhy(policy: Policy, cycle: Cycle, heard: seq<ProbeSignal>, s: ProbeSignal)
    requires StrictlyOrdered(heard) && DistinctIds(heard) && s in heard
    ensures var t := HearAll(policy, cycle, heard);
            s.id in t.evaluations && ToldWhy(policy, cycle, t.votes, s, t.evaluations[s.id])
    decreases |heard|
  {
    hide HearAll, Admits, SignalRejectionReason, Independent, EvaluationsFit;
    var last := |heard| - 1;
    if s == heard[last] {
      LastToldWhy(policy, cycle, heard);
    } else {
      assert s in heard[..last];
      HeardToldWhy(policy, cycle, heard[..last], s);
      var before, all := HearAll(policy, cycle, heard[..last]), HearAll(policy, cycle, heard);
      LastVoteExactly(policy, cycle, heard);
      LastIsEvaluated(policy, cycle, heard);
      EarlierPrecede(heard);
      assert forall v | v in all.votes :: v in before.votes || v == heard[last];
      assert forall v | v in before.votes :: v in all.votes;
    }
  }

  // ---------- when the votes decide ----------

  // At least n distinct votes are of one kind.
  ghost predicate AtLeast(n: int, votes: seq<ProbeSignal>, kind: ProbeSignal -> bool) {
    exists q :: Agree(q, n, votes, kind)
  }

  ghost predicate Agree(q: set<ProbeSignal>, n: int, votes: seq<ProbeSignal>, kind: ProbeSignal -> bool) {
    n <= |q| && forall v | v in q :: v in votes && kind(v)
  }

  ghost function VoteSet(s: seq<ProbeSignal>): set<ProbeSignal> {
    set v | v in s
  }

  lemma {:induction false} AsManyMembers(s: seq<ProbeSignal>)
    requires DistinctIds(s)
    ensures |VoteSet(s)| == |s|
  {
    if s != [] {
      var last := |s| - 1;
      AsManyMembers(s[..last]);
      assert s == s[..last] + [s[last]];
      assert VoteSet(s) == VoteSet(s[..last]) + {s[last]};
    }
  }

  lemma SubsetHasFewer(a: set<ProbeSignal>, b: set<ProbeSignal>)
    requires a <= b
    ensures |a| <= |b|
    decreases b
  {
    if a != {} {
      var x :| x in a;
      SubsetHasFewer(a - {x}, b - {x});
    }
  }

  lemma {:induction false} SelectKeepsDistinct(keep: ProbeSignal -> bool, s: seq<ProbeSignal>)
    requires DistinctIds(s)
    ensures DistinctIds(Select(keep, s))
  {
    if s != [] {
      var last := |s| - 1;
      SelectKeepsDistinct(keep, s[..last]);
      var rest := Select(keep, s[..last]);
      forall i | 0 <= i < |rest| ensures rest[i].id != s[last].id {
        assert rest[i] in s[..last];
      }
    }
  }

  // Counting the selected votes is finding that many distinct ones.
  lemma CountsExactly(n: int, votes: seq<ProbeSignal>, chosen: seq<ProbeSignal>, kind: ProbeSignal -> bool)
    requires DistinctIds(chosen) && forall v :: v in chosen <==> v in votes && kind(v)
    ensures n <= |chosen| <==> AtLeast(n, votes, kind)
  {
    AsManyMembers(chosen);
    if n <= |chosen| {
      var q := VoteSet(chosen);
      assert Agree(q, n, votes, kind);
    }
    if AtLeast(n, votes, kind) {
      var q :| Agree(q, n, votes, kind);
      SubsetHasFewer(q, VoteSet(chosen));
    }
  }

  // What a vote says of the route.
  ghost predicate SaysWell(v: ProbeSignal) {
    v.outcome == ProbeSuccess
  }

  ghost predicate SaysFailed(policy: Policy, v: ProbeSignal) {
    v.outcome == ProbeFailure && exists c :: c in policy.routeFailureClasses && v.failureClass == Some(c)
  }

  ghost predicate SaysFailedWith(policy: Policy, c: FailureClass, v: ProbeSignal) {
    v.outcome == ProbeFailure && v.failureClass == Some(c) && c in policy.routeFailureClasses
  }

  ghost predicate QuorumFailsWith(policy: Policy, votes: seq<ProbeSignal>, c: FailureClass) {
    AtLeast(policy.probeSourceQuorum, votes, v => SaysFailedWith(policy, c, v))
  }

  // The class is the first in the policy's order with which a quorum fails.
  ghost predicate FailsFirstWith(policy: Policy, votes: seq<ProbeSignal>, c: FailureClass) {
    exists i :: 0 <= i < |policy.routeFailureClasses| && policy.routeFailureClasses[i] == c
      && QuorumFailsWith(policy, votes, c)
      && forall j | 0 <= j < i :: !QuorumFailsWith(policy, votes, policy.routeFailureClasses[j])
  }

  ghost predicate BothSaid(policy: Policy, votes: seq<ProbeSignal>) {
    (exists v :: v in votes && SaysWell(v)) && (exists v :: v in votes && SaysFailed(policy, v))
  }

  // The decision and the class, if and only if.
  ghost predicate Verdict(policy: Policy, votes: seq<ProbeSignal>, decision: CycleDecision, c: Option<FailureClass>) {
    && (decision == Mixed <==> BothSaid(policy, votes))
    && (forall f :: decision == Failed && c == Some(f) <==>
          !BothSaid(policy, votes) && FailsFirstWith(policy, votes, f))
    && (decision == Failed <==> c.Some?)
    && (decision == Success <==>
          && AtLeast(policy.probeSourceQuorum, votes, SaysWell)
          && forall v | v in votes :: !SaysFailed(policy, v))
  }

  lemma OfClassCounts(policy: Policy, votes: seq<ProbeSignal>, c: FailureClass)
    requires DistinctIds(votes) && c in policy.routeFailureClasses
    ensures Confirms(policy, Failures(policy, votes), c) <==> QuorumFailsWith(policy, votes, c)
  {
    var route := Select(IsRouteVote, votes);
    SelectKeepsDistinct(IsRouteVote, votes);
    SelectKeepsDistinct(s => IsFailure(policy, s), route);
    SelectKeepsDistinct((s: ProbeSignal) => s.failureClass == Some(c), Failures(policy, votes));
    CountsExactly(policy.probeSourceQuorum, votes, OfClass(c, Failures(policy, votes)),
                  v => SaysFailedWith(policy, c, v));
  }

  lemma SuccessesCount(policy: Policy, votes: seq<ProbeSignal>)
    requires DistinctIds(votes)
    ensures policy.probeSourceQuorum <= |Successes(votes)| <==> AtLeast(policy.probeSourceQuorum, votes, SaysWell)
  {
    SelectKeepsDistinct(IsRouteVote, votes);
    SelectKeepsDistinct(IsSuccess, Select(IsRouteVote, votes));
    CountsExactly(policy.probeSourceQuorum, votes, Successes(votes), SaysWell);
  }

  lemma {:induction false} FirstConfirmedExactly(policy: Policy, failures: seq<ProbeSignal>, classes: seq<FailureClass>)
    ensures FirstConfirmed(policy, failures, classes).Some? ==>
              exists i :: 0 <= i < |classes| && FirstConfirmed(policy, failures, classes) == Some(classes[i])
                && Confirms(policy, failures, classes[i]) && forall j | 0 <= j < i ::
                  !Confirms(policy, failures, classes[j])
  {
    hide Confirms;
    if classes != [] && !Confirms(policy, failures, classes[0]) && FirstConfirmed(policy, failures, classes).Some? {
      FirstConfirmedExactly(policy, failures, classes[1..]);
      var i :| 0 <= i < |classes[1..]| && FirstConfirmed(policy, failures, classes[1..]) == Some(classes[1..][i])
               && Confirms(policy, failures, classes[1..][i])
               && forall j | 0 <= j < i :: !Confirms(policy, failures, classes[1..][j]);
      assert classes[i + 1] == classes[1..][i];
      forall j | 0 <= j < i + 1 ensures !Confirms(policy, failures, classes[j]) {
        if 0 < j {
          assert classes[j] == classes[1..][j - 1];
        }
      }
    }
  }

  lemma FailsFirstExactly(policy: Policy, votes: seq<ProbeSignal>, f: FailureClass)
    requires DistinctIds(votes)
    requires forall i, j | 0 <= i < j < |policy.routeFailureClasses| ::
               policy.routeFailureClasses[i] != policy.routeFailureClasses[j]
    ensures FailsFirstWith(policy, votes, f)
            <==> FirstConfirmed(policy, Failures(policy, votes), policy.routeFailureClasses) == Some(f)
  {
    hide QuorumFailsWith, Confirms, Failures;
    var classes := policy.routeFailureClasses;
    forall c | c in classes
      ensures Confirms(policy, Failures(policy, votes), c) <==> QuorumFailsWith(policy, votes, c) {
      OfClassCounts(policy, votes, c);
    }
    FirstConfirmedExactly(policy, Failures(policy, votes), classes);
  }

  lemma SaysExactly(policy: Policy, v: ProbeSignal)
    ensures (IsFailure(policy, v) <==> SaysFailed(policy, v)) && (IsSuccess(v) <==> SaysWell(v))
  {
  }

  lemma SomebodySaid(policy: Policy, votes: seq<ProbeSignal>)
    ensures |Successes(votes)| > 0 <==> exists v :: v in votes && SaysWell(v)
    ensures |Failures(policy, votes)| > 0 <==> exists v :: v in votes && SaysFailed(policy, v)
  {
    SomeSelected(policy, votes);
    forall v | v in votes ensures (IsFailure(policy, v) <==> SaysFailed(policy, v)) && (IsSuccess(v) <==> SaysWell(v)) {
      SaysExactly(policy, v);
    }
  }

  // A quorum of failures of one class is failures.
  lemma QuorumIsSaid(policy: Policy, votes: seq<ProbeSignal>, f: FailureClass)
    requires 0 < policy.probeSourceQuorum && QuorumFailsWith(policy, votes, f)
    ensures exists v :: v in votes && SaysFailed(policy, v)
  {
    var q :| Agree(q, policy.probeSourceQuorum, votes, v => SaysFailedWith(policy, f, v));
    var v :| v in q;
    assert SaysFailed(policy, v);
  }

  lemma DecidedExactly(policy: Policy, votes: seq<ProbeSignal>)
    requires policy.Valid() && DistinctIds(votes)
    ensures Verdict(policy, votes, Decide(policy, votes).0, Decide(policy, votes).1)
  {
    hide Successes, Failures, FirstConfirmed, AtLeast, SaysWell, SaysFailed, FailsFirstWith, Confirms;
    SomebodySaid(policy, votes);
    SuccessesCount(policy, votes);
    forall f ensures FailsFirstWith(policy, votes, f)
                     <==> FirstConfirmed(policy, Failures(policy, votes), policy.routeFailureClasses) == Some(f) {
      FailsFirstExactly(policy, votes, f);
    }
    var confirmed := FirstConfirmed(policy, Failures(policy, votes), policy.routeFailureClasses);
    if confirmed.Some? {
      FirstFailureIsSaid(policy, votes, confirmed.value);
    }
    if AtLeast(policy.probeSourceQuorum, votes, SaysWell) {
      assert 0 < |Successes(votes)|;
    }
  }

  lemma FirstFailureIsSaid(policy: Policy, votes: seq<ProbeSignal>, f: FailureClass)
    requires policy.Valid() && FailsFirstWith(policy, votes, f)
    ensures exists v :: v in votes && SaysFailed(policy, v)
  {
    QuorumIsSaid(policy, votes, f);
  }

  // ---------- the whole result ----------

  // Who voted, in which order they are listed, who was rejected and why, and when to probe again.
  lemma AggregatedTells(policy: Policy, cycle: Cycle, signals: seq<ProbeSignal>)
    requires policy.Valid() && DistinctIds(signals)
    ensures var r, votes := Aggregated(policy, cycle, signals), Votes(policy, cycle, signals);
            && r.cycleStartedAt == cycle.cycleStartedAt
            && Verdict(policy, votes, r.decision, r.failureClass)
            && r.additionalProbeDueAt == (if r.decision == Mixed
                 then Some(cycle.cycleStartedAt + 1000 * policy.additionalProbeDelaySeconds) else None)
            && (forall id :: id in r.signalIds <==>
                exists v :: v in votes && v.id == id && v.outcome != ProbeSourceFailure)
            && (forall i, j | 0 <= i < j < |r.signalIds| :: r.signalIds[i] < r.signalIds[j])
            && (forall i, j | 0 <= i < j < |r.rejectedSignalIds| :: r.rejectedSignalIds[i] < r.rejectedSignalIds[j])
            && (forall s | s in signals ::
                  && s.id in r.signalEvaluations && ToldWhy(policy, cycle, votes, s, r.signalEvaluations[s.id])
                  && (s !in votes ==> s.id in r.rejectedSignalIds))
  {
    hide Verdict, Decide, ToldWhy, HearAll, InOrder, SignalRejectionReason, Independent;
    var heard := InOrder(signals);
    InOrderIsStrict(signals);
    DistinctInOrder(signals);
    HearAllFits(policy, cycle, heard);
    DecidedExactly(policy, Votes(policy, cycle, signals));
    forall s | s in signals
      ensures s.id in HearAll(policy, cycle, heard).evaluations
      ensures ToldWhy(policy, cycle, Votes(policy, cycle, signals), s, HearAll(policy, cycle, heard).evaluations[s.id])
      ensures s !in Votes(policy, cycle, signals) ==> s.id in HearAll(policy, cycle, heard).rejected
    {
      HeardToldWhy(policy, cycle, heard, s);
      RejectedWithoutVote(policy, cycle, heard, s);
    }
  }

  lemma RejectedWithoutVote(policy: Policy, cycle: Cycle, heard: seq<ProbeSignal>, s: ProbeSignal)
    requires DistinctIds(heard) && s in heard
    ensures s !in HearAll(policy, cycle, heard).votes ==> s.id in HearAll(policy, cycle, heard).rejected
  {
    hide HearAll, Independent;
    HearAllFits(policy, cycle, heard);
    var t := HearAll(policy, cycle, heard);
    assert s.id in Ids(t.votes) ==> s in t.votes;
  }
}
