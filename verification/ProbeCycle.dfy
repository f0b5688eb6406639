// Aggregating the probe results of one health cycle into a vote of independent sources.
module ProbeCycle {
  import opened Basics
  import opened Queries

  datatype FailureClass = Dns | TcpTls | VpnHandshake | TestTraffic

  datatype Policy = Policy(
    probeIntervalSeconds: int,
    probeTimeoutSeconds: int,
    probeSourceQuorum: int,
    degradedFailureCycles: int,
    excludeFailureCycles: int,
    recoverySuccessCycles: int,
    recoveryMinimumSeconds: int,
    cooldownSeconds: int,
    staleHeartbeatSeconds: int,
    resultFreshnessSeconds: int,
    mixedUnknownDegradedCycles: int,
    additionalProbeDelaySeconds: int,
    routeFailureClasses: seq<FailureClass>)
  {
    // The policy schema, as far as decisions depend on it.
    predicate Valid() {
      && 0 < probeIntervalSeconds && 0 < probeTimeoutSeconds && 0 < probeSourceQuorum
      && 0 < degradedFailureCycles && 0 < excludeFailureCycles
      && 0 < recoverySuccessCycles && 0 < recoveryMinimumSeconds && 0 < cooldownSeconds
      && 0 < staleHeartbeatSeconds && 0 < resultFreshnessSeconds
      && 0 < mixedUnknownDegradedCycles && 0 < additionalProbeDelaySeconds
      && |routeFailureClasses| == 4
      && (forall i, j | 0 <= i < j < 4 :: routeFailureClasses[i] != routeFailureClasses[j])
      && degradedFailureCycles < excludeFailureCycles
      && probeTimeoutSeconds < probeIntervalSeconds
    }
  }

  datatype ProbeOutcome = ProbeSuccess | ProbeFailure | ProbeSourceFailure

  datatype ProbeSignal = ProbeSignal(
    id: Id,
    sourceId: Id,
    independenceKey: Id,
    cycleStartedAt: int,
    receivedAt: int,
    authenticated: bool,
    controlHealthy: bool,
    routeVersion: int,
    outcome: ProbeOutcome,
    failureClass: Option<FailureClass>)

  datatype Cycle = Cycle(cycleStartedAt: int, routeVersion: int, consumedSignalIds: set<Id>)

  datatype RejectionReason =
    | PolicyUnavailableForSignal
    | AlreadyConsumed
    | Unauthenticated
    | ControlUnhealthy
    | RouteVersionMismatch
    | CycleMismatch
    | OutsideFreshnessWindow
    | DuplicateSource
    | DuplicateIndependenceKey

  datatype CycleDecision = Success | Failed | Mixed | Unknown

  datatype CycleResult = CycleResult(
    cycleStartedAt: int,
    decision: CycleDecision,
    failureClass: Option<FailureClass>,
    signalIds: seq<Id>,
    rejectedSignalIds: seq<Id>,
    // None means the signal was accepted.
    signalEvaluations: map<Id, Option<RejectionReason>>,
    additionalProbeDueAt: Option<int>)

  function Milliseconds(seconds: int): int { seconds * 1000 }

  function SignalRejectionReason(policy: Policy, signal: ProbeSignal, cycle: Cycle): Option<RejectionReason> {
    if signal.id in cycle.consumedSignalIds then Some(AlreadyConsumed)
    else if !signal.authenticated then Some(Unauthenticated)
    else if !signal.controlHealthy then Some(ControlUnhealthy)
    else if signal.routeVersion != cycle.routeVersion then Some(RouteVersionMismatch)
    else if signal.cycleStartedAt != cycle.cycleStartedAt then Some(CycleMismatch)
    else if signal.receivedAt < cycle.cycleStartedAt
            || cycle.cycleStartedAt + Milliseconds(policy.resultFreshnessSeconds) < signal.receivedAt
      then Some(OutsideFreshnessWindow)
    else None
  }

  predicate Admissible(policy: Policy, signal: ProbeSignal, cycle: Cycle) {
    SignalRejectionReason(policy, signal, cycle).None?
  }

  // ---------- the order in which signals are heard ----------

  function ReceivedAt(s: ProbeSignal): int { s.receivedAt }

  function SignalId(s: ProbeSignal): int { s.id }

  function InOrder(signals: seq<ProbeSignal>): seq<ProbeSignal> {
    SortBy(ReceivedAt, SortBy(SignalId, signals))
  }

  predicate Precedes(a: ProbeSignal, b: ProbeSignal) {
    a.receivedAt < b.receivedAt || (a.receivedAt == b.receivedAt && a.id < b.id)
  }

  ghost predicate DistinctIds(s: seq<ProbeSignal>) {
    forall i, j | 0 <= i < j < |s| :: s[i].id != s[j].id
  }

  ghost predicate StrictlyOrdered(s: seq<ProbeSignal>) {
    forall i, j | 0 <= i < j < |s| :: Precedes(s[i], s[j])
  }

  // Before or equal in the order of receipt, ties broken by position among ascending identifiers.
  lemma {:induction false} InsertByReceipt(x: ProbeSignal, s: seq<ProbeSignal>)
    requires StrictlyOrdered(s) && forall y | y in s :: x.id < y.id
    ensures StrictlyOrdered(Insert(ReceivedAt, x, s))
    ensures forall y :: y in Insert(ReceivedAt, x, s) <==> y == x || y in s
  {
    var r := Insert(ReceivedAt, x, s);
    if s == [] || x.receivedAt <= s[0].receivedAt {
      forall i, j | 0 <= i < j < |r| ensures Precedes(r[i], r[j]) {
        assert r[j] == s[j - 1] && s[j - 1] in s;
        if i == 0 && 0 < j - 1 {
          assert Precedes(s[0], s[j - 1]);
        }
      }
    } else {
      assert forall y | y in s[1..] :: y in s;
      InsertByReceipt(x, s[1..]);
      var rest := Insert(ReceivedAt, x, s[1..]);
      assert r == [s[0]] + rest;
      forall i, j | 0 <= i < j < |r| ensures Precedes(r[i], r[j]) {
        if i == 0 {
          assert rest[j - 1] in rest;
          if rest[j - 1] != x {
            var k :| 0 <= k < |s[1..]| && s[1..][k] == rest[j - 1];
            assert s[k + 1] == rest[j - 1];
          }
        } else {
          assert Precedes(rest[i - 1], rest[j - 1]);
        }
      }
      assert s == [s[0]] + s[1..];
    }
  }

  lemma {:induction false} ReceiptOrderOfAscending(s: seq<ProbeSignal>)
    requires forall i, j | 0 <= i < j < |s| :: s[i].id < s[j].id
    ensures StrictlyOrdered(SortBy(ReceivedAt, s))
    ensures forall y :: y in SortBy(ReceivedAt, s) <==> y in s
  {
    if s != [] {
      ReceiptOrderOfAscending(s[1..]);
      forall y | y in SortBy(ReceivedAt, s[1..]) ensures s[0].id < y.id {
        assert y in s[1..];
      }
      InsertByReceipt(s[0], SortBy(ReceivedAt, s[1..]));
      assert s == [s[0]] + s[1..];
    }
  }

  lemma SameMembers(a: seq<ProbeSignal>, b: seq<ProbeSignal>)
    requires multiset(a) == multiset(b)
    ensures forall y :: y in a <==> y in b
  {
    forall y ensures y in a <==> y in b {
      assert y in a <==> y in multiset(a);
      assert y in b <==> y in multiset(b);
    }
  }

  lemma {:induction false} DistinctIdsMeansMultiplicityOne(s: seq<ProbeSignal>, y: ProbeSignal)
    ensures DistinctIds(s) ==> multiset(s)[y] <= 1
  {
    if s != [] && DistinctIds(s) {
      assert s == [s[0]] + s[1..];
      DistinctIdsMeansMultiplicityOne(s[1..], y);
      if y == s[0] && y in s[1..] {
        assert false;
      }
    }
  }

  lemma TwiceInMultiset(s: seq<ProbeSignal>, i: nat, j: nat)
    requires i < j < |s| && s[i] == s[j]
    ensures multiset(s)[s[i]] >= 2
  {
    assert s == s[..j] + s[j..];
    assert s[i] in s[..j] && s[j] in s[j..];
    assert multiset(s) == multiset(s[..j]) + multiset(s[j..]);
  }

  // With distinct identifiers, the signals are heard strictly in order of receipt.
  lemma InOrderIsStrict(signals: seq<ProbeSignal>)
    requires DistinctIds(signals)
    ensures StrictlyOrdered(InOrder(signals))
    ensures forall y :: y in InOrder(signals) <==> y in signals
  {
    var byId := SortBy(SignalId, signals);
    SortByIsAPermutation(SignalId, signals);
    SameMembers(byId, signals);
    forall i, j | 0 <= i < j < |byId| ensures byId[i].id < byId[j].id {
      if byId[i].id == byId[j].id {
        assert byId[i] in signals && byId[j] in signals;
        TwiceInMultisetOfDistinct(signals, byId, i, j);
      }
    }
    ReceiptOrderOfAscending(byId);
  }

  lemma TwiceInMultisetOfDistinct(signals: seq<ProbeSignal>, byId: seq<ProbeSignal>, i: nat, j: nat)
    requires DistinctIds(signals) && multiset(byId) == multiset(signals)
    requires i < j < |byId| && byId[i] in signals && byId[j] in signals
    ensures byId[i].id != byId[j].id
  {
    if byId[i] == byId[j] {
      TwiceInMultiset(byId, i, j);
      DistinctIdsMeansMultiplicityOne(signals, byId[i]);
    }
  }

  lemma FirstIsLeast(s: seq<ProbeSignal>, y: ProbeSignal)
    requires StrictlyOrdered(s) && y in s
    ensures y == s[0] || Precedes(s[0], y)
  {
  }

  // The order of receipt leaves only one way to list a set of signals.
  lemma {:induction false} OneWayToOrder(a: seq<ProbeSignal>, b: seq<ProbeSignal>)
    requires StrictlyOrdered(a) && StrictlyOrdered(b)
    requires forall y :: y in a <==> y in b
    ensures a == b
  {
    assert |b| == 0 || b[0] in b;
    assert |a| == 0 || a[0] in a;
    if a != [] {
      FirstIsLeast(a, b[0]);
      FirstIsLeast(b, a[0]);
      forall y ensures y in a[1..] <==> y in b[1..] {
        TailMembers(a, y);
        TailMembers(b, y);
      }
      OneWayToOrder(a[1..], b[1..]);
      assert a == [a[0]] + a[1..] && b == [b[0]] + b[1..];
    }
  }

  lemma TailMembers(s: seq<ProbeSignal>, y: ProbeSignal)
    requires s != [] && StrictlyOrdered(s)
    ensures y in s[1..] <==> y in s && y != s[0]
  {
  }

  // ---------- which signals vote ----------

  datatype Tally = Tally(
    seen: set<Id>,
    sources: set<Id>,
    keys: set<Id>,
    votes: seq<ProbeSignal>,
    rejected: set<Id>,
    evaluations: map<Id, Option<RejectionReason>>)

  const NO_TALLY := Tally({}, {}, {}, [], {}, map[])

  function Rejecting(t: Tally, id: Id, reason: RejectionReason): Tally {
    t.(seen := t.seen + {id}, rejected := t.rejected + {id}, evaluations := t.evaluations[id := Some(reason)])
  }

  function Hear(policy: Policy, cycle: Cycle, t: Tally, s: ProbeSignal): Tally {
    if s.id in t.seen then t.(rejected := t.rejected + {s.id})
    else
      match SignalRejectionReason(policy, s, cycle)
      case Some(reason) => Rejecting(t, s.id, reason)
      case None =>
        if s.sourceId in t.sources then Rejecting(t, s.id, DuplicateSource)
        else if s.independenceKey in t.keys then Rejecting(t, s.id, DuplicateIndependenceKey)
        else t.(seen := t.seen + {s.id},
                sources := t.sources + {s.sourceId},
                keys := t.keys + {s.independenceKey},
                votes := t.votes + [s],
                evaluations := t.evaluations[s.id := None])
  }

  function HearAll(policy: Policy, cycle: Cycle, heard: seq<ProbeSignal>): Tally {
    if heard == [] then NO_TALLY
    else Hear(policy, cycle, HearAll(policy, cycle, heard[..|heard| - 1]), heard[|heard| - 1])
  }

  // No two votes share a source or an independence key.
  ghost predicate Independent(votes: seq<ProbeSignal>) {
    forall i, j | 0 <= i < j < |votes| ::
      votes[i].sourceId != votes[j].sourceId && votes[i].independenceKey != votes[j].independenceKey
  }

  function Ids(s: seq<ProbeSignal>): set<Id> {
    set v | v in s :: v.id
  }

  function Sources(s: seq<ProbeSignal>): set<Id> {
    set v | v in s :: v.sourceId
  }

  function Keys(s: seq<ProbeSignal>): set<Id> {
    set v | v in s :: v.independenceKey
  }

  // What hearing signals establishes, whatever they are: the votes are admissible and
  // independent, and every signal heard has one evaluation, accepting exactly the votes.
  ghost predicate TallyFits(policy: Policy, cycle: Cycle, heard: seq<ProbeSignal>, t: Tally) {
    && Independent(t.votes)
    && DistinctIds(t.votes)
    && (forall v | v in t.votes :: v in heard && Admissible(policy, v, cycle))
    && t.seen == Ids(heard)
    && t.sources == Sources(t.votes)
    && t.keys == Keys(t.votes)
    && EvaluationsFit(t, Ids(t.votes))
  }

  ghost predicate EvaluationsFit(t: Tally, voteIds: set<Id>) {
    && t.evaluations.Keys == t.seen
    && (forall id | id in t.seen :: t.evaluations[id].None? <==> id in voteIds)
    && t.seen - voteIds <= t.rejected <= t.seen
    && voteIds <= t.seen
  }

  lemma OneMoreId(s: seq<ProbeSignal>, x: ProbeSignal)
    ensures Ids(s + [x]) == Ids(s) + {x.id}
  {
  }

  lemma RejectingFits(policy: Policy, cycle: Cycle, heard: seq<ProbeSignal>, t: Tally, s: ProbeSignal,
                      reason: RejectionReason)
    requires TallyFits(policy, cycle, heard, t) && s.id !in t.seen
    ensures TallyFits(policy, cycle, heard + [s], Rejecting(t, s.id, reason))
  {
    hide Ids, Independent, DistinctIds;
    OneMoreId(heard, s);
  }

  lemma OneMoreVote(votes: seq<ProbeSignal>, x: ProbeSignal)
    requires Independent(votes) && DistinctIds(votes)
    requires x.id !in Ids(votes) && x.sourceId !in Sources(votes) && x.independenceKey !in Keys(votes)
    ensures Independent(votes + [x]) && DistinctIds(votes + [x])
  {
  }

  lemma OneMoreSource(s: seq<ProbeSignal>, x: ProbeSignal)
    ensures Sources(s + [x]) == Sources(s) + {x.sourceId}
    ensures Keys(s + [x]) == Keys(s) + {x.independenceKey}
  {
  }

  lemma AcceptingFits(policy: Policy, cycle: Cycle, heard: seq<ProbeSignal>, t: Tally, s: ProbeSignal)
    requires TallyFits(policy, cycle, heard, t) && s.id !in t.seen && Admissible(policy, s, cycle)
    requires s.sourceId !in t.sources && s.independenceKey !in t.keys
    ensures TallyFits(policy, cycle, heard + [s], Hear(policy, cycle, t, s))
  {
    hide Ids, Sources, Keys, Independent, DistinctIds;
    OneMoreId(heard, s);
    OneMoreId(t.votes, s);
    OneMoreSource(t.votes, s);
    OneMoreVote(t.votes, s);
    var next := Hear(policy, cycle, t, s);
    assert next.votes == t.votes + [s];
    assert forall v | v in next.votes :: v == s || v in t.votes;
  }

  lemma HearFits(policy: Policy, cycle: Cycle, heard: seq<ProbeSignal>, t: Tally, s: ProbeSignal)
    requires TallyFits(policy, cycle, heard, t)
    ensures TallyFits(policy, cycle, heard + [s], Hear(policy, cycle, t, s))
  {
    if s.id in t.seen {
      OneMoreId(heard, s);
    } else {
      match SignalRejectionReason(policy, s, cycle)
      case Some(reason) => RejectingFits(policy, cycle, heard, t, s, reason);
      case None =>
        if s.sourceId in t.sources {
          RejectingFits(policy, cycle, heard, t, s, DuplicateSource);
        } else if s.independenceKey in t.keys {
          RejectingFits(policy, cycle, heard, t, s, DuplicateIndependenceKey);
        } else {
          AcceptingFits(policy, cycle, heard, t, s);
        }
    }
  }

  lemma {:induction false} HearAllFits(policy: Policy, cycle: Cycle, heard: seq<ProbeSignal>)
    ensures TallyFits(policy, cycle, heard, HearAll(policy, cycle, heard))
  {
    if heard != [] {
      var last := |heard| - 1;
      HearAllFits(policy, cycle, heard[..last]);
      HearFits(policy, cycle, heard[..last], HearAll(policy, cycle, heard[..last]), heard[last]);
      assert heard == heard[..last] + [heard[last]];
    }
  }

  // Every admissible signal votes, or shares its source or its independence key with a vote.
  lemma {:induction false} AdmissibleIsHeard(policy: Policy, cycle: Cycle, heard: seq<ProbeSignal>, s: ProbeSignal)
    requires DistinctIds(heard) && s in heard && Admissible(policy, s, cycle)
    ensures var t := HearAll(policy, cycle, heard);
            s in t.votes || s.sourceId in t.sources || s.independenceKey in t.keys
  {
    var last := |heard| - 1;
    HearAllFits(policy, cycle, heard[..last]);
    if s == heard[last] {
      NewIdIsUnseen(heard);
    } else {
      assert s in heard[..last];
      AdmissibleIsHeard(policy, cycle, heard[..last], s);
    }
  }

  lemma NewIdIsUnseen(heard: seq<ProbeSignal>)
    requires DistinctIds(heard) && heard != []
    ensures heard[|heard| - 1].id !in Ids(heard[..|heard| - 1])
  {
  }

  function Select(keep: ProbeSignal -> bool, s: seq<ProbeSignal>): (r: seq<ProbeSignal>)
    ensures forall v :: v in r <==> v in s && keep(v)
  {
    if s == [] then []
    else
      assert s == s[..|s| - 1] + [s[|s| - 1]];
      Select(keep, s[..|s| - 1]) + if keep(s[|s| - 1]) then [s[|s| - 1]] else []
  }

  lemma {:induction false} SelectKeepsOrder(keep: ProbeSignal -> bool, s: seq<ProbeSignal>)
    ensures StrictlyOrdered(s) ==> StrictlyOrdered(Select(keep, s))
  {
    if s != [] {
      var last := |s| - 1;
      var rest := Select(keep, s[..last]);
      SelectKeepsOrder(keep, s[..last]);
      forall i | 0 <= i < |rest| ensures StrictlyOrdered(s) ==> Precedes(rest[i], s[last]) {
        assert rest[i] in s[..last];
      }
    }
  }

  lemma {:induction false} SelectKeepsIndependence(keep: ProbeSignal -> bool, s: seq<ProbeSignal>)
    ensures Independent(s) ==> Independent(Select(keep, s))
  {
    if s != [] {
      var last := |s| - 1;
      var rest := Select(keep, s[..last]);
      SelectKeepsIndependence(keep, s[..last]);
      forall i | 0 <= i < |rest|
        ensures Independent(s) ==>
                  rest[i].sourceId != s[last].sourceId && rest[i].independenceKey != s[last].independenceKey
      {
        assert rest[i] in s[..last];
      }
    }
  }

  ghost predicate SameVotes(t: Tally, u: Tally) {
    t.votes == u.votes && t.sources == u.sources && t.keys == u.keys
  }

  lemma HearsAlike(policy: Policy, cycle: Cycle, t: Tally, u: Tally, s: ProbeSignal)
    requires SameVotes(t, u) && s.id !in t.seen
    ensures !Admissible(policy, s, cycle) ==> SameVotes(Hear(policy, cycle, t, s), u)
    ensures s.id !in u.seen ==> SameVotes(Hear(policy, cycle, t, s), Hear(policy, cycle, u, s))
  {
  }

  lemma SeenOf(policy: Policy, cycle: Cycle, heard: seq<ProbeSignal>)
    ensures HearAll(policy, cycle, heard).seen == Ids(heard)
  {
    HearAllFits(policy, cycle, heard);
  }

  // The votes come from the admissible signals alone.
  lemma {:induction false} OnlyAdmissibleVote(policy: Policy, cycle: Cycle, heard: seq<ProbeSignal>)
    requires DistinctIds(heard)
    ensures SameVotes(HearAll(policy, cycle, heard),
                      HearAll(policy, cycle, Select(v => Admissible(policy, v, cycle), heard)))
  {
    var keep := v => Admissible(policy, v, cycle);
    if heard != [] {
      var last := |heard| - 1;
      OnlyAdmissibleVote(policy, cycle, heard[..last]);
      var selected := Select(keep, heard[..last]);
      NewIdIsUnseen(heard);
      SeenOf(policy, cycle, heard[..last]);
      SeenOf(policy, cycle, selected);
      assert Ids(selected) <= Ids(heard[..last]);
      HearsAlike(policy, cycle, HearAll(policy, cycle, heard[..last]), HearAll(policy, cycle, selected), heard[last]);
      hide Hear, Ids, SameVotes;
      if keep(heard[last]) {
        assert (selected + [heard[last]])[..|selected|] == selected;
      } else {
        assert selected + [] == selected;
      }
    }
  }

  function Votes(policy: Policy, cycle: Cycle, signals: seq<ProbeSignal>): seq<ProbeSignal> {
    HearAll(policy, cycle, InOrder(signals)).votes
  }

  // Two lists of signals with the same admissible ones have the same votes: the order in
  // which they are given does not matter, nor do signals that the validity checks reject.
  lemma RejectedSignalsDoNotVote(policy: Policy, cycle: Cycle, a: seq<ProbeSignal>, b: seq<ProbeSignal>)
    requires DistinctIds(a) && DistinctIds(b)
    requires forall v | Admissible(policy, v, cycle) :: v in a <==> v in b
    ensures Votes(policy, cycle, a) == Votes(policy, cycle, b)
  {
    var keep := v => Admissible(policy, v, cycle);
    InOrderIsStrict(a);
    InOrderIsStrict(b);
    StrictIsDistinct(InOrder(a));
    StrictIsDistinct(InOrder(b));
    OnlyAdmissibleVote(policy, cycle, InOrder(a));
    OnlyAdmissibleVote(policy, cycle, InOrder(b));
    SelectKeepsOrder(keep, InOrder(a));
    SelectKeepsOrder(keep, InOrder(b));
    OneWayToOrder(Select(keep, InOrder(a)), Select(keep, InOrder(b)));
  }

  lemma StrictIsDistinct(s: seq<ProbeSignal>)
    requires StrictlyOrdered(s) && forall x, y | x in s && y in s && x.id == y.id :: x == y
    ensures DistinctIds(s)
  {
  }

  // ---------- the decision ----------

  predicate IsSuccess(s: ProbeSignal) {
    s.outcome.ProbeSuccess?
  }

  predicate IsRouteVote(s: ProbeSignal) {
    !s.outcome.ProbeSourceFailure?
  }

  predicate IsFailure(policy: Policy, s: ProbeSignal) {
    s.outcome.ProbeFailure? && s.failureClass.Some? && s.failureClass.value in policy.routeFailureClasses
  }

  function Successes(votes: seq<ProbeSignal>): seq<ProbeSignal> {
    Select(IsSuccess, Select(IsRouteVote, votes))
  }

  function Failures(policy: Policy, votes: seq<ProbeSignal>): seq<ProbeSignal> {
    Select(s => IsFailure(policy, s), Select(IsRouteVote, votes))
  }

  function OfClass(c: FailureClass, failures: seq<ProbeSignal>): seq<ProbeSignal> {
    Select((s: ProbeSignal) => s.failureClass == Some(c), failures)
  }

  predicate Confirms(policy: Policy, failures: seq<ProbeSignal>, c: FailureClass) {
    policy.probeSourceQuorum <= |OfClass(c, failures)|
  }

  // The first class in the policy's order that a quorum of failures confirms.
  function FirstConfirmed(policy: Policy, failures: seq<ProbeSignal>,
                          classes: seq<FailureClass>): (r: Option<FailureClass>)
    ensures r.Some? ==> r.value in classes && Confirms(policy, failures, r.value)
    ensures r.None? ==> forall c | c in classes :: !Confirms(policy, failures, c)
  {
    if classes == [] then None
    else if Confirms(policy, failures, classes[0]) then Some(classes[0])
    else FirstConfirmed(policy, failures, classes[1..])
  }

  function Decide(policy: Policy, votes: seq<ProbeSignal>): (CycleDecision, Option<FailureClass>) {
    var successes, failures := Successes(votes), Failures(policy, votes);
    if |successes| > 0 && |failures| > 0 then (Mixed, None)
    else
      match FirstConfirmed(policy, failures, policy.routeFailureClasses)
      case Some(c) => (Failed, Some(c))
      case None => if policy.probeSourceQuorum <= |successes| then (Success, None) else (Unknown, None)
  }

  function Aggregated(policy: Policy, cycle: Cycle, signals: seq<ProbeSignal>): CycleResult {
    var t := HearAll(policy, cycle, InOrder(signals));
    var decided := Decide(policy, t.votes);
    CycleResult(
      cycle.cycleStartedAt, decided.0, decided.1,
      OrderedIds(Ids(Select(IsRouteVote, t.votes))),
      OrderedIds(t.rejected),
      t.evaluations,
      if decided.0.Mixed? then Some(cycle.cycleStartedAt + Milliseconds(policy.additionalProbeDelaySeconds)) else None)
  }

  // Enough votes that stand for one outcome, from sources independent of each other.
  ghost predicate IsQuorum(policy: Policy, cycle: Cycle, signals: seq<ProbeSignal>, quorum: seq<ProbeSignal>) {
    && policy.probeSourceQuorum <= |quorum|
    && Independent(quorum)
    && forall v | v in quorum :: v in signals && Admissible(policy, v, cycle)
  }

  // A cycle fails or succeeds only on the word of a quorum of independent sources, and
  // never while any vote says the opposite.
  lemma DecidedByQuorum(policy: Policy, cycle: Cycle, signals: seq<ProbeSignal>)
    requires policy.Valid() && DistinctIds(signals)
    ensures var r := Aggregated(policy, cycle, signals);
            var votes := Votes(policy, cycle, signals);
            && (r.decision.Failed? ==>
                  && r.failureClass.Some?
                  && (exists q: seq<ProbeSignal> :: IsQuorum(policy, cycle, signals, q)
                        && forall v | v in q :: v.outcome.ProbeFailure? && v.failureClass == r.failureClass)
                  && forall v | v in votes :: !v.outcome.ProbeSuccess?)
            && (r.decision.Success? ==>
                  && (exists q: seq<ProbeSignal> ::
                        IsQuorum(policy, cycle, signals, q) && forall v | v in q :: v.outcome.ProbeSuccess?)
                  && forall v | v in votes :: !IsFailure(policy, v))
            && (r.decision.Mixed? <==>
                  (exists v :: v in votes && IsSuccess(v)) && (exists v :: v in votes && IsFailure(policy, v)))
            && (r.decision.Failed? <==> r.failureClass.Some?)
  {
    hide Decide, Independent, Admissible, IsQuorum, IsFailure, HearAll, InOrder;
    InOrderIsStrict(signals);
    HearAllFits(policy, cycle, InOrder(signals));
    DecidedOnVotes(policy, cycle, signals, Votes(policy, cycle, signals));
  }

  lemma DecidedOnVotes(policy: Policy, cycle: Cycle, signals: seq<ProbeSignal>, votes: seq<ProbeSignal>)
    requires policy.Valid() && Independent(votes)
    requires forall v | v in votes :: v in signals && Admissible(policy, v, cycle)
    ensures var (decision, failureClass) := Decide(policy, votes);
            && (decision.Failed? ==>
                  && failureClass.Some?
                  && (exists q: seq<ProbeSignal> :: IsQuorum(policy, cycle, signals, q)
                        && forall v | v in q :: v.outcome.ProbeFailure? && v.failureClass == failureClass)
                  && forall v | v in votes :: !v.outcome.ProbeSuccess?)
            && (decision.Success? ==>
                  && (exists q: seq<ProbeSignal> ::
                        IsQuorum(policy, cycle, signals, q) && forall v | v in q :: v.outcome.ProbeSuccess?)
                  && forall v | v in votes :: !IsFailure(policy, v))
            && (decision.Mixed? <==>
                  (exists v :: v in votes && IsSuccess(v)) && (exists v :: v in votes && IsFailure(policy, v)))
            && (decision.Failed? <==> failureClass.Some?)
  {
    var successes, failures := Successes(votes), Failures(policy, votes);
    RouteVotesKeepIndependence(policy, votes);
    SomeSelected(policy, votes);
    var decided := Decide(policy, votes);
    if decided.0.Failed? {
      var c := decided.1.value;
      var q := OfClass(c, failures);
      SelectKeepsIndependence((s: ProbeSignal) => s.failureClass == Some(c), failures);
      assert IsQuorum(policy, cycle, signals, q);
      assert q[0] in q && |failures| > 0 by {
        assert q[0] in failures;
      }
    } else if decided.0.Success? {
      assert IsQuorum(policy, cycle, signals, successes);
      assert |successes| > 0;
    }
  }

  lemma RouteVotesKeepIndependence(policy: Policy, votes: seq<ProbeSignal>)
    requires Independent(votes)
    ensures Independent(Successes(votes)) && Independent(Failures(policy, votes))
  {
    SelectKeepsIndependence(IsRouteVote, votes);
    SelectKeepsIndependence(IsSuccess, Select(IsRouteVote, votes));
    SelectKeepsIndependence(s => IsFailure(policy, s), Select(IsRouteVote, votes));
  }

  lemma SomeSelected(policy: Policy, votes: seq<ProbeSignal>)
    ensures |Successes(votes)| > 0 <==> exists v :: v in votes && IsSuccess(v)
    ensures |Failures(policy, votes)| > 0 <==> exists v :: v in votes && IsFailure(policy, v)
  {
    if |Successes(votes)| > 0 {
      assert Successes(votes)[0] in Successes(votes);
    }
    if |Failures(policy, votes)| > 0 {
      assert Failures(policy, votes)[0] in Failures(policy, votes);
    }
    forall v | v in votes && IsSuccess(v) ensures |Successes(votes)| > 0 {
      assert v in Successes(votes);
    }
    forall v | v in votes && IsFailure(policy, v) ensures |Failures(policy, votes)| > 0 {
      assert v in Failures(policy, votes);
    }
  }

  // With distinct identifiers the order in which signals are given does not matter at all.
  lemma OrderDoesNotMatter(policy: Policy, cycle: Cycle, a: seq<ProbeSignal>, b: seq<ProbeSignal>)
    requires DistinctIds(a) && DistinctIds(b) && forall v :: v in a <==> v in b
    ensures Aggregated(policy, cycle, a) == Aggregated(policy, cycle, b)
  {
    InOrderIsStrict(a);
    InOrderIsStrict(b);
    OneWayToOrder(InOrder(a), InOrder(b));
  }

  // Signals that the validity checks reject change neither the decision, nor the class of
  // failure, nor who voted.
  lemma RejectedSignalsDoNotMatter(policy: Policy, cycle: Cycle, a: seq<ProbeSignal>, b: seq<ProbeSignal>)
    requires DistinctIds(a) && DistinctIds(b)
    requires forall v | Admissible(policy, v, cycle) :: v in a <==> v in b
    ensures Aggregated(policy, cycle, a).decision == Aggregated(policy, cycle, b).decision
    ensures Aggregated(policy, cycle, a).failureClass == Aggregated(policy, cycle, b).failureClass
    ensures Aggregated(policy, cycle, a).signalIds == Aggregated(policy, cycle, b).signalIds
  {
    RejectedSignalsDoNotVote(policy, cycle, a, b);
  }

  // ---------- the loop ----------

  lemma FailuresFail(policy: Policy, votes: seq<ProbeSignal>)
    ensures forall v | v in Failures(policy, votes) :: IsFailure(policy, v)
  {
  }

  method AggregateHealthProbeCycle(policy: Policy, cycle: Cycle, signals: seq<ProbeSignal>) returns (r: CycleResult)
    ensures r == Aggregated(policy, cycle, signals)
  {
    hide InOrder, SignalRejectionReason, Hear, HearAll, Select, Successes, Failures, FirstConfirmed, OrderedIds, Ids;
    var votes, rejectedSignalIds, signalEvaluations := HearSignals(policy, cycle, InOrder(signals));
    var successes, failures := Successes(votes), Failures(policy, votes);
    FailuresFail(policy, votes);
    var decision, failureClass := Unknown, None;
    if |successes| > 0 && |failures| > 0 {
      decision := Mixed;
    } else {
      failureClass := ConfirmedFailureClass(policy, failures);
      if failureClass.Some? {
        decision := Failed;
      } else if policy.probeSourceQuorum <= |successes| {
        decision := Success;
      }
    }
    r := CycleResult(
      cycle.cycleStartedAt, decision, failureClass,
      OrderedIds(Ids(Select(IsRouteVote, votes))), OrderedIds(rejectedSignalIds), signalEvaluations,
      if decision.Mixed? then Some(cycle.cycleStartedAt + Milliseconds(policy.additionalProbeDelaySeconds)) else None);
  }

  // Hears the signals in order, and lets each vote that is admissible and independent of the votes before it.
  method HearSignals(policy: Policy, cycle: Cycle, orderedSignals: seq<ProbeSignal>)
    returns (votes: seq<ProbeSignal>, rejectedSignalIds: set<Id>, signalEvaluations: map<Id, Option<RejectionReason>>)
    ensures var t := HearAll(policy, cycle, orderedSignals);
            votes == t.votes && rejectedSignalIds == t.rejected && signalEvaluations == t.evaluations
  {
    hide SignalRejectionReason;
    var seenSignalIds: set<Id>, seenSourceIds: set<Id>, seenKeys: set<Id> := {}, {}, {};
    votes, rejectedSignalIds, signalEvaluations := [], {}, map[];
    for i := 0 to |orderedSignals|
      invariant HearAll(policy, cycle, orderedSignals[..i])
             == Tally(seenSignalIds, seenSourceIds, seenKeys, votes, rejectedSignalIds, signalEvaluations)
    {
      var signal := orderedSignals[i];
      assert orderedSignals[..i + 1][..i] == orderedSignals[..i];
      if signal.id in seenSignalIds {
        rejectedSignalIds := rejectedSignalIds + {signal.id};
        continue;
      }
      seenSignalIds := seenSignalIds + {signal.id};
      var rejectionReason := SignalRejectionReason(policy, signal, cycle);
      if rejectionReason.Some? {
        rejectedSignalIds := rejectedSignalIds + {signal.id};
        signalEvaluations := signalEvaluations[signal.id := rejectionReason];
        continue;
      }
      if signal.sourceId in seenSourceIds {
        rejectedSignalIds := rejectedSignalIds + {signal.id};
        signalEvaluations := signalEvaluations[signal.id := Some(DuplicateSource)];
        continue;
      }
      if signal.independenceKey in seenKeys {
        rejectedSignalIds := rejectedSignalIds + {signal.id};
        signalEvaluations := signalEvaluations[signal.id := Some(DuplicateIndependenceKey)];
        continue;
      }
      seenSourceIds := seenSourceIds + {signal.sourceId};
      seenKeys := seenKeys + {signal.independenceKey};
      votes := votes + [signal];
      signalEvaluations := signalEvaluations[signal.id := None];
    }
    assert orderedSignals[..|orderedSignals|] == orderedSignals;
  }

  lemma NoneOfAnyClass()
    ensures forall c :: OfClass(c, []) == []
  {
  }

  lemma OneMoreOfClass(failures: seq<ProbeSignal>, i: nat)
    requires i < |failures|
    ensures forall c :: OfClass(c, failures[..i + 1])
              == OfClass(c, failures[..i]) + if failures[i].failureClass == Some(c) then [failures[i]] else []
  {
    assert failures[..i + 1][..i] == failures[..i];
  }

  // Groups the failures by class, then looks for a quorum in the policy's order of classes.
  method ConfirmedFailureClass(policy: Policy, failures: seq<ProbeSignal>) returns (r: Option<FailureClass>)
    requires forall v | v in failures :: IsFailure(policy, v)
    ensures r == FirstConfirmed(policy, failures, policy.routeFailureClasses)
  {
    hide OfClass;
    NoneOfAnyClass();
    var failuresByClass: map<FailureClass, seq<ProbeSignal>> := map[];
    for i := 0 to |failures|
      invariant forall c :: OfClass(c, failures[..i]) == if c in failuresByClass then failuresByClass[c] else []
    {
      var signal := failures[i];
      assert signal in failures;
      var c := signal.failureClass.value;
      var matching := if c in failuresByClass then failuresByClass[c] else [];
      failuresByClass := failuresByClass[c := matching + [signal]];
      OneMoreOfClass(failures, i);
    }
    assert failures[..|failures|] == failures;
    var classes := policy.routeFailureClasses;
    for i := 0 to |classes|
      invariant FirstConfirmed(policy, failures, classes) == FirstConfirmed(policy, failures, classes[i..])
    {
      var count := if classes[i] in failuresByClass then |failuresByClass[classes[i]]| else 0;
      if policy.probeSourceQuorum <= count {
        return Some(classes[i]);
      }
      assert classes[i..][1..] == classes[i + 1..];
    }
    r := None;
  }
}
