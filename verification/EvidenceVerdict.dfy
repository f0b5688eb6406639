// What a recorded decision makes of the stored evidence: which results vote, what they come to, and what
// the state of the scope is afterwards, in terms of the tables and the request alone.
module EvidenceVerdict {
  import opened Basics
  import opened Queries
  import opened ProbeCycle
  import opened HealthDecision
  import opened HealthEvidence
  import P = ProbeVerdict
  import H = HealthHistory

  // ---------- which results vote ----------

  ghost predicate AcceptedBefore(t: Tables, i: Id) {
    exists d :: Link(d, i) in t.links && t.links[Link(d, i)] == None
  }

  // A result of this cycle and route from a healthy control, received in time and not accepted before.
  ghost predicate MayVote(policy: Policy, t: Tables, input: CycleInput, i: Id) {
    && i in t.results && !AcceptedBefore(t, i) && t.results[i].controlHealthy
    && t.results[i].routeVersion == input.routeVersion && t.results[i].cycleStartedAt == input.cycleStartedAt
    && input.cycleStartedAt <= t.results[i].receivedAt
    && t.results[i].receivedAt <= input.cycleStartedAt + 1000 * policy.resultFreshnessSeconds
  }

  ghost predicate IsHeardBefore(t: Tables, j: Id, i: Id)
    requires i in t.results && j in t.results
  {
    t.results[j].receivedAt < t.results[i].receivedAt || (t.results[j].receivedAt == t.results[i].receivedAt && j < i)
  }

  ghost predicate Independently(t: Tables, j: Id, i: Id)
    requires i in t.results && j in t.results
  {
    t.results[j].sourceId != t.results[i].sourceId && t.results[j].independenceKey != t.results[i].independenceKey
  }

  // The vote says what the stored result says.
  ghost predicate Reports(v: ProbeSignal, r: ProbeResult) {
    && v.sourceId == r.sourceId && v.independenceKey == r.independenceKey && v.receivedAt == r.receivedAt
    && v.outcome == r.outcome && v.failureClass == r.failureClass
  }

  ghost predicate Voted(votes: seq<ProbeSignal>, i: Id) {
    exists v :: v in votes && v.id == i
  }

  // One vote for each result that may vote and is independent of every vote heard before it.
  ghost predicate VotesOf(policy: Policy, t: Tables, input: CycleInput, votes: seq<ProbeSignal>)
    requires forall i | i in input.probeResultIds :: i in t.results
  {
    && DistinctIds(votes)
    && (forall v | v in votes :: v.id in input.probeResultIds && Reports(v, t.results[v.id]))
    && (forall i | i in input.probeResultIds :: Voted(votes, i) <==>
          && MayVote(policy, t, input, i)
          && forall v | v in votes && IsHeardBefore(t, v.id, i) :: Independently(t, v.id, i))
  }

  lemma DistinctSignals(t: Tables, input: CycleInput)
    requires input.Parses() && forall i | i in input.probeResultIds :: i in t.results
    ensures DistinctIds(Signals(t, input.probeResultIds))
    ensures forall s: ProbeSignal :: s in Signals(t, input.probeResultIds)
                        <==> s.id in input.probeResultIds && s == Signal(s.id, t.results[s.id])
  {
    var signals := Signals(t, input.probeResultIds);
    forall s: ProbeSignal | s.id in input.probeResultIds && s == Signal(s.id, t.results[s.id]) ensures s in signals {
      var k :| 0 <= k < |input.probeResultIds| && input.probeResultIds[k] == s.id;
      assert signals[k] == s;
    }
  }

  lemma ConsumedExactly(t: Tables, ids: seq<Id>, i: Id)
    requires i in ids
    ensures i in Consumed(t, ids) <==> AcceptedBefore(t, i)
  {
    if AcceptedBefore(t, i) {
      var d :| Link(d, i) in t.links && t.links[Link(d, i)] == None;
      assert Link(d, i).probeResultId in Consumed(t, ids);
    }
    if i in Consumed(t, ids) {
      var l :| l in t.links && t.links[l].None? && l.probeResultId in ids && l.probeResultId == i;
      assert l == Link(l.decisionId, i);
    }
  }

  lemma AdmitsResult(policy: Policy, t: Tables, input: CycleInput, version: Option<PolicyVersion>, at: int, i: Id)
    requires (forall j | j in input.probeResultIds :: j in t.results) && i in input.probeResultIds
    ensures P.Admits(policy, EvaluationOf(t, input, version, at).cycle, Signal(i, t.results[i]))
            <==> MayVote(policy, t, input, i)
  {
    hide AcceptedBefore, Consumed;
    ConsumedExactly(t, input.probeResultIds, i);
  }

  lemma EvidenceVotes(policy: Policy, t: Tables, input: CycleInput, version: Option<PolicyVersion>, at: int)
    requires input.Parses() && forall i | i in input.probeResultIds :: i in t.results
    ensures var e := EvaluationOf(t, input, version, at);
            DistinctIds(e.signals) && VotesOf(policy, t, input, Votes(policy, e.cycle, e.signals))
  {
    hide HearAll, InOrder, P.Admits, MayVote, Independent, EvaluationsFit, DistinctIds;
    var e := EvaluationOf(t, input, version, at);
    var votes := Votes(policy, e.cycle, e.signals);
    DistinctSignals(t, input);
    InOrderIsStrict(e.signals);
    HearAllFits(policy, e.cycle, InOrder(e.signals));
    assert forall v | v in votes :: v in e.signals;
    forall i | i in input.probeResultIds
      ensures Voted(votes, i) <==>
                && MayVote(policy, t, input, i)
                && forall v | v in votes && IsHeardBefore(t, v.id, i) :: Independently(t, v.id, i)
    {
      var s := Signal(i, t.results[i]);
      assert s in e.signals;
      P.VotesExactly(policy, e.cycle, e.signals, s);
      AdmitsResult(policy, t, input, version, at, i);
      assert Voted(votes, i) <==> s in votes;
      forall v | v in votes
        ensures Precedes(v, s) <==> IsHeardBefore(t, v.id, i)
        ensures Independently(t, v.id, i) <==>
                  v.sourceId != s.sourceId && v.independenceKey != s.independenceKey
      {
        assert v == Signal(v.id, t.results[v.id]);
      }
    }
  }

  // ---------- what the decision is ----------

  // What is evaluated is what was asked, at the instant of the evaluation.
  ghost predicate Evaluates(e: Evaluation, input: CycleInput, version: Option<PolicyVersion>, at: int) {
    && e.policy == version && e.evaluatedAt == at && e.lastHeartbeatAt == input.lastHeartbeatAt
    && e.recoveryGates == input.recoveryGates && e.criticalTrustFailure == input.criticalTrustFailure
    && e.cycle.cycleStartedAt == input.cycleStartedAt
  }

  // The evidence that the decision rests on, when a policy judges it.
  ghost predicate RestsOn(policy: Policy, t: Tables, input: CycleInput, d: Decision, votes: seq<ProbeSignal>)
    requires forall i | i in input.probeResultIds :: i in t.results
  {
    && VotesOf(policy, t, input, votes)
    && exists cycle :: d.cycle == Some(cycle) && P.Verdict(policy, votes, cycle.decision, cycle.failureClass)
  }

  lemma JudgedRests(policy: Policy, t: Tables, input: CycleInput, version: Option<PolicyVersion>, at: int,
                    s: HealthState)
    requires input.Parses() && forall i | i in input.probeResultIds :: i in t.results
    requires H.JudgedUnder(EvaluationOf(t, input, version, at), policy)
    ensures var e := EvaluationOf(t, input, version, at);
            var votes := Votes(policy, e.cycle, e.signals);
            && RestsOn(policy, t, input, Decided(e, s), votes)
            && forall i | i in input.probeResultIds ::
                 var verdicts := Verdicts(Decided(e, s), input.probeResultIds);
                 i in verdicts && (verdicts[i] == None <==> Voted(votes, i))
  {
    hide EvaluationOf, HearAll, InOrder, P.Verdict, VotesOf, Decided, Aggregated, Policy.Valid, P.Admits;
    var e := EvaluationOf(t, input, version, at);
    var votes := Votes(policy, e.cycle, e.signals);
    EvidenceVotes(policy, t, input, version, at);
    EvaluationsSignals(t, input, version, at);
    P.AggregatedTells(policy, e.cycle, e.signals);
    H.DecidedCycle(e, s);
    DistinctSignals(t, input);
    assert Decided(e, s).cycle == Some(Aggregated(policy, e.cycle, e.signals));
    forall i | i in input.probeResultIds
      ensures i in Verdicts(Decided(e, s), input.probeResultIds)
      ensures Verdicts(Decided(e, s), input.probeResultIds)[i] == None <==> Voted(votes, i)
    {
      var x := Signal(i, t.results[i]);
      assert x in e.signals && x.id == i;
      VoteIsOfResult(policy, t, input, e, votes, i);
    }
  }

  lemma EvaluationsSignals(t: Tables, input: CycleInput, version: Option<PolicyVersion>, at: int)
    requires forall i | i in input.probeResultIds :: i in t.results
    ensures EvaluationOf(t, input, version, at).signals == Signals(t, input.probeResultIds)
  {
  }

  lemma VoteIsOfResult(policy: Policy, t: Tables, input: CycleInput, e: Evaluation, votes: seq<ProbeSignal>, i: Id)
    requires forall j | j in input.probeResultIds :: j in t.results
    requires i in input.probeResultIds && votes == Votes(policy, e.cycle, e.signals)
    requires DistinctIds(e.signals) && e.signals == Signals(t, input.probeResultIds)
    requires forall s :: s in e.signals <==> s.id in input.probeResultIds && s == Signal(s.id, t.results[s.id])
    ensures Voted(votes, i) <==> Signal(i, t.results[i]) in votes
  {
    hide HearAll, InOrder, Independent, EvaluationsFit;
    InOrderIsStrict(e.signals);
    HearAllFits(policy, e.cycle, InOrder(e.signals));
    assert forall v | v in votes :: v in e.signals;
  }

  // What became of each result: a link without a reason exactly for those that voted.
  ghost predicate LinksTell(links: map<Link, Option<RejectionReason>>, id: Id, input: CycleInput,
                            votes: seq<ProbeSignal>)
  {
    forall i | i in input.probeResultIds ::
      Link(id, i) in links && (links[Link(id, i)] == None <==> Voted(votes, i))
  }

  lemma LinksOfDecision(t: Tables, input: CycleInput, expectedVersion: nat, d: Decision, i: Id)
    requires i in Verdicts(d, input.probeResultIds)
    ensures var links := WithDecision(t, input, expectedVersion, d).links;
            Link(t.nextId, i) in links && links[Link(t.nextId, i)] == Verdicts(d, input.probeResultIds)[i]
  {
    var verdicts := Verdicts(d, input.probeResultIds);
    assert Link(t.nextId, i) in NewLinks(t.nextId, verdicts);
  }

  // What the tables are told of a cycle that a policy judges: the votes it rests on, and each result's fate.
  ghost predicate JudgedTells(policy: Policy, t: Tables, after: Tables, input: CycleInput)
    requires t.nextId in after.decisions && forall i | i in input.probeResultIds :: i in t.results
  {
    exists votes :: RestsOn(policy, t, input, after.decisions[t.nextId].decision, votes)
                    && LinksTell(after.links, t.nextId, input, votes)
  }

  lemma JudgedIsTold(policy: Policy, t: Tables, input: CycleInput, expectedVersion: nat,
                     version: Option<PolicyVersion>, at: int, s: HealthState)
    requires input.Parses() && forall i | i in input.probeResultIds :: i in t.results
    requires H.JudgedUnder(EvaluationOf(t, input, version, at), policy)
    ensures JudgedTells(policy, t, WithDecision(t, input, expectedVersion,
                                                Decided(EvaluationOf(t, input, version, at), s)), input)
  {
    hide EvaluationOf, Votes, RestsOn, Decided, Verdicts, WithDecision, Voted;
    var e := EvaluationOf(t, input, version, at);
    var d, votes := Decided(e, s), Votes(policy, e.cycle, e.signals);
    JudgedRests(policy, t, input, version, at, s);
    forall i | i in input.probeResultIds
      ensures Link(t.nextId, i) in WithDecision(t, input, expectedVersion, d).links
      ensures WithDecision(t, input, expectedVersion, d).links[Link(t.nextId, i)] == None <==> Voted(votes, i)
    {
      LinksOfDecision(t, input, expectedVersion, d, i);
    }
    DecisionIsStored(t, input, expectedVersion, d);
  }

  lemma DecisionIsStored(t: Tables, input: CycleInput, expectedVersion: nat, d: Decision)
    ensures var after := WithDecision(t, input, expectedVersion, d);
            && t.nextId in after.decisions && after.decisions[t.nextId].decision == d
            && input.scope in after.states && after.states[input.scope] == StateRow(d.state, expectedVersion + 1)
  {
  }

  // Without a policy nothing is accepted, and every result is told so.
  ghost predicate NothingVoted(links: map<Link, Option<RejectionReason>>, id: Id, input: CycleInput) {
    forall i | i in input.probeResultIds ::
      Link(id, i) in links && links[Link(id, i)] == Some(PolicyUnavailableForSignal)
  }

  lemma UnjudgedIsTold(t: Tables, input: CycleInput, expectedVersion: nat, e: Evaluation, s: HealthState)
    requires forall policy :: !H.JudgedUnder(e, policy)
    ensures NothingVoted(WithDecision(t, input, expectedVersion, Decided(e, s)).links, t.nextId, input)
  {
    hide Decided, WithDecision, H.JudgedUnder;
    H.DecidedCycle(e, s);
    forall i | i in input.probeResultIds
      ensures var links := WithDecision(t, input, expectedVersion, Decided(e, s)).links;
              Link(t.nextId, i) in links && links[Link(t.nextId, i)] == Some(PolicyUnavailableForSignal)
    {
      LinksOfDecision(t, input, expectedVersion, Decided(e, s), i);
    }
  }

  lemma EvaluatesRequest(t: Tables, input: CycleInput, version: Option<PolicyVersion>, at: int)
    requires forall i | i in input.probeResultIds :: i in t.results
    ensures Evaluates(EvaluationOf(t, input, version, at), input, version, at)
  {
  }

  // The decision and the state row are those of the history that the evaluation continues.
  ghost predicate ContinuesHistory(run: seq<Evaluation>, e: Evaluation, t: Tables, after: Tables, input: CycleInput,
                                   version: nat)
  {
    && t.nextId in after.decisions && input.scope in after.states
    && after.states[input.scope] == StateRow(StateAfter(run + [e]), version)
    && H.Decides(run, e, after.decisions[t.nextId].decision)
  }

  lemma HistoryContinues(t: Tables, h: History, input: CycleInput, expectedVersion: nat, e: Evaluation)
    requires StatesFit(t.states, h)
    ensures var s := CurrentState(t, input.scope).state;
            ContinuesHistory(Evaluations(h, input.scope), e, t,
                             WithDecision(t, input, expectedVersion, Decided(e, s)), input, expectedVersion + 1)
  {
    hide StatesFit, Decided, H.Decides, StateAfter, WithDecision, CurrentState;
    var run := Evaluations(h, input.scope);
    CurrentStateFits(t, h, input.scope);
    DecisionIsStored(t, input, expectedVersion, Decided(e, StateAfter(run)));
    H.HistoryTells(run, e);
  }

  // Everything a recorded decision says: the evidence it rests on and what became of each result, the
  // condition its history puts the scope in, and the actions it asks for.
  lemma RecordedTells(t: Tables, h: History, input: CycleInput, expectedVersion: nat,
                      version: Option<PolicyVersion>, at: int)
    returns (e: Evaluation)
    requires Fits(t, h) && input.Parses() && Acceptable(t, input, expectedVersion, at)
    ensures Evaluates(e, input, version, at)
    ensures var after, run := Recorded(t, input, expectedVersion, version, at), Evaluations(h, input.scope);
            && ContinuesHistory(run, e, t, after, input, expectedVersion + 1)
            && (forall policy | H.JudgedUnder(e, policy) ::
                  t.nextId in after.decisions && JudgedTells(policy, t, after, input))
            && ((forall policy :: !H.JudgedUnder(e, policy)) ==> NothingVoted(after.links, t.nextId, input))
  {
    InputsAreStored(t, input, expectedVersion, at);
    hide DecisionsFit, CyclesIncrease, LinksFit, ResultsFit, IdsFit, StatesFit, Decided, ContinuesHistory,
         H.JudgedUnder, JudgedTells, Acceptable, WithDecision, CurrentState, Recorded, EvaluationOf, Evaluates,
         NothingVoted, Evaluations;
    e := EvaluationOf(t, input, version, at);
    EvaluatesRequest(t, input, version, at);
    var s := CurrentState(t, input.scope).state;
    RecordedIs(t, input, expectedVersion, version, at);
    HistoryContinues(t, h, input, expectedVersion, e);
    DecisionIsStored(t, input, expectedVersion, Decided(e, s));
    forall policy | H.JudgedUnder(e, policy)
      ensures JudgedTells(policy, t, WithDecision(t, input, expectedVersion, Decided(e, s)), input)
    {
      JudgedIsTold(policy, t, input, expectedVersion, version, at, s);
    }
    if forall policy :: !H.JudgedUnder(e, policy) {
      UnjudgedIsTold(t, input, expectedVersion, e, s);
    }
  }

  lemma InputsAreStored(t: Tables, input: CycleInput, expectedVersion: int, at: int)
    requires Acceptable(t, input, expectedVersion, at)
    ensures forall i | i in input.probeResultIds :: i in t.results
  {
  }
}
