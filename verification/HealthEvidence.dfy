// Probe results as evidence: each decision of a scope is recorded under the next
// version of its state, together with what it made of every probe result.
module HealthEvidence {
  import opened Basics
  import opened Queries
  import opened ProbeCycle
  import opened HealthDecision

  datatype ScopeKind = ProfileScope | EndpointScope | NodeScope | ProviderAsnScope

  datatype Scope = Scope(kind: ScopeKind, key: string)

  datatype ProbeResult = ProbeResult(
    scope: Scope,
    sourceId: Id,
    sourceResultId: string,
    independenceKey: Id,
    cycleStartedAt: int,
    receivedAt: int,
    routeVersion: int,
    outcome: ProbeOutcome,
    failureClass: Option<FailureClass>,
    controlHealthy: bool)

  datatype CycleInput = CycleInput(
    scope: Scope,
    routeVersion: int,
    cycleStartedAt: int,
    probeResultIds: seq<Id>,
    lastHeartbeatAt: Option<int>,
    recoveryGates: RecoveryGates,
    criticalTrustFailure: Option<Id>)
  {
    // The rules of the input schema that span its fields.
    predicate Parses() {
      && |probeResultIds| <= 32
      && (forall i, j | 0 <= i < j < |probeResultIds| :: probeResultIds[i] != probeResultIds[j])
      && (criticalTrustFailure.Some? ==> probeResultIds == [])
    }
  }

  // The hash of a request, injective; the order of its probe results is not part of it.
  datatype CycleKey = CycleKey(expectedVersion: int, input: CycleInput, probeResultIds: set<Id>)

  function KeyOf(input: CycleInput, expectedVersion: int): CycleKey {
    CycleKey(expectedVersion, input.(probeResultIds := []), Members(input.probeResultIds))
  }

  datatype StateRow = StateRow(state: HealthState, version: nat)

  datatype DecisionRow = DecisionRow(key: CycleKey, scope: Scope, stateVersion: nat, cycleStartedAt: Option<int>,
                                     decision: Decision)

  datatype Link = Link(decisionId: Id, probeResultId: Id)

  // A link without a reason for rejection is an accepted signal.
  datatype Tables = Tables(
    results: map<Id, ProbeResult>,
    states: map<Scope, StateRow>,
    decisions: map<Id, DecisionRow>,
    links: map<Link, Option<RejectionReason>>,
    nextId: Id)

  datatype Applied = Applied(decisionId: Id, stateVersion: nat, replayed: bool)

  datatype Attempt<T> = Done(value: T) | Refused

  // ---------- what every transaction keeps ----------

  type History = map<Scope, seq<Evaluation>>

  function Evaluations(h: History, s: Scope): seq<Evaluation> {
    if s in h then h[s] else []
  }

  // The stored state of a scope is the outcome of all its evaluations, and counts them.
  ghost predicate StatesFit(states: map<Scope, StateRow>, h: History) {
    && (forall s | s in states ::
          && states[s].version == |Evaluations(h, s)|
          && states[s].state == StateAfter(Evaluations(h, s)))
    && (forall s | s in h :: s in states)
  }

  ghost predicate DecisionFits(row: DecisionRow, run: seq<Evaluation>) {
    && 1 <= row.stateVersion <= |run|
    && row.decision == Decided(run[row.stateVersion - 1], StateAfter(run[..row.stateVersion - 1]))
    && row.cycleStartedAt == (if row.decision.cycle.Some? then Some(row.decision.cycle.value.cycleStartedAt) else None)
    && row.key.expectedVersion + 1 == row.stateVersion
    && row.key.input.scope == row.scope
  }

  ghost predicate HasDecision(decisions: map<Id, DecisionRow>, s: Scope, version: nat) {
    exists d :: d in decisions && decisions[d].scope == s && decisions[d].stateVersion == version
  }

  // Decisions are numbered consecutively within a scope, one for each version and each request.
  ghost predicate DecisionsFit(decisions: map<Id, DecisionRow>, h: History) {
    && (forall d | d in decisions :: DecisionFits(decisions[d], Evaluations(h, decisions[d].scope)))
    && (forall d, e | d in decisions && e in decisions
          && decisions[d].scope == decisions[e].scope
          && decisions[d].stateVersion == decisions[e].stateVersion :: d == e)
    && (forall d, e | d in decisions && e in decisions && decisions[d].key == decisions[e].key :: d == e)
    && (forall s, v: nat {:trigger HasDecision(decisions, s, v)} | 1 <= v <= |Evaluations(h, s)| ::
          HasDecision(decisions, s, v))
  }

  // Cycles of a scope are judged in the order in which they started.
  ghost predicate CyclesIncrease(decisions: map<Id, DecisionRow>) {
    forall d, e | d in decisions && e in decisions && decisions[d].scope == decisions[e].scope
      && decisions[d].stateVersion < decisions[e].stateVersion
      && decisions[d].cycleStartedAt.Some? && decisions[e].cycleStartedAt.Some? ::
      decisions[d].cycleStartedAt.value < decisions[e].cycleStartedAt.value
  }

  predicate Accepts(t: Tables, l: Link) {
    l in t.links && t.links[l].None?
  }

  // No probe result is accepted twice, and none for another scope.
  ghost predicate LinksFit(t: Tables) {
    && (forall l, m | Accepts(t, l) && Accepts(t, m) && l.probeResultId == m.probeResultId :: l == m)
    && (forall l | l in t.links ::
          && l.decisionId in t.decisions
          && l.probeResultId in t.results
          && t.results[l.probeResultId].scope == t.decisions[l.decisionId].scope)
  }

  // A source reports each of its results once.
  ghost predicate ResultsFit(results: map<Id, ProbeResult>) {
    forall i, j | i in results && j in results && results[i].sourceId == results[j].sourceId
      && results[i].sourceResultId == results[j].sourceResultId :: i == j
  }

  ghost predicate IdsFit(t: Tables) {
    && (forall d | d in t.decisions :: d < t.nextId)
    && (forall i | i in t.results :: i < t.nextId)
  }

  ghost predicate Fits(t: Tables, h: History) {
    && IdsFit(t) && ResultsFit(t.results)
    && StatesFit(t.states, h) && DecisionsFit(t.decisions, h) && CyclesIncrease(t.decisions) && LinksFit(t)
  }

  ghost predicate Continues(h: History, k: History) {
    forall s :: Evaluations(h, s) <= Evaluations(k, s)
  }

  // Quarantine, once stored, is stored for good.
  lemma StoredQuarantineIsFinal(a: Tables, h: History, b: Tables, k: History, s: Scope)
    requires Fits(a, h) && Fits(b, k) && Extends(a, b) && Continues(h, k)
    requires s in a.states && a.states[s].state.status.QuarantinedStatus?
    ensures s in b.states && b.states[s].state.status.QuarantinedStatus?
  {
    hide DecisionsFit, CyclesIncrease, LinksFit, ResultsFit, Step, StateAfter;
    var before, after := Evaluations(h, s), Evaluations(k, s);
    assert after[..|before|] == before;
    QuarantineIsAbsorbing(after, |before|);
  }

  // Evidence is only ever added.
  ghost predicate Extends(a: Tables, b: Tables) {
    && (forall r | r in a.results :: r in b.results && b.results[r] == a.results[r])
    && (forall d | d in a.decisions :: d in b.decisions && b.decisions[d] == a.decisions[d])
    && (forall l | l in a.links :: l in b.links && b.links[l] == a.links[l])
    && (forall s | s in a.states :: s in b.states && a.states[s].version <= b.states[s].version)
  }

  // ---------- one evaluation of stored evidence ----------

  function Signal(id: Id, r: ProbeResult): ProbeSignal {
    ProbeSignal(id, r.sourceId, r.independenceKey, r.cycleStartedAt, r.receivedAt, true, r.controlHealthy,
                r.routeVersion, r.outcome, r.failureClass)
  }

  function Signals(t: Tables, ids: seq<Id>): (r: seq<ProbeSignal>)
    requires forall i | i in ids :: i in t.results
    ensures |r| == |ids| && forall i | 0 <= i < |ids| :: r[i] == Signal(ids[i], t.results[ids[i]])
  {
    seq(|ids|, i requires 0 <= i < |ids| => assert ids[i] in ids; Signal(ids[i], t.results[ids[i]]))
  }

  function Consumed(t: Tables, ids: seq<Id>): set<Id> {
    set l | l in t.links && t.links[l].None? && l.probeResultId in ids :: l.probeResultId
  }

  function EvaluationOf(t: Tables, input: CycleInput, policy: Option<PolicyVersion>, evaluatedAt: int): Evaluation
    requires forall i | i in input.probeResultIds :: i in t.results
  {
    Evaluation(policy, Cycle(input.cycleStartedAt, input.routeVersion, Consumed(t, input.probeResultIds)), evaluatedAt,
               Signals(t, input.probeResultIds), input.lastHeartbeatAt, input.recoveryGates, input.criticalTrustFailure)
  }

  // What the decision made of each probe result.
  function Verdicts(d: Decision, ids: seq<Id>): map<Id, Option<RejectionReason>> {
    if d.cycle.Some? then d.cycle.value.signalEvaluations
    else map i | i in ids :: Some(PolicyUnavailableForSignal)
  }

  function PreviousCycles(t: Tables, s: Scope): set<Id> {
    set d | d in t.decisions && t.decisions[d].scope == s && t.decisions[d].cycleStartedAt.Some?
  }

  // The state row of a scope; a scope not seen before starts unknown and excluded.
  function CurrentState(t: Tables, s: Scope): StateRow {
    if s in t.states then t.states[s] else StateRow(INITIAL, 0)
  }

  ghost predicate IsDecided(t: Tables, key: CycleKey) {
    exists d :: d in t.decisions && t.decisions[d].key == key
  }

  function DecisionsWithKey(t: Tables, key: CycleKey): set<Id> {
    set d | d in t.decisions && t.decisions[d].key == key
  }

  lemma IsDecidedExactly(t: Tables, key: CycleKey)
    ensures var replay := First(DecisionsWithKey(t, key));
            && (replay.Some? <==> IsDecided(t, key))
            && (replay.Some? ==> replay.value in t.decisions && t.decisions[replay.value].key == key)
    ensures !IsDecided(t, key) ==> forall d | d in t.decisions :: t.decisions[d].key != key
  {
    assert forall d | d in t.decisions && t.decisions[d].key == key :: d in DecisionsWithKey(t, key);
    assert First(DecisionsWithKey(t, key)).Some? ==> First(DecisionsWithKey(t, key)).value in DecisionsWithKey(t, key);
  }

  predicate Acceptable(t: Tables, input: CycleInput, expectedVersion: int, evaluatedAt: int) {
    && CurrentState(t, input.scope).version == expectedVersion
    && input.cycleStartedAt <= evaluatedAt
    && (input.lastHeartbeatAt.Some? ==> input.lastHeartbeatAt.value <= evaluatedAt)
    && (input.criticalTrustFailure.None? ==> forall d | d in PreviousCycles(t, input.scope) ::
          t.decisions[d].cycleStartedAt.value < input.cycleStartedAt)
    && (forall i | i in input.probeResultIds :: i in t.results && t.results[i].scope == input.scope)
  }

  function Recorded(t: Tables, input: CycleInput, expectedVersion: nat, policy: Option<PolicyVersion>,
                    evaluatedAt: int): Tables
    requires Acceptable(t, input, expectedVersion, evaluatedAt)
  {
    var e := EvaluationOf(t, input, policy, evaluatedAt);
    var d := Decided(e, CurrentState(t, input.scope).state);
    WithDecision(t, input, expectedVersion, d)
  }

  function NewLinks(decisionId: Id, verdicts: map<Id, Option<RejectionReason>>): map<Link, Option<RejectionReason>> {
    map i | i in verdicts :: Link(decisionId, i) := verdicts[i]
  }

  function WithDecision(t: Tables, input: CycleInput, expectedVersion: nat, d: Decision): Tables {
    var verdicts := Verdicts(d, input.probeResultIds);
    t.(states := t.states[input.scope := StateRow(d.state, expectedVersion + 1)],
       decisions := t.decisions[t.nextId := DecisionRow(
         KeyOf(input, expectedVersion), input.scope, expectedVersion + 1,
         if d.cycle.Some? then Some(d.cycle.value.cycleStartedAt) else None, d)],
       links := t.links + NewLinks(t.nextId, verdicts),
       nextId := t.nextId + 1)
  }

  // A probe result that a decision accepts was among its inputs and had not been accepted before.
  lemma AcceptedIsFresh(t: Tables, input: CycleInput, policy: Option<PolicyVersion>, evaluatedAt: int, s: HealthState,
                        i: Id)
    requires forall i | i in input.probeResultIds :: i in t.results
    ensures var d := Decided(EvaluationOf(t, input, policy, evaluatedAt), s);
            var verdicts := Verdicts(d, input.probeResultIds);
            && (i in verdicts <==> i in input.probeResultIds)
            && (i in verdicts && verdicts[i].None? ==> i !in Consumed(t, input.probeResultIds))
  {
    var e := EvaluationOf(t, input, policy, evaluatedAt);
    if OutcomeOf(e).Judged? {
      var config := policy.value.config;
      var heard := InOrder(e.signals);
      var tally := HearAll(config, e.cycle, heard);
      HearAllFits(config, e.cycle, heard);
      SortByIsAPermutation(SignalId, e.signals);
      SortByIsAPermutation(ReceivedAt, SortBy(SignalId, e.signals));
      SameMembers(heard, e.signals);
      SameMembersSameIds(heard, e.signals);
      IdsOfSignals(t, input.probeResultIds);
      if i in tally.evaluations && tally.evaluations[i].None? {
        assert i in Ids(tally.votes);
        var v :| v in tally.votes && v.id == i;
        assert Admissible(config, v, e.cycle);
      }
    }
  }

  lemma SameMembersSameIds(a: seq<ProbeSignal>, b: seq<ProbeSignal>)
    requires forall y :: y in a <==> y in b
    ensures Ids(a) == Ids(b)
  {
  }

  lemma IdsOfSignals(t: Tables, ids: seq<Id>)
    requires forall i | i in ids :: i in t.results
    ensures Ids(Signals(t, ids)) == Members(ids)
  {
  }

  // ---------- recording keeps the evidence in order ----------

  function WithEvaluation(h: History, s: Scope, e: Evaluation): History {
    h[s := Evaluations(h, s) + [e]]
  }

  lemma CurrentStateFits(t: Tables, h: History, s: Scope)
    requires StatesFit(t.states, h)
    ensures CurrentState(t, s) == StateRow(StateAfter(Evaluations(h, s)), |Evaluations(h, s)|)
  {
  }

  lemma StatesStillFit(states: map<Scope, StateRow>, h: History, s: Scope, e: Evaluation, row: StateRow)
    requires StatesFit(states, h)
    requires row.version == |Evaluations(h, s)| + 1 && row.state == Step(e, StateAfter(Evaluations(h, s))).0
    ensures StatesFit(states[s := row], WithEvaluation(h, s, e))
  {
    hide Step;
    var run := Evaluations(h, s) + [e];
    assert run[..|run| - 1] == Evaluations(h, s);
  }

  lemma DecisionStillFits(row: DecisionRow, run: seq<Evaluation>, e: Evaluation)
    requires DecisionFits(row, run)
    ensures DecisionFits(row, run + [e])
  {
    assert (run + [e])[..row.stateVersion - 1] == run[..row.stateVersion - 1];
  }

  lemma DecisionsStillFit(decisions: map<Id, DecisionRow>, h: History, id: Id, row: DecisionRow, e: Evaluation)
    requires DecisionsFit(decisions, h) && id !in decisions
    requires row.stateVersion == |Evaluations(h, row.scope)| + 1
    requires DecisionFits(row, Evaluations(h, row.scope) + [e])
    requires forall d | d in decisions :: decisions[d].key != row.key
    ensures DecisionsFit(decisions[id := row], WithEvaluation(h, row.scope, e))
  {
    hide DecisionFits;
    var after, more := decisions[id := row], WithEvaluation(h, row.scope, e);
    forall d | d in after ensures DecisionFits(after[d], Evaluations(more, after[d].scope)) {
      if d != id && after[d].scope == row.scope {
        DecisionStillFits(decisions[d], Evaluations(h, row.scope), e);
      }
    }
    forall d | d in decisions ensures decisions[d].stateVersion <= |Evaluations(h, decisions[d].scope)| {
      DecisionIsCounted(decisions[d], Evaluations(h, decisions[d].scope));
    }
    forall s: Scope, v: nat | 1 <= v <= |Evaluations(more, s)| ensures HasDecision(after, s, v) {
      if s == row.scope && v == row.stateVersion {
        assert after[id] == row;
      } else {
        assert HasDecision(decisions, s, v);
        var d :| d in decisions && decisions[d].scope == s && decisions[d].stateVersion == v;
        assert after[d] == decisions[d];
      }
    }
  }

  lemma DecisionIsCounted(row: DecisionRow, run: seq<Evaluation>)
    requires DecisionFits(row, run)
    ensures 1 <= row.stateVersion <= |run| && row.key.expectedVersion + 1 == row.stateVersion
    ensures row.key.input.scope == row.scope
  {
  }

  lemma CyclesStillIncrease(decisions: map<Id, DecisionRow>, h: History, id: Id, row: DecisionRow)
    requires DecisionsFit(decisions, h) && CyclesIncrease(decisions) && id !in decisions
    requires row.stateVersion == |Evaluations(h, row.scope)| + 1
    requires row.cycleStartedAt.Some? ==> forall d | d in decisions && decisions[d].scope == row.scope
               && decisions[d].cycleStartedAt.Some? :: decisions[d].cycleStartedAt.value < row.cycleStartedAt.value
    ensures CyclesIncrease(decisions[id := row])
  {
  }

  lemma LinksStillFit(t: Tables, after: Tables, input: CycleInput, verdicts: map<Id, Option<RejectionReason>>)
    requires LinksFit(t) && t.nextId !in t.decisions
    requires after.results == t.results && t.nextId in after.decisions
    requires after.decisions == t.decisions[t.nextId := after.decisions[t.nextId]]
    requires after.decisions[t.nextId].scope == input.scope
    requires after.links == t.links + NewLinks(t.nextId, verdicts)
    requires forall i | i in verdicts ::
             i in input.probeResultIds && i in t.results && t.results[i].scope == input.scope
    requires forall i | i in verdicts && verdicts[i].None? :: i !in Consumed(t, input.probeResultIds)
    ensures LinksFit(after)
    ensures forall l | l in t.links :: l in after.links && after.links[l] == t.links[l]
  {
    forall l | l in after.links
      ensures if l.decisionId == t.nextId
              then l.probeResultId in verdicts && after.links[l] == verdicts[l.probeResultId]
              else l in t.links && after.links[l] == t.links[l]
    {
      if l in t.links {
        assert l.decisionId in t.decisions;
      }
    }
    forall l | l in t.links && Accepts(after, l)
      ensures Accepts(t, l)
      ensures l.probeResultId in input.probeResultIds ==> l.probeResultId in Consumed(t, input.probeResultIds)
    {
    }
    forall l | l in t.links ensures l in after.links && after.links[l] == t.links[l] {
      assert l.decisionId != t.nextId;
    }
  }

  lemma DecidedState(e: Evaluation, s: HealthState)
    ensures Decided(e, s).state == Step(e, s).0
    ensures Decided(e, s).cycle.Some? ==>
              Decided(e, s).cycle.value.cycleStartedAt == e.cycle.cycleStartedAt && e.criticalTrustFailure.None?
  {
    hide Step;
  }

  lemma WithDecisionExtends(t: Tables, input: CycleInput, expectedVersion: nat, d: Decision)
    requires t.nextId !in t.decisions && LinksFit(t) && CurrentState(t, input.scope).version == expectedVersion
    ensures Extends(t, WithDecision(t, input, expectedVersion, d))
  {
  }

  // A decision judges the evaluation of its scope's current state, on evidence not accepted before.
  ghost predicate Judges(t: Tables, h: History, input: CycleInput, expectedVersion: nat, e: Evaluation, d: Decision) {
    && CurrentState(t, input.scope) == StateRow(StateAfter(Evaluations(h, input.scope)), expectedVersion)
    && |Evaluations(h, input.scope)| == expectedVersion
    && d == Decided(e, StateAfter(Evaluations(h, input.scope)))
    && e.criticalTrustFailure == input.criticalTrustFailure
    && e.cycle.cycleStartedAt == input.cycleStartedAt
    && (input.criticalTrustFailure.None? ==> forall x | x in PreviousCycles(t, input.scope) ::
          t.decisions[x].cycleStartedAt.value < input.cycleStartedAt)
    && (forall x | x in t.decisions :: t.decisions[x].key != KeyOf(input, expectedVersion))
    && (forall i | i in Verdicts(d, input.probeResultIds) ::
          && i in input.probeResultIds && i in t.results && t.results[i].scope == input.scope
          && (Verdicts(d, input.probeResultIds)[i].None? ==> i !in Consumed(t, input.probeResultIds)))
  }

  function NewRow(input: CycleInput, expectedVersion: nat, d: Decision): DecisionRow {
    DecisionRow(KeyOf(input, expectedVersion), input.scope, expectedVersion + 1,
                if d.cycle.Some? then Some(d.cycle.value.cycleStartedAt) else None, d)
  }

  lemma NewStateFits(t: Tables, h: History, input: CycleInput, expectedVersion: nat, e: Evaluation, d: Decision)
    requires StatesFit(t.states, h) && Judges(t, h, input, expectedVersion, e, d)
    ensures StatesFit(t.states[input.scope := StateRow(d.state, expectedVersion + 1)],
                      WithEvaluation(h, input.scope, e))
  {
    hide StatesFit, Decided, Verdicts, Consumed, WithEvaluation, Step, StateAfter, KeyOf;
    DecidedState(e, StateAfter(Evaluations(h, input.scope)));
    StatesStillFit(t.states, h, input.scope, e, StateRow(d.state, expectedVersion + 1));
  }

  lemma NewDecisionsFit(t: Tables, h: History, input: CycleInput, expectedVersion: nat, e: Evaluation, d: Decision)
    requires DecisionsFit(t.decisions, h) && CyclesIncrease(t.decisions) && t.nextId !in t.decisions
    requires Judges(t, h, input, expectedVersion, e, d)
    ensures DecisionsFit(t.decisions[t.nextId := NewRow(input, expectedVersion, d)], WithEvaluation(h, input.scope, e))
    ensures CyclesIncrease(t.decisions[t.nextId := NewRow(input, expectedVersion, d)])
  {
    hide DecisionsFit, CyclesIncrease, Decided, Verdicts, Consumed, WithEvaluation, Step, StateAfter, KeyOf,
      PreviousCycles, Evaluations, DecisionFits;
    var row := NewRow(input, expectedVersion, d);
    DecidedState(e, StateAfter(Evaluations(h, input.scope)));
    NewDecisionFits(input, expectedVersion, e, Evaluations(h, input.scope), row, d);
    DecisionsStillFit(t.decisions, h, t.nextId, row, e);
    PreviousCyclesExactly(t, input.scope);
    CyclesStillIncrease(t.decisions, h, t.nextId, row);
  }

  lemma NewIdsFit(t: Tables, input: CycleInput, expectedVersion: nat, d: Decision)
    requires IdsFit(t)
    ensures IdsFit(WithDecision(t, input, expectedVersion, d)) && t.nextId !in t.decisions
  {
  }

  lemma WithDecisionFits(t: Tables, h: History, input: CycleInput, expectedVersion: nat, e: Evaluation, d: Decision)
    requires Fits(t, h) && Judges(t, h, input, expectedVersion, e, d)
    ensures Fits(WithDecision(t, input, expectedVersion, d), WithEvaluation(h, input.scope, e))
  {
    NewIdsFit(t, input, expectedVersion, d);
    NewStateFits(t, h, input, expectedVersion, e, d);
    NewDecisionsFit(t, h, input, expectedVersion, e, d);
    hide IdsFit, ResultsFit, StatesFit, DecisionsFit, CyclesIncrease, LinksFit, Decided, Verdicts, WithEvaluation,
      KeyOf, Consumed, Evaluations, StateAfter, Step, CurrentState, PreviousCycles, NewLinks;
    var after := WithDecision(t, input, expectedVersion, d);
    assert after.decisions == t.decisions[t.nextId := NewRow(input, expectedVersion, d)];
    LinksStillFit(t, after, input, Verdicts(d, input.probeResultIds));
  }

  lemma PreviousCyclesExactly(t: Tables, s: Scope)
    ensures forall d :: d in PreviousCycles(t, s) <==>
              d in t.decisions && t.decisions[d].scope == s && t.decisions[d].cycleStartedAt.Some?
  {
  }

  lemma RecordedFits(t: Tables, h: History, input: CycleInput, expectedVersion: nat, policy: Option<PolicyVersion>,
                     evaluatedAt: int)
    requires Fits(t, h) && Acceptable(t, input, expectedVersion, evaluatedAt)
    requires forall d | d in t.decisions :: t.decisions[d].key != KeyOf(input, expectedVersion)
    ensures Fits(Recorded(t, input, expectedVersion, policy, evaluatedAt),
                 WithEvaluation(h, input.scope, EvaluationOf(t, input, policy, evaluatedAt)))
    ensures Extends(t, Recorded(t, input, expectedVersion, policy, evaluatedAt))
  {
    hide StatesFit, DecisionsFit, CyclesIncrease, LinksFit, Decided, EvaluationOf, Verdicts, WithEvaluation, KeyOf,
      WithDecision, PreviousCycles, Consumed, Extends;
    var e := EvaluationOf(t, input, policy, evaluatedAt);
    var d := Decided(e, CurrentState(t, input.scope).state);
    EvaluationStarts(t, input, policy, evaluatedAt);
    forall i
      ensures i in Verdicts(d, input.probeResultIds) ==>
                && i in input.probeResultIds
                && (Verdicts(d, input.probeResultIds)[i].None? ==> i !in Consumed(t, input.probeResultIds))
    {
      AcceptedIsFresh(t, input, policy, evaluatedAt, CurrentState(t, input.scope).state, i);
    }
    CurrentStateFits(t, h, input.scope);
    WithDecisionFits(t, h, input, expectedVersion, e, d);
    WithDecisionExtends(t, input, expectedVersion, d);
  }

  lemma EvaluationStarts(t: Tables, input: CycleInput, policy: Option<PolicyVersion>, evaluatedAt: int)
    requires forall i | i in input.probeResultIds :: i in t.results
    ensures EvaluationOf(t, input, policy, evaluatedAt).cycle.cycleStartedAt == input.cycleStartedAt
    ensures EvaluationOf(t, input, policy, evaluatedAt).criticalTrustFailure == input.criticalTrustFailure
  {
  }

  lemma NewDecisionFits(
      input: CycleInput, expectedVersion: nat, e: Evaluation, run: seq<Evaluation>, row: DecisionRow, d: Decision)
    requires |run| == expectedVersion && d == Decided(e, StateAfter(run))
    requires row == DecisionRow(KeyOf(input, expectedVersion), input.scope, expectedVersion + 1,
                      if d.cycle.Some? then Some(d.cycle.value.cycleStartedAt) else None, d)
    ensures DecisionFits(row, run + [e])
  {
    hide Decided;
    assert (run + [e])[..|run|] == run;
  }

  // ---------- the store ----------

  class PrismaHealthEvidenceStore {
    var tables: Tables
    ghost var history: History

    ghost predicate Valid()
      reads this
    {
      Fits(tables, history)
    }

    constructor ()
      ensures Valid() && tables == Tables(map[], map[], map[], map[], 0)
    {
      tables := Tables(map[], map[], map[], map[], 0);
      history := map[];
    }

    // Judges a cycle of a scope and records the decision, if the caller knows the current
    // version; a request already decided is answered from its record. serialized tells that
    // the transaction does not lose to a concurrent one.
    method EvaluateAndApplyDecision(
        input: CycleInput, expectedVersion: int, policy: Option<PolicyVersion>, evaluatedAt: int, serialized: bool)
      returns (r: Attempt<Applied>)
      requires Valid()
      modifies this
      ensures r.Done? <==>
                && input.Parses() && expectedVersion >= 0 && serialized
                && (IsDecided(old(tables), KeyOf(input, expectedVersion))
                    || Acceptable(old(tables), input, expectedVersion, evaluatedAt))
      ensures Valid() && Extends(old(tables), tables) && Continues(old(history), history)
      ensures r.Refused? ==> tables == old(tables) && history == old(history)
      ensures r.Done? ==>
                && r.value.decisionId in tables.decisions
                && tables.decisions[r.value.decisionId].key == KeyOf(input, expectedVersion)
                && tables.decisions[r.value.decisionId].stateVersion == r.value.stateVersion
                && r.value.stateVersion == expectedVersion + 1
      ensures r.Done? && r.value.replayed ==> tables == old(tables) && history == old(history)
      ensures r.Done? && !r.value.replayed ==>
                && expectedVersion >= 0 && Acceptable(old(tables), input, expectedVersion, evaluatedAt)
                && tables == Recorded(old(tables), input, expectedVersion, policy, evaluatedAt)
      ensures r.Done? ==> (r.value.replayed <==> IsDecided(old(tables), KeyOf(input, expectedVersion)))
    {
      hide Fits, Extends, Recorded, KeyOf, EvaluationOf, IsDecided, DecisionsWithKey, Decided, CurrentState,
        PreviousCycles, CycleInput.Parses, Verdicts, NewLinks, Consumed;
      var t := tables;
      ExtendsItself(t);
      if !input.Parses() || expectedVersion < 0 || !serialized {
        return Refused;
      }
      var key := KeyOf(input, expectedVersion);
      var replay := First(DecisionsWithKey(t, key));
      IsDecidedExactly(t, key);
      if replay.Some? {
        KeyTellsVersion(t, history, replay.value, input, expectedVersion);
        return Done(Applied(replay.value, t.decisions[replay.value].stateVersion, true));
      }
      var current := CurrentState(t, input.scope);
      if current.version != expectedVersion {
        return Refused;
      }
      if evaluatedAt < input.cycleStartedAt {
        return Refused;
      }
      if input.lastHeartbeatAt.Some? && evaluatedAt < input.lastHeartbeatAt.value {
        return Refused;
      }
      if input.criticalTrustFailure.None? {
        var newer := IsNewerThanPrevious(input.scope, input.cycleStartedAt);
        if !newer {
          return Refused;
        }
      }
      if exists i | i in input.probeResultIds :: i !in t.results || t.results[i].scope != input.scope {
        return Refused;
      }
      var e := EvaluationOf(t, input, policy, evaluatedAt);
      var decision := EvaluateHealthCycle(e, current.state);
      RecordedFits(t, history, input, expectedVersion, policy, evaluatedAt);
      RecordedIs(t, input, expectedVersion, policy, evaluatedAt);
      tables := WithDecision(t, input, expectedVersion, decision);
      history := WithEvaluation(history, input.scope, e);
      r := Done(Applied(t.nextId, expectedVersion + 1, false));
    }

    // Stores a result that an active source reports; the same report again finds the stored one.
    method RecordProbeResult(report: ProbeResult, independenceKey: Option<Id>, now: int)
      returns (r: Attempt<(Id, bool)>)
      requires Valid()
      modifies this`tables
      ensures Valid() && Extends(old(tables), tables)
      ensures r.Refused? ==> tables == old(tables)
      ensures r.Done? ==>
                && r.value.0 in tables.results
                && Agree(tables.results[r.value.0], report)
      ensures r.Done? <==>
                && (report.outcome.ProbeFailure? <==> report.failureClass.Some?)
                && (if Reported(old(tables), report)
                    then exists i :: i in old(tables).results && Agree(old(tables).results[i], report)
                    else independenceKey.Some?)
      ensures r.Done? ==> (r.value.1 <==> Reported(old(tables), report))
      ensures r.Done? && r.value.1 ==> r.value.0 in old(tables).results && tables == old(tables)
      ensures r.Done? && !r.value.1 ==>
                && independenceKey.Some?
                && r.value.0 !in old(tables).results
                && tables == old(tables).(
                     results := old(tables).results[r.value.0 :=
                       report.(independenceKey := independenceKey.value, receivedAt := now)],
                     nextId := old(tables).nextId + 1)
    {
      hide StatesFit, DecisionsFit, CyclesIncrease, LinksFit, ResultsFit, SameReport, Agree;
      var t := tables;
      ExtendsItself(t);
      if report.outcome.ProbeFailure? != report.failureClass.Some? {
        return Refused;
      }
      var same := set i | i in t.results && t.results[i].sourceId == report.sourceId
                          && t.results[i].sourceResultId == report.sourceResultId;
      var existing := First(same);
      assert existing.Some? ==> existing.value in same;
      assert existing.Some? <==> Reported(t, report) by {
        if i :| && i in t.results && t.results[i].sourceId == report.sourceId
                && t.results[i].sourceResultId == report.sourceResultId {
          assert i in same;
        }
      }
      if existing.Some? {
        OneResultPerReport(t, report, existing.value);
        return if SameReport(t.results[existing.value], report) then Done((existing.value, true)) else Refused;
      }
      assert forall i | i in t.results && t.results[i].sourceId == report.sourceId
                        && t.results[i].sourceResultId == report.sourceResultId :: i in same;
      // A probe source's key comes from its row; there is none when the source is not active.
      if independenceKey.None? {
        return Refused;
      }
      var row := report.(independenceKey := independenceKey.value, receivedAt := now);
      tables := t.(results := t.results[t.nextId := row], nextId := t.nextId + 1);
      ResultsStillFit(t.results, t.nextId, row);
      StoredAgrees(row, report);
      LinksFitWithMoreResults(t, tables);
      r := Done((t.nextId, false));
    }

    // Compares with the start of the scope's latest judged cycle.
    method IsNewerThanPrevious(scope: Scope, cycleStartedAt: int) returns (newer: bool)
      requires Valid()
      ensures newer <==> forall d | d in PreviousCycles(tables, scope) ::
                tables.decisions[d].cycleStartedAt.value < cycleStartedAt
    {
      hide StatesFit, LinksFit, DecisionsFit, CyclesIncrease;
      var previous := PreviousCycles(tables, scope);
      var versions := Ordered(set d | d in previous :: tables.decisions[d].stateVersion);
      forall d | d in previous ensures tables.decisions[d].stateVersion in versions {
      }
      if versions == [] {
        return true;
      }
      var latest := versions[|versions| - 1];
      assert latest in versions;
      var candidates := set d | d in previous && tables.decisions[d].stateVersion == latest;
      var row := First(candidates);
      assert candidates != {} by {
        var d :| d in previous && tables.decisions[d].stateVersion == latest;
        assert d in candidates;
      }
      assert row.value in candidates;
      newer := tables.decisions[row.value].cycleStartedAt.value < cycleStartedAt;
      LatestStartedLast(tables, history, scope, row.value);
    }

    // Any request to the store.
    method Serve(request: Request)
      requires Valid()
      modifies this
      ensures Valid() && Extends(old(tables), tables)
    {
      hide Fits, Recorded, KeyOf, Extends;
      match request
      case Judge(input, expectedVersion, policy, evaluatedAt, serialized) =>
        var r := EvaluateAndApplyDecision(input, expectedVersion, policy, evaluatedAt, serialized);
      case Report(report, independenceKey, now) =>
        var r := RecordProbeResult(report, independenceKey, now);
    }

    // Asking again, whatever was decided and reported in between, finds the same decision and changes nothing.
    method AskAgain(
        input: CycleInput, expectedVersion: int, policy: Option<PolicyVersion>, evaluatedAt: int,
        serialized: bool, later: Option<PolicyVersion>, laterAt: int, between: seq<Request>)
      returns (first: Attempt<Applied>, second: Attempt<Applied>, ghost before: Tables)
      requires Valid()
      modifies this
      ensures Valid() && Extends(old(tables), before) && Extends(before, tables)
      ensures first.Done? ==> second == Done(first.value.(replayed := true)) && tables == before
    {
      hide Fits, Recorded, KeyOf, Extends;
      first := EvaluateAndApplyDecision(input, expectedVersion, policy, evaluatedAt, serialized);
      ghost var decided, decidedHistory := tables, history;
      ExtendsItself(tables);
      for i := 0 to |between|
        invariant Valid() && Extends(decided, tables)
      {
        ghost var previous := tables;
        Serve(between[i]);
        ExtendsOnwards(decided, previous, tables);
      }
      before := tables;
      ExtendsOnwards(old(tables), decided, before);
      if first.Done? {
        AnsweredForGood(decided, tables, history, input, expectedVersion, first.value.decisionId);
      }
      second := EvaluateAndApplyDecision(input, expectedVersion, later, laterAt, true);
    }
  }

  // What a caller may ask of the store.
  datatype Request =
    | Judge(input: CycleInput, expectedVersion: int, policy: Option<PolicyVersion>, evaluatedAt: int, serialized: bool)
    | Report(report: ProbeResult, independenceKey: Option<Id>, now: int)

  // A request once decided stays decided, by the same decision and no other, in every later state.
  lemma AnsweredForGood(now: Tables, later: Tables, h: History, input: CycleInput, expectedVersion: int, id: Id)
    requires Fits(later, h) && Extends(now, later)
    requires id in now.decisions && now.decisions[id].key == KeyOf(input, expectedVersion)
    ensures IsDecided(later, KeyOf(input, expectedVersion)) && later.decisions[id] == now.decisions[id]
    ensures forall d | d in later.decisions && later.decisions[d].key == KeyOf(input, expectedVersion) :: d == id
  {
    hide Fits, KeyOf;
    forall d | d in later.decisions && later.decisions[d].key == KeyOf(input, expectedVersion) ensures d == id {
      OneDecisionPerKey(later, h, d, id);
    }
  }

  // The source has reported under this identifier before.
  ghost predicate Reported(t: Tables, report: ProbeResult) {
    exists i ::
      && i in t.results && t.results[i].sourceId == report.sourceId
      && t.results[i].sourceResultId == report.sourceResultId
  }

  // At most one stored result answers a report.
  lemma OneResultPerReport(t: Tables, report: ProbeResult, id: Id)
    requires ResultsFit(t.results) && id in t.results
    requires t.results[id].sourceId == report.sourceId && t.results[id].sourceResultId == report.sourceResultId
    ensures SameReport(t.results[id], report) <==> Agree(t.results[id], report)
    ensures Agree(t.results[id], report) <==> exists i :: i in t.results && Agree(t.results[i], report)
  {
  }

  // Two reports agree in everything but what the store adds.
  predicate SameReport(stored: ProbeResult, report: ProbeResult) {
    stored == report.(independenceKey := stored.independenceKey, receivedAt := stored.receivedAt)
  }

  // They are of one result, and say the same of the route at the same time.
  ghost predicate Agree(a: ProbeResult, b: ProbeResult) {
    && a.sourceId == b.sourceId && a.sourceResultId == b.sourceResultId
    && a.scope == b.scope && a.cycleStartedAt == b.cycleStartedAt && a.routeVersion == b.routeVersion
    && a.outcome == b.outcome && a.failureClass == b.failureClass && a.controlHealthy == b.controlHealthy
  }

  lemma StoredAgrees(stored: ProbeResult, report: ProbeResult)
    requires stored == report.(independenceKey := stored.independenceKey, receivedAt := stored.receivedAt)
    ensures Agree(stored, report)
  {
  }

  lemma ResultsStillFit(results: map<Id, ProbeResult>, id: Id, row: ProbeResult)
    requires ResultsFit(results) && id !in results
    requires forall i | i in results ::
               results[i].sourceId != row.sourceId || results[i].sourceResultId != row.sourceResultId
    ensures ResultsFit(results[id := row])
  {
  }

  lemma LinksFitWithMoreResults(a: Tables, b: Tables)
    requires LinksFit(a) && b == a.(results := b.results, nextId := b.nextId)
    requires forall i | i in a.results :: i in b.results && b.results[i] == a.results[i]
    ensures LinksFit(b)
  {
  }

  lemma LatestStartedLast(t: Tables, h: History, scope: Scope, latest: Id)
    requires Fits(t, h) && latest in PreviousCycles(t, scope)
    requires forall d | d in PreviousCycles(t, scope) :: t.decisions[d].stateVersion <= t.decisions[latest].stateVersion
    ensures forall d | d in PreviousCycles(t, scope) ::
              t.decisions[d].cycleStartedAt.value <= t.decisions[latest].cycleStartedAt.value
  {
    hide StatesFit, LinksFit;
  }

  lemma ExtendsItself(t: Tables)
    ensures Extends(t, t)
  {
  }

  lemma ExtendsOnwards(a: Tables, b: Tables, c: Tables)
    requires Extends(a, b) && Extends(b, c)
    ensures Extends(a, c)
  {
  }

  lemma KeyTellsVersion(t: Tables, h: History, d: Id, input: CycleInput, expectedVersion: int)
    requires Fits(t, h) && d in t.decisions && t.decisions[d].key == KeyOf(input, expectedVersion)
    ensures t.decisions[d].stateVersion == expectedVersion + 1
  {
    hide StatesFit, LinksFit, CyclesIncrease;
    DecisionIsCounted(t.decisions[d], Evaluations(h, t.decisions[d].scope));
  }

  lemma RecordedIs(t: Tables, input: CycleInput, expectedVersion: nat, policy: Option<PolicyVersion>, evaluatedAt: int)
    requires Acceptable(t, input, expectedVersion, evaluatedAt)
    ensures var d := Decided(EvaluationOf(t, input, policy, evaluatedAt), CurrentState(t, input.scope).state);
            Recorded(t, input, expectedVersion, policy, evaluatedAt) == WithDecision(t, input, expectedVersion, d)
  {
  }

  lemma OneDecisionPerKey(t: Tables, h: History, d: Id, e: Id)
    requires Fits(t, h) && d in t.decisions && e in t.decisions && t.decisions[d].key == t.decisions[e].key
    ensures d == e
  {
  }
}
