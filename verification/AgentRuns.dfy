// What the operations of the agent do to its machine, and what holds over every run of them,
// however often the runtime, the process or the machine dies in between or in the middle of one.
module AgentRuns {
  import opened Basics
  import opened SecurityTiming
  import opened XrayAccess
  import opened DurableFiles
  import opened AgentState
  import opened LocalXrayAdapter

  // The machine between two events. The log holds every disk it has had.
  datatype Moment = Moment(log: seq<Disk<Document>>, admitted: seq<XrayClient>, time: int, stopFailures: nat)
  {
    ghost predicate Valid() {
      log != [] && Last(log).Valid()
    }

    function Disk(): Disk<Document>
      requires log != []
    {
      Last(log)
    }
  }

  // What its platform offers: directories that can be synchronised, reads of existing files that succeed.
  datatype Machine = Machine(directorySync: bool, reliableReads: bool)

  datatype Operation =
    | Idle
    | Looking
    | Applying(snapshot: Snapshot, appliedAt: int, read: StateRead, latched: LatchRead, returned: bool)
    | Securing(snapshot: Snapshot, read: StateRead, checkedAt: int, es: seq<Enforcement>, again: LatchRead,
               latch: Latch, returned: bool)

  // An operation may end, or be cut short by the death of its process or a loss of power at
  // any disk it had, on the way to where it would have ended.
  datatype Event =
    | Completed(operation: Operation)
    | Cut(operation: Operation, end: Moment, at: nat, powerLoss: bool)
    | RuntimeDied

  // A latch on disk means nobody is admitted, as long as stop commands work.
  ghost predicate Stops(a: Moment, b: Moment)
    requires b.Valid()
  {
    b.stopFailures == a.stopFailures && b.Disk().Observe(LatchFile).Some? ==> b.admitted == []
  }

  ghost predicate AppliedBy(m: Machine, operation: Operation, a: Moment, b: Moment)
    requires operation.Applying? && b.Valid()
  {
    && HoldsOn(b.Disk(), operation.snapshot)
    && (m.directorySync ==> Settled(b.Disk(), StateFile))
    && b.Disk().Observe(LatchFile) == None
    && a.time <= operation.appliedAt <= b.time
    && b.admitted == SelectServableXrayClients(operation.snapshot, operation.appliedAt)
  }

  // The latch enforces exactly the revocations that had to be enforced when they were looked for.
  ghost predicate SecuredBy(m: Machine, operation: Operation, a: Moment, b: Moment)
    requires operation.Securing? && b.Valid()
  {
    && a.time <= operation.checkedAt <= b.time
    && EnforcesExactly(operation.es, LocalSnapshot(operation.read), operation.snapshot.grants, operation.checkedAt,
                       ACCESS_CONTROL_ENFORCEMENT_SLA_MS)
    && (operation.es != [] ==>
          && b.Disk().Observe(LatchFile) == Some(Whole(LatchDocument(operation.latch)))
          && (m.directorySync ==> Settled(b.Disk(), LatchFile))
          && b.admitted == [])
  }

  function MergedLatches(operation: Operation): set<Survivor<Document>>
    requires operation.Securing?
  {
    if operation.es == [] then {} else {Kept(Whole(LatchDocument(operation.latch)))}
  }

  ghost predicate Performs(m: Machine, operation: Operation, a: Moment, b: Moment)
    requires a.Valid() && b.Valid()
  {
    match operation
    case Idle => b == a
    case Looking => Bounded(a.log, b.log, {}, {}) && Stops(a, b)
    case Applying(snapshot, appliedAt, read, latched, returned) =>
      && snapshot.WellFormed()
      && StateReadsAs(a.Disk(), read) && (m.reliableReads ==> !read.UnreadableState?)
      && LatchReadsAs(a.Disk(), latched)
      && Bounded(a.log, b.log, PlannedStates(PlanApply(read, snapshot, appliedAt)),
                 Cleared(latched, snapshot, a.time, b.time))
      && ClearedWhileHeld(a.log, b.log, snapshot, m.directorySync)
      && Stops(a, b)
      && (returned ==> AppliedBy(m, operation, a, b))
    case Securing(snapshot, read, checkedAt, es, again, latch, returned) =>
      && StateReadsAs(a.Disk(), read) && (m.reliableReads ==> !read.UnreadableState?)
      && LatchReadsAs(a.Disk(), again) && (m.reliableReads ==> !again.UnreadableLatch?)
      && (es != [] ==> IsMergedLatch(latch, again, snapshot.desiredConfigVersion, es))
      && Bounded(a.log, b.log, {}, MergedLatches(operation))
      && Stops(a, b)
      && (returned ==> SecuredBy(m, operation, a, b))
  }

  ghost predicate Step(m: Machine, event: Event, a: Moment, b: Moment) {
    && a.Valid() && b.Valid()
    && match event
       case Completed(operation) => Performs(m, operation, a, b)
       case Cut(operation, end, at, powerLoss) =>
         && end.Valid() && Performs(m, operation, a, end)
         && |a.log| - 1 <= at < |end.log| && end.log[at].Valid()
         && (if powerLoss then CrashesTo(end.log[at], b.Disk()) else b.Disk() == end.log[at])
       case RuntimeDied => b == a.(admitted := [])
  }

  ghost predicate IsRun(m: Machine, moments: seq<Moment>, events: seq<Event>) {
    && |moments| == |events| + 1
    && forall i | 0 <= i < |events| :: Step(m, events[i], moments[i], moments[i + 1])
  }

  // ---------- the state file ----------

  ghost predicate SoundSurvivor(s: Survivor<Document>, floor: Option<nat>) {
    match s
    case Gone => floor.None?
    case Kept(Whole(StateDocument(env))) =>
      env.Consistent() && (floor.Some? ==> floor.value <= env.current.version)
    case Kept(_) => false
  }

  // Whatever is read now or after a power loss is a complete consistent state file of at least
  // the version of the floor, or, without a floor, no file.
  ghost predicate Sound(d: Disk<Document>, floor: Option<nat>)
    requires d.Valid()
  {
    && SoundSurvivor(AsSurvivor(d.Observe(StateFile)), floor)
    && forall s :: s in d.Survivors(StateFile) ==> SoundSurvivor(s, floor)
  }

  lemma SoundIsNeverCorrupt(d: Disk<Document>, floor: Option<nat>)
    requires d.Valid() && Sound(d, floor)
    ensures !StateShown(d).CorruptState?
    ensures floor.Some? ==> StateShown(d).ValidState? && floor.value <= StateShown(d).envelope.current.version
  {
  }

  lemma SoundThroughOperation(start: seq<Disk<Document>>, end: seq<Disk<Document>>, state: set<Survivor<Document>>,
                              latch: set<Survivor<Document>>, floor: Option<nat>, at: nat)
    requires Bounded(start, end, state, latch) && Sound(Last(start), floor)
    requires forall s :: s in state ==> SoundSurvivor(s, floor)
    requires |start| - 1 <= at < |end|
    ensures end[at].Valid() && Sound(end[at], floor)
  {
    assert Within(Last(start), end[at], state, latch);
  }

  // What an apply may write is sound: a version that was read is never undercut.
  lemma PlannedIsSound(d: Disk<Document>, read: StateRead, snapshot: Snapshot, appliedAt: int, floor: Option<nat>)
    requires d.Valid() && Sound(d, floor) && StateReadsAs(d, read) && !read.UnreadableState?
    requires snapshot.WellFormed()
    ensures forall s :: s in PlannedStates(PlanApply(read, snapshot, appliedAt)) ==> SoundSurvivor(s, floor)
  {
    SoundIsNeverCorrupt(d, floor);
    var plan := PlanApply(read, snapshot, appliedAt);
    if plan.Replace? {
      ReplacementReadsBack(read, snapshot, appliedAt);
    }
  }

  lemma SoundAfterPowerLoss(before: Disk<Document>, after: Disk<Document>, floor: Option<nat>)
    requires before.Valid() && CrashesTo(before, after) && Sound(before, floor)
    ensures Sound(after, floor)
  {
    assert MayFind(before, StateFile, after.Observe(StateFile));
    var s :| s in before.Survivors(StateFile) && CanBecome(s, after.Observe(StateFile));
    assert after.Survivors(StateFile) == {AsSurvivor(after.Observe(StateFile))} by {
      assert after.journal[StateFile] == {after.Lookup(StateFile)};
      assert after.Survivors(StateFile) == {after.Surviving(after.Lookup(StateFile))};
    }
  }

  // A sound disk stays sound at every instant of an operation.
  lemma SoundDuring(m: Machine, operation: Operation, a: Moment, b: Moment, floor: Option<nat>, at: nat)
    requires m.reliableReads && a.Valid() && b.Valid() && Performs(m, operation, a, b) && Sound(a.Disk(), floor)
    requires |a.log| - 1 <= at < |b.log|
    ensures b.log[at].Valid() && Sound(b.log[at], floor)
  {
    hide Bounded, Sound, Stops, AppliedBy, SecuredBy, ClearedWhileHeld, IsMergedLatch;
    match operation
    case Idle =>
    case Looking => SoundThroughOperation(a.log, b.log, {}, {}, floor, at);
    case Applying(snapshot, appliedAt, read, latched, returned) =>
      PlannedIsSound(a.Disk(), read, snapshot, appliedAt, floor);
      SoundThroughOperation(a.log, b.log, PlannedStates(PlanApply(read, snapshot, appliedAt)),
                            Cleared(latched, snapshot, a.time, b.time), floor, at);
    case Securing(_, _, _, _, _, _, _) => SoundThroughOperation(a.log, b.log, {}, MergedLatches(operation), floor, at);
  }

  lemma OperationExtendsLog(m: Machine, operation: Operation, a: Moment, b: Moment)
    requires a.Valid() && b.Valid() && Performs(m, operation, a, b)
    ensures |a.log| <= |b.log|
  {
    hide Within, Stops, AppliedBy, SecuredBy, ClearedWhileHeld, IsMergedLatch;
  }

  lemma SoundThroughStep(m: Machine, event: Event, a: Moment, b: Moment, floor: Option<nat>)
    requires m.reliableReads && Step(m, event, a, b) && Sound(a.Disk(), floor)
    ensures Sound(b.Disk(), floor)
  {
    hide Sound, Performs;
    match event
    case RuntimeDied =>
    case Completed(operation) =>
      OperationExtendsLog(m, operation, a, b);
      SoundDuring(m, operation, a, b, floor, |b.log| - 1);
    case Cut(operation, end, at, powerLoss) =>
      SoundDuring(m, operation, a, end, floor, at);
      if powerLoss {
        SoundAfterPowerLoss(end.log[at], b.Disk(), floor);
      }
  }

  // No version that is durable at some moment of a run is ever lost or undercut later, and a
  // state file that was never damaged is never corrupt.
  lemma {:induction false} DurableVersionNeverFalls(
      m: Machine, moments: seq<Moment>, events: seq<Event>, i: nat, j: nat, floor: Option<nat>)
    requires m.reliableReads && IsRun(m, moments, events) && i <= j < |moments|
    requires moments[i].Valid() && Sound(moments[i].Disk(), floor)
    ensures moments[j].Valid() && Sound(moments[j].Disk(), floor)
    ensures !StateShown(moments[j].Disk()).CorruptState?
    ensures floor.Some? ==>
              && StateShown(moments[j].Disk()).ValidState?
              && floor.value <= StateShown(moments[j].Disk()).envelope.current.version
    decreases j - i
  {
    hide Sound, Step;
    if i < j {
      DurableVersionNeverFalls(m, moments, events, i, j - 1, floor);
      assert Step(m, events[j - 1], moments[j - 1], moments[j]);
      StepIsValid(m, events[j - 1], moments[j - 1], moments[j]);
      SoundThroughStep(m, events[j - 1], moments[j - 1], moments[j], floor);
    }
    SoundIsNeverCorrupt(moments[j].Disk(), floor);
  }

  lemma StepIsValid(m: Machine, event: Event, a: Moment, b: Moment)
    requires Step(m, event, a, b)
    ensures a.Valid() && b.Valid()
  {
  }

  // An apply that returns makes its version durable.
  lemma AppliedIsDurable(m: Machine, operation: Operation, a: Moment, b: Moment)
    requires m.directorySync && a.Valid() && b.Valid() && Performs(m, operation, a, b)
    requires operation.Applying? && operation.returned
    ensures Sound(b.Disk(), Some(operation.snapshot.desiredConfigVersion))
    ensures StateShown(b.Disk()).ValidState?
    ensures StateShown(b.Disk()).envelope.current.version == operation.snapshot.desiredConfigVersion
  {
    hide Bounded, ClearedWhileHeld, Stops;
    assert HoldsOn(b.Disk(), operation.snapshot) && Settled(b.Disk(), StateFile);
  }

  // The version of an apply that has returned, acknowledged or not.
  function AppliedVersion(event: Event): Option<nat> {
    if event.Completed? && event.operation.Applying? && event.operation.returned
    then Some(event.operation.snapshot.desiredConfigVersion) else None
  }

  // Such a version stands for the rest of the run, and such versions never decrease.
  lemma AppliedVersionStands(m: Machine, moments: seq<Moment>, events: seq<Event>, i: nat, j: nat)
    requires m.reliableReads && m.directorySync && IsRun(m, moments, events)
    requires i < j < |moments| && AppliedVersion(events[i]).Some?
    ensures moments[j].Valid() && StateShown(moments[j].Disk()).ValidState?
    ensures AppliedVersion(events[i]).value <= StateShown(moments[j].Disk()).envelope.current.version
    ensures AppliedVersion(events[j - 1]).Some? ==>
              AppliedVersion(events[i]).value <= AppliedVersion(events[j - 1]).value
  {
    hide Sound, Performs, StateShown;
    assert Step(m, events[i], moments[i], moments[i + 1]);
    AppliedIsDurable(m, events[i].operation, moments[i], moments[i + 1]);
    DurableVersionNeverFalls(m, moments, events, i + 1, j, AppliedVersion(events[i]));
    if AppliedVersion(events[j - 1]).Some? {
      assert Step(m, events[j - 1], moments[j - 1], moments[j]);
      AppliedIsDurable(m, events[j - 1].operation, moments[j - 1], moments[j]);
    }
  }

  // ---------- the latch ----------

  // Whatever is read of the latch file now or after a power loss demands at least what the latch does.
  ghost predicate DemandsSurvivor(s: Survivor<Document>, latch: Latch) {
    match s
    case Kept(Whole(LatchDocument(l))) => l.Canonical() && Tightens(latch, l)
    case _ => false
  }

  ghost predicate Demands(d: Disk<Document>, latch: Latch)
    requires d.Valid()
  {
    && DemandsSurvivor(AsSurvivor(d.Observe(LatchFile)), latch)
    && forall s :: s in d.Survivors(LatchFile) ==> DemandsSurvivor(s, latch)
  }

  // The disk at which an operation ended or was cut short.
  ghost predicate EndsOn(event: Event, b: Moment, d: Disk<Document>) {
    match event
    case Completed(_) => b.Valid() && d == b.Disk()
    case Cut(_, end, at, _) => at < |end.log| && d == end.log[at]
    case RuntimeDied => false
  }

  function EndOf(event: Event, b: Moment): int {
    if event.Cut? then event.end.time else b.time
  }

  // An apply lifts the latch: where it ends or is cut short the latch stands no more, and the state
  // file holds, durably where directories can be synchronised, a snapshot that reaches the target
  // version and that at an instant of the operation serves none of the latched grants.
  ghost predicate Lifts(m: Machine, event: Event, a: Moment, b: Moment, latch: Latch) {
    && (event.Completed? || event.Cut?) && event.operation.Applying?
    && Satisfies(event.operation.snapshot, a.time, EndOf(event, b), latch)
    && exists d :: EndsOn(event, b, d) && d.Valid() && !Demands(d, latch) && HeldOn(m, d, event.operation.snapshot)
  }

  ghost predicate Satisfies(snapshot: Snapshot, from: int, to: int, latch: Latch) {
    && latch.targetVersion <= snapshot.desiredConfigVersion
    && exists t :: from <= t <= to && ServesNoneOf(latch.revokedGrantIds, snapshot, t)
  }

  ghost predicate HeldOn(m: Machine, d: Disk<Document>, snapshot: Snapshot)
    requires d.Valid()
  {
    HoldsOn(d, snapshot) && (m.directorySync ==> Settled(d, StateFile))
  }

  lemma DemandThroughOperation(start: seq<Disk<Document>>, end: seq<Disk<Document>>, state: set<Survivor<Document>>,
                               more: set<Survivor<Document>>, latch: Latch, at: nat)
    requires Bounded(start, end, state, more) && Demands(Last(start), latch)
    requires forall s :: s in more ==> DemandsSurvivor(s, latch)
    requires |start| - 1 <= at < |end|
    ensures end[at].Valid() && Demands(end[at], latch)
  {
    assert Within(Last(start), end[at], state, more);
  }

  lemma DemandAfterPowerLoss(before: Disk<Document>, after: Disk<Document>, latch: Latch)
    requires before.Valid() && CrashesTo(before, after) && Demands(before, latch)
    ensures Demands(after, latch)
  {
    assert MayFind(before, LatchFile, after.Observe(LatchFile));
    var s :| s in before.Survivors(LatchFile) && CanBecome(s, after.Observe(LatchFile));
    assert after.Survivors(LatchFile) == {AsSurvivor(after.Observe(LatchFile))} by {
      assert after.journal[LatchFile] == {after.Lookup(LatchFile)};
      assert after.Survivors(LatchFile) == {after.Surviving(after.Lookup(LatchFile))};
    }
  }

  // A merged latch demands what the latch that was read does.
  lemma MergedDemands(d: Disk<Document>, latch: Latch, merged: Latch, again: LatchRead, target: nat,
                      es: seq<Enforcement>)
    requires d.Valid() && Demands(d, latch) && LatchReadsAs(d, again) && !again.UnreadableLatch?
    requires es != [] && IsMergedLatch(merged, again, target, es)
    ensures DemandsSurvivor(Kept(Whole(LatchDocument(merged))), latch)
  {
    var earliest :| IsEarliest(Some(earliest), DeadlinesIn(es)) && merged == MergeLatch(again, target, earliest, es);
    MergedLatchTightens(again, target, earliest, es);
  }

  // Clearing a latch that demands at least as much satisfies this one too.
  lemma ClearedSatisfies(d: Disk<Document>, latch: Latch, read: LatchRead, snapshot: Snapshot, from: int, to: int)
    requires d.Valid() && Demands(d, latch) && LatchReadsAs(d, read) && Cleared(read, snapshot, from, to) != {}
    ensures Satisfies(snapshot, from, to, latch)
  {
    var t :| from <= t <= to && ServesNoneOf(read.latch.revokedGrantIds, snapshot, t);
    assert ServesNoneOf(latch.revokedGrantIds, snapshot, t);
  }

  lemma DemandStaysWithin(base: Disk<Document>, now: Disk<Document>, latch: Latch)
    requires base.Valid() && now.Valid() && Demands(base, latch) && PathWithin(base, now, LatchFile, {})
    ensures Demands(now, latch)
  {
  }

  // At each disk of an operation a demanded latch stands, or the operation is an apply that may
  // clear it and the state file holds its snapshot.
  lemma DemandDuring(m: Machine, operation: Operation, a: Moment, b: Moment, latch: Latch, at: nat)
    requires m.reliableReads && a.Valid() && b.Valid() && Performs(m, operation, a, b) && Demands(a.Disk(), latch)
    requires |a.log| - 1 <= at < |b.log|
    ensures b.log[at].Valid()
    ensures Demands(b.log[at], latch)
            || (operation.Applying? && Satisfies(operation.snapshot, a.time, b.time, latch)
                && HeldOn(m, b.log[at], operation.snapshot))
  {
    hide Bounded, Demands, Stops, AppliedBy, SecuredBy, IsMergedLatch, Cleared, Satisfies, HoldsOn, Settled, PathWithin;
    match operation
    case Idle =>
    case Looking => DemandThroughOperation(a.log, b.log, {}, {}, latch, at);
    case Applying(snapshot, appliedAt, read, latched, returned) =>
      if Cleared(latched, snapshot, a.time, b.time) == {} {
        DemandThroughOperation(a.log, b.log, PlannedStates(PlanApply(read, snapshot, appliedAt)), {}, latch, at);
      } else {
        ClearedSatisfies(a.Disk(), latch, latched, snapshot, a.time, b.time);
        if PathWithin(a.Disk(), b.log[at], LatchFile, {}) {
          DemandStaysWithin(a.Disk(), b.log[at], latch);
        }
      }
    case Securing(snapshot, _, _, es, again, merged, returned) =>
      if es != [] {
        MergedDemands(a.Disk(), latch, merged, again, snapshot.desiredConfigVersion, es);
      }
      DemandThroughOperation(a.log, b.log, {}, MergedLatches(operation), latch, at);
  }

  lemma DemandThroughStep(m: Machine, event: Event, a: Moment, b: Moment, latch: Latch)
    requires m.reliableReads && Step(m, event, a, b) && Demands(a.Disk(), latch) && !Lifts(m, event, a, b, latch)
    ensures Demands(b.Disk(), latch)
  {
    hide Demands, Performs, Satisfies, HeldOn;
    match event
    case RuntimeDied =>
    case Completed(operation) =>
      OperationExtendsLog(m, operation, a, b);
      DemandDuring(m, operation, a, b, latch, |b.log| - 1);
      assert EndsOn(event, b, b.Disk());
    case Cut(operation, end, at, powerLoss) =>
      DemandDuring(m, operation, a, end, latch, at);
      assert EndsOn(event, b, end.log[at]);
      if powerLoss {
        DemandAfterPowerLoss(end.log[at], b.Disk(), latch);
      }
  }

  // Until an apply lifts it, a durable latch stands through every event and every death, and
  // whatever replaces it demands at least as much.
  lemma {:induction false} DemandStands(m: Machine, moments: seq<Moment>, events: seq<Event>, i: nat, j: nat,
                                        latch: Latch)
    requires m.reliableReads && IsRun(m, moments, events) && i <= j < |moments|
    requires moments[i].Valid() && Demands(moments[i].Disk(), latch)
    requires forall k | i <= k < j :: !Lifts(m, events[k], moments[k], moments[k + 1], latch)
    ensures moments[j].Valid() && Demands(moments[j].Disk(), latch)
    decreases j - i
  {
    hide Demands, Step, Lifts;
    if i < j {
      DemandStands(m, moments, events, i, j - 1, latch);
      assert Step(m, events[j - 1], moments[j - 1], moments[j]);
      StepIsValid(m, events[j - 1], moments[j - 1], moments[j]);
      DemandThroughStep(m, events[j - 1], moments[j - 1], moments[j], latch);
    }
  }

  // A security check that returns leaves a durable latch, unless there was nothing to enforce.
  lemma LatchedIsDurable(m: Machine, operation: Operation, a: Moment, b: Moment)
    requires m.directorySync && a.Valid() && b.Valid() && Performs(m, operation, a, b)
    requires operation.Securing? && operation.returned && operation.es != []
    ensures Demands(b.Disk(), operation.latch)
  {
    hide Bounded, Stops, EnforcesExactly;
    var es, again, target := operation.es, operation.again, operation.snapshot.desiredConfigVersion;
    var earliest :| IsEarliest(Some(earliest), DeadlinesIn(es))
      && operation.latch == MergeLatch(again, target, earliest, es);
    MergedLatchTightens(again, target, earliest, es);
    assert Settled(b.Disk(), LatchFile);
  }

  // Such a latch names every grant whose revocation had to be enforced, and demands its version.
  lemma LatchNamesRevoked(m: Machine, operation: Operation, a: Moment, b: Moment, g: Grant)
    requires a.Valid() && b.Valid() && Performs(m, operation, a, b) && operation.Securing? && operation.returned
    requires g in operation.snapshot.grants && MustEnforce(LocalSnapshot(operation.read), g, operation.checkedAt)
    ensures operation.es != [] && g.id in operation.latch.revokedGrantIds
    ensures operation.snapshot.desiredConfigVersion <= operation.latch.targetVersion
  {
    hide Bounded, Stops;
    var es, again, target := operation.es, operation.again, operation.snapshot.desiredConfigVersion;
    var e := Enforcement(g.id, g.revokedAt.value + ACCESS_CONTROL_ENFORCEMENT_SLA_MS);
    assert IsEnforcementOf(e, LocalSnapshot(operation.read), operation.snapshot.grants, operation.checkedAt,
                           ACCESS_CONTROL_ENFORCEMENT_SLA_MS);
    assert e in es;
    var earliest :| IsEarliest(Some(earliest), DeadlinesIn(es))
      && operation.latch == MergeLatch(again, target, earliest, es);
    MergedLatchTightens(again, target, earliest, es);
  }

  // From a security check that returned and found a client's grant revoked, until an apply lifts its
  // latch, the runtime admits nobody after any operation in which the stop commands worked, whatever
  // died in between; and only an apply of a version at least as high lifts it, at an instant of which
  // it does not serve the grant.
  lemma RevokedStaysStopped(m: Machine, moments: seq<Moment>, events: seq<Event>, i: nat, j: nat, g: Grant)
    requires m.reliableReads && m.directorySync && IsRun(m, moments, events) && i < j < |moments|
    requires IsRevocation(events[i], g)
    requires forall k | i < k < j :: !Lifts(m, events[k], moments[k], moments[k + 1], events[i].operation.latch)
    requires events[j - 1].Completed? && !events[j - 1].operation.Idle?
    requires moments[j].stopFailures == moments[j - 1].stopFailures
    ensures moments[j].admitted == []
  {
    hide Demands, Performs, Lifts, MustEnforce;
    var securing := events[i].operation;
    assert Step(m, events[i], moments[i], moments[i + 1]);
    LatchNamesRevoked(m, securing, moments[i], moments[i + 1], g);
    LatchedIsDurable(m, securing, moments[i], moments[i + 1]);
    DemandStands(m, moments, events, i + 1, j, securing.latch);
    assert Step(m, events[j - 1], moments[j - 1], moments[j]);
    DemandedStops(m, events[j - 1].operation, moments[j - 1], moments[j], securing.latch);
  }

  // A security check that returned and found that this grant's revocation had to be enforced.
  predicate IsRevocation(event: Event, g: Grant) {
    && event.Completed? && event.operation.Securing? && event.operation.returned
    && g in event.operation.snapshot.grants
    && MustEnforce(LocalSnapshot(event.operation.read), g, event.operation.checkedAt)
  }

  // Whatever lifts the latch of a revocation reaches the version that told it and does not serve the
  // grant at some instant of the apply.
  lemma LiftingServesNoRevoked(
      m: Machine, moments: seq<Moment>, events: seq<Event>, i: nat, k: nat, g: Grant) returns (t: int)
    requires IsRun(m, moments, events) && i < k < |events| && IsRevocation(events[i], g)
    requires Lifts(m, events[k], moments[k], moments[k + 1], events[i].operation.latch)
    ensures events[k].operation.Applying?
    ensures events[i].operation.snapshot.desiredConfigVersion <= events[k].operation.snapshot.desiredConfigVersion
    ensures moments[k].time <= t <= EndOf(events[k], moments[k + 1])
    ensures !Serves(SelectServableXrayClients(events[k].operation.snapshot, t), g.id)
  {
    hide Demands, Performs, HeldOn, MustEnforce, SelectServableXrayClients, Serves;
    assert Step(m, events[i], moments[i], moments[i + 1]);
    var latch := events[i].operation.latch;
    LatchNamesRevoked(m, events[i].operation, moments[i], moments[i + 1], g);
    var snapshot := events[k].operation.snapshot;
    t :| moments[k].time <= t <= EndOf(events[k], moments[k + 1]) && ServesNoneOf(latch.revokedGrantIds, snapshot, t);
  }

  lemma DemandedStops(m: Machine, operation: Operation, a: Moment, b: Moment, latch: Latch)
    requires a.Valid() && b.Valid() && Performs(m, operation, a, b) && !operation.Idle?
    requires Demands(b.Disk(), latch) && b.stopFailures == a.stopFailures
    ensures b.admitted == []
  {
    hide Bounded, AppliedBy, SecuredBy, ClearedWhileHeld, IsMergedLatch;
  }
}
