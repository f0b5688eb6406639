// The durable fail-closed adapter. Each public operation runs alone; any call it makes
// to the host may fail, and every exit must leave the disk, the runtime and the three
// remembered fields in agreement.
module LocalXrayAdapter {
  import opened Basics
  import opened SecurityTiming
  import opened XrayAccess
  import opened DurableFiles
  import opened AgentState
  import opened NodeHost

  datatype AdapterError =
    | ClockUntrusted | ClockProbeFailed | VersionDowngrade | VersionCollision
    | ApplyFailed | DurabilityFailed | LatchWriteFailed | LatchClearFailed | StopFailed

  datatype Result<+T> = Returned(value: T) | Thrown(error: AdapterError)

  datatype ApplyOutcome = Applied | AlreadyApplied

  // How a local reconcile ends.
  datatype ReconcileExit = StoppedEarly | KeptRunning | AppliedNow | StoppedAfterFailure | LeftRunning

  predicate ShouldFailClosed(deadline: Option<int>, now: int) {
    deadline.Some? && deadline.value - LOCAL_FAIL_CLOSED_RESERVE_MS <= now
  }

  // What a read may have reported of a file, given what the file shows.
  ghost predicate StateReadsAs(d: Disk<Document>, state: StateRead)
    requires d.Valid()
  {
    match state
    case ValidState(env) => d.Observe(StateFile) == Some(Whole(StateDocument(env))) && env.Consistent()
    case MissingState => d.Observe(StateFile) == None
    case CorruptState =>
      && d.Observe(StateFile).Some?
      && forall env: Envelope | env.Consistent() :: d.Observe(StateFile) != Some(Whole(StateDocument(env)))
    case UnreadableState => true
  }

  // The read that tells what the state file shows.
  ghost function StateShown(d: Disk<Document>): (state: StateRead)
    requires d.Valid()
    ensures StateReadsAs(d, state) && !state.UnreadableState?
  {
    match d.Observe(StateFile)
    case None => MissingState
    case Some(c) =>
      if c.Whole? && c.document.StateDocument? && c.document.envelope.Consistent()
      then ValidState(c.document.envelope) else CorruptState
  }

  ghost predicate LatchReadsAs(d: Disk<Document>, latch: LatchRead)
    requires d.Valid()
  {
    match latch
    case ValidLatch(l) => d.Observe(LatchFile) == Some(Whole(LatchDocument(l))) && l.Canonical()
    case MissingLatch => d.Observe(LatchFile) == None
    case CorruptLatch =>
      && d.Observe(LatchFile).Some?
      && forall l: Latch | l.Canonical() :: d.Observe(LatchFile) != Some(Whole(LatchDocument(l)))
    case UnreadableLatch => true
  }

  ghost function LatchShown(d: Disk<Document>): (latch: LatchRead)
    requires d.Valid()
    ensures LatchReadsAs(d, latch)
  {
    match d.Observe(LatchFile)
    case None => MissingLatch
    case Some(c) =>
      if c.Whole? && c.document.LatchDocument? && c.document.latch.Canonical()
      then ValidLatch(c.document.latch) else CorruptLatch
  }

  // The latch that enforces these revocations on top of the latch that was read.
  ghost predicate IsMergedLatch(latch: Latch, again: LatchRead, targetVersion: nat, es: seq<Enforcement>) {
    exists earliest ::
      IsEarliest(Some(earliest), DeadlinesIn(es)) && latch == MergeLatch(again, targetVersion, earliest, es)
  }

  lemma EarliestIsMerged(again: LatchRead, targetVersion: nat, earliest: Option<int>, es: seq<Enforcement>)
    requires es != [] && IsEarliest(earliest, DeadlinesIn(es))
    ensures earliest.Some?
            && IsMergedLatch(MergeLatch(again, targetVersion, earliest.value, es), again, targetVersion, es)
  {
    assert es[0].deadlineAt in DeadlinesIn(es);
  }

  function LocalSnapshot(state: StateRead): Option<Snapshot> {
    if state.ValidState? then Some(state.envelope.current.snapshot) else None
  }

  // at is within the integrity interval and no later than the first change of the client list.
  ghost predicate IsNextCheck(at: int, snapshot: Snapshot, now: int) {
    && now < at <= now + LOCAL_STATE_INTEGRITY_CHECK_INTERVAL_MS
    && (forall t | now <= t < at :: SelectServableXrayClients(snapshot, t) == SelectServableXrayClients(snapshot, now))
    && (at == now + LOCAL_STATE_INTEGRITY_CHECK_INTERVAL_MS
        || SelectServableXrayClients(snapshot, at) != SelectServableXrayClients(snapshot, now))
  }

  // The latch may be removed: a snapshot at or above its target serves none of its grants.
  ghost predicate MayClear(latch: LatchRead, snapshot: Snapshot, from: int, to: int) {
    && latch.ValidLatch?
    && latch.latch.targetVersion <= snapshot.desiredConfigVersion
    && exists t :: from <= t <= to && ServesNoneOf(latch.latch.revokedGrantIds, snapshot, t)
  }

  ghost predicate ServesNoneOf(ids: seq<Id>, snapshot: Snapshot, t: int) {
    forall id | id in ids :: !Serves(SelectServableXrayClients(snapshot, t), id)
  }

  // What clearing may leave of the latch file.
  ghost function Cleared(latch: LatchRead, snapshot: Snapshot, from: int, to: int): set<Survivor<Document>> {
    if MayClear(latch, snapshot, from, to) then {Gone} else {}
  }

  lemma ClearingTakesTime(latch: LatchRead, snapshot: Snapshot, from: int, since: int, to: int, later: int)
    requires from <= since && to <= later
    ensures MayClear(latch, snapshot, since, to) ==> MayClear(latch, snapshot, from, later)
    ensures Cleared(latch, snapshot, since, to) <= Cleared(latch, snapshot, from, later)
  {
  }

  // The state file shows the snapshot's version, with the snapshot's hash.
  ghost predicate HoldsOn(d: Disk<Document>, snapshot: Snapshot)
    requires d.Valid()
  {
    exists env: Envelope ::
      && d.Observe(StateFile) == Some(Whole(StateDocument(env))) && env.Consistent()
      && env.current.version == snapshot.desiredConfigVersion
      && env.current.snapshotHash == HashSnapshot(snapshot)
  }

  // At every instant at which a reader, now or after a power loss, could find the latch file other
  // than it was, the state file holds the snapshot, durably where directories can be synchronised.
  ghost predicate ClearedWhileHeld(start: seq<Disk<Document>>, end: seq<Disk<Document>>, snapshot: Snapshot,
                                   directorySync: bool)
  {
    && start != [] && Last(start).Valid()
    && forall k | |start| - 1 <= k < |end| ::
         && end[k].Valid()
         && (!PathWithin(Last(start), end[k], LatchFile, {}) ==>
               HoldsOn(end[k], snapshot) && (directorySync ==> Settled(end[k], StateFile)))
  }

  lemma PathWithinThenWithin(base: Disk<Document>, middle: Disk<Document>, now: Disk<Document>, p: Path)
    requires base.Valid() && middle.Valid() && now.Valid() && PathWithin(base, middle, p, {})
    ensures PathWithin(middle, now, p, {}) ==> PathWithin(base, now, p, {})
  {
  }

  lemma LatchUntouched(start: seq<Disk<Document>>, end: seq<Disk<Document>>, state: set<Survivor<Document>>,
                       snapshot: Snapshot, directorySync: bool)
    requires Bounded(start, end, state, {})
    ensures ClearedWhileHeld(start, end, snapshot, directorySync)
  {
    forall k | |start| - 1 <= k < |end|
      ensures end[k].Valid() && PathWithin(Last(start), end[k], LatchFile, {})
    {
      assert Within(Last(start), end[k], state, {});
    }
  }

  // Clearing begins when the state file holds the snapshot and leaves the state file alone.
  lemma HeldThroughout(start: seq<Disk<Document>>, end: seq<Disk<Document>>, latch: set<Survivor<Document>>,
                       snapshot: Snapshot, directorySync: bool)
    requires Bounded(start, end, {}, latch)
    requires HoldsOn(Last(start), snapshot) && (directorySync ==> Settled(Last(start), StateFile))
    ensures forall k | |start| - 1 <= k < |end| ::
              end[k].Valid() && HoldsOn(end[k], snapshot) && (directorySync ==> Settled(end[k], StateFile))
  {
    forall k | |start| - 1 <= k < |end|
      ensures end[k].Valid() && HoldsOn(end[k], snapshot) && (directorySync ==> Settled(end[k], StateFile))
    {
      var d := end[k];
      assert Within(Last(start), d, {}, latch);
      assert d.Surviving(d.Lookup(StateFile)) in d.Survivors(StateFile);
    }
  }

  lemma ClearedAtTheEnd(start: seq<Disk<Document>>, middle: seq<Disk<Document>>, end: seq<Disk<Document>>,
                        state: set<Survivor<Document>>, latch: set<Survivor<Document>>, snapshot: Snapshot,
                        directorySync: bool)
    requires Bounded(start, middle, state, {}) && Bounded(middle, end, {}, latch)
    requires HoldsOn(Last(middle), snapshot) && (directorySync ==> Settled(Last(middle), StateFile))
    ensures ClearedWhileHeld(start, end, snapshot, directorySync)
  {
    hide HoldsOn, Settled;
    LatchUntouched(start, middle, state, snapshot, directorySync);
    HeldThroughout(middle, end, latch, snapshot, directorySync);
    forall k | |start| - 1 <= k < |end|
      ensures end[k].Valid()
      ensures !PathWithin(Last(start), end[k], LatchFile, {}) ==>
                HoldsOn(end[k], snapshot) && (directorySync ==> Settled(end[k], StateFile))
    {
      if k < |middle| - 1 {
        assert end[k] == middle[k];
      }
    }
  }

  lemma ClearedAfter(start: seq<Disk<Document>>, middle: seq<Disk<Document>>, end: seq<Disk<Document>>,
                     state: set<Survivor<Document>>, latch: set<Survivor<Document>>, snapshot: Snapshot,
                     directorySync: bool)
    requires Bounded(start, middle, {}, {}) && Bounded(middle, end, state, latch)
    requires ClearedWhileHeld(middle, end, snapshot, directorySync)
    ensures ClearedWhileHeld(start, end, snapshot, directorySync)
  {
    hide HoldsOn, Settled;
    LatchUntouched(start, middle, {}, snapshot, directorySync);
    forall k | |start| - 1 <= k < |end|
      ensures end[k].Valid()
      ensures !PathWithin(Last(start), end[k], LatchFile, {}) ==>
                HoldsOn(end[k], snapshot) && (directorySync ==> Settled(end[k], StateFile))
    {
      if k < |middle| {
        assert end[k] == middle[k];
      } else {
        assert Within(Last(start), Last(middle), {}, {});
        PathWithinThenWithin(Last(start), Last(middle), end[k], LatchFile);
      }
    }
  }

  // The state file an apply may leave beside the one it found.
  ghost function PlannedStates(plan: ApplyPlan): set<Survivor<Document>> {
    if plan.Replace? then {Kept(Whole(StateDocument(plan.next)))} else {}
  }

  predicate IsRefusal(r: Result<ApplyOutcome>) {
    r.Thrown? && (r.error == VersionDowngrade || r.error == VersionCollision)
  }

  predicate RefusedAs(r: Result<ApplyOutcome>, plan: ApplyPlan) {
    && r.Thrown?
    && if plan.RefuseDowngrade? then r.error == VersionDowngrade
       else plan.RefuseCollision? && r.error == VersionCollision
  }

  class LocalXrayAdapter {
    const host: Host
    var durabilityIsConfirmed: bool
    var runtimeClientsFingerprint: Option<ClientsDigest>
    var runtimeIsFailClosed: bool
    // An operation left through a rethrow that does not stop the runtime, since the last success or stop.
    ghost var leftOpen: bool

    constructor (host: Host)
      requires host.Valid()
      ensures this.host == host && Inv()
      ensures !durabilityIsConfirmed && runtimeClientsFingerprint == None && !runtimeIsFailClosed && !leftOpen
    {
      this.host := host;
      durabilityIsConfirmed, runtimeClientsFingerprint, runtimeIsFailClosed, leftOpen := false, None, false, false;
    }

    ghost predicate Inv()
      reads this, host
    {
      && host.Valid()
      && (runtimeIsFailClosed ==> host.admitted == [])
      && (runtimeClientsFingerprint.Some? && !leftOpen ==>
            host.admitted == runtimeClientsFingerprint.value.clients || host.admitted == [])
      && (durabilityIsConfirmed && host.directorySync ==> Settled(host.disk, StateFile))
    }

    // Replaces the file through a flushed temporary file and a rename.
    method WriteJsonDurably(path: Path, document: Document) returns (ok: bool)
      requires host.Valid() && (path == StateFile || path == LatchFile)
      modifies host`time, host`lastExposure, host`disk, host`diskLog
      ensures host.Valid()
      ensures host.Spent(12 * host.fileDelay)
      ensures AllReplacing(old(host.diskLog), host.diskLog, path, document)
      ensures ok ==> host.disk.Observe(path) == Some(Whole(document))
      ensures ok && host.directorySync ==> host.disk.Survivors(path) == {Kept(Whole(document))}
    {
      ghost var base, start := host.disk, host.diskLog;
      assert Replacing(base, base, path, document);
      var made := host.MakeDirectory();
      if !made { return false; }
      hide Replacing, AllReplacing;
      var cleared := RemoveTemporary(start, path, document);
      if !cleared { return false; }
      ok := WriteAndRename(start, path, document);
      var removed := RemoveTemporary(start, path, document);
      ok := ok && removed;
    }

    method RemoveTemporary(ghost start: seq<Disk<Document>>, path: Path, document: Document) returns (ok: bool)
      requires host.Valid() && (path == StateFile || path == LatchFile)
      requires AllReplacing(start, host.diskLog, path, document)
      modifies host`time, host`lastExposure, host`disk, host`diskLog
      ensures host.Valid()
      ensures host.Spent(host.fileDelay)
      ensures AllReplacing(start, host.diskLog, path, document)
      ensures host.disk.Observe(path) == old(host.disk).Observe(path)
      ensures host.disk.Survivors(path) == old(host.disk).Survivors(path)
      ensures ok ==> path.Temporary() !in host.disk.entries
    {
      ghost var base, before := Last(start), host.disk;
      RemoveTemporaryKeeps(base, before, path, document);
      ReplacingStep(start, host.diskLog, before, path, document);
      ReplacingStep(start, host.diskLog, before.Remove(path.Temporary()), path, document);
      hide Last, Replacing, AllReplacing;
      ok := host.RemoveFile(path.Temporary());
    }

    // The guarded part: everything between opening the temporary file and the cleanup.
    method WriteAndRename(ghost start: seq<Disk<Document>>, path: Path, document: Document) returns (ok: bool)
      requires host.Valid() && (path == StateFile || path == LatchFile)
      requires AllReplacing(start, host.diskLog, path, document)
      requires host.disk.Observe(path) == Last(start).Observe(path)
      requires host.disk.Survivors(path) == Last(start).Survivors(path)
      requires path.Temporary() !in host.disk.entries
      modifies host`time, host`lastExposure, host`disk, host`diskLog
      ensures host.Valid()
      ensures host.Spent(9 * host.fileDelay)
      ensures AllReplacing(start, host.diskLog, path, document)
      ensures ok ==> host.disk.Observe(path) == Some(Whole(document))
      ensures ok && host.directorySync ==> host.disk.Survivors(path) == {Kept(Whole(document))}
    {
      ghost var base, before := Last(start), host.disk;
      CreateStages(base, before, path, document);
      StagedIsReplacing(base, before.Create(path.Temporary()), path, before.NewFile(path), document);
      ReplacingStep(start, host.diskLog, before, path, document);
      ReplacingStep(start, host.diskLog, before.Create(path.Temporary()), path, document);
      hide Last, Replacing, Undisturbed, AllReplacing, Staged;
      var file := host.CreateFile(path.Temporary());
      if file.None? { return false; }
      var flushed := WriteAndFlush(start, path, file.value, document);
      StagedIsReplacing(base, host.disk, path, file.value, document);
      if !flushed { return false; }
      ok := RenameAndSync(start, path, file.value, document);
    }

    method WriteAndFlush(ghost start: seq<Disk<Document>>, path: Path, file: File, document: Document)
      returns (ok: bool)
      requires host.Valid() && (path == StateFile || path == LatchFile)
      requires start != [] && Last(start).Valid() && Staged(Last(start), host.disk, path, file)
               && file in host.disk.contents
      requires AllReplacing(start, host.diskLog, path, document)
      modifies host`time, host`lastExposure, host`disk, host`diskLog
      ensures host.Valid()
      ensures host.Spent(4 * host.fileDelay)
      ensures AllReplacing(start, host.diskLog, path, document)
      ensures Staged(Last(start), host.disk, path, file)
      ensures ok ==> file in host.disk.flushed && host.disk.contents[file] == Whole(document)
    {
      ghost var base := Last(start);
      hide Last, Replacing, AllReplacing, Staged;
      WritingStays(base, host.disk, path, file, Whole(document));
      WritingStays(base, host.disk, path, file, Torn);
      StagedStep(start, host.diskLog, host.disk.Write(file, Whole(document)), path, file, document);
      StagedStep(start, host.diskLog, host.disk.Write(file, Torn), path, file, document);
      ok := host.WriteFile(file, document);
      if ok {
        ok := FlushAndClose(start, path, file, document);
      }
      if !ok {
        var ignored := host.CloseFile();
      }
    }

    method FlushAndClose(ghost start: seq<Disk<Document>>, path: Path, file: File, document: Document)
      returns (ok: bool)
      requires host.Valid() && (path == StateFile || path == LatchFile)
      requires start != [] && Last(start).Valid() && Staged(Last(start), host.disk, path, file)
      requires file in host.disk.contents && host.disk.contents[file] == Whole(document)
      requires AllReplacing(start, host.diskLog, path, document)
      modifies host`time, host`lastExposure, host`disk, host`diskLog
      ensures host.Valid()
      ensures host.Spent(2 * host.fileDelay)
      ensures AllReplacing(start, host.diskLog, path, document)
      ensures Staged(Last(start), host.disk, path, file)
      ensures ok ==> file in host.disk.flushed && host.disk.contents[file] == Whole(document)
    {
      hide Last, Replacing, AllReplacing, Staged;
      FlushingStays(Last(start), host.disk, path, file);
      StagedStep(start, host.diskLog, host.disk, path, file, document);
      StagedStep(start, host.diskLog, host.disk.Flush(file), path, file, document);
      ok := host.SyncFile(file);
      if ok {
        ok := host.CloseFile();
      }
    }

    method RenameAndSync(ghost start: seq<Disk<Document>>, path: Path, file: File, document: Document)
      returns (ok: bool)
      requires host.Valid() && (path == StateFile || path == LatchFile)
      requires start != [] && Last(start).Valid() && Staged(Last(start), host.disk, path, file)
      requires file in host.disk.flushed && host.disk.contents[file] == Whole(document)
      requires AllReplacing(start, host.diskLog, path, document)
      modifies host`time, host`lastExposure, host`disk, host`diskLog
      ensures host.Valid()
      ensures host.Spent(4 * host.fileDelay)
      ensures AllReplacing(start, host.diskLog, path, document)
      ensures ok ==> host.disk.Observe(path) == Some(Whole(document))
      ensures ok && host.directorySync ==> host.disk.Survivors(path) == {Kept(Whole(document))}
    {
      ghost var base, staged := Last(start), host.disk;
      StagedStep(start, host.diskLog, staged, path, file, document);
      RenameReplaces(base, staged, path, file, document);
      ReplacingStep(start, host.diskLog, staged.Rename(path.Temporary(), path), path, document);
      hide Last, Replacing, AllReplacing, Staged, Undisturbed;
      ok := host.RenameFile(path.Temporary(), path);
      if !ok { return false; }
      ghost var renamed := host.disk;
      SyncNamesKeepsReplacing(base, renamed, path, document);
      SyncNamesShrinks(renamed, path);
      ReplacingStep(start, host.diskLog, renamed, path, document);
      ReplacingStep(start, host.diskLog, renamed.SyncNames(), path, document);
      ok := host.SyncParentDirectory();
    }

    // Stops the runtime, whatever it was doing. What is remembered about it is forgotten first.
    method ForceFailClosed() returns (ok: bool)
      requires host.Valid()
      modifies this`runtimeIsFailClosed, this`runtimeClientsFingerprint, this`leftOpen
      modifies host`time, host`lastExposure, host`admitted, host`stopFailures
      ensures host.Valid() && host.NoNewExposure()
      ensures old(host.time) <= host.time <= old(host.time) + XRAY_FAIL_CLOSED_MAX_DURATION_MS
      ensures runtimeClientsFingerprint == None && runtimeIsFailClosed == ok
      ensures ok ==> host.admitted == [] && !leftOpen && host.stopFailures == old(host.stopFailures)
      ensures !ok ==> host.stopFailures > old(host.stopFailures)
    {
      runtimeIsFailClosed := false;
      runtimeClientsFingerprint := None;
      ok := host.FailClosed();
      runtimeIsFailClosed := ok;
      if ok {
        leftOpen := false;
      }
    }

    // Unless a stop command failed meanwhile, the runtime admits nobody and the adapter knows it.
    twostate predicate Halted()
      reads this, host
    {
      && runtimeClientsFingerprint == None
      && old(host.stopFailures) <= host.stopFailures
      && (host.stopFailures == old(host.stopFailures) ==> host.admitted == [] && runtimeIsFailClosed && !leftOpen)
    }

    method FailClosedAndRethrow(originalError: AdapterError) returns (error: AdapterError)
      requires host.Valid()
      modifies this`runtimeIsFailClosed, this`runtimeClientsFingerprint, this`leftOpen
      modifies host`time, host`lastExposure, host`admitted, host`stopFailures
      ensures host.Valid() && host.NoNewExposure() && Halted()
      ensures old(host.time) <= host.time <= old(host.time) + XRAY_FAIL_CLOSED_MAX_DURATION_MS
      ensures runtimeIsFailClosed <==> host.stopFailures == old(host.stopFailures)
      ensures error == if host.stopFailures == old(host.stopFailures) then originalError else StopFailed
    {
      var ok := ForceFailClosed();
      error := if ok then originalError else StopFailed;
    }

    // Returns whether the clock is trusted; if not, or if the probe fails, the runtime is stopped.
    method EnforceClockTrust() returns (r: Result<bool>)
      requires Inv()
      modifies this`runtimeIsFailClosed, this`runtimeClientsFingerprint, this`leftOpen
      modifies host`time, host`lastExposure, host`admitted, host`stopFailures
      ensures Inv() && host.NoNewExposure()
      ensures old(host.time) <= host.time <= old(host.time) + CHRONYC_TIMEOUT_MS + XRAY_FAIL_CLOSED_MAX_DURATION_MS
      ensures r == Returned(true) ==> unchanged(this) && unchanged(host`admitted) && unchanged(host`stopFailures)
                                      && host.time <= old(host.time) + CHRONYC_TIMEOUT_MS
      ensures r != Returned(true) ==> Halted()
      ensures r.Thrown? ==> r.error == ClockProbeFailed || r.error == StopFailed
      ensures r == Returned(false) ==> host.stopFailures == old(host.stopFailures)
    {
      var assessment := host.AssessClock();
      match assessment
      case Trusted => return Returned(true);
      case ProbeFailed =>
        var error := FailClosedAndRethrow(ClockProbeFailed);
        return Thrown(error);
      case Untrusted =>
        var ok := ForceFailClosed();
        return if ok then Returned(false) else Thrown(StopFailed);
    }

    method ReadState() returns (state: StateRead)
      requires host.Valid()
      modifies host`time, host`lastExposure
      ensures host.Valid() && host.Spent(host.fileDelay)
      ensures StateReadsAs(host.disk, state)
      ensures host.reliableReads ==> !state.UnreadableState?
    {
      var r := host.ReadFile(StateFile);
      match r
      case NotFound => return MissingState;
      case Unreadable => return UnreadableState;
      case ReadText(c) =>
        return if c.Whole? && c.document.StateDocument? && c.document.envelope.Consistent()
          then ValidState(c.document.envelope) else CorruptState;
    }

    method ReadStopOnlyLatch() returns (latch: LatchRead)
      requires host.Valid()
      modifies host`time, host`lastExposure
      ensures host.Valid() && host.Spent(host.fileDelay)
      ensures LatchReadsAs(host.disk, latch)
      ensures host.reliableReads ==> !latch.UnreadableLatch?
    {
      var r := host.ReadFile(LatchFile);
      match r
      case NotFound => return MissingLatch;
      case Unreadable => return UnreadableLatch;
      case ReadText(c) =>
        return if c.Whole? && c.document.LatchDocument? && c.document.latch.Canonical()
          then ValidLatch(c.document.latch) else CorruptLatch;
    }

    // Flushes the state file and synchronises its directory.
    method ConfirmDurability() returns (ok: bool)
      requires host.Valid()
      modifies host`time, host`lastExposure, host`disk, host`diskLog
      ensures host.Valid() && host.Spent(6 * host.fileDelay)
      ensures Bounded(old(host.diskLog), host.diskLog, {}, {})
      ensures host.disk.Observe(StateFile) == old(host.disk).Observe(StateFile)
      ensures host.disk.Observe(LatchFile) == old(host.disk).Observe(LatchFile)
      ensures ok && host.directorySync ==> Settled(host.disk, StateFile)
      ensures Settled(old(host.disk), StateFile) ==> Settled(host.disk, StateFile)
    {
      hide Bounded, Settled, Serves;
      ghost var start := host.diskLog;
      ok := FlushStateFile();
      if ok {
        SyncNamesStep(start, host.diskLog, host.disk, {});
        ok := host.SyncParentDirectory();
      }
    }

    method FlushStateFile() returns (ok: bool)
      requires host.Valid()
      modifies host`time, host`lastExposure, host`disk, host`diskLog
      ensures host.Valid() && host.Spent(3 * host.fileDelay) && host.disk.SyncNames().Valid()
      ensures Bounded(old(host.diskLog), host.diskLog, {}, {})
      ensures host.disk.Observe(StateFile) == old(host.disk).Observe(StateFile)
      ensures host.disk.Observe(LatchFile) == old(host.disk).Observe(LatchFile)
      ensures ok ==> Settled(host.disk.SyncNames(), StateFile)
      ensures Settled(old(host.disk), StateFile) ==> Settled(host.disk, StateFile)
    {
      ghost var start := host.diskLog;
      BoundedAtStart(start, {}, {});
      SyncNamesShrinks(host.disk, StateFile);
      hide Bounded, Settled, Serves;
      var file := host.OpenFile(StateFile);
      if file.None? { return false; }
      FlushStep(start, host.disk, file.value);
      var synced := host.SyncFile(file.value);
      var closed := host.CloseFile();
      ok := synced && closed;
    }

    method EnsureDurabilityConfirmed() returns (failure: Option<AdapterError>)
      requires Inv()
      modifies this, host
      ensures Inv() && host.NoNewExposure()
      ensures Bounded(old(host.diskLog), host.diskLog, {}, {})
      ensures host.disk.Observe(StateFile) == old(host.disk).Observe(StateFile)
      ensures host.disk.Observe(LatchFile) == old(host.disk).Observe(LatchFile)
      ensures old(host.time) <= host.time <= old(host.time) + 6 * host.fileDelay + XRAY_FAIL_CLOSED_MAX_DURATION_MS
      ensures failure.None? ==> host.time <= old(host.time) + 6 * host.fileDelay
      ensures failure.None? ==>
                durabilityIsConfirmed && unchanged(`runtimeClientsFingerprint) && unchanged(`runtimeIsFailClosed)
                                && unchanged(`leftOpen) && unchanged(host`admitted) && unchanged(host`stopFailures)
      ensures failure.Some? ==> Halted() && (failure.value == DurabilityFailed || failure.value == StopFailed)
      ensures unchanged(host`probes)
    {
      if durabilityIsConfirmed { return None; }
      var confirmed := ConfirmDurability();
      if confirmed {
        durabilityIsConfirmed := true;
        return None;
      }
      var error := FailClosedAndRethrow(DurabilityFailed);
      return Some(error);
    }

    // A probe that fails counts as not serving.
    method ObserveServingPresence() returns (serving: bool)
      requires Inv()
      modifies host`time, host`lastExposure, host`probes
      ensures Inv() && host.Spent(XRAY_SERVING_PROBE_MAX_DURATION_MS)
      ensures serving == host.SeenServing()
    {
      var answer := host.IsServing();
      return answer == Some(true);
    }

    method ClearStopOnlyLatchAfterVerifiedApply(snapshot: Snapshot, latch: LatchRead) returns (ok: bool)
      requires host.Valid() && LatchReadsAs(host.disk, latch)
      modifies host`time, host`lastExposure, host`disk, host`diskLog
      ensures host.Valid() && host.NoNewExposure() && old(host.time) <= host.time
      ensures Bounded(old(host.diskLog), host.diskLog, {}, Cleared(latch, snapshot, old(host.time), host.time))
      ensures Settled(old(host.disk), StateFile) ==> Settled(host.disk, StateFile)
      ensures host.disk.Observe(StateFile) == old(host.disk).Observe(StateFile)
      ensures ok ==> host.disk.Observe(LatchFile) == None
      ensures host.disk.Observe(LatchFile) in {old(host.disk).Observe(LatchFile), None}
      ensures ok && !latch.MissingLatch? ==> MayClear(latch, snapshot, old(host.time), host.time)
      ensures host.disk.Observe(LatchFile) != old(host.disk).Observe(LatchFile) ==>
                MayClear(latch, snapshot, old(host.time), host.time)
    {
      BoundedAtStart(host.diskLog, {}, Cleared(latch, snapshot, host.time, host.time));
      if latch.MissingLatch? { return true; }
      if !latch.ValidLatch? { return false; }
      if snapshot.desiredConfigVersion < latch.latch.targetVersion { return false; }
      var servable := SelectServableXrayClients(snapshot, host.time);
      if exists id :: id in latch.latch.revokedGrantIds && Serves(servable, id) { return false; }
      assert ServesNoneOf(latch.latch.revokedGrantIds, snapshot, host.time);
      assert MayClear(latch, snapshot, host.time, host.time);
      hide Bounded, Settled, Serves;
      ghost var checked := host.time;
      ok := RemoveLatch();
      ClearingTakesTime(latch, snapshot, checked, checked, checked, host.time);
    }

    method RemoveLatch() returns (ok: bool)
      requires host.Valid()
      modifies host`time, host`lastExposure, host`disk, host`diskLog
      ensures host.Valid() && host.Spent(4 * host.fileDelay)
      ensures Bounded(old(host.diskLog), host.diskLog, {}, {Gone})
      ensures host.disk.Observe(StateFile) == old(host.disk).Observe(StateFile)
      ensures Settled(old(host.disk), StateFile) ==> Settled(host.disk, StateFile)
      ensures ok ==> host.disk.Observe(LatchFile) == None
      ensures host.disk.Observe(LatchFile) in {old(host.disk).Observe(LatchFile), None}
    {
      ghost var start := host.diskLog;
      RemovalStep(start, host.disk);
      hide Bounded, Settled, Last;
      ok := host.RemoveFile(LatchFile);
      if !ok { return; }
      SyncNamesStep(start, host.diskLog, host.disk, {Gone});
      ok := host.SyncParentDirectory();
    }

    // Inv, while the fingerprint is still that of earlier clients.
    ghost predicate InvBeforeFingerprint()
      reads this, host
    {
      && host.Valid()
      && (runtimeIsFailClosed ==> host.admitted == [])
      && (durabilityIsConfirmed && host.directorySync ==> Settled(host.disk, StateFile))
    }

    // The runtime accepted exactly these clients, and the adapter remembers them.
    ghost predicate Serving(clients: seq<XrayClient>)
      reads this, host
    {
      && host.admitted == clients
      && runtimeClientsFingerprint == Some(ClientsDigest(clients))
      && !runtimeIsFailClosed && !leftOpen
    }

    // The two exits that do not stop the runtime: it was not fail-closed and was seen serving.
    twostate predicate LeftOpen(error: AdapterError)
      reads this, host
    {
      && leftOpen && !old(runtimeIsFailClosed) && host.SeenServing()
      && host.stopFailures == old(host.stopFailures)
      && (error == ApplyFailed || error == DurabilityFailed)
    }

    // Offers the clients of the persisted version and confirms that version is durable.
    method ApplyAndConfirm(clients: seq<XrayClient>) returns (failure: Option<AdapterError>)
      requires Inv()
      modifies this`runtimeIsFailClosed, this`durabilityIsConfirmed
      modifies host`time, host`lastExposure, host`admitted, host`disk, host`diskLog
      ensures host.Valid() && old(host.time) <= host.time
      ensures durabilityIsConfirmed && host.directorySync ==> Settled(host.disk, StateFile)
      ensures Bounded(old(host.diskLog), host.diskLog, {}, {})
      ensures host.disk.Observe(StateFile) == old(host.disk).Observe(StateFile)
      ensures host.disk.Observe(LatchFile) == old(host.disk).Observe(LatchFile)
      ensures failure.None? ==> host.admitted == clients && !runtimeIsFailClosed && durabilityIsConfirmed
      ensures failure.Some? ==> runtimeIsFailClosed ==> old(runtimeIsFailClosed)
      ensures failure.Some? ==> failure.value == ApplyFailed || failure.value == DurabilityFailed
    {
      ghost var start := host.diskLog;
      BoundedAtStart(start, {}, {});
      hide Bounded, Settled;
      var ok := host.ApplyClients(clients);
      if !ok { return Some(ApplyFailed); }
      runtimeIsFailClosed := false;
      ok := ConfirmDurability();
      if !ok { return Some(DurabilityFailed); }
      durabilityIsConfirmed := true;
      return None;
    }

    method OfferAgain(clients: seq<XrayClient>) returns (failure: Option<AdapterError>)
      requires Inv()
      modifies this, host
      ensures InvBeforeFingerprint() && old(host.time) <= host.time
      ensures Bounded(old(host.diskLog), host.diskLog, {}, {})
      ensures host.disk.Observe(StateFile) == old(host.disk).Observe(StateFile)
      ensures host.disk.Observe(LatchFile) == old(host.disk).Observe(LatchFile)
      ensures failure.None? ==> host.admitted == clients && !runtimeIsFailClosed && durabilityIsConfirmed
                                && host.stopFailures == old(host.stopFailures)
      ensures failure.Some? ==> Inv() && (Halted() || LeftOpen(failure.value))
      ensures failure.Some? ==> failure.value in {ApplyFailed, DurabilityFailed, StopFailed}
    {
      hide Bounded, Settled, Serves;
      var serving := ObserveServingPresence();
      var wasFailClosed := runtimeIsFailClosed;
      failure := ApplyAndConfirm(clients);
      if failure.Some? {
        if wasFailClosed || !serving {
          var error := FailClosedAndRethrow(failure.value);
          return Some(error);
        }
        leftOpen := true;
      }
    }

    // After the runtime accepted the clients of a durably current snapshot: the latch goes, and
    // the clients are remembered; otherwise the runtime is stopped.
    method FinishVerifiedApply(snapshot: Snapshot, clients: seq<XrayClient>, latch: LatchRead, outcome: ApplyOutcome)
      returns (r: Result<ApplyOutcome>)
      requires InvBeforeFingerprint() && LatchReadsAs(host.disk, latch)
      requires host.admitted == clients && !runtimeIsFailClosed && durabilityIsConfirmed
      modifies this, host
      ensures Inv() && old(host.time) <= host.time
      ensures Bounded(old(host.diskLog), host.diskLog, {}, Cleared(latch, snapshot, old(host.time), host.time))
      ensures host.disk.Observe(StateFile) == old(host.disk).Observe(StateFile)
      ensures host.directorySync ==> Settled(host.disk, StateFile)
      ensures host.disk.Observe(LatchFile) in {old(host.disk).Observe(LatchFile), None}
      ensures host.disk.Observe(LatchFile) != old(host.disk).Observe(LatchFile) ==>
                MayClear(latch, snapshot, old(host.time), host.time)
      ensures host.NoNewExposure()
      ensures r.Returned? ==> r.value == outcome && Serving(clients) && durabilityIsConfirmed
                              && host.disk.Observe(LatchFile) == None
                              && host.stopFailures == old(host.stopFailures)
      ensures r.Thrown? ==> Halted() && (r.error == LatchClearFailed || r.error == StopFailed)
    {
      assert !Serves([], host.watched);
      hide Bounded, Settled, Serves, MayClear, Cleared, ClearedWhileHeld;
      ghost var began := host.time;
      var cleared := ClearStopOnlyLatchAfterVerifiedApply(snapshot, latch);
      if !cleared {
        ghost var checked := host.time;
        var error := FailClosedAndRethrow(LatchClearFailed);
        ClearingTakesTime(latch, snapshot, began, began, checked, host.time);
        BoundedWeakens(old(host.diskLog), host.diskLog, {}, Cleared(latch, snapshot, began, checked),
                       {}, Cleared(latch, snapshot, began, host.time));
        return Thrown(error);
      }
      runtimeClientsFingerprint := Some(ClientsDigest(clients));
      leftOpen := false;
      return Returned(outcome);
    }

    // The snapshot tells of a revocation that leaves no time to wait for an apply.
    ghost predicate MustStopFirst(state: StateRead, snapshot: Snapshot, appliedAt: int) {
      state.ValidState? && IsOverdue(Some(state.envelope.current.snapshot), snapshot.grants, appliedAt,
                                     ACCESS_CONTROL_ENFORCEMENT_SLA_MS, LOCAL_FAIL_CLOSED_RESERVE_MS)
    }

    // The runtime was stopped before anything else: a grant that the snapshot no longer serves was admitted for
    // no longer than one stop takes, and a failure leaves nobody admitted.
    twostate predicate StoppedFirst(clients: seq<XrayClient>, failed: bool)
      reads host
    {
      && (!Serves(clients, host.watched) ==>
            || host.lastExposure == old(host.lastExposure)
            || host.lastExposure <= old(host.time) + XRAY_FAIL_CLOSED_MAX_DURATION_MS)
      && (failed ==> host.admitted == [])
    }

    // The snapshot is newer than what is persisted: offer its clients, then make it durable.
    method OfferAndPersist(snapshot: Snapshot, appliedAt: int, clients: seq<XrayClient>, state: StateRead,
                           next: Envelope)
      returns (failure: Option<AdapterError>)
      requires Inv() && StateReadsAs(host.disk, state)
      requires !state.ValidState? ==> runtimeIsFailClosed
      requires appliedAt <= host.time
      modifies this, host
      ensures MustStopFirst(state, snapshot, appliedAt) && host.stopFailures == old(host.stopFailures) ==>
                StoppedFirst(clients, failure.Some?)
      ensures InvBeforeFingerprint() && old(host.time) <= host.time
      ensures Bounded(old(host.diskLog), host.diskLog, {Kept(Whole(StateDocument(next)))}, {})
      ensures host.disk.Observe(LatchFile) == old(host.disk).Observe(LatchFile)
      ensures host.disk.Observe(StateFile) in {old(host.disk).Observe(StateFile), Some(Whole(StateDocument(next)))}
      ensures failure.None? ==> host.admitted == clients && !runtimeIsFailClosed && durabilityIsConfirmed
                                && host.stopFailures == old(host.stopFailures)
                                && host.disk.Observe(StateFile) == Some(Whole(StateDocument(next)))
      ensures failure.Some? ==> Inv() && (Halted() || LeftOpen(failure.value))
      ensures failure.Some? ==> failure.value in {ApplyFailed, DurabilityFailed, StopFailed}
      ensures failure == Some(ApplyFailed) ==> host.disk.Observe(StateFile) == old(host.disk).Observe(StateFile)
    {
      assert !Serves([], host.watched);
      hide Bounded, Settled, Serves;
      BoundedAtStart(host.diskLog, {Kept(Whole(StateDocument(next)))}, {});
      var deadline := None;
      if state.ValidState? {
        var enforcements := FindRevocationEnforcements(Some(state.envelope.current.snapshot), snapshot, appliedAt,
                                                       ACCESS_CONTROL_ENFORCEMENT_SLA_MS);
        deadline := EarliestDeadline(enforcements);
        OverdueExactly(enforcements, deadline, Some(state.envelope.current.snapshot), snapshot.grants, appliedAt,
                       ACCESS_CONTROL_ENFORCEMENT_SLA_MS, LOCAL_FAIL_CLOSED_RESERVE_MS);
      }
      if !runtimeIsFailClosed && ShouldFailClosed(deadline, appliedAt) {
        var stopped := ForceFailClosed();
        if !stopped { return Some(StopFailed); }
      }
      failure := OfferOrStop(clients, state.ValidState?, deadline);
      if failure.None? {
        failure := Persist(next);
      }
    }

    // Offers the clients of a newer snapshot. A failure stops the runtime unless it was serving a
    // readable earlier version whose revocations are not yet due.
    method OfferOrStop(clients: seq<XrayClient>, stateIsValid: bool, deadline: Option<int>)
      returns (failure: Option<AdapterError>)
      requires Inv()
      modifies this, host
      ensures InvBeforeFingerprint() && host.DiskKept() && old(host.time) <= host.time
      ensures !Serves(clients, host.watched) ==> host.NoNewExposure()
      ensures failure.None? ==>
                host.admitted == clients && !runtimeIsFailClosed && host.stopFailures == old(host.stopFailures)
      ensures failure.Some? ==> Inv() && failure.value in {ApplyFailed, StopFailed}
      ensures failure.Some? ==>
                Halted() || (LeftOpen(failure.value) && stateIsValid && !ShouldFailClosed(deadline, host.time))
    {
      assert !Serves([], host.watched);
      hide Settled;
      var serving := ObserveServingPresence();
      var wasFailClosed := runtimeIsFailClosed;
      var ok := host.ApplyClients(clients);
      if ok {
        runtimeIsFailClosed := false;
        return None;
      }
      if wasFailClosed || !serving || !stateIsValid || ShouldFailClosed(deadline, host.time) {
        var error := FailClosedAndRethrow(ApplyFailed);
        return Some(error);
      }
      leftOpen := true;
      return Some(ApplyFailed);
    }

    method Persist(next: Envelope) returns (failure: Option<AdapterError>)
      requires host.Valid() && !runtimeIsFailClosed
      modifies this, host
      ensures InvBeforeFingerprint() && old(host.time) <= host.time
      ensures Bounded(old(host.diskLog), host.diskLog, {Kept(Whole(StateDocument(next)))}, {})
      ensures host.disk.Observe(LatchFile) == old(host.disk).Observe(LatchFile)
      ensures host.disk.Observe(StateFile) in {old(host.disk).Observe(StateFile), Some(Whole(StateDocument(next)))}
      ensures host.NoNewExposure()
      ensures failure.None? ==> host.admitted == old(host.admitted) && !runtimeIsFailClosed && durabilityIsConfirmed
                                && host.stopFailures == old(host.stopFailures)
                                && host.disk.Observe(StateFile) == Some(Whole(StateDocument(next)))
      ensures failure.Some? ==> Inv() && Halted() && (failure.value == DurabilityFailed || failure.value == StopFailed)
    {
      durabilityIsConfirmed := false;
      var written := WriteJsonDurably(StateFile, StateDocument(next));
      ReplacingIsBounded(old(host.diskLog), host.diskLog, StateFile, StateDocument(next));
      assert Within(old(host.disk), host.disk, {Kept(Whole(StateDocument(next)))}, {});
      if !written {
        var error := FailClosedAndRethrow(DurabilityFailed);
        return Some(error);
      }
      durabilityIsConfirmed := true;
      return None;
    }

    // A latch on disk means nobody is admitted, as long as stop commands work.
    twostate predicate LatchHolds()
      requires host.Valid()
      reads this, host
    {
      host.stopFailures == old(host.stopFailures) && host.disk.Observe(LatchFile).Some? ==> host.admitted == []
    }

    ghost predicate Holds(snapshot: Snapshot)
      requires host.Valid()
      reads host
    {
      HoldsOn(host.disk, snapshot)
    }

    // The state file, the data plane and the remembered fields all hold the snapshot, and no latch is left.
    ghost predicate IsApplied(snapshot: Snapshot, clients: seq<XrayClient>)
      requires host.Valid()
      reads this, host
    {
      && Holds(snapshot)
      && (host.directorySync ==> Settled(host.disk, StateFile))
      && Serving(clients)
      && host.disk.Observe(LatchFile) == None
    }

    // A removed latch was satisfied by this snapshot, which was by then the current state.
    twostate predicate LatchOnlyCleared(snapshot: Snapshot, latch: LatchRead)
      requires old(host.Valid()) && host.Valid()
      reads host
    {
      host.disk.Observe(LatchFile) != old(host.disk).Observe(LatchFile) ==>
        && host.disk.Observe(LatchFile) == None
        && MayClear(latch, snapshot, old(host.time), host.time)
        && Holds(snapshot) && (host.directorySync ==> Settled(host.disk, StateFile))
    }

    twostate predicate LatchClearedWhileHeld(snapshot: Snapshot)
      reads host
    {
      ClearedWhileHeld(old(host.diskLog), host.diskLog, snapshot, host.directorySync)
    }

    method ReapplyCurrent(snapshot: Snapshot, clients: seq<XrayClient>, latch: LatchRead, ghost env: Envelope)
      returns (r: Result<ApplyOutcome>)
      requires Inv() && LatchReadsAs(host.disk, latch) && (latch.MissingLatch? || runtimeIsFailClosed)
      requires host.disk.Observe(StateFile) == Some(Whole(StateDocument(env))) && env.Consistent()
      requires env.current.version == snapshot.desiredConfigVersion
      requires env.current.snapshotHash == HashSnapshot(snapshot)
      modifies this, host
      ensures Inv() && LatchHolds() && old(host.time) <= host.time && old(host.stopFailures) <= host.stopFailures
      ensures Bounded(old(host.diskLog), host.diskLog, {}, Cleared(latch, snapshot, old(host.time), host.time))
      ensures LatchOnlyCleared(snapshot, latch) && LatchClearedWhileHeld(snapshot)
      ensures r.Returned? ==> r.value == AlreadyApplied && IsApplied(snapshot, clients)
      ensures r.Thrown? ==> Halted() || LeftOpen(r.error)
      ensures r.Thrown? ==> r.error != VersionDowngrade && r.error != VersionCollision
    {
      hide Bounded, Settled, Serves, MayClear, Cleared, ClearedWhileHeld;
      ghost var start, began := host.diskLog, host.time;
      assert Holds(snapshot);
      var failure := OfferAgain(clients);
      assert Holds(snapshot);
      if failure.Some? {
        BoundedWeakens(start, host.diskLog, {}, {}, {}, Cleared(latch, snapshot, began, host.time));
        LatchUntouched(start, host.diskLog, {}, snapshot, host.directorySync);
        return Thrown(failure.value);
      }
      ghost var offered, offeredAt := host.diskLog, host.time;
      r := FinishVerifiedApply(snapshot, clients, latch, AlreadyApplied);
      ClearingTakesTime(latch, snapshot, began, offeredAt, host.time, host.time);
      PartsAreBounded(start, offered, host.diskLog, {}, {}, {}, Cleared(latch, snapshot, offeredAt, host.time),
                      {}, Cleared(latch, snapshot, began, host.time));
      ClearedAtTheEnd(start, offered, host.diskLog, {}, Cleared(latch, snapshot, offeredAt, host.time), snapshot,
                      host.directorySync);
    }

    method ReplaceCurrent(snapshot: Snapshot, appliedAt: int, clients: seq<XrayClient>, latch: LatchRead,
                          state: StateRead, next: Envelope)
      returns (r: Result<ApplyOutcome>)
      requires Inv() && LatchReadsAs(host.disk, latch) && StateReadsAs(host.disk, state)
      requires (latch.MissingLatch? && state.ValidState?) || runtimeIsFailClosed
      requires snapshot.WellFormed() && PlanApply(state, snapshot, appliedAt) == Replace(next)
      requires appliedAt <= host.time
      modifies this, host
      ensures Inv() && LatchHolds() && old(host.time) <= host.time && old(host.stopFailures) <= host.stopFailures
      ensures Bounded(old(host.diskLog), host.diskLog, {Kept(Whole(StateDocument(next)))},
                      Cleared(latch, snapshot, old(host.time), host.time))
      ensures LatchOnlyCleared(snapshot, latch) && LatchClearedWhileHeld(snapshot)
      ensures MustStopFirst(state, snapshot, appliedAt) && host.stopFailures == old(host.stopFailures) ==>
                StoppedFirst(clients, r.Thrown?)
      ensures r.Returned? ==> r.value == Applied && IsApplied(snapshot, clients)
      ensures r.Thrown? ==> Halted() || LeftOpen(r.error)
      ensures r.Thrown? ==> r.error != VersionDowngrade && r.error != VersionCollision
    {
      assert !Serves([], host.watched);
      hide Bounded, Settled, Serves, MayClear, Cleared, ClearedWhileHeld;
      ghost var start, began := host.diskLog, host.time;
      ghost var planned := {Kept(Whole(StateDocument(next)))};
      assert next.Consistent() by { ReplacementReadsBack(state, snapshot, appliedAt); }
      var failure := OfferAndPersist(snapshot, appliedAt, clients, state, next);
      if failure.Some? {
        BoundedWeakens(start, host.diskLog, planned, {}, planned, Cleared(latch, snapshot, began, host.time));
        LatchUntouched(start, host.diskLog, planned, snapshot, host.directorySync);
        return Thrown(failure.value);
      }
      ghost var offered, offeredAt := host.diskLog, host.time;
      assert Holds(snapshot);
      r := FinishVerifiedApply(snapshot, clients, latch, Applied);
      assert Holds(snapshot);
      ClearingTakesTime(latch, snapshot, began, offeredAt, host.time, host.time);
      PartsAreBounded(start, offered, host.diskLog, planned, {}, {}, Cleared(latch, snapshot, offeredAt, host.time),
                      planned, Cleared(latch, snapshot, began, host.time));
      ClearedAtTheEnd(start, offered, host.diskLog, planned, Cleared(latch, snapshot, offeredAt, host.time), snapshot,
                      host.directorySync);
    }

    // A grant that is no longer to be served was admitted no longer than the checks and stops before the
    // apply can take, and a failure leaves nobody admitted.
    ghost predicate StoppedInTime(clients: seq<XrayClient>, appliedAt: int, failed: bool)
      reads this, host
    {
      && (!Serves(clients, host.watched) ==>
            host.lastExposure <= appliedAt + CHRONYC_TIMEOUT_MS + 8 * host.fileDelay
                                 + 3 * XRAY_FAIL_CLOSED_MAX_DURATION_MS)
      && (failed ==> host.admitted == [])
    }

    // Reads the latch and the state file; what cannot be trusted stops the runtime first.
    method PrepareApply() returns (failure: Option<AdapterError>, latch: LatchRead, state: StateRead)
      requires Inv()
      modifies this, host
      ensures Inv() && old(host.time) <= host.time
      ensures Bounded(old(host.diskLog), host.diskLog, {}, {})
      ensures host.disk.Observe(StateFile) == old(host.disk).Observe(StateFile)
      ensures host.disk.Observe(LatchFile) == old(host.disk).Observe(LatchFile)
      ensures failure.Some? ==> Halted() && (failure.value == DurabilityFailed || failure.value == StopFailed)
      ensures failure.None? ==> LatchReadsAs(host.disk, latch) && StateReadsAs(host.disk, state)
      ensures failure.None? ==> (latch.MissingLatch? && state.ValidState?) || runtimeIsFailClosed
      ensures failure.None? && host.reliableReads ==> !state.UnreadableState?
      ensures failure.None? && state.ValidState? ==> durabilityIsConfirmed
      ensures failure.None? ==> host.stopFailures == old(host.stopFailures)
      ensures failure.None? ==> host.admitted == old(host.admitted) || host.admitted == []
      ensures unchanged(host`probes)
      ensures host.time <= old(host.time) + 8 * host.fileDelay + 2 * XRAY_FAIL_CLOSED_MAX_DURATION_MS
    {
      hide Bounded, Settled, Serves;
      BoundedAtStart(host.diskLog, {}, {});
      state := UnreadableState;
      latch := ReadStopOnlyLatch();
      if !latch.MissingLatch? {
        var stopped := ForceFailClosed();
        if !stopped {
          failure := Some(StopFailed);
          return;
        }
      }
      state := ReadState();
      if !state.ValidState? {
        var stopped := ForceFailClosed();
        failure := if stopped then None else Some(StopFailed);
      } else {
        failure := EnsureDurabilityConfirmed();
      }
    }

    method CarryOut(snapshot: Snapshot, appliedAt: int, clients: seq<XrayClient>, latch: LatchRead, state: StateRead)
      returns (r: Result<ApplyOutcome>)
      requires Inv() && snapshot.WellFormed() && LatchReadsAs(host.disk, latch) && StateReadsAs(host.disk, state)
      requires (latch.MissingLatch? && state.ValidState?) || runtimeIsFailClosed
      requires appliedAt <= host.time
      modifies this, host
      ensures Inv() && LatchHolds() && old(host.time) <= host.time && old(host.stopFailures) <= host.stopFailures
      ensures Bounded(old(host.diskLog), host.diskLog, PlannedStates(PlanApply(state, snapshot, appliedAt)),
                      Cleared(latch, snapshot, old(host.time), host.time))
      ensures LatchOnlyCleared(snapshot, latch) && LatchClearedWhileHeld(snapshot)
      ensures PlanApply(state, snapshot, appliedAt).Replace? && MustStopFirst(state, snapshot, appliedAt)
              && host.stopFailures == old(host.stopFailures) ==>
                StoppedFirst(clients, r.Thrown?)
      ensures r.Returned? ==> IsApplied(snapshot, clients)
      ensures r.Returned? ==>
                r.value == if PlanApply(state, snapshot, appliedAt).Reapply? then AlreadyApplied else Applied
      ensures IsRefusal(r) ==> RefusedAs(r, PlanApply(state, snapshot, appliedAt)) && unchanged(host`admitted)
      ensures r.Thrown? && !IsRefusal(r) && host.stopFailures == old(host.stopFailures) ==>
                host.admitted == [] || (leftOpen && host.SeenServing())
    {
      hide Bounded, Settled, Serves, MayClear, Cleared, Holds, HoldsOn, Serving, ClearedWhileHeld;
      BoundedAtStart(host.diskLog, PlannedStates(PlanApply(state, snapshot, appliedAt)),
                     Cleared(latch, snapshot, host.time, host.time));
      BoundedAtStart(host.diskLog, {}, {});
      LatchUntouched(host.diskLog, host.diskLog, {}, snapshot, host.directorySync);
      match PlanApply(state, snapshot, appliedAt) {
      case RefuseDowngrade =>
        r := Thrown(VersionDowngrade);
      case RefuseCollision =>
        r := Thrown(VersionCollision);
      case Reapply =>
        r := ReapplyCurrent(snapshot, clients, latch, state.envelope);
      case Replace(next) =>
        r := ReplaceCurrent(snapshot, appliedAt, clients, latch, state, next);
      }
    }

    // Both apply and reconcileConfirmedSnapshot.
    method ApplySnapshot(snapshot: Snapshot)
      returns (r: Result<ApplyOutcome>, ghost appliedAt: int, ghost read: StateRead, ghost latched: LatchRead)
      requires Inv() && snapshot.WellFormed()
      modifies this, host
      ensures Inv() && LatchHolds()
      ensures old(host.time) <= appliedAt <= host.time
      ensures StateReadsAs(old(host.disk), read) && (host.reliableReads ==> !read.UnreadableState?)
      ensures LatchReadsAs(old(host.disk), latched) && old(host.time) <= host.time
      // At every instant of the operation the state file is the old one or the planned one, and
      // the latch is the old one or, if this snapshot satisfies it, gone.
      ensures Bounded(old(host.diskLog), host.diskLog, PlannedStates(PlanApply(read, snapshot, appliedAt)),
                      Cleared(latched, snapshot, old(host.time), host.time))
      ensures r.Returned? ==> IsApplied(snapshot, SelectServableXrayClients(snapshot, appliedAt))
      ensures r.Returned? ==>
                r.value == if PlanApply(read, snapshot, appliedAt).Reapply? then AlreadyApplied else Applied
      // A removed latch was satisfied by this snapshot, which was by then the current state.
      ensures LatchOnlyCleared(snapshot, latched) && LatchClearedWhileHeld(snapshot)
      // A refused snapshot reaches neither the disk nor the runtime; any other failure stops the
      // runtime, or leaves it open because it was seen serving.
      ensures IsRefusal(r) ==> RefusedAs(r, PlanApply(read, snapshot, appliedAt))
                               && (host.admitted == old(host.admitted) || host.admitted == [])
      ensures r.Thrown? && !IsRefusal(r) && host.stopFailures == old(host.stopFailures) ==>
                host.admitted == [] || (leftOpen && host.SeenServing())
      // A revocation that leaves no time to wait stops the runtime before the new clients are offered.
      ensures PlanApply(read, snapshot, appliedAt).Replace? && MustStopFirst(read, snapshot, appliedAt)
              && host.stopFailures == old(host.stopFailures) ==>
                StoppedInTime(SelectServableXrayClients(snapshot, appliedAt), appliedAt, r.Thrown?)
    {
      hide Bounded, Settled, Serves, MayClear, Cleared, Holds, HoldsOn, Serving, ClearedWhileHeld, PlanApply,
        MustStopFirst, Disk.Valid,
        PlannedStates, SelectServableXrayClients, IsApplied, RefusedAs;
      ghost var start, began := host.diskLog, host.time;
      appliedAt, read, latched := host.time, StateShown(host.disk), LatchShown(host.disk);
      var trust := EnforceClockTrust();
      if trust != Returned(true) {
        BoundedAtStart(start, PlannedStates(PlanApply(read, snapshot, appliedAt)),
                       Cleared(latched, snapshot, began, host.time));
        BoundedAtStart(start, {}, {});
        LatchUntouched(start, start, {}, snapshot, host.directorySync);
        r := Thrown(if trust.Thrown? then trust.error else ClockUntrusted);
        return;
      }
      appliedAt := host.time;
      var clients := SelectServableXrayClients(snapshot, host.time);
      var applyTime := host.time;
      var failure, latch, state := PrepareApply();
      if failure.Some? {
        BoundedWeakens(start, host.diskLog, {}, {}, PlannedStates(PlanApply(read, snapshot, appliedAt)),
                       Cleared(latched, snapshot, began, host.time));
        LatchUntouched(start, host.diskLog, {}, snapshot, host.directorySync);
        r := Thrown(failure.value);
        return;
      }
      read, latched := state, latch;
      ghost var planned := PlannedStates(PlanApply(read, snapshot, appliedAt));
      ghost var prepared, preparedAt := host.diskLog, host.time;
      r := CarryOut(snapshot, applyTime, clients, latch, state);
      ClearingTakesTime(latch, snapshot, began, preparedAt, host.time, host.time);
      PartsAreBounded(start, prepared, host.diskLog, {}, {}, planned, Cleared(latch, snapshot, preparedAt, host.time),
                      planned, Cleared(latch, snapshot, began, host.time));
      ClearedAfter(start, prepared, host.diskLog, planned, Cleared(latch, snapshot, preparedAt, host.time), snapshot,
                   host.directorySync);
    }

    // Reads the latch once more and replaces it by the merged one.
    method PersistStopOnlyLatch(targetVersion: nat, es: seq<Enforcement>)
      returns (ok: bool, ghost again: LatchRead, ghost latch: Latch)
      requires host.Valid() && es != []
      modifies host`time, host`lastExposure, host`disk, host`diskLog
      ensures host.Valid() && host.Spent(13 * host.fileDelay)
      ensures LatchReadsAs(old(host.disk), again) && (host.reliableReads ==> !again.UnreadableLatch?)
      ensures IsMergedLatch(latch, again, targetVersion, es)
      ensures Bounded(old(host.diskLog), host.diskLog, {}, {Kept(Whole(LatchDocument(latch)))})
      ensures host.disk.Observe(StateFile) == old(host.disk).Observe(StateFile)
      ensures Settled(old(host.disk), StateFile) ==> Settled(host.disk, StateFile)
      ensures host.disk.Observe(LatchFile) in {old(host.disk).Observe(LatchFile), Some(Whole(LatchDocument(latch)))}
      ensures ok ==> host.disk.Observe(LatchFile) == Some(Whole(LatchDocument(latch)))
      ensures ok && host.directorySync ==> Settled(host.disk, LatchFile)
    {
      hide AllReplacing, Bounded, Settled, Serves, MergeLatch, IsMergedLatch, IsEarliest, DeadlinesIn, LatchReadsAs;
      var existing := ReadStopOnlyLatch();
      again := existing;
      var earliest := EarliestDeadline(es);
      EarliestIsMerged(existing, targetVersion, earliest, es);
      var merged := MergeLatch(existing, targetVersion, earliest.value, es);
      latch := merged;
      ghost var log := host.diskLog;
      ok := WriteJsonDurably(LatchFile, LatchDocument(merged));
      ReplacingIsBounded(log, host.diskLog, LatchFile, LatchDocument(merged));
      LatchReplaced(log, host.diskLog, LatchDocument(merged));
    }

    // Distrusts the clock, then stops for an existing latch, then reads the state file.
    method ReadForSecurity() returns (failure: Option<AdapterError>, state: StateRead)
      requires Inv()
      modifies this`runtimeIsFailClosed, this`runtimeClientsFingerprint, this`leftOpen
      modifies host`time, host`lastExposure, host`admitted, host`stopFailures
      ensures Inv() && old(host.time) <= host.time
      ensures failure.Some? ==> Halted()
      ensures failure.None? ==> StateReadsAs(host.disk, state) && (host.reliableReads ==> !state.UnreadableState?)
      ensures failure.None? ==> host.stopFailures == old(host.stopFailures)
      ensures failure.None? && host.disk.Observe(LatchFile).Some? ==> host.admitted == [] && runtimeIsFailClosed
    {
      hide Settled, Serves;
      state := UnreadableState;
      var trust := EnforceClockTrust();
      if trust != Returned(true) {
        failure := Some(if trust.Thrown? then trust.error else ClockUntrusted);
        return;
      }
      var existing := ReadStopOnlyLatch();
      if !existing.MissingLatch? {
        var stopped := ForceFailClosed();
        if !stopped {
          failure := Some(StopFailed);
          return;
        }
      }
      state := ReadState();
      failure := None;
    }

    // A node that has not yet been told to apply learns of revocations it must enforce.
    method EnforceSnapshotSecurity(snapshot: Snapshot)
      returns (r: Result<()>, ghost read: StateRead, ghost checkedAt: int, ghost es: seq<Enforcement>,
               ghost again: LatchRead, ghost latch: Latch)
      requires Inv()
      modifies this, host
      ensures Inv() && LatchHolds()
      ensures StateReadsAs(old(host.disk), read) && LatchReadsAs(old(host.disk), again)
      ensures host.reliableReads ==> !read.UnreadableState? && !again.UnreadableLatch?
      // The state file is never at risk; the latch only becomes the merged one.
      ensures Bounded(old(host.diskLog), host.diskLog, {}, if es == [] then {} else {Kept(Whole(LatchDocument(latch)))})
      ensures es != [] ==> IsMergedLatch(latch, again, snapshot.desiredConfigVersion, es)
      // On a normal return every revocation of a client the node was serving is on the latch, and the
      // runtime is stopped.
      ensures r.Returned? ==>
                && EnforcesExactly(es, LocalSnapshot(read), snapshot.grants, checkedAt,
                                   ACCESS_CONTROL_ENFORCEMENT_SLA_MS)
                && old(host.time) <= checkedAt <= host.time
                && host.stopFailures == old(host.stopFailures)
                && (es != [] ==>
                    host.disk.Observe(LatchFile) == Some(Whole(LatchDocument(latch))) && host.admitted == []
                                 && (host.directorySync ==> Settled(host.disk, LatchFile)))
                && (es == [] ==> host.disk == old(host.disk) && (read.ValidState? || host.admitted == []))
      ensures r.Thrown? ==> Halted()
    {
      hide Bounded, Settled, Serves;
      ghost var start := host.diskLog;
      BoundedAtStart(start, {}, {});
      read, again, es, checkedAt, latch := StateShown(host.disk), LatchShown(host.disk), [], host.time, Latch(0, 0, []);
      var failure, state := ReadForSecurity();
      if failure.Some? {
        r := Thrown(failure.value);
        return;
      }
      read, checkedAt := state, host.time;
      var enforcements :=
        FindRevocationEnforcements(LocalSnapshot(state), snapshot, host.time, ACCESS_CONTROL_ENFORCEMENT_SLA_MS);
      if enforcements == [] {
        if !state.ValidState? {
          var stopped := ForceFailClosed();
          if !stopped {
            r := Thrown(StopFailed);
            return;
          }
        }
        r := Returned(());
        return;
      }
      es := enforcements;
      r, again, latch := LatchAndStop(snapshot.desiredConfigVersion, enforcements);
    }

    method LatchAndStop(targetVersion: nat, es: seq<Enforcement>)
      returns (r: Result<()>, ghost again: LatchRead, ghost latch: Latch)
      requires Inv() && es != []
      modifies this, host
      ensures Inv() && Halted() && old(host.time) <= host.time
      ensures LatchReadsAs(old(host.disk), again) && (host.reliableReads ==> !again.UnreadableLatch?)
      ensures IsMergedLatch(latch, again, targetVersion, es)
      ensures Bounded(old(host.diskLog), host.diskLog, {}, {Kept(Whole(LatchDocument(latch)))})
      ensures r.Returned? ==> host.disk.Observe(LatchFile) == Some(Whole(LatchDocument(latch)))
                              && (host.directorySync ==> Settled(host.disk, LatchFile))
                              && host.stopFailures == old(host.stopFailures)
    {
      hide Bounded, Settled, Serves, IsMergedLatch, LatchReadsAs;
      var written: bool;
      written, again, latch := PersistStopOnlyLatch(targetVersion, es);
      if !written {
        var error := FailClosedAndRethrow(LatchWriteFailed);
        r := Thrown(error);
        return;
      }
      var stopped := ForceFailClosed();
      r := if stopped then Returned(()) else Thrown(StopFailed);
    }

    // When the local state must be looked at next; what cannot be trusted stops the runtime.
    method NextLocalReconcileAt() returns (r: Result<int>, ghost sampledAt: int)
      requires Inv()
      modifies this, host
      ensures Inv() && LatchHolds() && host.DiskKept()
      ensures old(host.time) <= sampledAt <= host.time
      ensures r.Thrown? ==> Halted()
      ensures r.Returned? ==> host.stopFailures == old(host.stopFailures)
      ensures r.Returned? && host.admitted != [] ==>
                && host.admitted == old(host.admitted) && host.disk.Observe(LatchFile) == None
                && exists env ::
                  StateReadsAs(host.disk, ValidState(env)) && IsNextCheck(r.value, env.current.snapshot, sampledAt)
    {
      hide Serves;
      sampledAt := host.time;
      var trust := EnforceClockTrust();
      if trust.Thrown? {
        r := Thrown(trust.error);
        return;
      }
      sampledAt := host.time;
      var now := host.time;
      if !trust.value {
        r := Returned(now + LOCAL_STATE_INTEGRITY_CHECK_INTERVAL_MS);
        return;
      }
      var state := ReadStateUnlessLatched();
      if !state.ValidState? {
        var stopped := ForceFailClosed();
        r := if stopped then Returned(now + LOCAL_STATE_INTEGRITY_CHECK_INTERVAL_MS) else Thrown(StopFailed);
        return;
      }
      var next := NextLocalSecurityCheckAt(state.envelope.current.snapshot, now);
      r := Returned(next);
    }

    // The state file is only looked at when there is no latch.
    method ReadStateUnlessLatched() returns (state: StateRead)
      requires host.Valid()
      modifies host`time, host`lastExposure
      ensures host.Valid() && host.Spent(2 * host.fileDelay)
      ensures state.ValidState? ==> StateReadsAs(host.disk, state) && host.disk.Observe(LatchFile) == None
    {
      hide Serves;
      var latch := ReadStopOnlyLatch();
      state := MissingState;
      if latch.MissingLatch? {
        state := ReadState();
      }
    }

    // The first part of a local reconcile: what cannot be trusted stops the runtime.
    method ReadForReconcile() returns (early: Option<Result<int>>, env: Envelope)
      requires Inv()
      modifies this, host
      ensures Inv() && host.NoNewExposure()
      ensures Bounded(old(host.diskLog), host.diskLog, {}, {})
      ensures host.disk.Observe(StateFile) == old(host.disk).Observe(StateFile)
      ensures host.disk.Observe(LatchFile) == old(host.disk).Observe(LatchFile)
      ensures early.Some? ==> Halted() && (early.value.Returned? ==> host.stopFailures == old(host.stopFailures))
                              && old(host.time) <= host.time
                              && host.time <= old(host.time) + CHRONYC_TIMEOUT_MS + 8 * host.fileDelay
                                + XRAY_FAIL_CLOSED_MAX_DURATION_MS
                              && (early.value.Returned? ==>
                                  early.value.value == host.time + LOCAL_STATE_INTEGRITY_CHECK_INTERVAL_MS)
      ensures unchanged(host`probes)
      ensures early.None? ==> StateReadsAs(host.disk, ValidState(env)) && host.disk.Observe(LatchFile) == None
                              && unchanged(`runtimeClientsFingerprint) && unchanged(`runtimeIsFailClosed)
                                && unchanged(`leftOpen)
                              && unchanged(host`admitted) && host.stopFailures == old(host.stopFailures)
                              && old(host.time) <= host.time <= old(host.time) + CHRONYC_TIMEOUT_MS + 8 * host.fileDelay
    {
      hide Bounded, Settled, Serves;
      BoundedAtStart(host.diskLog, {}, {});
      var nothing := Snapshot(0, 0, None, [], []);
      env := Envelope(PersistedState(0, HashSnapshot(nothing), 0, nothing), None);
      var trust := EnforceClockTrust();
      if trust.Thrown? {
        early := Some(Thrown(trust.error));
        return;
      }
      if !trust.value {
        early := Some(Returned(host.time + LOCAL_STATE_INTEGRITY_CHECK_INTERVAL_MS));
        return;
      }
      var state := ReadStateUnlessLatched();
      if !state.ValidState? {
        var stopped := ForceFailClosed();
        early :=
          Some(if stopped then Returned(host.time + LOCAL_STATE_INTEGRITY_CHECK_INTERVAL_MS) else Thrown(StopFailed));
        return;
      }
      env := state.envelope;
      var failure := EnsureDurabilityConfirmed();
      early := if failure.Some? then Some(Thrown(failure.value)) else None;
    }

    // Brings the runtime in line with the persisted snapshot at the sampled time.
    method ReconcileLocalState()
      returns (r: Result<int>, ghost exit: ReconcileExit, ghost current: Snapshot, ghost sampledAt: int,
               ghost deadline: Option<int>)
      requires Inv()
      modifies this, host
      ensures Inv() && LatchHolds() && old(host.stopFailures) <= host.stopFailures
      ensures Bounded(old(host.diskLog), host.diskLog, {}, {})
      ensures host.disk.Observe(StateFile) == old(host.disk).Observe(StateFile)
      ensures host.disk.Observe(LatchFile) == old(host.disk).Observe(LatchFile)
      // After a normal return nobody is admitted, or exactly the servable clients of the persisted
      // snapshot, and that list stays right until the returned instant.
      ensures r.Returned? && !old(leftOpen) ==>
                host.admitted == [] || host.admitted == SelectServableXrayClients(current, sampledAt)
      ensures r.Returned? && !exit.StoppedEarly? ==> IsNextCheck(r.value, current, sampledAt)
      ensures r.Returned? ==> host.stopFailures == old(host.stopFailures)
      ensures exit.StoppedEarly? ==>
                && Halted() && host.NoNewExposure()
                && old(host.time) <= host.time
                && host.time <= old(host.time) + CHRONYC_TIMEOUT_MS + 8 * host.fileDelay
                  + XRAY_FAIL_CLOSED_MAX_DURATION_MS
                && (r.Returned? ==> r.value == host.time + LOCAL_STATE_INTEGRITY_CHECK_INTERVAL_MS)
      ensures !exit.StoppedEarly? ==>
                && (exists env :: StateReadsAs(old(host.disk), ValidState(env)) && current == env.current.snapshot)
                && old(host.time) <= sampledAt <= old(host.time) + CHRONYC_TIMEOUT_MS + 8 * host.fileDelay
                && IsEarliest(deadline,
                              OverdueDeadlinesIn(current.grants, sampledAt, ACCESS_CONTROL_ENFORCEMENT_SLA_MS))
                && ExitHolds(r, exit, SelectServableXrayClients(current, sampledAt), deadline)
                && ServingDecides(r, exit, SelectServableXrayClients(current, sampledAt), deadline, sampledAt)
                && (host.stopFailures == old(host.stopFailures) ==>
                      WatchedExposure(exit, SelectServableXrayClients(current, sampledAt), deadline, sampledAt))
    {
      hide Bounded, Settled, Serves;
      var early, env := ReadForReconcile();
      sampledAt, current, deadline := host.time, env.current.snapshot, None;
      if early.Some? {
        exit := StoppedEarly;
        r := early.value;
        return;
      }
      assert StateReadsAs(old(host.disk), ValidState(env));
      var snapshot := env.current.snapshot;
      var now := host.time;
      var clients := SelectServableXrayClients(snapshot, now);
      var enforcementDeadline := FindExpiredEnforcementDeadline(snapshot, now, ACCESS_CONTROL_ENFORCEMENT_SLA_MS);
      deadline := enforcementDeadline;
      r, exit := BringInLine(snapshot, now, clients, enforcementDeadline);
    }

    // A runtime that was not seen serving is offered the clients, whatever was remembered of it. It is left
    // alone exactly when it was seen serving, the clients are remembered and nothing had to be stopped.
    twostate predicate ServingDecides(new r: Result<int>, new exit: ReconcileExit, new clients: seq<XrayClient>,
                                      new deadline: Option<int>, sampledAt: int)
      reads this, host
    {
      && (r.Returned? && !host.SeenServing() ==> exit.AppliedNow? && host.admitted == clients)
      && (exit.KeptRunning? <==>
            && host.SeenServing() && !old(runtimeIsFailClosed) && !ShouldFailClosed(deadline, sampledAt)
            && old(runtimeClientsFingerprint) == Some(ClientsDigest(clients)))
    }

    // What each exit of a local reconcile says about the runtime and the remembered fields.
    twostate predicate ExitHolds(r: Result<int>, exit: ReconcileExit, clients: seq<XrayClient>, deadline: Option<int>)
      reads this, host
    {
      match exit
      case StoppedEarly => true
      case KeptRunning =>
        && r.Returned? && unchanged(host`admitted)
        && unchanged(`runtimeClientsFingerprint) && unchanged(`runtimeIsFailClosed) && unchanged(`leftOpen)
        && runtimeClientsFingerprint == Some(ClientsDigest(clients)) && host.SeenServing()
      case AppliedNow => r.Returned? && Serving(clients)
      case StoppedAfterFailure => r.Thrown? && Halted()
      case LeftRunning =>
        && r == Thrown(ApplyFailed) && leftOpen && host.stopFailures == old(host.stopFailures)
        && unchanged(`runtimeClientsFingerprint) && old(runtimeClientsFingerprint) != Some(ClientsDigest(clients))
        && (forall c :: c in host.admitted ==> c in old(host.admitted) || c in clients)
        && !ShouldFailClosed(deadline, host.time) && host.SeenServing()
    }

    // When the watched grant is not among the clients to serve: how long it may have been admitted.
    twostate predicate WatchedExposure(exit: ReconcileExit, clients: seq<XrayClient>, deadline: Option<int>,
                                       sampledAt: int)
      reads this, host
    {
      && sampledAt <= host.time
      && (!Serves(clients, host.watched) ==> host.NoNewExposure())
      && host.time <= sampledAt + 2 * XRAY_FAIL_CLOSED_MAX_DURATION_MS + XRAY_SERVING_PROBE_MAX_DURATION_MS
        + XRAY_APPLY_MAX_DURATION_MS
      && (ShouldFailClosed(deadline, sampledAt) && !Serves(clients, host.watched) ==>
            && !Serves(host.admitted, host.watched)
            && (host.lastExposure == old(host.lastExposure)
                || host.lastExposure <= sampledAt + XRAY_FAIL_CLOSED_MAX_DURATION_MS))
      && (exit.AppliedNow? && !Serves(clients, host.watched) ==> !Serves(host.admitted, host.watched))
      && (exit.StoppedAfterFailure? ==> host.admitted == [])
      && (!ShouldFailClosed(deadline, sampledAt) ==>
            host.time <= sampledAt + XRAY_SERVING_PROBE_MAX_DURATION_MS + XRAY_APPLY_MAX_DURATION_MS
                         + XRAY_FAIL_CLOSED_MAX_DURATION_MS)
    }

    method BringInLine(snapshot: Snapshot, now: int, clients: seq<XrayClient>, deadline: Option<int>)
      returns (r: Result<int>, exit: ReconcileExit)
      requires Inv() && host.time == now && host.disk.Observe(LatchFile) == None
      requires clients == SelectServableXrayClients(snapshot, now)
      modifies this, host
      ensures Inv() && host.DiskKept() && !exit.StoppedEarly? && old(host.stopFailures) <= host.stopFailures
      ensures r.Returned? && !old(leftOpen) ==> host.admitted == [] || host.admitted == clients
      ensures r.Returned? ==> IsNextCheck(r.value, snapshot, now) && host.stopFailures == old(host.stopFailures)
      ensures ExitHolds(r, exit, clients, deadline)
      ensures ServingDecides(r, exit, clients, deadline, now)
      ensures host.stopFailures == old(host.stopFailures) ==> WatchedExposure(exit, clients, deadline, now)
    {
      hide IsNextCheck, SelectServableXrayClients, Settled;
      if !runtimeIsFailClosed && ShouldFailClosed(deadline, now) {
        var stopped := ForceFailClosed();
        if !stopped {
          r, exit := Thrown(StopFailed), StoppedAfterFailure;
          return;
        }
      }
      var next := NextLocalSecurityCheckAt(snapshot, now);
      exit := OfferUnlessServing(clients, deadline);
      r := match exit case LeftRunning => Thrown(ApplyFailed)
                      case StoppedAfterFailure => Thrown(if runtimeIsFailClosed then ApplyFailed else StopFailed)
                      case _ => Returned(next);
    }

    // The runtime is left alone only when it is seen serving exactly these clients.
    method OfferUnlessServing(clients: seq<XrayClient>, deadline: Option<int>) returns (exit: ReconcileExit)
      requires Inv()
      modifies this, host
      ensures Inv() && host.DiskKept() && !exit.StoppedEarly?
      ensures old(host.time) <= host.time && old(host.stopFailures) <= host.stopFailures
      ensures host.time <= old(host.time) + XRAY_SERVING_PROBE_MAX_DURATION_MS + XRAY_APPLY_MAX_DURATION_MS
                           + XRAY_FAIL_CLOSED_MAX_DURATION_MS
      ensures !Serves(clients, host.watched) ==> host.NoNewExposure()
      ensures exit.KeptRunning? ==> unchanged(host`admitted) && unchanged(host`stopFailures)
                                    && unchanged(this) && runtimeClientsFingerprint == Some(ClientsDigest(clients))
      ensures exit.KeptRunning? <==>
                host.SeenServing() && !old(runtimeIsFailClosed)
                && old(runtimeClientsFingerprint) == Some(ClientsDigest(clients))
      ensures exit.AppliedNow? ==> Serving(clients) && unchanged(host`stopFailures)
      ensures exit.StoppedAfterFailure? ==>
                Halted() && (runtimeIsFailClosed <==> host.stopFailures == old(host.stopFailures))
      ensures exit.LeftRunning? ==>
                && leftOpen && unchanged(host`stopFailures) && !old(runtimeIsFailClosed) && host.SeenServing()
                && unchanged(`runtimeClientsFingerprint)
                  && old(runtimeClientsFingerprint) != Some(ClientsDigest(clients))
                && (forall c :: c in host.admitted ==> c in old(host.admitted) || c in clients)
                && !ShouldFailClosed(deadline, host.time)
    {
      hide Settled;
      var serving := ObserveServingPresence();
      if LeavesRunning(runtimeClientsFingerprint, runtimeIsFailClosed, serving, clients) {
        return KeptRunning;
      }
      var wasFailClosed := runtimeIsFailClosed;
      var ok := host.ApplyClients(clients);
      if !ok {
        if wasFailClosed || !serving || ShouldFailClosed(deadline, host.time) {
          var error := FailClosedAndRethrow(ApplyFailed);
          return StoppedAfterFailure;
        }
        leftOpen := true;
        return LeftRunning;
      }
      runtimeIsFailClosed := false;
      runtimeClientsFingerprint := Some(ClientsDigest(clients));
      leftOpen := false;
      return AppliedNow;
    }
  }

  // Flushing the file that the state name refers to.
  lemma FlushStep(start: seq<Disk<Document>>, base: Disk<Document>, file: File)
    requires start != [] && base == Last(start) && base.Valid() && base.Lookup(StateFile) == Some(file)
    ensures Bounded(start, start + [base], {}, {}) && Bounded(start, start + [base.Flush(file)], {}, {})
    ensures var d := base.Flush(file);
            && d.Valid() && d.Lookup(StateFile) == Some(file)
            && d.Observe(StateFile) == base.Observe(StateFile) && d.Observe(LatchFile) == base.Observe(LatchFile)
            && (Settled(base, StateFile) ==> Settled(d, StateFile))
            && d.SyncNames().Valid() && Settled(d.SyncNames(), StateFile)
  {
    BoundedAtStart(start, {}, {});
    FlushingIsWithin(base, file);
    BoundedStep(start, start, base, {}, {});
    BoundedStep(start, start, base.Flush(file), {}, {});
    SyncNamesShrinks(base.Flush(file), StateFile);
  }

  lemma RemovalStep(start: seq<Disk<Document>>, base: Disk<Document>)
    requires start != [] && base == Last(start) && base.Valid()
    ensures Bounded(start, start + [base], {}, {Gone}) && Bounded(start, start + [base.Remove(LatchFile)], {}, {Gone})
    ensures var d := base.Remove(LatchFile);
            && d.Valid() && d.Observe(StateFile) == base.Observe(StateFile) && d.Observe(LatchFile) == None
            && (Settled(base, StateFile) ==> Settled(d, StateFile))
  {
    BoundedAtStart(start, {}, {Gone});
    RemovingIsWithin(base);
    BoundedStep(start, start, base, {}, {Gone});
    BoundedStep(start, start, base.Remove(LatchFile), {}, {Gone});
    RemoveIsApart(base, LatchFile);
  }

  lemma SyncNamesStep(start: seq<Disk<Document>>, end: seq<Disk<Document>>, d: Disk<Document>,
                      latch: set<Survivor<Document>>)
    requires Bounded(start, end, {}, latch) && end != [] && d == Last(end) && d.Valid()
    ensures Bounded(start, end + [d], {}, latch) && Bounded(start, end + [d.SyncNames()], {}, latch)
    ensures d.SyncNames().Valid()
    ensures d.SyncNames().Observe(StateFile) == d.Observe(StateFile)
            && d.SyncNames().Observe(LatchFile) == d.Observe(LatchFile)
    ensures Settled(d, StateFile) ==> Settled(d.SyncNames(), StateFile)
  {
    var none: set<Survivor<Document>> := {};
    assert none + none == none && latch + none == latch;
    assert Within(Last(start), d, none, latch);
    SyncNamesIsWithin(d);
    WithinThenWithin(Last(start), d, d.SyncNames(), none, latch, none, none);
    BoundedStep(start, end, d, none, latch);
    BoundedStep(start, end, d.SyncNames(), none, latch);
    SyncNamesShrinks(d, StateFile);
    SyncNamesShrinks(d, LatchFile);
  }

  // Replacing the latch file leaves the state file as it was.
  lemma LatchReplaced(start: seq<Disk<Document>>, end: seq<Disk<Document>>, document: Document)
    requires start != [] && end != [] && Last(start).Valid() && Last(end).Valid()
    requires AllReplacing(start, end, LatchFile, document)
    ensures Last(end).Observe(StateFile) == Last(start).Observe(StateFile)
    ensures Settled(Last(start), StateFile) ==> Settled(Last(end), StateFile)
    ensures Last(end).Observe(LatchFile) in {Last(start).Observe(LatchFile), Some(Whole(document))}
    ensures Last(end).Survivors(LatchFile) == {Kept(Whole(document))} ==> Settled(Last(end), LatchFile)
  {
    assert Replacing(Last(start), Last(end), LatchFile, document);
    assert Last(end).Surviving(Last(end).Lookup(StateFile)) in Last(end).Survivors(StateFile);
    assert Last(end).Surviving(Last(end).Lookup(LatchFile)) in Last(end).Survivors(LatchFile);
  }

  // A local reconcile leaves the runtime alone when it is seen serving and these clients are remembered.
  predicate LeavesRunning(remembered: Option<ClientsDigest>, failClosed: bool, serving: bool,
                          clients: seq<XrayClient>)
  {
    !failClosed && remembered == Some(ClientsDigest(clients)) && serving
  }

  // An apply of another list fails, leaves that list admitted, and is left through an exit that keeps
  // the memory of the earlier one; the state file still asks for the earlier one. The next reconcile
  // leaves the runtime alone.
  lemma StaleMemoryIsTrusted()
    ensures var wanted, other := [XrayClient(1, "a")], [XrayClient(2, "b")];
            && ApplyMayLeave(wanted, other, other, false)
            && LeavesRunning(Some(ClientsDigest(wanted)), false, true, wanted) && other != wanted
  {
    var wanted, other := [XrayClient(1, "a")], [XrayClient(2, "b")];
    assert wanted[0] != other[0];
  }

  method NextLocalSecurityCheckAt(snapshot: Snapshot, now: int) returns (at: int)
    ensures IsNextCheck(at, snapshot, now)
  {
    var expiry := FindNextXrayClientExpiry(snapshot, now);
    var integrityCheckAt := now + LOCAL_STATE_INTEGRITY_CHECK_INTERVAL_MS;
    at := if expiry.None? || integrityCheckAt < expiry.value then integrityCheckAt else expiry.value;
    forall t | now <= t < at
      ensures SelectServableXrayClients(snapshot, t) == SelectServableXrayClients(snapshot, now)
    {
      SelectionChangesAtNextExpiry(snapshot, now, expiry, t);
    }
    if at != integrityCheckAt {
      SelectionChangesAtNextExpiry(snapshot, now, expiry, at);
    }
  }
}
