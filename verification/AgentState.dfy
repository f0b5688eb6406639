// What the node agent keeps on disk: the versioned state file and the stop-only latch.
module AgentState {
  import opened Basics
  import opened XrayAccess

  // SHA-256 stands for an injective function: a digest is the value that was hashed.
  datatype HashedGrant = HashedGrant(
    id: Id, status: GrantStatus, expiresAt: int, desiredVersion: nat, revokedAt: Option<int>,
    credential: Option<string>)

  datatype SnapshotDigest = SnapshotDigest(desiredConfigVersion: nat, grants: seq<HashedGrant>, routes: seq<Route>)

  datatype ClientsDigest = ClientsDigest(clients: seq<XrayClient>)

  function HashGrant(g: Grant): HashedGrant {
    HashedGrant(g.id, g.status, g.expiresAt, g.desiredVersion, g.revokedAt, g.credential)
  }

  function HashSnapshot(s: Snapshot): SnapshotDigest {
    SnapshotDigest(s.desiredConfigVersion, seq(|s.grants|, i requires 0 <= i < |s.grants| => HashGrant(s.grants[i])),
                   s.routes)
  }

  // The hash leaves out the fields that do not decide access: equal hashes serve the same
  // clients at every instant.
  lemma EqualHashesServeAlike(a: Snapshot, b: Snapshot, now: int)
    requires HashSnapshot(a) == HashSnapshot(b)
    ensures SelectServableXrayClients(a, now) == SelectServableXrayClients(b, now)
  {
    var hashedA, hashedB := HashSnapshot(a).grants, HashSnapshot(b).grants;
    forall i | 0 <= i < |a.grants| ensures HashGrant(a.grants[i]) == HashGrant(b.grants[i]) {
      assert hashedA[i] == hashedB[i];
    }
    ServeAlikeInOrder(a.grants, b.grants, now);
  }

  lemma {:induction false} ServeAlikeInOrder(a: seq<Grant>, b: seq<Grant>, now: int)
    requires |a| == |b| && forall i | 0 <= i < |a| :: HashGrant(a[i]) == HashGrant(b[i])
    ensures ServableInOrder(a, now) == ServableInOrder(b, now)
  {
    if a != [] {
      assert HashGrant(a[0]) == HashGrant(b[0]);
      ServeAlikeInOrder(a[1..], b[1..], now);
    }
  }

  // The two say the same of the routes and of every grant, but for the versions that were confirmed.
  ghost predicate SaysTheSame(a: Snapshot, b: Snapshot) {
    && a.desiredConfigVersion == b.desiredConfigVersion && a.routes == b.routes && |a.grants| == |b.grants|
    && forall i | 0 <= i < |a.grants| ::
         a.grants[i].(appliedVersion := 0) == b.grants[i].(appliedVersion := 0)
  }

  lemma EqualHashesExactly(a: Snapshot, b: Snapshot)
    ensures HashSnapshot(a) == HashSnapshot(b) <==> SaysTheSame(a, b)
  {
    var hashedA, hashedB := HashSnapshot(a).grants, HashSnapshot(b).grants;
    if HashSnapshot(a) == HashSnapshot(b) {
      assert |hashedA| == |hashedB|;
      forall i | 0 <= i < |a.grants| ensures HashGrant(a.grants[i]) == HashGrant(b.grants[i]) {
        assert hashedA[i] == hashedB[i];
      }
    }
    if SaysTheSame(a, b) {
      forall i | 0 <= i < |a.grants| ensures hashedA[i] == hashedB[i] {
        assert a.grants[i].(appliedVersion := 0) == b.grants[i].(appliedVersion := 0);
      }
      assert hashedA == hashedB;
    }
  }

  datatype PersistedState =
    PersistedState(version: nat, snapshotHash: SnapshotDigest, appliedAt: int, snapshot: Snapshot)
  {
    predicate Consistent() {
      && version == snapshot.desiredConfigVersion
      && snapshotHash == HashSnapshot(snapshot)
      && snapshot.WellFormed()
    }
  }

  datatype Envelope = Envelope(current: PersistedState, previous: Option<PersistedState>) {
    predicate Consistent() {
      && current.Consistent()
      && (previous.Some? ==> previous.value.version < current.version && previous.value.Consistent())
    }
  }

  datatype Latch = Latch(targetVersion: nat, enforcementDeadlineAt: int, revokedGrantIds: seq<Id>) {
    // The latch schema: at least one grant, unique, in canonical order.
    predicate Canonical() {
      && revokedGrantIds != []
      && forall i, j | 0 <= i < j < |revokedGrantIds| :: revokedGrantIds[i] < revokedGrantIds[j]
    }
  }

  datatype Document = StateDocument(envelope: Envelope) | LatchDocument(latch: Latch) | Unrelated

  datatype StateRead = ValidState(envelope: Envelope) | MissingState | CorruptState | UnreadableState

  datatype LatchRead = ValidLatch(latch: Latch) | MissingLatch | CorruptLatch | UnreadableLatch

  // Insertion into a strictly increasing list, the canonical form of a set of ids.
  function InsertId(ids: seq<Id>, id: Id): seq<Id> {
    if ids == [] || id < ids[0] then [id] + ids
    else if id == ids[0] then ids
    else [ids[0]] + InsertId(ids[1..], id)
  }

  function InsertIds(ids: seq<Id>, more: seq<Id>): seq<Id>
    decreases more
  {
    if more == [] then ids else InsertIds(InsertId(ids, more[0]), more[1..])
  }

  ghost predicate StrictlyIncreasing(ids: seq<Id>) {
    forall i, j | 0 <= i < j < |ids| :: ids[i] < ids[j]
  }

  lemma {:induction false} InsertIdIsCanonical(ids: seq<Id>, id: Id)
    requires StrictlyIncreasing(ids)
    ensures StrictlyIncreasing(InsertId(ids, id))
    ensures forall x :: x in InsertId(ids, id) <==> x in ids || x == id
  {
    if ids == [] || id <= ids[0] {
    } else {
      InsertIdIsCanonical(ids[1..], id);
      var rest := InsertId(ids[1..], id);
      assert ids == [ids[0]] + ids[1..];
      forall i | 0 <= i < |rest| ensures ids[0] < rest[i] {
        assert rest[i] in rest;
      }
    }
  }

  lemma {:induction false} InsertIdsIsCanonical(ids: seq<Id>, more: seq<Id>)
    requires StrictlyIncreasing(ids)
    ensures StrictlyIncreasing(InsertIds(ids, more))
    ensures forall x :: x in InsertIds(ids, more) <==> x in ids || x in more
    decreases more
  {
    if more != [] {
      InsertIdIsCanonical(ids, more[0]);
      InsertIdsIsCanonical(InsertId(ids, more[0]), more[1..]);
      assert more == [more[0]] + more[1..];
    }
  }

  function EnforcedIds(es: seq<Enforcement>): seq<Id> {
    seq(|es|, i requires 0 <= i < |es| => es[i].grantId)
  }

  // The latch that replaces what was read: a valid one is merged, anything else is replaced.
  function MergeLatch(existing: LatchRead, targetVersion: nat, earliest: int, es: seq<Enforcement>): Latch {
    match existing
    case ValidLatch(l) =>
      Latch(if l.targetVersion < targetVersion then targetVersion else l.targetVersion,
            if earliest < l.enforcementDeadlineAt then earliest else l.enforcementDeadlineAt,
            InsertIds(l.revokedGrantIds, EnforcedIds(es)))
    case _ => Latch(targetVersion, earliest, InsertIds([], EnforcedIds(es)))
  }

  // One latch demands at least what another does.
  ghost predicate Tightens(before: Latch, after: Latch) {
    && before.targetVersion <= after.targetVersion
    && after.enforcementDeadlineAt <= before.enforcementDeadlineAt
    && forall id :: id in before.revokedGrantIds ==> id in after.revokedGrantIds
  }

  // A merged latch parses back as valid, demands the new enforcements, and tightens the latch that was read.
  lemma MergedLatchTightens(existing: LatchRead, targetVersion: nat, earliest: int, es: seq<Enforcement>)
    requires es != []
    requires existing.ValidLatch? ==> existing.latch.Canonical()
    ensures MergeLatch(existing, targetVersion, earliest, es).Canonical()
    ensures existing.ValidLatch? ==> Tightens(existing.latch, MergeLatch(existing, targetVersion, earliest, es))
    ensures targetVersion <= MergeLatch(existing, targetVersion, earliest, es).targetVersion
    ensures MergeLatch(existing, targetVersion, earliest, es).enforcementDeadlineAt <= earliest
    ensures forall e :: e in es ==> e.grantId in MergeLatch(existing, targetVersion, earliest, es).revokedGrantIds
  {
    var ids := EnforcedIds(es);
    var start := if existing.ValidLatch? then existing.latch.revokedGrantIds else [];
    InsertIdsIsCanonical(start, ids);
    forall e | e in es ensures e.grantId in ids {
      var i :| 0 <= i < |es| && es[i] == e;
      assert ids[i] == e.grantId;
    }
    assert ids[0] in InsertIds(start, ids);
  }

  // A latch on disk is read once more before it is replaced. Every replacement tightens it
  // exactly when that read succeeds: after a read failure a later deadline wins.
  lemma LatchTightensExactlyWhenReadable(onDisk: Latch, read: LatchRead)
    requires onDisk.Canonical()
    requires read == ValidLatch(onDisk) || read.UnreadableLatch?
    ensures (forall target: nat, earliest: int, es: seq<Enforcement> | es != [] ::
               Tightens(onDisk, MergeLatch(read, target, earliest, es)))
            <==> read.ValidLatch?
  {
    if read.ValidLatch? {
      forall target: nat, earliest: int, es: seq<Enforcement> | es != []
        ensures Tightens(onDisk, MergeLatch(read, target, earliest, es))
      {
        MergedLatchTightens(read, target, earliest, es);
      }
    } else {
      var later := onDisk.enforcementDeadlineAt + 1;
      assert !Tightens(onDisk, MergeLatch(read, 0, later, [Enforcement(0, later)]));
    }
  }

  // A latch for version 7, due at 1000 and naming grant 3, that cannot be read for a moment, is
  // replaced by one for version 4, due at 2000 and naming grant 5 alone.
  lemma UnreadableLatchLoosens()
    ensures var onDisk, next := Latch(7, 1000, [3]), MergeLatch(UnreadableLatch, 4, 2000, [Enforcement(5, 2000)]);
            && onDisk.Canonical() && next.Canonical() && next == Latch(4, 2000, [5])
            && next.targetVersion < onDisk.targetVersion
            && onDisk.enforcementDeadlineAt < next.enforcementDeadlineAt
            && 3 !in next.revokedGrantIds
  {
    assert EnforcedIds([Enforcement(5, 2000)]) == [5];
    assert InsertIds([], [5]) == InsertIds(InsertId([], 5), []);
  }

  // What applying a snapshot means for the state file, from what was read of it.
  datatype ApplyPlan = RefuseDowngrade | RefuseCollision | Reapply | Replace(next: Envelope)

  function PlanApply(state: StateRead, snapshot: Snapshot, appliedAt: int): ApplyPlan {
    var next := PersistedState(snapshot.desiredConfigVersion, HashSnapshot(snapshot), appliedAt, snapshot);
    match state
    case ValidState(env) =>
      if snapshot.desiredConfigVersion < env.current.version then RefuseDowngrade
      else if env.current.version == snapshot.desiredConfigVersion then
        if env.current.snapshotHash != HashSnapshot(snapshot) then RefuseCollision else Reapply
      else Replace(Envelope(next, Some(env.current)))
    case _ => Replace(Envelope(next, None))
  }

  // A written envelope reads back as valid: consistent, with strictly increasing versions.
  lemma ReplacementReadsBack(state: StateRead, snapshot: Snapshot, appliedAt: int)
    requires snapshot.WellFormed()
    requires state.ValidState? ==> state.envelope.Consistent()
    requires PlanApply(state, snapshot, appliedAt).Replace?
    ensures PlanApply(state, snapshot, appliedAt).next.Consistent()
    ensures state.ValidState? ==>
              state.envelope.current.version < PlanApply(state, snapshot, appliedAt).next.current.version
  {
  }

  // What is planned for a snapshot against the state that was read: a lower version is refused, the same
  // version is refused unless it says the same, and anything else replaces the current state, which
  // becomes the previous one.
  lemma PlanExactly(state: StateRead, snapshot: Snapshot, appliedAt: int)
    requires state.ValidState? ==> state.envelope.Consistent()
    ensures var plan := PlanApply(state, snapshot, appliedAt);
            match state {
              case ValidState(env) =>
                && (plan == RefuseDowngrade <==> snapshot.desiredConfigVersion < env.current.version)
                && (plan == Reapply <==> SaysTheSame(env.current.snapshot, snapshot))
                && (plan == RefuseCollision <==> snapshot.desiredConfigVersion == env.current.version
                                                 && !SaysTheSame(env.current.snapshot, snapshot))
                && (plan.Replace? ==> plan.next.previous == Some(env.current))
              case _ => plan.Replace? && plan.next.previous == None
            }
    ensures var plan := PlanApply(state, snapshot, appliedAt);
            plan.Replace? ==>
              && plan.next.current.snapshot == snapshot && plan.next.current.appliedAt == appliedAt
              && plan.next.current.version == snapshot.desiredConfigVersion
  {
    hide HashSnapshot;
    if state.ValidState? {
      EqualHashesExactly(state.envelope.current.snapshot, snapshot);
    }
  }

  // What a read may report about an intact state file.
  predicate MayRead(disk: Envelope, state: StateRead) {
    state == ValidState(disk) || state.UnreadableState?
  }

  // Exactly when applying a snapshot lowers the version of an intact state file: only after a
  // read failure, because a version read successfully is never undercut.
  lemma VersionFallsExactlyAfterReadFailure(disk: Envelope, state: StateRead, snapshot: Snapshot, appliedAt: int)
    requires MayRead(disk, state)
    ensures (PlanApply(state, snapshot, appliedAt).Replace?
             && PlanApply(state, snapshot, appliedAt).next.current.version < disk.current.version)
            <==> (state.UnreadableState? && snapshot.desiredConfigVersion < disk.current.version)
  {
  }

  // An intact file for version 2 that cannot be read for a moment is replaced by version 1.
  lemma OlderSnapshotReplacesUnreadable()
    ensures var older, newer := Snapshot(1, 0, None, [], []), Snapshot(2, 0, None, [], []);
            var disk := Envelope(PersistedState(2, HashSnapshot(newer), 0, newer), None);
            && disk.Consistent() && older.WellFormed() && MayRead(disk, UnreadableState)
            && PlanApply(UnreadableState, older, 1)
                 == Replace(Envelope(PersistedState(1, HashSnapshot(older), 1, older), None))
  {
  }
}
