// A trial starts: every device of the user gains access on every healthy node, and
// keeps the access it has on nodes that are being drained or are disabled.
module TrialActivation {
  import opened Basics
  import opened Queries
  import opened XrayAccess
  import opened AccessState
  import opened NodeAgentConfiguration
  import opened Orchestration
  import opened AccessReconciliation
  import opened Revocation

  function ActiveDevices(db: Db, userId: Id): set<Id> {
    set d | d in db.devices && db.devices[d].userId == userId && db.devices[d].active
  }

  predicate HoldsLiveGrant(db: Db, userId: Id, nodeId: Id) {
    exists k :: k in db.grants && k.nodeId == nodeId && k.deviceId in db.devices
                && db.devices[k.deviceId].userId == userId && LiveGrant(db.grants[k])
  }

  function TrialNodes(db: Db, userId: Id): set<Id> {
    set n | n in db.nodes && (|| db.nodes[n].status.Healthy?
                              || ((db.nodes[n].status.Draining? || db.nodes[n].status.Disabled?)
                                  && HoldsLiveGrant(db, userId, n)))
  }

  predicate EligibleForTrial(db: Db, k: Access)
    requires k.nodeId in db.nodes
  {
    if k in db.grants then LiveGrant(db.grants[k]) else db.nodes[k.nodeId].status.Healthy?
  }

  function EligibleDevices(db: Db, userId: Id, nodeId: Id): set<Id>
    requires nodeId in db.nodes
  {
    set d | d in ActiveDevices(db, userId) && EligibleForTrial(db, Access(nodeId, d))
  }

  function TrialRow(
      db: Db, k: Access, expiresAt: int, freshId: Id, version: nat, derive: CredentialBinding -> string): GrantRow
  {
    if k in db.grants then db.grants[k].(expiresAt := expiresAt, desiredVersion := version)
    else NewGrant(freshId, k, expiresAt, version, derive)
  }

  ghost predicate WritesTrial(
      db: Db, userId: Id, nodeId: Id, rows: map<Access, GrantRow>, expiresAt: int, derive: CredentialBinding -> string)
    requires nodeId in db.nodes
  {
    && (forall k | k in rows ::
          && k.nodeId == nodeId
          && k.deviceId in EligibleDevices(db, userId, nodeId)
          && rows[k] == TrialRow(db, k, expiresAt, rows[k].id, db.nodes[nodeId].desiredConfigVersion + 1, derive))
    && (forall d | d in EligibleDevices(db, userId, nodeId) :: Access(nodeId, d) in rows)
  }

  ghost predicate TrialNodesGiven(a: Db, nodes: map<Id, Node>, userId: Id, done: set<Id>)
    requires done <= a.nodes.Keys
  {
    && nodes.Keys == a.nodes.Keys
    && (forall n | n in a.nodes :: nodes[n] ==
          if n in done && EligibleDevices(a, userId, n) != {}
          then a.nodes[n].(desiredConfigVersion := a.nodes[n].desiredConfigVersion + 1) else a.nodes[n])
  }

  ghost predicate OwedTrial(a: Db, k: Access, userId: Id, done: set<Id>)
    requires done <= a.nodes.Keys
  {
    k.nodeId in done && k.deviceId in EligibleDevices(a, userId, k.nodeId)
  }

  ghost predicate TrialGrantsGiven(
      a: Db, grants: map<Access, GrantRow>, userId: Id, done: set<Id>, expiresAt: int,
      derive: CredentialBinding -> string)
    requires done <= a.nodes.Keys
  {
    && (forall k | k in a.grants :: k in grants && grants[k] ==
          if OwedTrial(a, k, userId, done)
          then a.grants[k].(expiresAt := expiresAt, desiredVersion := a.nodes[k.nodeId].desiredConfigVersion + 1)
          else a.grants[k])
    && (forall k | k in grants && k !in a.grants ::
          && OwedTrial(a, k, userId, done)
          && grants[k] == NewGrant(grants[k].id, k, expiresAt, a.nodes[k.nodeId].desiredConfigVersion + 1, derive))
    && (forall k | OwedTrial(a, k, userId, done) :: k in grants)
  }

  // The nodes that are done have the trial's access, and nothing else changed.
  ghost predicate TrialGiven(
      a: Db, b: Db, userId: Id, done: set<Id>, expiresAt: int, derive: CredentialBinding -> string)
    requires done <= a.nodes.Keys
  {
    && b.devices == a.devices
    && b.subscriptions == a.subscriptions
    && b.deliveries == a.deliveries
    && TrialNodesGiven(a, b.nodes, userId, done)
    && TrialGrantsGiven(a, b.grants, userId, done, expiresAt, derive)
  }

  // What a trial is owed: each active device of the user keeps its live grant on a node in service, and gets
  // one on a healthy node where it has none.
  ghost predicate TrialOwed(db: Db, k: Access, userId: Id) {
    && k.deviceId in db.devices && db.devices[k.deviceId].userId == userId && db.devices[k.deviceId].active
    && k.nodeId in db.nodes
    && if k in db.grants
       then db.grants[k].status != Revoked && InService(db.nodes[k.nodeId].status)
       else db.nodes[k.nodeId].status == Healthy
  }

  predicate InService(s: NodeStatus) {
    s == Healthy || s == Draining || s == Disabled
  }

  ghost predicate TrialWrites(a: Db, b: Db, userId: Id, expiresAt: int, derive: CredentialBinding -> string) {
    && b.nodes.Keys == a.nodes.Keys
    && (forall n | n in a.nodes :: b.nodes[n] == Node(
          a.nodes[n].status,
          a.nodes[n].desiredConfigVersion + (if exists d :: TrialOwed(a, Access(n, d), userId) then 1 else 0),
          a.nodes[n].appliedConfigVersion))
    && (forall k | k in a.grants :: k in b.grants && b.grants[k] ==
          if TrialOwed(a, k, userId)
          then a.grants[k].(expiresAt := expiresAt, desiredVersion := a.nodes[k.nodeId].desiredConfigVersion + 1)
          else a.grants[k])
    && (forall k | k !in a.grants :: k in b.grants <==> TrialOwed(a, k, userId))
    && (forall k | k in b.grants && k !in a.grants ::
          NewlyGranted(b.grants[k], k, expiresAt, a.nodes[k.nodeId].desiredConfigVersion + 1, derive))
  }

  lemma TrialOwedExactly(db: Db, k: Access, userId: Id)
    ensures TrialOwed(db, k, userId) <==>
              k.nodeId in TrialNodes(db, userId) && k.deviceId in EligibleDevices(db, userId, k.nodeId)
  {
    if TrialOwed(db, k, userId) && k in db.grants {
      assert HoldsLiveGrant(db, userId, k.nodeId);
    }
  }

  // In other words, what is owed to the devices of the nodes of a trial.
  lemma OwedOnNodes(a: Db, userId: Id)
    requires TrialNodes(a, userId) <= a.nodes.Keys
    ensures forall k :: TrialOwed(a, k, userId) <==> OwedTrial(a, k, userId, TrialNodes(a, userId))
    ensures forall n | n in a.nodes :: (n in TrialNodes(a, userId) && EligibleDevices(a, userId, n) != {})
                                       <==> exists d :: TrialOwed(a, Access(n, d), userId)
  {
    hide TrialOwed, TrialNodes, EligibleDevices;
    forall k ensures TrialOwed(a, k, userId) <==> OwedTrial(a, k, userId, TrialNodes(a, userId)) {
      TrialOwedExactly(a, k, userId);
    }
    forall n | n in TrialNodes(a, userId) && EligibleDevices(a, userId, n) != {}
      ensures exists d :: TrialOwed(a, Access(n, d), userId)
    {
      var d :| d in EligibleDevices(a, userId, n);
      assert TrialOwed(a, Access(n, d), userId);
    }
  }

  lemma GivenTrialWrites(a: Db, b: Db, userId: Id, expiresAt: int, derive: CredentialBinding -> string)
    requires TrialNodes(a, userId) <= a.nodes.Keys
    requires TrialGiven(a, b, userId, TrialNodes(a, userId), expiresAt, derive)
    ensures TrialWrites(a, b, userId, expiresAt, derive)
  {
    hide TrialOwed, TrialNodes, EligibleDevices, NewlyGranted, NewGrant, OwedTrial;
    OwedOnNodes(a, userId);
    forall k | k in b.grants && k !in a.grants
      ensures k.nodeId in a.nodes
      ensures NewlyGranted(b.grants[k], k, expiresAt, a.nodes[k.nodeId].desiredConfigVersion + 1, derive)
    {
      OwedOnKnownNode(a, k, userId);
      NewGrantIsNewlyGranted(b.grants[k].id, k, expiresAt, a.nodes[k.nodeId].desiredConfigVersion + 1, derive);
    }
  }

  lemma OwedOnKnownNode(a: Db, k: Access, userId: Id)
    ensures TrialOwed(a, k, userId) ==> k.nodeId in a.nodes
  {
  }

  // The nodes that the trial gives something on.
  function ServedNodes(db: Db, userId: Id): set<Id> {
    set n | n in TrialNodes(db, userId) && EligibleDevices(db, userId, n) != {}
  }

  ghost predicate NoKeyUsed(db: Db, activationId: Id, nodes: set<Id>) {
    forall n | n in nodes :: KeysUnused(db, Trial(activationId, n), Trial(activationId, n))
  }

  // One more node is done: it is served, or it is owed nothing.
  lemma OneMoreServed(db: Db, userId: Id, activationId: Id, done: set<Id>, nodeId: Id)
    requires nodeId in TrialNodes(db, userId)
    requires NoKeyUsed(db, activationId, ServedNodes(db, userId) * done)
    requires EligibleDevices(db, userId, nodeId) == {}
             || KeysUnused(db, Trial(activationId, nodeId), Trial(activationId, nodeId))
    ensures NoKeyUsed(db, activationId, ServedNodes(db, userId) * (done + {nodeId}))
  {
  }

  lemma ServedAreServed(db: Db, userId: Id, nodeId: Id)
    requires nodeId in TrialNodes(db, userId)
    ensures nodeId in ServedNodes(db, userId) <==> EligibleDevices(db, userId, nodeId) != {}
  {
  }

  lemma AllServed(db: Db, userId: Id)
    ensures ServedNodes(db, userId) * TrialNodes(db, userId) == ServedNodes(db, userId)
  {
  }

  lemma NobodyServed(db: Db, userId: Id)
    requires ActiveDevices(db, userId) == {}
    ensures ServedNodes(db, userId) == {}
  {
    forall n | n in db.nodes ensures EligibleDevices(db, userId, n) == {} {
    }
  }

  lemma NothingGiven(a: Db, userId: Id, expiresAt: int, derive: CredentialBinding -> string)
    ensures TrialGiven(a, a, userId, {}, expiresAt, derive)
  {
  }

  lemma TrialAllowed(
      t: Db, userId: Id, nodeId: Id, rows: map<Access, GrantRow>, expiresAt: int, key: Key,
      derive: CredentialBinding -> string)
    requires GrantsFit(t) && NodesFit(t) && IdsBelowNext(t)
    requires nodeId in t.nodes && InAccessControlSync(t.nodes[nodeId].status)
    requires WritesTrial(t, userId, nodeId, rows, expiresAt, derive)
    requires forall k | k in rows :: rows[k].id < t.nextId
    requires key.Trial? && KeysUnused(t, key, key)
    ensures BumpAllowed(t, nodeId, rows, key, key)
  {
  }

  // The rows of a node not yet done are as they were, so what it is owed has not changed.
  lemma StillOwed(a: Db, t: Db, userId: Id, done: set<Id>, nodeId: Id, expiresAt: int,
                  derive: CredentialBinding -> string)
    requires done <= a.nodes.Keys && nodeId in a.nodes && nodeId !in done
    requires TrialGiven(a, t, userId, done, expiresAt, derive)
    ensures nodeId in t.nodes && t.nodes[nodeId] == a.nodes[nodeId]
    ensures EligibleDevices(t, userId, nodeId) == EligibleDevices(a, userId, nodeId)
    ensures forall d :: Access(nodeId, d) in t.grants <==> Access(nodeId, d) in a.grants
    ensures forall d | Access(nodeId, d) in a.grants :: t.grants[Access(nodeId, d)] == a.grants[Access(nodeId, d)]
  {
    assert ActiveDevices(t, userId) == ActiveDevices(a, userId);
    forall d | d in ActiveDevices(a, userId)
      ensures EligibleForTrial(t, Access(nodeId, d)) == EligibleForTrial(a, Access(nodeId, d))
    {
      var k := Access(nodeId, d);
      assert k.nodeId == nodeId;
    }
  }

  class TrialActivationService {
    const database: Database

    constructor (database: Database)
      ensures this.database == database
    {
      this.database := database;
    }

    // Gives the user's devices access until the trial ends, one version per node. When a
    // key of this activation has been used before, nothing changes.
    method ScheduleExistingDeviceAccess(activationId: Id, userId: Id, expiresAt: int) returns (r: Tx<()>)
      requires Valid(database.db)
      modifies database`db
      ensures Valid(database.db) && Evolves(old(database.db), database.db)
      ensures r.Aborted? ==> database.db == old(database.db)
      ensures r.Committed? <==> NoKeyUsed(old(database.db), activationId, ServedNodes(old(database.db), userId))
      ensures r.Committed? ==>
                && TrialGiven(old(database.db), database.db, userId, TrialNodes(old(database.db), userId), expiresAt,
                              database.derive)
                && TrialWrites(old(database.db), database.db, userId, expiresAt, database.derive)
    {
      hide Valid, Evolves, TrialGiven, TrialWrites, TrialNodes, KeysUnused, EligibleDevices, WritesTrial, Bump,
        OrderedIds,
        ServedNodes;
      ghost var start := database.db;
      var t := database.db;
      EvolvesReflexive(t);
      NothingGiven(t, userId, expiresAt, database.derive);
      TrialNodesExist(t, userId);
      if ActiveDevices(t, userId) == {} {
        NobodyToServe(t, userId, expiresAt, database.derive);
        NobodyServed(t, userId);
        GivenTrialWrites(t, t, userId, expiresAt, database.derive);
        return Committed(());
      }
      var nodes := OrderedIds(TrialNodes(t, userId));
      assert Members(nodes[..0]) == {};
      for i := 0 to |nodes|
        invariant database.db == start
        invariant Members(nodes[..i]) <= start.nodes.Keys
        invariant Valid(t) && Evolves(start, t)
        invariant TrialGiven(start, t, userId, Members(nodes[..i]), expiresAt, database.derive)
        invariant SameTrialKeys(start, t, activationId, Members(nodes[..i]))
        invariant NoKeyUsed(start, activationId, ServedNodes(start, userId) * Members(nodes[..i]))
      {
        ghost var done := Members(nodes[..i]);
        OneMoreRow(TrialNodes(start, userId), i);
        var nodeId := nodes[i];
        StillOwed(start, t, userId, done, nodeId, expiresAt, database.derive);
        ServedAreServed(start, userId, nodeId);
        ghost var before := t;
        if EligibleDevices(t, userId, nodeId) == {} {
          SkippedNode(start, t, userId, done, nodeId, expiresAt, database.derive);
        } else {
          var key := Trial(activationId, nodeId);
          KeyStillUnused(start, t, activationId, done, nodeId);
          KeysUnusedExactly(t, key, key);
          if JobsWithKey(t, key) != {} || EventsWithKey(t, key) != {} {
            return Aborted;
          }
          var rows, nextId, lead := TrialRows(t, userId, nodeId, expiresAt);
          t := t.(nextId := nextId);
          ghost var base := t;
          t := Bump(t, nodeId, rows, ForGrant(lead), key, key);
          TrialStepKeepsValid(before, base, t, userId, nodeId, rows, expiresAt, lead, key, database.derive);
          TrialStepGives(start, before, base, t, userId, done, nodeId, rows, expiresAt, lead, key, database.derive);
          OneMoreTrialKey(start, before, base, t, activationId, done, nodeId, rows, lead);
          EvolvesTransitive(start, before, t);
        }
        MoreKeysDone(start, t, activationId, done, done + {nodeId});
        OneMoreServed(start, userId, activationId, done, nodeId);
      }
      AllRows(TrialNodes(start, userId));
      AllServed(start, userId);
      GivenTrialWrites(start, t, userId, expiresAt, database.derive);
      database.db := t;
      r := Committed(());
    }

    // The rows of one node, with fresh identifiers for new grants, and the first of them.
    method TrialRows(t: Db, userId: Id, nodeId: Id, expiresAt: int)
      returns (rows: map<Access, GrantRow>, nextId: Id, lead: Id)
      requires Valid(t) && nodeId in t.nodes && EligibleDevices(t, userId, nodeId) != {}
      ensures WritesTrial(t, userId, nodeId, rows, expiresAt, database.derive)
      ensures t.nextId <= nextId && forall k | k in rows :: rows[k].id < nextId
      ensures Leads(ForGrant(lead), rows)
    {
      hide Valid, EligibleDevices, OrderedIds, TrialRow, RowsSoFar;
      var targetVersion := t.nodes[nodeId].desiredConfigVersion + 1;
      var devices := OrderedIds(EligibleDevices(t, userId, nodeId));
      IdsInOrder(t);
      rows, nextId := map[], t.nextId;
      NoRowsYet(t, userId, nodeId, devices, expiresAt, database.derive);
      for i := 0 to |devices|
        invariant RowsSoFar(t, userId, nodeId, rows, expiresAt, database.derive, Members(devices[..i]), nextId)
      {
        OneMoreRow(EligibleDevices(t, userId, nodeId), i);
        var k := Access(nodeId, devices[i]);
        var row := TrialRow(t, k, expiresAt, nextId, targetVersion, database.derive);
        OneMoreTrialRow(t, userId, nodeId, rows, expiresAt, database.derive, Members(devices[..i]), nextId, devices[i]);
        if k !in t.grants {
          nextId := nextId + 1;
        }
        rows := rows[k := row];
      }
      AllRows(EligibleDevices(t, userId, nodeId));
      AllTrialRows(t, userId, nodeId, rows, expiresAt, database.derive, nextId, devices[0]);
      lead := rows[Access(nodeId, devices[0])].id;
    }
  }

  // The rows written for the devices done, with every identifier below the next one.
  ghost predicate RowsSoFar(
      db: Db, userId: Id, nodeId: Id, rows: map<Access, GrantRow>, expiresAt: int, derive: CredentialBinding -> string,
      done: set<Id>, nextId: Id)
    requires nodeId in db.nodes
  {
    && db.nextId <= nextId
    && (forall k | k in rows ::
          && k.nodeId == nodeId && k.deviceId in EligibleDevices(db, userId, nodeId)
          && rows[k] == TrialRow(db, k, expiresAt, rows[k].id, db.nodes[nodeId].desiredConfigVersion + 1, derive)
          && rows[k].id < nextId)
    && (forall d | d in done :: Access(nodeId, d) in rows)
  }

  lemma NoRowsYet(
      db: Db, userId: Id, nodeId: Id, devices: seq<Id>, expiresAt: int, derive: CredentialBinding -> string)
    requires nodeId in db.nodes
    requires EligibleDevices(db, userId, nodeId) != {} && devices == OrderedIds(EligibleDevices(db, userId, nodeId))
    ensures RowsSoFar(db, userId, nodeId, map[], expiresAt, derive, Members(devices[..0]), db.nextId)
    ensures |devices| > 0 && devices[0] in EligibleDevices(db, userId, nodeId)
  {
    hide EligibleDevices, OrderedIds;
    var d :| d in EligibleDevices(db, userId, nodeId);
    assert d in devices;
    assert devices[0] in devices;
  }

  lemma OneMoreTrialRow(
      db: Db, userId: Id, nodeId: Id, rows: map<Access, GrantRow>, expiresAt: int, derive: CredentialBinding -> string,
      done: set<Id>, nextId: Id, d: Id)
    requires nodeId in db.nodes && d in EligibleDevices(db, userId, nodeId)
    requires forall k | k in db.grants :: db.grants[k].id < db.nextId
    requires RowsSoFar(db, userId, nodeId, rows, expiresAt, derive, done, nextId)
    ensures var k := Access(nodeId, d);
            var row := TrialRow(db, k, expiresAt, nextId, db.nodes[nodeId].desiredConfigVersion + 1, derive);
            RowsSoFar(db, userId, nodeId, rows[k := row], expiresAt, derive, done + {d},
                      if k in db.grants then nextId else nextId + 1)
  {
    hide EligibleDevices, TrialRow;
    TrialRowId(db, Access(nodeId, d), expiresAt, nextId, db.nodes[nodeId].desiredConfigVersion + 1, derive);
  }

  lemma AllTrialRows(
      db: Db, userId: Id, nodeId: Id, rows: map<Access, GrantRow>, expiresAt: int, derive: CredentialBinding -> string,
      nextId: Id, first: Id)
    requires nodeId in db.nodes && first in EligibleDevices(db, userId, nodeId)
    requires RowsSoFar(db, userId, nodeId, rows, expiresAt, derive, EligibleDevices(db, userId, nodeId), nextId)
    ensures WritesTrial(db, userId, nodeId, rows, expiresAt, derive)
    ensures db.nextId <= nextId && forall k | k in rows :: rows[k].id < nextId
    ensures Access(nodeId, first) in rows && Leads(ForGrant(rows[Access(nodeId, first)].id), rows)
  {
    hide EligibleDevices, TrialRow;
  }

  // A row keeps its grant's identifier, or takes the fresh one.
  lemma TrialRowId(db: Db, k: Access, expiresAt: int, freshId: Id, version: nat, derive: CredentialBinding -> string)
    ensures var row := TrialRow(db, k, expiresAt, freshId, version, derive);
            && row.id == (if k in db.grants then db.grants[k].id else freshId)
            && row == TrialRow(db, k, expiresAt, row.id, version, derive)
  {
  }

  lemma IdsInOrder(db: Db)
    requires Valid(db)
    ensures forall k | k in db.grants :: db.grants[k].id < db.nextId
  {
  }

  lemma TrialNodesExist(db: Db, userId: Id)
    ensures TrialNodes(db, userId) <= db.nodes.Keys
    ensures forall n | n in TrialNodes(db, userId) :: InAccessControlSync(db.nodes[n].status)
  {
  }

  lemma NobodyToServe(db: Db, userId: Id, expiresAt: int, derive: CredentialBinding -> string)
    requires ActiveDevices(db, userId) == {}
    ensures TrialNodes(db, userId) <= db.nodes.Keys
    ensures TrialGiven(db, db, userId, TrialNodes(db, userId), expiresAt, derive)
  {
  }

  lemma SkippedNode(
      a: Db, t: Db, userId: Id, done: set<Id>, nodeId: Id, expiresAt: int, derive: CredentialBinding -> string)
    requires done <= a.nodes.Keys && nodeId in a.nodes && nodeId !in done
    requires TrialGiven(a, t, userId, done, expiresAt, derive) && EligibleDevices(a, userId, nodeId) == {}
    ensures TrialGiven(a, t, userId, done + {nodeId}, expiresAt, derive)
  {
    hide EligibleDevices;
  }

  lemma TrialStepKeepsValid(
      before: Db, base: Db, after: Db, userId: Id, nodeId: Id, rows: map<Access, GrantRow>, expiresAt: int,
      lead: Id, key: Key, derive: CredentialBinding -> string)
    requires nodeId in before.nodes && nodeId in base.nodes
    requires base == before.(nextId := base.nextId) && before.nextId <= base.nextId
    requires after == Bump(base, nodeId, rows, ForGrant(lead), key, key)
    requires Valid(before) && InAccessControlSync(before.nodes[nodeId].status)
    requires WritesTrial(before, userId, nodeId, rows, expiresAt, derive)
    requires forall k | k in rows :: rows[k].id < base.nextId
    requires key.Trial? && KeysUnused(before, key, key) && Leads(ForGrant(lead), rows)
    ensures Valid(after) && Evolves(before, after)
  {
    hide Valid, Evolves, Bump, WritesTrial, BumpAllowed, KeysUnused, GrantsFit, NodesFit, IdsBelowNext;
    IdsMayGrow(before, base.nextId);
    SameTrialRows(before, base, userId, nodeId, rows, expiresAt, key, derive);
    FitsOf(base);
    TrialAllowed(base, userId, nodeId, rows, expiresAt, key, derive);
    BumpKeepsValid(base, nodeId, rows, ForGrant(lead), key, key);
    EvolvesTransitive(before, base, after);
  }

  lemma SameTrialRows(
      a: Db, b: Db, userId: Id, nodeId: Id, rows: map<Access, GrantRow>, expiresAt: int, key: Key,
      derive: CredentialBinding -> string)
    requires b == a.(nextId := b.nextId) && nodeId in a.nodes
    requires WritesTrial(a, userId, nodeId, rows, expiresAt, derive) && KeysUnused(a, key, key)
    ensures WritesTrial(b, userId, nodeId, rows, expiresAt, derive) && KeysUnused(b, key, key)
  {
    assert EligibleDevices(b, userId, nodeId) == EligibleDevices(a, userId, nodeId);
  }

  lemma TrialStepGives(
      a: Db, before: Db, base: Db, after: Db, userId: Id, done: set<Id>, nodeId: Id, rows: map<Access, GrantRow>,
      expiresAt: int, lead: Id, key: Key, derive: CredentialBinding -> string)
    requires done <= a.nodes.Keys && nodeId in a.nodes && nodeId !in done && nodeId in before.nodes
    requires TrialGiven(a, before, userId, done, expiresAt, derive)
    requires EligibleDevices(a, userId, nodeId) != {}
    requires WritesTrial(before, userId, nodeId, rows, expiresAt, derive)
    requires base == before.(nextId := base.nextId) && nodeId in base.nodes
    requires after == Bump(base, nodeId, rows, ForGrant(lead), key, key)
    ensures TrialGiven(a, after, userId, done + {nodeId}, expiresAt, derive)
  {
    hide Bump, EligibleDevices, TrialGiven, WritesTrial;
    StillOwed(a, before, userId, done, nodeId, expiresAt, derive);
    BumpWrites(base, nodeId, rows, ForGrant(lead), key, key);
    OwedAlike(a, before, userId, nodeId, rows, expiresAt, derive);
    OneMoreTrialNode(a, before, after, userId, done, nodeId, rows, expiresAt, derive);
  }

  lemma OwedAlike(
      a: Db, t: Db, userId: Id, nodeId: Id, rows: map<Access, GrantRow>, expiresAt: int,
      derive: CredentialBinding -> string)
    requires nodeId in a.nodes && nodeId in t.nodes && t.nodes[nodeId] == a.nodes[nodeId]
    requires EligibleDevices(t, userId, nodeId) == EligibleDevices(a, userId, nodeId)
    requires forall d :: Access(nodeId, d) in t.grants <==> Access(nodeId, d) in a.grants
    requires forall d | Access(nodeId, d) in a.grants :: t.grants[Access(nodeId, d)] == a.grants[Access(nodeId, d)]
    requires WritesTrial(t, userId, nodeId, rows, expiresAt, derive)
    ensures WritesTrial(a, userId, nodeId, rows, expiresAt, derive)
  {
    hide EligibleDevices;
    forall k | k in rows
      ensures rows[k] == TrialRow(a, k, expiresAt, rows[k].id, a.nodes[nodeId].desiredConfigVersion + 1, derive)
    {
      assert k == Access(nodeId, k.deviceId);
    }
  }

  lemma OneMoreTrialNode(
      a: Db, before: Db, after: Db, userId: Id, done: set<Id>, nodeId: Id, rows: map<Access, GrantRow>,
      expiresAt: int, derive: CredentialBinding -> string)
    requires done <= a.nodes.Keys && nodeId in a.nodes && nodeId !in done && nodeId in before.nodes
    requires TrialGiven(a, before, userId, done, expiresAt, derive)
    requires EligibleDevices(a, userId, nodeId) != {} && before.nodes[nodeId] == a.nodes[nodeId]
    requires WritesTrial(a, userId, nodeId, rows, expiresAt, derive)
    requires after.devices == before.devices && after.subscriptions == before.subscriptions
    requires after.deliveries == before.deliveries
    requires after.nodes == IncrementNodeVersion(before, nodeId).nodes && after.grants == before.grants + rows
    ensures TrialGiven(a, after, userId, done + {nodeId}, expiresAt, derive)
  {
    hide EligibleDevices, TrialGrantsGiven;
    OneMoreNodeOfTrialGrants(a, before.grants, userId, done, nodeId, rows, expiresAt, derive);
  }

  lemma OneMoreNodeOfTrialGrants(
      a: Db, before: map<Access, GrantRow>, userId: Id, done: set<Id>, nodeId: Id, rows: map<Access, GrantRow>,
      expiresAt: int, derive: CredentialBinding -> string)
    requires done <= a.nodes.Keys && nodeId in a.nodes && nodeId !in done
    requires TrialGrantsGiven(a, before, userId, done, expiresAt, derive)
    requires WritesTrial(a, userId, nodeId, rows, expiresAt, derive)
    ensures TrialGrantsGiven(a, before + rows, userId, done + {nodeId}, expiresAt, derive)
  {
    hide EligibleDevices;
    var more := done + {nodeId};
    forall k: Access ensures k in rows <==> k.nodeId == nodeId && k.deviceId in EligibleDevices(a, userId, nodeId) {
      assert k.nodeId == nodeId ==> k == Access(nodeId, k.deviceId);
    }
    forall k: Access ensures OwedTrial(a, k, userId, more) <==> OwedTrial(a, k, userId, done) || k in rows {
    }
  }

  // Only the nodes that are done have used their key since.
  ghost predicate SameTrialKeys(a: Db, t: Db, activationId: Id, done: set<Id>) {
    forall n | n !in done ::
      KeysUnused(t, Trial(activationId, n), Trial(activationId, n))
        == KeysUnused(a, Trial(activationId, n), Trial(activationId, n))
  }

  lemma KeyStillUnused(a: Db, t: Db, activationId: Id, done: set<Id>, nodeId: Id)
    requires SameTrialKeys(a, t, activationId, done) && nodeId !in done
    ensures KeysUnused(t, Trial(activationId, nodeId), Trial(activationId, nodeId))
         == KeysUnused(a, Trial(activationId, nodeId), Trial(activationId, nodeId))
  {
  }

  lemma MoreKeysDone(a: Db, t: Db, activationId: Id, done: set<Id>, more: set<Id>)
    requires SameTrialKeys(a, t, activationId, done) || SameTrialKeys(a, t, activationId, more)
    requires done <= more
    ensures SameTrialKeys(a, t, activationId, more)
  {
  }

  lemma OneMoreTrialKey(
      a: Db, before: Db, base: Db, after: Db, activationId: Id, done: set<Id>, nodeId: Id, rows: map<Access, GrantRow>,
      lead: Id)
    requires SameTrialKeys(a, before, activationId, done) && Valid(before)
    requires base == before.(nextId := base.nextId) && before.nextId <= base.nextId && nodeId in base.nodes
    requires after == Bump(base, nodeId, rows, ForGrant(lead), Trial(activationId, nodeId), Trial(activationId, nodeId))
    ensures SameTrialKeys(a, after, activationId, done + {nodeId})
  {
    hide Bump;
    var key := Trial(activationId, nodeId);
    BumpWrites(base, nodeId, rows, ForGrant(lead), key, key);
    FitsOf(before);
    forall n | n !in done + {nodeId}
      ensures KeysUnused(after, Trial(activationId, n), Trial(activationId, n))
           == KeysUnused(a, Trial(activationId, n), Trial(activationId, n))
    {
      OtherKeysAlike(before, after, base.nextId, Trial(activationId, n), key);
      KeyStillUnused(a, before, activationId, done, n);
    }
  }

  lemma OtherKeysAlike(a: Db, b: Db, id: Id, key: Key, other: Key)
    requires IdsBelowNext(a) && a.nextId <= id && key != other
    requires id in b.jobs && id + 1 in b.events && b.jobs[id].key == other && b.events[id + 1].key == other
    requires b.jobs == a.jobs[id := b.jobs[id]] && b.events == a.events[id + 1 := b.events[id + 1]]
    ensures KeysUnused(b, key, key) == KeysUnused(a, key, key)
  {
    if KeysUnused(b, key, key) {
      forall j | j in a.jobs ensures a.jobs[j].key != key {
        assert b.jobs[j] == a.jobs[j];
      }
      forall e | e in a.events ensures a.events[e].key != key {
        assert b.events[e] == a.events[e];
      }
    }
  }
}
