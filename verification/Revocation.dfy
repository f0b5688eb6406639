// Revoking a set of grants: on nodes kept in access-control sync under the node's
// next version, elsewhere in place.
module Revocation {
  import opened Basics
  import opened Queries
  import opened XrayAccess
  import opened AccessState

  function RevokedRow(g: GrantRow, node: Node, now: int): GrantRow {
    g.(status := Revoked,
       revokedAt := Some(now),
       desiredVersion := if InAccessControlSync(node.status) then node.desiredConfigVersion + 1 else g.desiredVersion)
  }

  function On(affected: set<Access>, nodeId: Id): set<Access> {
    set k | k in affected && k.nodeId == nodeId
  }

  function NodesOf(ks: set<Access>): set<Id> {
    set k | k in ks :: k.nodeId
  }

  function GrantIds(db: Db, ks: set<Access>): set<Id> {
    set k | k in ks && k in db.grants :: db.grants[k].id
  }

  predicate Touches(affected: set<Access>, nodeId: Id) {
    exists k :: k in affected && k.nodeId == nodeId
  }

  function RevokedRows(db: Db, nodeId: Id, ks: set<Access>, now: int): map<Access, GrantRow>
    requires nodeId in db.nodes
  {
    map k | k in ks && k in db.grants :: RevokedRow(db.grants[k], db.nodes[nodeId], now)
  }

  // The revocation of some grants of one node.
  function RevokeOn(db: Db, nodeId: Id, ks: set<Access>, now: int, leadGrantId: Id, jobKey: Key, eventKey: Key): Db
    requires nodeId in db.nodes
  {
    if InAccessControlSync(db.nodes[nodeId].status)
    then Bump(db, nodeId, RevokedRows(db, nodeId, ks, now), ForGrant(leadGrantId), jobKey, eventKey)
    else db.(grants := db.grants + RevokedRows(db, nodeId, ks, now))
  }

  // What revoking a set of grants makes of the grant rows, for the nodes that are done.
  function GrantsAfter(db: Db, affected: set<Access>, done: set<Id>, now: int): map<Access, GrantRow> {
    map k | k in db.grants ::
      if k in affected && k.nodeId in done && k.nodeId in db.nodes
      then RevokedRow(db.grants[k], db.nodes[k.nodeId], now)
      else db.grants[k]
  }

  function NodesAfter(db: Db, affected: set<Access>, done: set<Id>): map<Id, Node> {
    map n | n in db.nodes ::
      if n in done && InAccessControlSync(db.nodes[n].status) && Touches(affected, n)
      then db.nodes[n].(desiredConfigVersion := db.nodes[n].desiredConfigVersion + 1)
      else db.nodes[n]
  }

  ghost predicate AllLive(db: Db, ks: set<Access>) {
    forall k | k in ks :: k in db.grants && LiveGrant(db.grants[k])
  }

  lemma RevokedInPlaceFits(db: Db, nodeId: Id, ks: set<Access>, now: int)
    requires GrantsFit(db) && IdsBelowNext(db) && nodeId in db.nodes && AllLive(db, ks)
    requires !InAccessControlSync(db.nodes[nodeId].status)
    requires forall k | k in ks :: k.nodeId == nodeId
    ensures var after := db.(grants := db.grants + RevokedRows(db, nodeId, ks, now));
            GrantsFit(after) && IdsBelowNext(after) && GrantsEvolve(db, after)
  {
    var after := db.(grants := db.grants + RevokedRows(db, nodeId, ks, now));
    forall k | k in after.grants
      ensures GrantFits(after.grants[k], after.nodes[k.nodeId], after.devices[k.deviceId])
      ensures after.grants[k].id < after.nextId
      ensures GrantEvolves(db.grants[k], after.grants[k], db.nodes[k.nodeId], after.nodes[k.nodeId])
    {
      assert GrantFits(db.grants[k], db.nodes[k.nodeId], db.devices[k.deviceId]);
    }
  }

  lemma RevocationAllowed(db: Db, nodeId: Id, ks: set<Access>, now: int, jobKey: Key, eventKey: Key)
    requires GrantsFit(db) && NodesFit(db) && IdsBelowNext(db) && nodeId in db.nodes && AllLive(db, ks)
    requires forall k | k in ks :: k.nodeId == nodeId
    requires InAccessControlSync(db.nodes[nodeId].status)
    requires KeysUnused(db, jobKey, eventKey) && (eventKey == jobKey || (eventKey.Given? && jobKey.Given?))
    requires KeyFits(jobKey, nodeId, db.nodes[nodeId].desiredConfigVersion + 1)
    requires KeyFits(eventKey, nodeId, db.nodes[nodeId].desiredConfigVersion + 1)
    ensures BumpAllowed(db, nodeId, RevokedRows(db, nodeId, ks, now), jobKey, eventKey)
  {
    var changed := RevokedRows(db, nodeId, ks, now);
    forall k | k in changed ensures ChangeAllowed(db, nodeId, k, changed[k]) {
      assert GrantFits(db.grants[k], db.nodes[nodeId], db.devices[k.deviceId]);
    }
  }

  lemma LeadIsRevoked(db: Db, nodeId: Id, ks: set<Access>, now: int, leadGrantId: Id)
    requires nodeId in db.nodes && leadGrantId in GrantIds(db, ks)
    ensures Leads(ForGrant(leadGrantId), RevokedRows(db, nodeId, ks, now))
  {
    var k :| k in ks && k in db.grants && db.grants[k].id == leadGrantId;
    assert RevokedRows(db, nodeId, ks, now)[k].id == leadGrantId;
  }

  lemma RevokeOnKeepsValid(db: Db, nodeId: Id, ks: set<Access>, now: int, leadGrantId: Id, jobKey: Key, eventKey: Key)
    requires Valid(db) && nodeId in db.nodes && AllLive(db, ks)
    requires forall k | k in ks :: k.nodeId == nodeId
    requires InAccessControlSync(db.nodes[nodeId].status) ==>
               && KeysUnused(db, jobKey, eventKey)
               && leadGrantId in GrantIds(db, ks)
               && (eventKey == jobKey || (eventKey.Given? && jobKey.Given?))
               && KeyFits(jobKey, nodeId, db.nodes[nodeId].desiredConfigVersion + 1)
               && KeyFits(eventKey, nodeId, db.nodes[nodeId].desiredConfigVersion + 1)
    ensures Valid(RevokeOn(db, nodeId, ks, now, leadGrantId, jobKey, eventKey))
    ensures Evolves(db, RevokeOn(db, nodeId, ks, now, leadGrantId, jobKey, eventKey))
  {
    hide GrantsFit, JobsFit, EventsFit, DeliveriesFit, ConfirmationsFit, RoutesFit, NodesFit, IdsBelowNext, Evolves;
    if InAccessControlSync(db.nodes[nodeId].status) {
      RevocationAllowed(db, nodeId, ks, now, jobKey, eventKey);
      LeadIsRevoked(db, nodeId, ks, now, leadGrantId);
      BumpKeepsValid(db, nodeId, RevokedRows(db, nodeId, ks, now), ForGrant(leadGrantId), jobKey, eventKey);
    } else {
      var after := db.(grants := db.grants + RevokedRows(db, nodeId, ks, now));
      RevokedInPlaceFits(db, nodeId, ks, now);
      SameNodes(db, after);
      SideTablesKeepValid(db, after);
    }
  }

  lemma SameNodes(a: Db, b: Db)
    requires b.nodes == a.nodes && b.devices == a.devices && b.routes == a.routes
    ensures NodesEvolve(a, b) && SameVersions(a, b) && (RoutesFit(a) ==> RoutesFit(b))
  {
  }

  lemma OneMoreNodeOfGrants(a: Db, t: Db, affected: set<Access>, done: set<Id>, nodeId: Id, now: int)
    requires AllLive(a, affected) && nodeId in a.nodes && nodeId in t.nodes && nodeId !in done
    requires t.grants == GrantsAfter(a, affected, done, now) && t.nodes[nodeId] == a.nodes[nodeId]
    ensures t.grants + RevokedRows(t, nodeId, On(affected, nodeId), now)
         == GrantsAfter(a, affected, done + {nodeId}, now)
  {
  }

  lemma OneMoreNode(a: Db, affected: set<Access>, done: set<Id>, nodeId: Id)
    requires nodeId in a.nodes && nodeId !in done && Touches(affected, nodeId)
    ensures NodesAfter(a, affected, done + {nodeId})
         == if InAccessControlSync(a.nodes[nodeId].status)
            then NodesAfter(a, affected, done)[nodeId :=
                   a.nodes[nodeId].(desiredConfigVersion := a.nodes[nodeId].desiredConfigVersion + 1)]
            else NodesAfter(a, affected, done)
  {
  }

  lemma RevokeOnWrites(db: Db, nodeId: Id, ks: set<Access>, now: int, leadGrantId: Id, jobKey: Key, eventKey: Key)
    requires nodeId in db.nodes
    ensures var after := RevokeOn(db, nodeId, ks, now, leadGrantId, jobKey, eventKey);
            after == db.(nodes := if InAccessControlSync(db.nodes[nodeId].status)
                                  then IncrementNodeVersion(db, nodeId).nodes else db.nodes,
                         grants := db.grants + RevokedRows(db, nodeId, ks, now),
                         jobs := after.jobs, events := after.events, nextId := after.nextId)
  {
  }

  lemma RevokeOnAnnounces(db: Db, nodeId: Id, ks: set<Access>, now: int, leadGrantId: Id, jobKey: Key, eventKey: Key)
    requires nodeId in db.nodes && InAccessControlSync(db.nodes[nodeId].status)
    ensures var after := RevokeOn(db, nodeId, ks, now, leadGrantId, jobKey, eventKey);
            var version := db.nodes[nodeId].desiredConfigVersion + 1;
            && after.jobs == db.jobs[db.nextId := SyncJob(nodeId, ForGrant(leadGrantId), version, jobKey, JobPending)]
            && after.events == db.events[db.nextId + 1 :=
                 OutboxEvent(db.nextId, ForGrant(leadGrantId), version, eventKey, EventPending)]
  {
    hide RevokedRows, Bump;
    BumpWrites(db, nodeId, RevokedRows(db, nodeId, ks, now), ForGrant(leadGrantId), jobKey, eventKey);
  }

  // One more node done.
  lemma RevokeOnExtends(a: Db, t: Db, affected: set<Access>, done: set<Id>, nodeId: Id, now: int, lead: Id, key: Key,
                        eventKey: Key)
    requires AllLive(a, affected) && nodeId in a.nodes && nodeId !in done
    requires t.grants == GrantsAfter(a, affected, done, now)
    requires t.nodes == NodesAfter(a, affected, done)
    requires Touches(affected, nodeId)
    ensures var after := RevokeOn(t, nodeId, On(affected, nodeId), now, lead, key, eventKey);
            && after.grants == GrantsAfter(a, affected, done + {nodeId}, now)
            && after.nodes == NodesAfter(a, affected, done + {nodeId})
  {
    assert t.nodes[nodeId] == a.nodes[nodeId];
    hide GrantsAfter, NodesAfter, RevokedRows, RevokeOn;
    RevokeOnWrites(t, nodeId, On(affected, nodeId), now, lead, key, eventKey);
    OneMoreNodeOfGrants(a, t, affected, done, nodeId, now);
    OneMoreNode(a, affected, done, nodeId);
  }

  // The grants of nodes not yet done are as they were.
  lemma StillLive(a: Db, t: Db, affected: set<Access>, done: set<Id>, nodeId: Id, now: int)
    requires AllLive(a, affected) && nodeId in a.nodes && nodeId !in done
    requires t.grants == GrantsAfter(a, affected, done, now) && t.nodes == NodesAfter(a, affected, done)
    ensures AllLive(t, On(affected, nodeId)) && nodeId in t.nodes && t.nodes[nodeId] == a.nodes[nodeId]
    ensures forall k | k in On(affected, nodeId) :: k.nodeId == nodeId && t.grants[k] == a.grants[k]
  {
  }

  lemma NothingDone(a: Db, affected: set<Access>, now: int)
    ensures GrantsAfter(a, affected, {}, now) == a.grants
    ensures NodesAfter(a, affected, {}) == a.nodes
  {
  }

  // Every node of an affected grant done: the set is revoked as a whole, and nothing else changed.
  // The grant is revoked as of now. A node that is kept in sync is to learn of it under its next version.
  ghost predicate IsRevokedNow(before: GrantRow, after: GrantRow, node: Node, now: int) {
    && after == before.(status := after.status, revokedAt := after.revokedAt, desiredVersion := after.desiredVersion)
    && after.status == Revoked && after.revokedAt == Some(now)
    && (node.status == Healthy || node.status == Draining || node.status == Disabled ==>
          after.desiredVersion == node.desiredConfigVersion + 1)
    && (node.status != Healthy && node.status != Draining && node.status != Disabled ==>
          after.desiredVersion == before.desiredVersion)
  }

  // Row by row: the affected grants are revoked, each synchronised node that holds one has one version
  // more to learn, and nothing else about grants and nodes changes.
  ghost predicate RevokesRows(a: Db, b: Db, affected: set<Access>, now: int) {
    && b.grants.Keys == a.grants.Keys && b.nodes.Keys == a.nodes.Keys
    && (forall k | k in a.grants ::
          if k in affected && k.nodeId in a.nodes then IsRevokedNow(a.grants[k], b.grants[k], a.nodes[k.nodeId], now)
          else b.grants[k] == a.grants[k])
    && (forall n | n in a.nodes ::
          && b.nodes[n] == a.nodes[n].(desiredConfigVersion := b.nodes[n].desiredConfigVersion)
          && b.nodes[n].desiredConfigVersion == a.nodes[n].desiredConfigVersion
               + if (exists k :: k in affected && k.nodeId == n)
                    && (a.nodes[n].status == Healthy || a.nodes[n].status == Draining || a.nodes[n].status == Disabled)
                 then 1 else 0)
  }

  lemma AfterRevokesRows(a: Db, b: Db, affected: set<Access>, now: int)
    requires b.grants == GrantsAfter(a, affected, a.nodes.Keys, now) && b.nodes == NodesAfter(a, affected, a.nodes.Keys)
    ensures RevokesRows(a, b, affected, now)
  {
  }

  ghost predicate RevokedAll(a: Db, b: Db, affected: set<Access>, now: int) {
    && b.grants == GrantsAfter(a, affected, a.nodes.Keys, now)
    && b.nodes == NodesAfter(a, affected, a.nodes.Keys)
    && b.deliveries == a.deliveries
  }

  lemma AllDone(a: Db, affected: set<Access>, done: set<Id>, now: int)
    requires forall k | k in affected :: k.nodeId in a.nodes ==> k.nodeId in done
    ensures GrantsAfter(a, affected, done, now) == GrantsAfter(a, affected, a.nodes.Keys, now)
    ensures NodesAfter(a, affected, done) == NodesAfter(a, affected, a.nodes.Keys)
  {
  }

  lemma RevokedAsAWhole(a: Db, t: Db, b: Db, affected: set<Access>, now: int)
    requires (t.grants == GrantsAfter(a, affected, a.nodes.Keys, now)
              && t.nodes == NodesAfter(a, affected, a.nodes.Keys))
             || RevokedAll(a, t, affected, now)
    requires b.grants == t.grants && b.nodes == t.nodes && b.deliveries == t.deliveries == a.deliveries
    ensures RevokedAll(a, b, affected, now) && RevokesRows(a, b, affected, now)
  {
    AfterRevokesRows(a, b, affected, now);
  }
}
