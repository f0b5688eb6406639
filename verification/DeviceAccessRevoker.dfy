// Revoking a device: all of its grants, each under the next version of its own node.
module DeviceAccessRevocation {
  import opened Basics
  import opened Queries
  import opened XrayAccess
  import opened AccessState
  import opened NodeAgentConfiguration
  import opened Revocation

  datatype RevokeDeviceResult = DeviceRevoked | AlreadyRevoked | DeviceNotFound

  function LiveGrantsOfDevice(db: Db, deviceId: Id): set<Access> {
    set k | k in db.grants && k.deviceId == deviceId && LiveGrant(db.grants[k])
  }

  ghost predicate NoLiveGrant(db: Db, deviceId: Id) {
    forall k | k in db.grants && k.deviceId == deviceId :: !LiveGrant(db.grants[k])
  }

  function WithDeviceRevoked(db: Db, deviceId: Id): Db
    requires deviceId in db.devices
  {
    db.(devices := db.devices[deviceId := db.devices[deviceId].(active := false)])
  }

  lemma DeviceCanBeRevoked(db: Db, deviceId: Id)
    requires Valid(db) && deviceId in db.devices && NoLiveGrant(db, deviceId)
    ensures Valid(WithDeviceRevoked(db, deviceId)) && Evolves(db, WithDeviceRevoked(db, deviceId))
  {
    hide JobsFit, EventsFit, DeliveriesFit, ConfirmationsFit;
    var after := WithDeviceRevoked(db, deviceId);
    forall k | k in after.grants
      ensures GrantFits(after.grants[k], after.nodes[k.nodeId], after.devices[k.deviceId])
    {
      assert GrantFits(db.grants[k], db.nodes[k.nodeId], db.devices[k.deviceId]);
    }
    SideTablesKeepValid(db, after);
  }

  lemma LiveGrantsAreLive(db: Db, deviceId: Id)
    requires Valid(db)
    ensures AllLive(db, LiveGrantsOfDevice(db, deviceId))
    ensures forall k | k in LiveGrantsOfDevice(db, deviceId) :: k.nodeId in db.nodes && k.deviceId == deviceId
  {
  }

  lemma OnIsOne(db: Db, deviceId: Id, nodeId: Id)
    requires Access(nodeId, deviceId) in LiveGrantsOfDevice(db, deviceId)
    ensures On(LiveGrantsOfDevice(db, deviceId), nodeId) == {Access(nodeId, deviceId)}
    ensures Touches(LiveGrantsOfDevice(db, deviceId), nodeId)
  {
  }

  class DeviceAccessRevoker {
    const database: Database

    constructor (database: Database)
      ensures this.database == database
    {
      this.database := database;
    }

    // Revokes the device and each of its live grants, or changes nothing.
    method Revoke(userId: Id, deviceId: Id, now: int) returns (r: RevokeDeviceResult)
      requires Valid(database.db)
      modifies database`db
      ensures Valid(database.db) && Evolves(old(database.db), database.db)
      ensures r == if deviceId !in old(database.db).devices || old(database.db).devices[deviceId].userId != userId
                   then DeviceNotFound
                   else if old(database.db).devices[deviceId].active then DeviceRevoked else AlreadyRevoked
      ensures !r.DeviceRevoked? ==> database.db == old(database.db)
      ensures r.DeviceRevoked? ==>
                && RevokedAll(old(database.db), database.db, LiveGrantsOfDevice(old(database.db), deviceId), now)
                && RevokesRows(old(database.db), database.db,
                               (set k | k in old(database.db).grants && k.deviceId == deviceId
                                        && old(database.db).grants[k].status != Revoked), now)
                && NoLiveGrant(database.db, deviceId)
                && database.db.devices == WithDeviceRevoked(old(database.db), deviceId).devices
    {
      hide Valid, Evolves, RevokedAll, RevokesRows, GrantsAfter, NodesAfter, NoLiveGrant;
      var t := database.db;
      EvolvesReflexive(t);
      if deviceId !in t.devices || t.devices[deviceId].userId != userId {
        return DeviceNotFound;
      }
      if !t.devices[deviceId].active {
        return AlreadyRevoked;
      }
      t := RevokeEachGrant(deviceId, now);
      DeviceCanBeRevoked(t, deviceId);
      EvolvesTransitive(database.db, t, WithDeviceRevoked(t, deviceId));
      RevokedAsAWhole(database.db, t, WithDeviceRevoked(t, deviceId), LiveGrantsOfDevice(database.db, deviceId), now);
      SameGrants(t, WithDeviceRevoked(t, deviceId), deviceId);
      assert LiveGrantsOfDevice(database.db, deviceId)
          == set k | k in database.db.grants && k.deviceId == deviceId && database.db.grants[k].status != Revoked;
      database.db := WithDeviceRevoked(t, deviceId);
      r := DeviceRevoked;
    }

    // The tables with every live grant of the device revoked. The transaction writes the
    // device row first; it commits both together.
    method RevokeEachGrant(deviceId: Id, now: int) returns (t: Db)
      requires Valid(database.db) && deviceId in database.db.devices
      ensures Valid(t) && Evolves(database.db, t)
      ensures t.devices == database.db.devices && t.deliveries == database.db.deliveries
      ensures RevokedAll(database.db, t, LiveGrantsOfDevice(database.db, deviceId), now)
      ensures NoLiveGrant(t, deviceId)
    {
      hide Valid, Evolves, RevokedAll, GrantsAfter, NodesAfter, RevokeOn, NoLiveGrant, KeysUnused, On, OrderedIds;
      t := database.db;
      EvolvesReflexive(t);
      var affected := LiveGrantsOfDevice(t, deviceId);
      LiveGrantsAreLive(t, deviceId);
      var nodeIds := OrderedIds(NodesOf(affected));
      NothingDone(t, affected, now);
      assert Members(nodeIds[..0]) == {};
      for i := 0 to |nodeIds|
        invariant Valid(t) && Evolves(database.db, t) && t.devices == database.db.devices
        invariant t.deliveries == database.db.deliveries
        invariant t.grants == GrantsAfter(database.db, affected, Members(nodeIds[..i]), now)
        invariant t.nodes == NodesAfter(database.db, affected, Members(nodeIds[..i]))
      {
        ghost var done := Members(nodeIds[..i]);
        OneMoreRow(NodesOf(affected), i);
        var nodeId := nodeIds[i];
        var k := Access(nodeId, deviceId);
        OnIsOne(database.db, deviceId, nodeId);
        StillLive(database.db, t, affected, done, nodeId, now);
        var key := DeviceRevocation(k, t.nodes[nodeId].desiredConfigVersion + 1);
        NextVersionKeyIsUnused(t, nodeId, key);
        ghost var before := t;
        t := RevokeOn(t, nodeId, {k}, now, t.grants[k].id, key, key);
        RevokeOnKeepsValid(before, nodeId, {k}, now, before.grants[k].id, key, key);
        RevokeOnExtends(database.db, before, affected, done, nodeId, now, before.grants[k].id, key, key);
        RevokeOnWrites(before, nodeId, {k}, now, before.grants[k].id, key, key);
        EvolvesTransitive(database.db, before, t);
      }
      AllRows(NodesOf(affected));
      assert forall k | k in affected :: k.nodeId in NodesOf(affected);
      AllDone(database.db, affected, NodesOf(affected), now);
      RevokedAsAWhole(database.db, t, t, affected, now);
      NoneLeft(database.db, t, deviceId, now);
    }
  }

  lemma SameGrants(a: Db, b: Db, deviceId: Id)
    requires b.grants == a.grants && NoLiveGrant(a, deviceId)
    ensures NoLiveGrant(b, deviceId)
  {
  }

  lemma NoneLeft(a: Db, t: Db, deviceId: Id, now: int)
    requires Valid(a) && RevokedAll(a, t, LiveGrantsOfDevice(a, deviceId), now)
    ensures NoLiveGrant(t, deviceId)
  {
  }
}
