// Subscription-driven access: cancellation, expiry, and the repair of a node's grants.
module SubscriptionAccessStore {
  import opened Basics
  import opened Queries
  import opened XrayAccess
  import opened AccessState
  import opened NodeAgentConfiguration
  import opened Revocation
  import opened AccessReconciliation

  datatype CancelResult = CancelledNow | AlreadyCancelled | SubscriptionNotFound

  function LiveGrantsOfUser(db: Db, userId: Id): set<Access> {
    set k | k in db.grants && k.deviceId in db.devices && db.devices[k.deviceId].userId == userId
            && LiveGrant(db.grants[k])
  }

  function CancellationScope(db: Db, subscriptionId: Id, now: int): set<Access>
    requires subscriptionId in db.subscriptions
  {
    if HadEntitlement(db.subscriptions[subscriptionId], now)
    then LiveGrantsOfUser(db, db.subscriptions[subscriptionId].userId) else {}
  }

  lemma CancellationScopeExactly(db: Db, subscriptionId: Id, now: int)
    requires subscriptionId in db.subscriptions
    ensures CancellationScope(db, subscriptionId, now) == GrantsInForce(db, db.subscriptions[subscriptionId], now)
  {
  }

  // The grants that a subscription keeps in force: none unless it is active and has not ended.
  ghost function GrantsInForce(db: Db, s: Subscription, now: int): set<Access> {
    set k | k in db.grants && k.deviceId in db.devices && db.devices[k.deviceId].userId == s.userId
            && db.grants[k].status != Revoked
            && s.status == ActiveSubscription && s.expiresAt.Some? && now < s.expiresAt.value
  }

  function WithSubscriptionStatus(db: Db, subscriptionId: Id, status: SubscriptionStatus): Db
    requires subscriptionId in db.subscriptions
  {
    db.(subscriptions := db.subscriptions[subscriptionId := db.subscriptions[subscriptionId].(status := status)])
  }

  lemma SubscriptionStatusKeepsValid(db: Db, subscriptionId: Id, status: SubscriptionStatus)
    requires Valid(db) && subscriptionId in db.subscriptions
    ensures Valid(WithSubscriptionStatus(db, subscriptionId, status))
    ensures Evolves(db, WithSubscriptionStatus(db, subscriptionId, status))
  {
    hide JobsFit, EventsFit, DeliveriesFit, ConfirmationsFit, GrantsFit, NodesFit, IdsBelowNext, Evolves;
    RouteTablesKeepValid(db, WithSubscriptionStatus(db, subscriptionId, status));
  }

  lemma ScopeIsLive(db: Db, subscriptionId: Id, now: int)
    requires Valid(db) && subscriptionId in db.subscriptions
    ensures AllLive(db, CancellationScope(db, subscriptionId, now))
    ensures forall k | k in CancellationScope(db, subscriptionId, now) :: k.nodeId in db.nodes
  {
  }

  lemma NodeIsTouched(affected: set<Access>, nodeId: Id)
    requires nodeId in NodesOf(affected)
    ensures Touches(affected, nodeId)
    ensures forall k | k in On(affected, nodeId) :: k in affected && k.nodeId == nodeId
  {
  }

  // The grant that a revocation on a node is announced for is one of those it revokes.
  lemma HasLead(db: Db, t: Db, affected: set<Access>, nodeId: Id)
    requires nodeId in NodesOf(affected) && AllLive(db, affected) && AllLive(t, On(affected, nodeId))
    requires forall k | k in On(affected, nodeId) && k in db.grants && k in t.grants :: t.grants[k] == db.grants[k]
    ensures First(GrantIds(db, On(affected, nodeId))).Some?
    ensures First(GrantIds(db, On(affected, nodeId))).value in GrantIds(t, On(affected, nodeId))
  {
    var k :| k in affected && k.nodeId == nodeId;
    assert k in On(affected, nodeId);
    assert db.grants[k].id in GrantIds(db, On(affected, nodeId));
    assert GrantIds(t, On(affected, nodeId)) == GrantIds(db, On(affected, nodeId));
  }

  function ExpiryScope(db: Db, userId: Id, nodeId: Id): set<Access> {
    On(LiveGrantsOfUser(db, userId), nodeId)
  }

  predicate ExpiryPassed(db: Db, subscriptionId: Id, now: int) {
    && subscriptionId in db.subscriptions
    && (db.subscriptions[subscriptionId].status.ActiveSubscription? || db.subscriptions[subscriptionId].status.Expired?)
    && db.subscriptions[subscriptionId].expiresAt.Some?
    && db.subscriptions[subscriptionId].expiresAt.value <= now
  }

  // The query for nodes that have yet to be told of an expired subscription.
  ghost predicate ExpiryPending(db: Db, subscriptionId: Id, nodeId: Id, now: int) {
    && ExpiryPassed(db, subscriptionId, now)
    && nodeId in db.nodes
    && InAccessControlSync(db.nodes[nodeId].status)
    && (exists k :: k in LiveGrantsOfUser(db, db.subscriptions[subscriptionId].userId) && k.nodeId == nodeId)
    && (forall j | j in db.jobs :: db.jobs[j].key != Expiry(subscriptionId, nodeId))
  }

  // Until when the user's grants run once the subscription has expired.
  function DesiredExpiry(db: Db, subscriptionId: Id, now: int): int
    requires ExpiryPassed(db, subscriptionId, now)
  {
    var s := db.subscriptions[subscriptionId];
    match EffectiveExpiry(db, s.userId, now)
    case Some(replacement) => replacement
    case None => s.expiresAt.value
  }

  function Rescheduled(db: Db, nodeId: Id, ks: set<Access>, expiresAt: int): map<Access, GrantRow>
    requires nodeId in db.nodes
  {
    map k | k in ks && k in db.grants ::
      db.grants[k].(expiresAt := expiresAt, desiredVersion := db.nodes[nodeId].desiredConfigVersion + 1)
  }

  // The user's live grants on the node run until then, under one new version.
  ghost predicate ExpiryIsTold(a: Db, b: Db, subscriptionId: Id, nodeId: Id, now: int) {
    && ExpiryPassed(a, subscriptionId, now) && nodeId in a.nodes
    && var ks := ExpiryScope(a, a.subscriptions[subscriptionId].userId, nodeId);
       var lead := First(GrantIds(a, ks));
       && lead.Some?
       && b == Bump(a, nodeId, Rescheduled(a, nodeId, ks, DesiredExpiry(a, subscriptionId, now)),
                    ForGrant(lead.value), Expiry(subscriptionId, nodeId), Expiry(subscriptionId, nodeId))
  }

  // The instant until which the grants of the subscription's user are to run: the end of the longest
  // subscription that is still running, or, without one, the end of this one.
  ghost predicate RunsOnUntil(db: Db, s: Subscription, now: int, end: int) {
    || RunsLongest(db, s.userId, now, end)
    || ((forall x, e | x in db.subscriptions :: !RunsUntil(db.subscriptions[x], s.userId, now, e))
        && s.expiresAt == Some(end))
  }

  lemma DesiredExpiryExactly(db: Db, subscriptionId: Id, now: int)
    requires ExpiryPassed(db, subscriptionId, now)
    ensures RunsOnUntil(db, db.subscriptions[subscriptionId], now, DesiredExpiry(db, subscriptionId, now))
  {
    hide RunsLongest, RunsUntil, EffectiveExpiry;
    var userId := db.subscriptions[subscriptionId].userId;
    EffectiveExpiryExactly(db, userId, now, DesiredExpiry(db, subscriptionId, now));
    forall x, e | x in db.subscriptions && RunsUntil(db.subscriptions[x], userId, now, e)
      ensures EffectiveExpiry(db, userId, now).Some?
    {
      EffectiveExpiryExactly(db, userId, now, e);
    }
  }

  // Row by row: the live grants of the subscription's user on the node run until that instant, and the node has
  // one version more to learn; no other grant or node changes.
  ghost predicate TellsExpiry(a: Db, b: Db, s: Subscription, nodeId: Id, end: int) {
    && nodeId in a.nodes && b.grants.Keys == a.grants.Keys
    && (forall k | k in a.grants :: b.grants[k] ==
          if k.nodeId == nodeId && a.grants[k].status != Revoked
             && k.deviceId in a.devices && a.devices[k.deviceId].userId == s.userId
          then a.grants[k].(expiresAt := end, desiredVersion := a.nodes[nodeId].desiredConfigVersion + 1)
          else a.grants[k])
    && b.nodes == a.nodes[nodeId := Node(a.nodes[nodeId].status, a.nodes[nodeId].desiredConfigVersion + 1,
                                         a.nodes[nodeId].appliedConfigVersion)]
  }

  lemma ToldExpiryRows(a: Db, b: Db, subscriptionId: Id, nodeId: Id, now: int)
    requires ExpiryIsTold(a, b, subscriptionId, nodeId, now)
    ensures TellsExpiry(a, b, a.subscriptions[subscriptionId], nodeId, DesiredExpiry(a, subscriptionId, now))
  {
    hide Bump, DesiredExpiry, GrantIds, IncrementNodeVersion;
    var ks := ExpiryScope(a, a.subscriptions[subscriptionId].userId, nodeId);
    var key := Expiry(subscriptionId, nodeId);
    var changed := Rescheduled(a, nodeId, ks, DesiredExpiry(a, subscriptionId, now));
    BumpWrites(a, nodeId, changed, ForGrant(First(GrantIds(a, ks)).value), key, key);
    OneNodeRaised(a, nodeId);
  }

  lemma ReschedulingAllowed(db: Db, nodeId: Id, ks: set<Access>, expiresAt: int, key: Key)
    requires Valid(db) && nodeId in db.nodes && AllLive(db, ks)
    requires forall k | k in ks :: k.nodeId == nodeId
    requires KeysUnused(db, key, key) && KeyFits(key, nodeId, db.nodes[nodeId].desiredConfigVersion + 1)
    ensures BumpAllowed(db, nodeId, Rescheduled(db, nodeId, ks, expiresAt), key, key)
  {
    hide JobsFit, EventsFit, DeliveriesFit, ConfirmationsFit, RoutesFit;
    var changed := Rescheduled(db, nodeId, ks, expiresAt);
    forall k | k in changed ensures ChangeAllowed(db, nodeId, k, changed[k]) {
      assert GrantFits(db.grants[k], db.nodes[nodeId], db.devices[k.deviceId]);
    }
  }

  lemma LeadIsRescheduled(db: Db, nodeId: Id, ks: set<Access>, expiresAt: int, leadGrantId: Id)
    requires nodeId in db.nodes && leadGrantId in GrantIds(db, ks)
    ensures Leads(ForGrant(leadGrantId), Rescheduled(db, nodeId, ks, expiresAt))
  {
    var k :| k in ks && k in db.grants && db.grants[k].id == leadGrantId;
    assert Rescheduled(db, nodeId, ks, expiresAt)[k].id == leadGrantId;
  }

  lemma ExpiryScopeIsLive(db: Db, userId: Id, nodeId: Id)
    ensures AllLive(db, ExpiryScope(db, userId, nodeId))
    ensures forall k | k in ExpiryScope(db, userId, nodeId) :: k.nodeId == nodeId
  {
  }

  lemma LeadExistsExactly(db: Db, userId: Id, nodeId: Id)
    ensures GrantIds(db, ExpiryScope(db, userId, nodeId)) == {}
            <==> !exists k :: k in LiveGrantsOfUser(db, userId) && k.nodeId == nodeId
  {
    var ks := ExpiryScope(db, userId, nodeId);
    assert forall k | k in ks :: db.grants[k].id in GrantIds(db, ks);
    assert forall k | k in LiveGrantsOfUser(db, userId) && k.nodeId == nodeId :: k in ks;
  }

  // An expiry event is only ever written with its job.
  lemma NoExpiryEventWithoutJob(db: Db, key: Key)
    requires Valid(db) && !key.Given?
    ensures (forall j | j in db.jobs :: db.jobs[j].key != key) <==> KeysUnused(db, key, key)
  {
  }

  class PrismaSubscriptionAccessStore {
    const database: Database

    constructor (database: Database)
      ensures this.database == database
    {
      this.database := database;
    }

    // Cancels a subscription; when it still gave access, every live grant of its user is revoked.
    method CancelSubscriptionAccess(subscriptionId: Id, now: int) returns (r: CancelResult)
      requires Valid(database.db)
      modifies database`db
      ensures Valid(database.db) && Evolves(old(database.db), database.db)
      ensures r == if subscriptionId !in old(database.db).subscriptions then SubscriptionNotFound
                   else if old(database.db).subscriptions[subscriptionId].status.Cancelled? then AlreadyCancelled
                   else CancelledNow
      ensures !r.CancelledNow? ==> database.db == old(database.db)
      ensures r.CancelledNow? ==>
                && RevokedAll(old(database.db), database.db, CancellationScope(old(database.db), subscriptionId, now),
                              now)
                && RevokesRows(old(database.db), database.db,
                               GrantsInForce(old(database.db), old(database.db).subscriptions[subscriptionId], now),
                                 now)
                && database.db.devices == old(database.db).devices
                && database.db.subscriptions
                     == WithSubscriptionStatus(old(database.db), subscriptionId, Cancelled).subscriptions
    {
      hide Valid, Evolves, RevokedAll, RevokesRows;
      EvolvesReflexive(database.db);
      if subscriptionId !in database.db.subscriptions {
        return SubscriptionNotFound;
      }
      if database.db.subscriptions[subscriptionId].status.Cancelled? {
        return AlreadyCancelled;
      }
      CancellationScopeExactly(database.db, subscriptionId, now);
      SubscriptionStatusKeepsValid(database.db, subscriptionId, Cancelled);
      var t := WithSubscriptionStatus(database.db, subscriptionId, Cancelled);
      t := RevokeNodeByNode(t, subscriptionId, now);
      database.db := t;
      r := CancelledNow;
    }

    // Tells a node, once per subscription, until when the user's grants now run.
    method ScheduleExpiredSubscriptionOnNode(subscriptionId: Id, nodeId: Id, now: int) returns (r: Tx<bool>)
      requires Valid(database.db)
      modifies database`db
      ensures Valid(database.db) && Evolves(old(database.db), database.db)
      ensures r == Committed(true) <==> ExpiryPending(old(database.db), subscriptionId, nodeId, now)
      ensures r != Committed(true) ==> database.db == old(database.db)
      ensures r == Committed(true) ==> !ExpiryPending(database.db, subscriptionId, nodeId, now)
      ensures r == Committed(true) ==> ExpiryIsTold(old(database.db), database.db, subscriptionId, nodeId, now)
      ensures r == Committed(true) ==>
                && subscriptionId in old(database.db).subscriptions
                && exists end :: RunsOnUntil(old(database.db), old(database.db).subscriptions[subscriptionId], now, end)
                     && TellsExpiry(old(database.db), database.db, old(database.db).subscriptions[subscriptionId],
                                    nodeId, end)
    {
      hide Valid, Evolves, Bump, KeysUnused, Rescheduled, ExpiryScope, GrantIds, EffectiveExpiry, LiveGrantsOfUser,
        EntitledUntil, RunsOnUntil, TellsExpiry;
      var t := database.db;
      EvolvesReflexive(t);
      if subscriptionId !in t.subscriptions {
        return Committed(false);
      }
      var subscription := t.subscriptions[subscriptionId];
      if (!subscription.status.ActiveSubscription? && !subscription.status.Expired?) || subscription.expiresAt.None? {
        return Committed(false);
      }
      if nodeId !in t.nodes || !InAccessControlSync(t.nodes[nodeId].status) {
        return Committed(false);
      }
      if now < subscription.expiresAt.value {
        return Committed(false);
      }
      var replacementExpiry := EffectiveExpiry(t, subscription.userId, now);
      var desiredExpiry := if replacementExpiry.Some? then replacementExpiry.value else subscription.expiresAt.value;
      var ks := ExpiryScope(t, subscription.userId, nodeId);
      var lead := First(GrantIds(t, ks));
      LeadExistsExactly(t, subscription.userId, nodeId);
      if lead.None? {
        return Committed(false);
      }
      var key := Expiry(subscriptionId, nodeId);
      var existing := HasMatchingNodeSyncOperation(nodeId, lead.value, key);
      NoExpiryEventWithoutJob(t, key);
      if existing != Committed(false) {
        return if existing.Aborted? then Aborted else Committed(false);
      }
      ExpiryScopeIsLive(t, subscription.userId, nodeId);
      ReschedulingAllowed(t, nodeId, ks, desiredExpiry, key);
      LeadIsRescheduled(t, nodeId, ks, desiredExpiry, lead.value);
      BumpKeepsValid(t, nodeId, Rescheduled(t, nodeId, ks, desiredExpiry), ForGrant(lead.value), key, key);
      BumpWrites(t, nodeId, Rescheduled(t, nodeId, ks, desiredExpiry), ForGrant(lead.value), key, key);
      database.db := Bump(t, nodeId, Rescheduled(t, nodeId, ks, desiredExpiry), ForGrant(lead.value), key, key);
      assert database.db.jobs[t.nextId].key == key;
      ToldExpiryRows(t, database.db, subscriptionId, nodeId, now);
      DesiredExpiryExactly(t, subscriptionId, now);
      r := Committed(true);
    }

    method HasMatchingNodeSyncOperation(nodeId: Id, leadGrantId: Id, key: Key) returns (r: Tx<bool>)
      ensures r == Committed(false) <==> KeysUnused(database.db, key, key)
    {
      var syncJobs, outboxEvents := JobsWithKey(database.db, key), EventsWithKey(database.db, key);
      KeysUnusedExactly(database.db, key, key);
      hide KeysUnused;
      var syncJob, outboxEvent := First(syncJobs), First(outboxEvents);
      assert syncJob.Some? ==> syncJob.value in syncJobs;
      assert outboxEvent.Some? ==> outboxEvent.value in outboxEvents;
      if syncJob.None? && outboxEvent.None? {
        return Committed(false);
      }
      if syncJob.None? || database.db.jobs[syncJob.value].nodeId != nodeId
         || database.db.jobs[syncJob.value].subject != ForGrant(leadGrantId)
         || outboxEvent.None? || database.db.events[outboxEvent.value].subject != ForGrant(leadGrantId) {
        return Aborted;
      }
      r := Committed(true);
    }

    // Marks a subscription whose time has passed.
    method MaterializeExpiredSubscriptionStatus(subscriptionId: Id, now: int) returns (materialized: bool)
      requires Valid(database.db)
      modifies database`db
      ensures Valid(database.db) && Evolves(old(database.db), database.db)
      ensures materialized <==>
                && ExpiryPassed(old(database.db), subscriptionId, now)
                && old(database.db).subscriptions[subscriptionId].status.ActiveSubscription?
      ensures database.db == if materialized && subscriptionId in old(database.db).subscriptions
                             then WithSubscriptionStatus(old(database.db), subscriptionId, Expired)
                             else old(database.db)
    {
      hide Valid, Evolves;
      var t := database.db;
      EvolvesReflexive(t);
      if subscriptionId !in t.subscriptions || !t.subscriptions[subscriptionId].status.ActiveSubscription?
         || t.subscriptions[subscriptionId].expiresAt.None? {
        return false;
      }
      if now < t.subscriptions[subscriptionId].expiresAt.value {
        return false;
      }
      SubscriptionStatusKeepsValid(t, subscriptionId, Expired);
      database.db := WithSubscriptionStatus(t, subscriptionId, Expired);
      materialized := true;
    }

    // Repairs the grants of one node: true exactly when something needed repair, and then
    // nothing needs repair at that instant any more.
    method ReconcileOneNode(nodeId: Id, now: int, includeMissingGrants: bool) returns (changed: bool)
      requires Valid(database.db)
      modifies database`db
      ensures Valid(database.db) && Evolves(old(database.db), database.db)
      ensures changed <==> NeedsRepair(old(database.db), nodeId, now, includeMissingGrants)
      ensures !includeMissingGrants ==> (changed <==> IsReconciliationCandidate(old(database.db), nodeId, now))
      ensures !changed ==> database.db == old(database.db)
      ensures !NeedsRepair(database.db, nodeId, now, includeMissingGrants)
      ensures changed ==>
                && nodeId in old(database.db).nodes
                && forall k | k in old(database.db).grants :: k.deviceId in old(database.db).devices
      ensures changed ==>
                && IsRepaired(old(database.db), database.db, nodeId, now,
                              MayCreateMissing(old(database.db), nodeId, includeMissingGrants), database.derive)
                && ReconcilesRows(old(database.db), database.db, nodeId, now,
                                  old(database.db).nodes[nodeId].status == Healthy || includeMissingGrants,
                                  database.derive)
    {
      hide Valid, Evolves, IsRepaired, ReconcilesRows, ChangedDevices, ActivatedDevices, KeepsDeliveriesAlive,
        IsReconciliationCandidate, WritesRepairs, LocallyActivated, Bump;
      var t := database.db;
      EvolvesReflexive(t);
      CandidateExactlyWhenRepairNeeded(t, nodeId, now);
      if nodeId !in t.nodes || !InAccessControlSync(t.nodes[nodeId].status) {
        return false;
      }
      var mayCreateMissing := MayCreateMissing(t, nodeId, includeMissingGrants);
      var networkChanges, order, localActivations := PlanRepairs(nodeId, now, mayCreateMissing);
      if networkChanges == map[] && localActivations == {} {
        return false;
      }
      FitsOf(t);
      GrantsOfKnownDevices(t);
      LocallyActivatedKeepsValid(t, nodeId, now);
      t := LocallyActivated(t, nodeId, localActivations);
      ActivationKeepsRest(database.db, t, nodeId, localActivations);
      if networkChanges == map[] {
        OnlyActivated(database.db, t, nodeId, now, mayCreateMissing, database.derive);
      } else {
        t := WriteRepairs(t, nodeId, now, mayCreateMissing, networkChanges, order);
      }
      FitsOf(database.db);
      RepairedReconcilesRows(database.db, t, nodeId, now, mayCreateMissing, database.derive);
      RepairedNeedsNoRepair(database.db, t, nodeId, now, includeMissingGrants, database.derive);
      database.db := t;
      changed := true;
    }

    // The changes of desired access, in the order they are entered, and the grants to activate locally.
    method PlanRepairs(nodeId: Id, now: int, mayCreateMissing: bool)
      returns (networkChanges: map<Id, Change>, order: seq<Id>, localActivations: set<Id>)
      requires Valid(database.db) && nodeId in database.db.nodes
      ensures networkChanges.Keys == ChangedDevices(database.db, nodeId, now, mayCreateMissing)
      ensures localActivations == ActivatedDevices(database.db, nodeId, now)
      ensures forall d :: d in networkChanges <==> d in order
      ensures forall d | d in networkChanges ::
                && d in database.db.devices
                && NetworkChange(database.db, Access(nodeId, d), now, mayCreateMissing) == Some(networkChanges[d])
    {
      hide PlannedSoFar, DevicesWithGrant, DeliveryLost;
      hide Valid, LiveDelivery, Entitlement, ChangedDevices, ActivatedDevices, OrderedIds, NetworkChange,
        LocalActivation;
      var t := database.db;
      networkChanges, order, localActivations := PlanEntitled(nodeId, now, mayCreateMissing);
      var existingGrants := OrderedIds(DevicesWithGrant(t, nodeId));
      assert Members(existingGrants[..0]) == {};
      for i := 0 to |existingGrants|
        invariant PlannedSoFar(t, nodeId, now, mayCreateMissing, ExpectedDevices(t, now), Members(existingGrants[..i]),
                               networkChanges, order, localActivations)
      {
        OneMoreRow(DevicesWithGrant(t, nodeId), i);
        var deviceId := existingGrants[i];
        var k := Access(nodeId, deviceId);
        KnownDevice(t, k);
        RevokeIsRepaired(t, k, now, mayCreateMissing);
        EnterExisting(t, nodeId, now, mayCreateMissing, ExpectedDevices(t, now), Members(existingGrants[..i]),
                      networkChanges, order, localActivations, deviceId);
        if !LiveGrant(t.grants[k]) && DeliveryLost(t, t.grants[k], nodeId) {
          networkChanges, order := networkChanges[deviceId := RepairRevoke], order + [deviceId];
        }
      }
      AllRows(DevicesWithGrant(t, nodeId));
      PlanIsComplete(t, nodeId, now, mayCreateMissing, networkChanges, order, localActivations);
    }

    // What the entitled devices call for.
    method PlanEntitled(nodeId: Id, now: int, mayCreateMissing: bool)
      returns (networkChanges: map<Id, Change>, order: seq<Id>, localActivations: set<Id>)
      requires Valid(database.db) && nodeId in database.db.nodes
      ensures PlannedSoFar(database.db, nodeId, now, mayCreateMissing, ExpectedDevices(database.db, now), {},
                           networkChanges, order, localActivations)
    {
      hide Valid, LiveDelivery, EffectiveExpiry, OrderedIds, NetworkChange, LocalActivation, DeliveryLost, PlannedSoFar;
      var t := database.db;
      networkChanges, order, localActivations := map[], [], {};
      NothingPlanned(t, nodeId, now, mayCreateMissing);
      var expectedDevices := OrderedIds(ExpectedDevices(t, now));
      assert Members(expectedDevices[..0]) == {};
      for i := 0 to |expectedDevices|
        invariant PlannedSoFar(t, nodeId, now, mayCreateMissing, Members(expectedDevices[..i]), {},
                               networkChanges, order, localActivations)
      {
        OneMoreRow(ExpectedDevices(t, now), i);
        var deviceId := expectedDevices[i];
        var expiresAt := Entitlement(t, deviceId, now).value;
        var k := Access(nodeId, deviceId);
        EntitledChange(t, k, now, mayCreateMissing);
        ghost var change: Option<Change> := None;
        ghost var changes, entered, activated := networkChanges, order, localActivations;
        if k !in t.grants {
          if mayCreateMissing {
            networkChanges, order := networkChanges[deviceId := CreateGrant(expiresAt)], order + [deviceId];
            change := Some(CreateGrant(expiresAt));
          }
        } else if LiveGrant(t.grants[k]) {
          if AppliedButPending(t.grants[k]) {
            localActivations := localActivations + {deviceId};
          }
          if t.grants[k].expiresAt != expiresAt || DeliveryLost(t, t.grants[k], nodeId) {
            networkChanges, order := networkChanges[deviceId := UpdateGrant(expiresAt)], order + [deviceId];
            change := Some(UpdateGrant(expiresAt));
          }
        }
        EnterExpected(t, nodeId, now, mayCreateMissing, Members(expectedDevices[..i]), changes, entered, activated,
                      deviceId, change, LocalActivation(t, k, now));
      }
      AllRows(ExpectedDevices(t, now));
    }

    // The rows of the plan, under one new version with its job and event.
    method WriteRepairs(activated: Db, nodeId: Id, now: int, mayCreateMissing: bool, networkChanges: map<Id, Change>,
                        order: seq<Id>)
      returns (t: Db)
      requires Valid(database.db) && nodeId in database.db.nodes
               && InAccessControlSync(database.db.nodes[nodeId].status)
      requires forall k | k in database.db.grants :: k.deviceId in database.db.devices
      requires networkChanges.Keys == ChangedDevices(database.db, nodeId, now, mayCreateMissing)
               && networkChanges != map[]
      requires forall d :: d in networkChanges <==> d in order
      requires forall d | d in networkChanges ::
                 && d in database.db.devices
                 && NetworkChange(database.db, Access(nodeId, d), now, mayCreateMissing) == Some(networkChanges[d])
      requires Valid(activated) && Evolves(database.db, activated)
               && activated == database.db.(grants := activated.grants)
      requires activated == LocallyActivated(database.db, nodeId, ActivatedDevices(database.db, nodeId, now))
      ensures Valid(t) && Evolves(database.db, t) && KeepsDeliveriesAlive(database.db, t, nodeId)
      ensures IsRepaired(database.db, t, nodeId, now, mayCreateMissing, database.derive)
    {
      hide Valid, Evolves, IsRepaired, ChangedDevices, ActivatedDevices, KeepsDeliveriesAlive, WritesRepairs,
        LocallyActivated, Bump, NetworkChange, KeysUnused;
      var rows, nextId, lead := RepairRows(nodeId, now, mayCreateMissing, networkChanges, order);
      var key := Reconciliation(nodeId, activated.nodes[nodeId].desiredConfigVersion + 1);
      NextVersionKeyIsUnused(database.db, nodeId, key);
      var base := activated.(nextId := nextId);
      t := Bump(base, nodeId, rows, ForGrant(lead), key, key);
      RepairKeepsValid(database.db, activated, base, t, nodeId, rows, now, mayCreateMissing, lead, key,
                       database.derive);
    }

    // The rows that the changes write, with fresh identifiers for new grants, and the first of them.
    method RepairRows(nodeId: Id, now: int, mayCreateMissing: bool, networkChanges: map<Id, Change>, order: seq<Id>)
      returns (rows: map<Access, GrantRow>, nextId: Id, lead: Id)
      requires Valid(database.db) && nodeId in database.db.nodes
      requires networkChanges.Keys == ChangedDevices(database.db, nodeId, now, mayCreateMissing)
      requires forall d :: d in networkChanges <==> d in order
      requires forall d | d in networkChanges ::
                 && d in database.db.devices
                 && NetworkChange(database.db, Access(nodeId, d), now, mayCreateMissing) == Some(networkChanges[d])
      requires networkChanges != map[]
      ensures WritesRepairs(database.db, nodeId, rows, now, mayCreateMissing, database.derive)
      ensures database.db.nextId <= nextId
      ensures forall k | k in rows && k !in database.db.grants :: rows[k].id < nextId
      ensures |order| > 0 && Access(nodeId, order[0]) in rows && lead == rows[Access(nodeId, order[0])].id
    {
      hide Valid, LiveDelivery, EffectiveExpiry, NetworkChange, LocalActivation, ChangedDevices, WritesRepair,
        RepairRow;
      var t := database.db;
      var targetVersion := t.nodes[nodeId].desiredConfigVersion + 1;
      rows, nextId, lead := map[], t.nextId, 0;
      for i := 0 to |order|
        invariant forall k | k in rows :: WritesRepair(t, nodeId, k, rows[k], now, mayCreateMissing, database.derive)
        invariant forall d | d in order[..i] :: Access(nodeId, d) in rows
        invariant t.nextId <= nextId
        invariant forall k | k in rows && k !in t.grants :: rows[k].id < nextId
      {
        var deviceId := order[i];
        assert deviceId in order && deviceId in networkChanges;
        var k := Access(nodeId, deviceId);
        var change := networkChanges[deviceId];
        RepairRowWrites(t, nodeId, k, change, nextId, now, mayCreateMissing, database.derive);
        var row := RepairRow(t, k, change, nextId, targetVersion, database.derive);
        if change.CreateGrant? {
          nextId := nextId + 1;
        }
        rows := rows[k := row];
        assert order[..i + 1] == order[..i] + [deviceId];
      }
      assert order[..|order|] == order;
      var d :| d in networkChanges;
      assert d in order;
      lead := rows[Access(nodeId, order[0])].id;
    }

    method RevokeNodeByNode(cancelled: Db, subscriptionId: Id, now: int) returns (t: Db)
      requires Valid(database.db) && Valid(cancelled) && Evolves(database.db, cancelled)
      requires subscriptionId in database.db.subscriptions
      requires cancelled == database.db.(subscriptions := cancelled.subscriptions)
      ensures Valid(t) && Evolves(database.db, t)
      ensures t.devices == cancelled.devices && t.subscriptions == cancelled.subscriptions
      ensures RevokedAll(database.db, t, CancellationScope(database.db, subscriptionId, now), now)
      ensures RevokesRows(database.db, t, CancellationScope(database.db, subscriptionId, now), now)
    {
      hide Valid, Evolves, RevokedAll, RevokesRows, GrantsAfter, NodesAfter, RevokeOn, KeysUnused, On, OrderedIds,
        CancellationScope,
        NodesOf, GrantIds;
      t := cancelled;
      var affected := CancellationScope(database.db, subscriptionId, now);
      ScopeIsLive(database.db, subscriptionId, now);
      var nodeIds := OrderedIds(NodesOf(affected));
      NothingDone(database.db, affected, now);
      assert Members(nodeIds[..0]) == {};
      for i := 0 to |nodeIds|
        invariant Valid(t) && Evolves(database.db, t)
        invariant t.devices == cancelled.devices && t.subscriptions == cancelled.subscriptions
        invariant t.deliveries == cancelled.deliveries
        invariant t.grants == GrantsAfter(database.db, affected, Members(nodeIds[..i]), now)
        invariant t.nodes == NodesAfter(database.db, affected, Members(nodeIds[..i]))
      {
        ghost var done := Members(nodeIds[..i]);
        OneMoreRow(NodesOf(affected), i);
        var nodeId := nodeIds[i];
        KnownNode(database.db, affected, nodeId);
        NodeIsTouched(affected, nodeId);
        StillLive(database.db, t, affected, done, nodeId, now);
        HasLead(database.db, t, affected, nodeId);
        var lead := First(GrantIds(database.db, On(affected, nodeId))).value;
        var key := Cancellation(subscriptionId, nodeId, t.nodes[nodeId].desiredConfigVersion + 1);
        NextVersionKeyIsUnused(t, nodeId, key);
        ghost var before := t;
        t := RevokeOn(t, nodeId, On(affected, nodeId), now, lead, key, key);
        RevokeOnKeepsValid(before, nodeId, On(affected, nodeId), now, lead, key, key);
        RevokeOnExtends(database.db, before, affected, done, nodeId, now, lead, key, key);
        RevokeOnWrites(before, nodeId, On(affected, nodeId), now, lead, key, key);
        EvolvesTransitive(database.db, before, t);
      }
      AllRows(NodesOf(affected));
      EveryNodeIsListed(affected);
      AllDone(database.db, affected, NodesOf(affected), now);
      RevokedAsAWhole(database.db, t, t, affected, now);
    }
  }

  // The devices of a plan that are already entered.
  ghost predicate PlannedSoFar(
      db: Db, nodeId: Id, now: int, mayCreateMissing: bool, expected: set<Id>, existing: set<Id>,
      changes: map<Id, Change>, order: seq<Id>, activations: set<Id>)
  {
    && (forall d :: d in changes <==> d in order)
    && (forall d | d in db.devices ::
          (d in changes <==>
             var change := NetworkChange(db, Access(nodeId, d), now, mayCreateMissing);
             change.Some? && (if change.value.RepairRevoke? then d in existing else d in expected)))
    && (forall d | d in changes ::
          && d in db.devices
          && NetworkChange(db, Access(nodeId, d), now, mayCreateMissing) == Some(changes[d]))
    && (forall d | d in db.devices ::
          (d in activations <==> d in expected && LocalActivation(db, Access(nodeId, d), now)))
    && (forall d | d in activations :: d in db.devices)
  }

  function ExpectedDevices(db: Db, now: int): set<Id> {
    set d | d in db.devices && Entitlement(db, d, now).Some?
  }

  function DevicesWithGrant(db: Db, nodeId: Id): set<Id> {
    set k | k in db.grants && k.nodeId == nodeId :: k.deviceId
  }

  lemma NothingPlanned(db: Db, nodeId: Id, now: int, mayCreateMissing: bool)
    ensures PlannedSoFar(db, nodeId, now, mayCreateMissing, {}, {}, map[], [], {})
  {
  }

  lemma EnterExisting(
      db: Db, nodeId: Id, now: int, mayCreateMissing: bool, expected: set<Id>, existing: set<Id>,
      changes: map<Id, Change>, order: seq<Id>, activations: set<Id>, d: Id)
    requires PlannedSoFar(db, nodeId, now, mayCreateMissing, expected, existing, changes, order, activations)
    requires d in db.devices && d !in existing
    ensures if NetworkChange(db, Access(nodeId, d), now, mayCreateMissing) == Some(RepairRevoke)
            then PlannedSoFar(db, nodeId, now, mayCreateMissing, expected, existing + {d},
                              changes[d := RepairRevoke], order + [d], activations)
            else PlannedSoFar(db, nodeId, now, mayCreateMissing, expected, existing + {d}, changes, order, activations)
  {
    hide NetworkChange, LocalActivation;
  }

  lemma EnterExpected(
      db: Db, nodeId: Id, now: int, mayCreateMissing: bool, expected: set<Id>,
      changes: map<Id, Change>, order: seq<Id>, activations: set<Id>, d: Id, change: Option<Change>, activate: bool)
    requires PlannedSoFar(db, nodeId, now, mayCreateMissing, expected, {}, changes, order, activations)
    requires d in db.devices && d !in expected
    requires var c := NetworkChange(db, Access(nodeId, d), now, mayCreateMissing);
             change == if c.Some? && c.value.RepairRevoke? then None else c
    requires activate <==> LocalActivation(db, Access(nodeId, d), now)
    ensures PlannedSoFar(db, nodeId, now, mayCreateMissing, expected + {d}, {},
              if change.Some? then changes[d := change.value] else changes,
              if change.Some? then order + [d] else order,
              if activate then activations + {d} else activations)
  {
    hide NetworkChange, LocalActivation;
  }

  lemma PlanIsComplete(
      db: Db, nodeId: Id, now: int, mayCreateMissing: bool, changes: map<Id, Change>, order: seq<Id>,
      activations: set<Id>)
    requires PlannedSoFar(db, nodeId, now, mayCreateMissing, ExpectedDevices(db, now), DevicesWithGrant(db, nodeId),
                          changes, order, activations)
    ensures forall d :: d in changes <==> d in order
    ensures forall d | d in changes ::
              && d in db.devices
              && NetworkChange(db, Access(nodeId, d), now, mayCreateMissing) == Some(changes[d])
    ensures changes.Keys == ChangedDevices(db, nodeId, now, mayCreateMissing)
    ensures activations == ActivatedDevices(db, nodeId, now)
  {
    hide EffectiveExpiry, LiveDelivery;
    forall d | d in db.devices && NetworkChange(db, Access(nodeId, d), now, mayCreateMissing).Some?
      ensures d in changes
    {
      if Access(nodeId, d) in db.grants {
        assert Access(nodeId, d).deviceId in DevicesWithGrant(db, nodeId);
      }
    }
  }

  lemma KnownNode(db: Db, affected: set<Access>, nodeId: Id)
    requires nodeId in NodesOf(affected) && forall k | k in affected :: k.nodeId in db.nodes
    ensures nodeId in db.nodes
  {
  }

  lemma EveryNodeIsListed(affected: set<Access>)
    ensures forall k | k in affected :: k.nodeId in NodesOf(affected)
  {
  }

  lemma KnownDevice(db: Db, k: Access)
    requires Valid(db) && k.deviceId in DevicesWithGrant(db, k.nodeId)
    ensures k in db.grants && k.deviceId in db.devices
  {
  }

  lemma GrantsOfKnownDevices(db: Db)
    requires GrantsFit(db)
    ensures forall k | k in db.grants :: k.deviceId in db.devices
  {
  }

  // The row that one change writes.
  function RepairRow(
      db: Db, k: Access, change: Change, freshId: Id, version: nat, derive: CredentialBinding -> string): GrantRow
    requires change.CreateGrant? || k in db.grants
  {
    match change
    case RepairRevoke => db.grants[k].(desiredVersion := version)
    case UpdateGrant(expiresAt) =>
      db.grants[k].(
        status := if AppliedButPending(db.grants[k]) then Active else db.grants[k].status,
        expiresAt := expiresAt,
        desiredVersion := version)
    case CreateGrant(expiresAt) => NewGrant(freshId, k, expiresAt, version, derive)
  }

  lemma RepairRowWrites(
      db: Db, nodeId: Id, k: Access, change: Change, freshId: Id, now: int, mayCreateMissing: bool,
      derive: CredentialBinding -> string)
    requires nodeId in db.nodes && k.nodeId == nodeId && k.deviceId in db.devices
    requires NetworkChange(db, k, now, mayCreateMissing) == Some(change)
    ensures change.CreateGrant? <==> k !in db.grants
    ensures var g := RepairRow(db, k, change, freshId, db.nodes[nodeId].desiredConfigVersion + 1, derive);
            && WritesRepair(db, nodeId, k, g, now, mayCreateMissing, derive)
            && (k !in db.grants ==> g.id == freshId)
  {
    hide LiveDelivery, EffectiveExpiry;
  }

  lemma RevokeIsRepaired(db: Db, k: Access, now: int, mayCreateMissing: bool)
    requires k in db.grants && k.deviceId in db.devices
    ensures NetworkChange(db, k, now, mayCreateMissing) == Some(RepairRevoke)
            <==> !LiveGrant(db.grants[k]) && DeliveryLost(db, db.grants[k], k.nodeId)
  {
  }

  lemma EntitledChange(db: Db, k: Access, now: int, mayCreateMissing: bool)
    requires k.deviceId in db.devices && Entitlement(db, k.deviceId, now).Some?
    ensures var change := NetworkChange(db, k, now, mayCreateMissing);
            var expiresAt := Entitlement(db, k.deviceId, now).value;
            && (change == Some(CreateGrant(expiresAt)) <==> k !in db.grants && mayCreateMissing)
            && (change == Some(UpdateGrant(expiresAt)) <==>
                  k in db.grants && LiveGrant(db.grants[k])
                  && (db.grants[k].expiresAt != expiresAt || DeliveryLost(db, db.grants[k], k.nodeId)))
            && (change.Some? ==> change.value in {CreateGrant(expiresAt), UpdateGrant(expiresAt), RepairRevoke})
    ensures LocalActivation(db, k, now) <==> k in db.grants && AppliedButPending(db.grants[k])
  {
  }

  lemma ActivationKeepsRest(a: Db, b: Db, nodeId: Id, activations: set<Id>)
    requires b == LocallyActivated(a, nodeId, activations)
    ensures b == a.(grants := b.grants)
  {
  }

  lemma OnlyActivated(a: Db, b: Db, nodeId: Id, now: int, mayCreateMissing: bool, derive: CredentialBinding -> string)
    requires Valid(a) && nodeId in a.nodes && ChangedDevices(a, nodeId, now, mayCreateMissing) == {}
    requires forall k | k in a.grants :: k.deviceId in a.devices
    requires b == LocallyActivated(a, nodeId, ActivatedDevices(a, nodeId, now))
    ensures IsRepaired(a, b, nodeId, now, mayCreateMissing, derive) && KeepsDeliveriesAlive(a, b, nodeId)
  {
    hide Valid, ChangedDevices, ActivatedDevices, IsRepaired, LiveDelivery;
    assert b.grants == LocallyActivated(a, nodeId, ActivatedDevices(a, nodeId, now)).grants + map[];
    RepairedGrants(a, b, nodeId, map[], now, mayCreateMissing, derive);
    forall v: nat | LiveDelivery(a, nodeId, v) ensures LiveDelivery(b, nodeId, v) {
      LiveDeliveryRemains(a, b, nodeId, v);
    }
  }

  lemma RepairsAllowed(
      a: Db, base: Db, nodeId: Id, rows: map<Access, GrantRow>, now: int, mayCreateMissing: bool, key: Key,
      derive: CredentialBinding -> string)
    requires GrantsFit(a) && NodesFit(a) && IdsBelowNext(a) && nodeId in a.nodes
    requires InAccessControlSync(a.nodes[nodeId].status)
    requires WritesRepairs(a, nodeId, rows, now, mayCreateMissing, derive)
    requires a.nextId <= base.nextId && forall k | k in rows && k !in a.grants :: rows[k].id < base.nextId
    requires base == LocallyActivated(a, nodeId, ActivatedDevices(a, nodeId, now)).(nextId := base.nextId)
    requires key == Reconciliation(nodeId, a.nodes[nodeId].desiredConfigVersion + 1) && KeysUnused(a, key, key)
    ensures BumpAllowed(base, nodeId, rows, key, key)
  {
    hide GrantsFit, NodesFit, IdsBelowNext, ChangeAllowed, WritesRepair, ActivatedDevices, ChangedDevices;
    forall k | k in rows ensures ChangeAllowed(base, nodeId, k, rows[k]) {
      assert WritesRepair(a, nodeId, k, rows[k], now, mayCreateMissing, derive);
      RepairAllowed(a, base, nodeId, k, rows[k], now, mayCreateMissing, derive);
    }
  }

  lemma RepairKeepsValid(
      a: Db, activated: Db, base: Db, b: Db, nodeId: Id, rows: map<Access, GrantRow>, now: int, mayCreateMissing: bool,
      lead: Id, key: Key, derive: CredentialBinding -> string)
    requires nodeId in a.nodes && nodeId in base.nodes && forall k | k in a.grants :: k.deviceId in a.devices
    requires activated == a.(grants := activated.grants) && base == activated.(nextId := base.nextId)
    requires b == Bump(base, nodeId, rows, ForGrant(lead), key, key)
    requires Valid(a) && Valid(activated) && Evolves(a, activated)
    requires InAccessControlSync(a.nodes[nodeId].status)
    requires activated == LocallyActivated(a, nodeId, ActivatedDevices(a, nodeId, now))
    requires WritesRepairs(a, nodeId, rows, now, mayCreateMissing, derive)
    requires ChangedDevices(a, nodeId, now, mayCreateMissing) != {}
    requires a.nextId <= base.nextId && forall k | k in rows && k !in a.grants :: rows[k].id < base.nextId
    requires key == Reconciliation(nodeId, a.nodes[nodeId].desiredConfigVersion + 1) && KeysUnused(a, key, key)
    requires Leads(ForGrant(lead), rows)
    ensures Valid(b) && Evolves(a, b)
    ensures KeepsDeliveriesAlive(a, b, nodeId)
    ensures IsRepaired(a, b, nodeId, now, mayCreateMissing, derive)
  {
    hide Valid, Evolves, Bump, ChangedDevices, ActivatedDevices, IsRepaired, KeepsDeliveriesAlive, WritesRepairs,
      LocallyActivated, BumpAllowed, LiveDelivery, GrantsFit, NodesFit, IdsBelowNext, KeysUnused;
    FitsOf(a);
    IdsMayGrow(activated, base.nextId);
    RepairsAllowed(a, base, nodeId, rows, now, mayCreateMissing, key, derive);
    BumpKeepsValid(base, nodeId, rows, ForGrant(lead), key, key);
    EvolvesTransitive(a, activated, base);
    EvolvesTransitive(a, base, b);
    BumpIsAlive(base, b, nodeId, rows, lead, key);
    BumpKeepsDeliveriesAlive(a, base, nodeId, rows, lead, key);
    BumpWrites(base, nodeId, rows, ForGrant(lead), key, key);
    RepairedGrants(a, b, nodeId, rows, now, mayCreateMissing, derive);
  }
}
