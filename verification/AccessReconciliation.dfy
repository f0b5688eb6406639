// What a node's grants should be, and which of them need repair.
module AccessReconciliation {
  import opened Basics
  import opened Queries
  import opened XrayAccess
  import opened AccessState
  import opened NodeAgentConfiguration

  predicate HadEntitlement(s: Subscription, now: int) {
    s.status.ActiveSubscription? && s.expiresAt.Some? && now < s.expiresAt.value
  }

  predicate Entitles(s: Subscription, userId: Id, now: int) {
    s.userId == userId && HadEntitlement(s, now)
  }

  function EntitledUntil(db: Db, userId: Id, now: int): set<int> {
    set s | s in db.subscriptions && Entitles(db.subscriptions[s], userId, now) :: db.subscriptions[s].expiresAt.value
  }

  // The latest end of an entitlement that the user has now.
  function EffectiveExpiry(db: Db, userId: Id, now: int): (r: Option<int>)
    ensures r.None? <==> EntitledUntil(db, userId, now) == {}
    ensures r.Some? ==> r.value in EntitledUntil(db, userId, now)
                        && forall e | e in EntitledUntil(db, userId, now) :: e <= r.value
  {
    var rows := Ordered(EntitledUntil(db, userId, now));
    if rows == [] then None
    else
      assert rows[|rows| - 1] in rows;
      Some(rows[|rows| - 1])
  }

  // Until when a device is entitled: active, with an entitlement of its user.
  function Entitlement(db: Db, deviceId: Id, now: int): Option<int>
    requires deviceId in db.devices
  {
    if db.devices[deviceId].active then EffectiveExpiry(db, db.devices[deviceId].userId, now) else None
  }

  predicate LiveJob(db: Db, jobId: Id)
    requires jobId in db.jobs
  {
    || (db.jobs[jobId].status.JobSucceeded? && jobId !in db.confirmations)
    || ((db.jobs[jobId].status.JobPending? || db.jobs[jobId].status.JobProcessing?)
        && exists e :: e in db.events && db.events[e].jobId == jobId && !db.events[e].status.EventFailed?)
  }

  // Some job may still bring the node to this version.
  predicate LiveDelivery(db: Db, nodeId: Id, version: nat) {
    exists j :: j in db.jobs && db.jobs[j].nodeId == nodeId && db.jobs[j].targetVersion == version && LiveJob(db, j)
  }

  predicate DeliveryLost(db: Db, g: GrantRow, nodeId: Id) {
    g.appliedVersion < g.desiredVersion && !LiveDelivery(db, nodeId, g.desiredVersion)
  }

  predicate AppliedButPending(g: GrantRow) {
    g.status.Pending? && g.desiredVersion <= g.appliedVersion
  }

  // The query that selects nodes for reconciliation.
  ghost predicate IsReconciliationCandidate(db: Db, nodeId: Id, now: int) {
    && nodeId in db.nodes
    && InAccessControlSync(db.nodes[nodeId].status)
    && (|| (exists d :: d in db.devices && Entitlement(db, d, now).Some? && EntitledDeviceNeedsWork(db, nodeId, d, now))
        || (exists k :: k in db.grants && k.nodeId == nodeId && !LiveGrant(db.grants[k])
                        && DeliveryLost(db, db.grants[k], nodeId)))
  }

  ghost predicate EntitledDeviceNeedsWork(db: Db, nodeId: Id, deviceId: Id, now: int)
    requires nodeId in db.nodes && deviceId in db.devices && Entitlement(db, deviceId, now).Some?
  {
    var k := Access(nodeId, deviceId);
    if k !in db.grants then db.nodes[nodeId].status.Healthy?
    else
      && LiveGrant(db.grants[k])
      && (|| db.grants[k].expiresAt != Entitlement(db, deviceId, now).value
          || AppliedButPending(db.grants[k])
          || DeliveryLost(db, db.grants[k], nodeId))
  }

  datatype Change = CreateGrant(expiresAt: int) | UpdateGrant(expiresAt: int) | RepairRevoke

  // The change of desired access, if any, that one device of a node calls for.
  function NetworkChange(db: Db, k: Access, now: int, mayCreateMissing: bool): Option<Change>
    requires k.deviceId in db.devices
  {
    var expected := Entitlement(db, k.deviceId, now);
    if k !in db.grants then
      if expected.Some? && mayCreateMissing then Some(CreateGrant(expected.value)) else None
    else if !LiveGrant(db.grants[k]) then
      if DeliveryLost(db, db.grants[k], k.nodeId) then Some(RepairRevoke) else None
    else if expected.Some?
      && (db.grants[k].expiresAt != expected.value || DeliveryLost(db, db.grants[k], k.nodeId)) then
      Some(UpdateGrant(expected.value))
    else None
  }

  predicate LocalActivation(db: Db, k: Access, now: int)
    requires k.deviceId in db.devices
  {
    k in db.grants && Entitlement(db, k.deviceId, now).Some? && AppliedButPending(db.grants[k])
  }

  function MayCreateMissing(db: Db, nodeId: Id, includeMissingGrants: bool): bool
    requires nodeId in db.nodes
  {
    db.nodes[nodeId].status.Healthy? || includeMissingGrants
  }

  function ChangedDevices(db: Db, nodeId: Id, now: int, mayCreateMissing: bool): set<Id> {
    set d | d in db.devices && NetworkChange(db, Access(nodeId, d), now, mayCreateMissing).Some?
  }

  function ActivatedDevices(db: Db, nodeId: Id, now: int): set<Id> {
    set d | d in db.devices && LocalActivation(db, Access(nodeId, d), now)
  }

  // Reconciling the node would write something.
  ghost predicate NeedsRepair(db: Db, nodeId: Id, now: int, includeMissingGrants: bool) {
    && nodeId in db.nodes
    && InAccessControlSync(db.nodes[nodeId].status)
    && (|| ChangedDevices(db, nodeId, now, MayCreateMissing(db, nodeId, includeMissingGrants)) != {}
        || ActivatedDevices(db, nodeId, now) != {})
  }

  // The query selects exactly the nodes that a reconciliation would change.
  lemma CandidateExactlyWhenRepairNeeded(db: Db, nodeId: Id, now: int)
    requires Valid(db)
    ensures IsReconciliationCandidate(db, nodeId, now) <==> NeedsRepair(db, nodeId, now, false)
  {
    hide JobsFit, EventsFit, DeliveriesFit, ConfirmationsFit, RoutesFit, NodesFit, LiveDelivery, EffectiveExpiry;
    if nodeId in db.nodes && InAccessControlSync(db.nodes[nodeId].status) {
      var changed := ChangedDevices(db, nodeId, now, db.nodes[nodeId].status.Healthy?);
      var activated := ActivatedDevices(db, nodeId, now);
      forall d | d in db.devices
        ensures d in changed || d in activated <==>
          || (Entitlement(db, d, now).Some? && EntitledDeviceNeedsWork(db, nodeId, d, now))
          || (Access(nodeId, d) in db.grants && !LiveGrant(db.grants[Access(nodeId, d)])
              && DeliveryLost(db, db.grants[Access(nodeId, d)], nodeId))
      {
      }
      forall k | k in db.grants && k.nodeId == nodeId
        ensures k == Access(nodeId, k.deviceId) && k.deviceId in db.devices
      {
      }
    }
  }

  function NewGrant(id: Id, k: Access, expiresAt: int, version: nat, derive: CredentialBinding -> string): GrantRow {
    GrantRow(id, Pending, expiresAt, version, 0, None, Hashed(derive(CredentialBinding(id, k.deviceId, k.nodeId))),
             Some(DATA_PLANE_CREDENTIAL_DERIVATION_VERSION))
  }

  // A grant of the node after its repair under the given version.
  function RepairedRow(db: Db, k: Access, now: int, mayCreateMissing: bool, version: nat): GrantRow
    requires k in db.grants && k.deviceId in db.devices
  {
    var g := if LocalActivation(db, k, now) then db.grants[k].(status := Active) else db.grants[k];
    match NetworkChange(db, k, now, mayCreateMissing)
    case Some(UpdateGrant(expiresAt)) => g.(expiresAt := expiresAt, desiredVersion := version)
    case Some(RepairRevoke) => g.(desiredVersion := version)
    case _ => g
  }

  ghost predicate IsRepaired(a: Db, b: Db, nodeId: Id, now: int, mayCreateMissing: bool,
                             derive: CredentialBinding -> string)
    requires nodeId in a.nodes && forall k | k in a.grants :: k.deviceId in a.devices
  {
    var version := a.nodes[nodeId].desiredConfigVersion + 1;
    var changed := ChangedDevices(a, nodeId, now, mayCreateMissing);
    && b.devices == a.devices
    && b.subscriptions == a.subscriptions
    && b.deliveries == a.deliveries
    && b.nodes == (if changed == {} then a.nodes else IncrementNodeVersion(a, nodeId).nodes)
    && (forall k | k in a.grants :: k in b.grants && b.grants[k] ==
          if k.nodeId == nodeId then RepairedRow(a, k, now, mayCreateMissing, version) else a.grants[k])
    && (forall k | k in b.grants && k !in a.grants :: CreatedAsExpected(a, b, nodeId, k, now, mayCreateMissing, derive))
    && (forall d | d in changed :: Access(nodeId, d) in b.grants)
    && (changed != {} ==> LiveDelivery(b, nodeId, version))
  }

  ghost predicate CreatedAsExpected(
      a: Db, b: Db, nodeId: Id, k: Access, now: int, mayCreateMissing: bool, derive: CredentialBinding -> string)
    requires nodeId in a.nodes
  {
    && k in b.grants
    && k.nodeId == nodeId
    && k.deviceId in a.devices
    && var change := NetworkChange(a, k, now, mayCreateMissing);
       && change.Some? && change.value.CreateGrant?
       && b.grants[k]
            == NewGrant(b.grants[k].id, k, change.value.expiresAt, a.nodes[nodeId].desiredConfigVersion + 1, derive)
  }

  // ---------- the same, row by row ----------

  // The device is entitled until exactly then: it is active, a subscription of its user that is active and
  // has not ended runs until then, and none runs longer.
  ghost predicate EntitledTo(db: Db, deviceId: Id, now: int, end: int) {
    deviceId in db.devices && db.devices[deviceId].active && RunsLongest(db, db.devices[deviceId].userId, now, end)
  }

  ghost predicate RunsUntil(s: Subscription, userId: Id, now: int, end: int) {
    s.userId == userId && s.status == ActiveSubscription && s.expiresAt == Some(end) && now < end
  }

  // The end of a user's longest running subscription.
  ghost predicate RunsLongest(db: Db, userId: Id, now: int, end: int) {
    && (exists s :: s in db.subscriptions && RunsUntil(db.subscriptions[s], userId, now, end))
    && (forall s, later | s in db.subscriptions && RunsUntil(db.subscriptions[s], userId, now, later) :: later <= end)
  }

  lemma EntitledUntilExactly(db: Db, userId: Id, now: int, end: int)
    ensures end in EntitledUntil(db, userId, now)
            <==> exists s :: s in db.subscriptions && RunsUntil(db.subscriptions[s], userId, now, end)
  {
    if end in EntitledUntil(db, userId, now) {
      var s :| s in db.subscriptions && Entitles(db.subscriptions[s], userId, now)
               && db.subscriptions[s].expiresAt.value == end;
      assert RunsUntil(db.subscriptions[s], userId, now, end);
    }
    if s :| s in db.subscriptions && RunsUntil(db.subscriptions[s], userId, now, end) {
      assert Entitles(db.subscriptions[s], userId, now);
      assert db.subscriptions[s].expiresAt.value in EntitledUntil(db, userId, now);
    }
  }

  lemma EffectiveExpiryExactly(db: Db, userId: Id, now: int, end: int)
    ensures RunsLongest(db, userId, now, end) <==> EffectiveExpiry(db, userId, now) == Some(end)
    ensures (exists s :: s in db.subscriptions && RunsUntil(db.subscriptions[s], userId, now, end)) ==>
              EffectiveExpiry(db, userId, now).Some?
  {
    hide RunsUntil, EntitledUntil;
    forall s, e | s in db.subscriptions && RunsUntil(db.subscriptions[s], userId, now, e)
      ensures EffectiveExpiry(db, userId, now).Some? && e <= EffectiveExpiry(db, userId, now).value
    {
      EntitledUntilExactly(db, userId, now, e);
    }
    if EffectiveExpiry(db, userId, now).Some? {
      var last := EffectiveExpiry(db, userId, now).value;
      EntitledUntilExactly(db, userId, now, last);
      var s :| s in db.subscriptions && RunsUntil(db.subscriptions[s], userId, now, last);
      assert RunsLongest(db, userId, now, end) ==> last <= end;
    }
  }

  lemma EntitlementExactly(db: Db, deviceId: Id, now: int, end: int)
    requires deviceId in db.devices
    ensures EntitledTo(db, deviceId, now, end) <==> Entitlement(db, deviceId, now) == Some(end)
  {
    hide RunsLongest, EffectiveExpiry;
    EffectiveExpiryExactly(db, db.devices[deviceId].userId, now, end);
  }

  // No job can bring this version to the node any more: each job for it has failed, has been confirmed, or is
  // unfinished although every event that would start it has failed.
  ghost predicate NothingBrings(db: Db, nodeId: Id, version: nat) {
    forall j | j in db.jobs && db.jobs[j].nodeId == nodeId && db.jobs[j].targetVersion == version ::
      || db.jobs[j].status == JobFailed
      || (db.jobs[j].status == JobSucceeded && j in db.confirmations)
      || ((db.jobs[j].status == JobPending || db.jobs[j].status == JobProcessing)
          && forall e | e in db.events && db.events[e].jobId == j :: db.events[e].status == EventFailed)
  }

  lemma LiveDeliveryExactly(db: Db, nodeId: Id, version: nat)
    ensures LiveDelivery(db, nodeId, version) <==> !NothingBrings(db, nodeId, version)
  {
  }

  ghost predicate Stuck(db: Db, nodeId: Id, g: GrantRow) {
    g.appliedVersion < g.desiredVersion && NothingBrings(db, nodeId, g.desiredVersion)
  }

  // A grant as it is first written: waiting for the node, with the credential bound to it.
  ghost predicate NewlyGranted(g: GrantRow, k: Access, end: int, version: nat, derive: CredentialBinding -> string) {
    && g.status == Pending && g.expiresAt == end && g.desiredVersion == version && g.appliedVersion == 0
    && g.revokedAt == None && g.derivationVersion == Some(DATA_PLANE_CREDENTIAL_DERIVATION_VERSION)
    && g.credentialHash == Hashed(derive(CredentialBinding(g.id, k.deviceId, k.nodeId)))
  }

  lemma NewGrantIsNewlyGranted(id: Id, k: Access, end: int, version: nat, derive: CredentialBinding -> string)
    ensures NewlyGranted(NewGrant(id, k, end, version, derive), k, end, version, derive)
    ensures NewGrant(id, k, end, version, derive).id == id
  {
  }

  // What a reconciliation makes of a grant: a revoked one is told again when it is stuck; a live one of an
  // entitled device runs until the end of the entitlement and is active once the node has it, told under
  // the new version if its end changes or it is stuck; any other stays.
  ghost predicate ReconciledRow(a: Db, k: Access, h: GrantRow, now: int)
    requires k in a.grants && k.nodeId in a.nodes
  {
    var g, version := a.grants[k], a.nodes[k.nodeId].desiredConfigVersion + 1;
    if g.status == Revoked then
      h == g.(desiredVersion := if Stuck(a, k.nodeId, g) then version else g.desiredVersion)
    else
      && (forall end | EntitledTo(a, k.deviceId, now, end) :: h == g.(
            expiresAt := end,
            status := if g.status == Pending && g.desiredVersion <= g.appliedVersion then Active else g.status,
            desiredVersion := if g.expiresAt != end || Stuck(a, k.nodeId, g) then version else g.desiredVersion))
      && ((forall end :: !EntitledTo(a, k.deviceId, now, end)) ==> h == g)
  }

  ghost predicate ReconcilesRows(
      a: Db, b: Db, nodeId: Id, now: int, mayCreateMissing: bool, derive: CredentialBinding -> string)
    requires nodeId in a.nodes
  {
    && (forall k | k in a.grants :: k in b.grants
          && if k.nodeId == nodeId then ReconciledRow(a, k, b.grants[k], now) else b.grants[k] == a.grants[k])
    && (forall k | k !in a.grants :: k in b.grants <==>
          k.nodeId == nodeId && mayCreateMissing && exists end :: EntitledTo(a, k.deviceId, now, end))
    && (forall k, end | k in b.grants && k !in a.grants && EntitledTo(a, k.deviceId, now, end) ::
          NewlyGranted(b.grants[k], k, end, a.nodes[nodeId].desiredConfigVersion + 1, derive))
  }

  lemma RowIsReconciled(a: Db, k: Access, now: int, mayCreateMissing: bool)
    requires k in a.grants && k.nodeId in a.nodes && k.deviceId in a.devices
    ensures ReconciledRow(a, k, RepairedRow(a, k, now, mayCreateMissing, a.nodes[k.nodeId].desiredConfigVersion + 1),
                          now)
  {
    hide LiveDelivery, NothingBrings, Entitlement, EntitledTo;
    var g := a.grants[k];
    LiveDeliveryExactly(a, k.nodeId, g.desiredVersion);
    forall end ensures EntitledTo(a, k.deviceId, now, end) <==> Entitlement(a, k.deviceId, now) == Some(end) {
      EntitlementExactly(a, k.deviceId, now, end);
    }
  }

  lemma CreatedIsReconciled(
      a: Db, b: Db, nodeId: Id, k: Access, now: int, mayCreateMissing: bool, derive: CredentialBinding -> string,
        end: int)
    requires nodeId in a.nodes && CreatedAsExpected(a, b, nodeId, k, now, mayCreateMissing, derive) && k !in a.grants
    ensures mayCreateMissing && exists e :: EntitledTo(a, k.deviceId, now, e)
    ensures EntitledTo(a, k.deviceId, now, end) ==>
              NewlyGranted(b.grants[k], k, end, a.nodes[nodeId].desiredConfigVersion + 1, derive)
  {
    hide Entitlement, EntitledTo;
    var expiresAt := NetworkChange(a, k, now, mayCreateMissing).value.expiresAt;
    EntitlementExactly(a, k.deviceId, now, expiresAt);
    EntitlementExactly(a, k.deviceId, now, end);
    NewGrantIsNewlyGranted(b.grants[k].id, k, expiresAt, a.nodes[nodeId].desiredConfigVersion + 1, derive);
  }

  lemma MissingIsCreated(
      a: Db, b: Db, nodeId: Id, k: Access, now: int, mayCreateMissing: bool, derive: CredentialBinding -> string,
        end: int)
    requires nodeId in a.nodes && forall x | x in a.grants :: x.deviceId in a.devices
    requires IsRepaired(a, b, nodeId, now, mayCreateMissing, derive)
    requires k !in a.grants && k.nodeId == nodeId && mayCreateMissing && EntitledTo(a, k.deviceId, now, end)
    ensures k in b.grants
  {
    hide Entitlement, EntitledTo, RepairedRow, CreatedAsExpected, LiveDelivery;
    assert k.deviceId in a.devices by { EntitledDeviceExists(a, k.deviceId, now, end); }
    EntitlementExactly(a, k.deviceId, now, end);
    assert k == Access(nodeId, k.deviceId);
    assert k.deviceId in ChangedDevices(a, nodeId, now, mayCreateMissing);
  }

  lemma EntitledDeviceExists(db: Db, deviceId: Id, now: int, end: int)
    requires EntitledTo(db, deviceId, now, end)
    ensures deviceId in db.devices && now < end
  {
  }

  lemma RepairedReconcilesRows(
      a: Db, b: Db, nodeId: Id, now: int, mayCreateMissing: bool, derive: CredentialBinding -> string)
    requires nodeId in a.nodes && forall k | k in a.grants :: k.deviceId in a.devices
    requires IsRepaired(a, b, nodeId, now, mayCreateMissing, derive)
    ensures ReconcilesRows(a, b, nodeId, now, mayCreateMissing, derive)
  {
    hide EntitledTo, RepairedRow, ReconciledRow, CreatedAsExpected, LiveDelivery, NewlyGranted, ChangedDevices;
    forall k | k in a.grants && k.nodeId == nodeId ensures ReconciledRow(a, k, b.grants[k], now) {
      RowIsReconciled(a, k, now, mayCreateMissing);
    }
    forall k | k in b.grants && k !in a.grants
      ensures k.nodeId == nodeId && mayCreateMissing && exists end :: EntitledTo(a, k.deviceId, now, end)
    {
      assert CreatedAsExpected(a, b, nodeId, k, now, mayCreateMissing, derive);
      CreatedIsOnNode(a, b, nodeId, k, now, mayCreateMissing, derive);
      CreatedIsReconciled(a, b, nodeId, k, now, mayCreateMissing, derive, 0);
    }
    forall k, end | k in b.grants && k !in a.grants && EntitledTo(a, k.deviceId, now, end)
      ensures NewlyGranted(b.grants[k], k, end, a.nodes[nodeId].desiredConfigVersion + 1, derive)
    {
      assert CreatedAsExpected(a, b, nodeId, k, now, mayCreateMissing, derive);
      CreatedIsReconciled(a, b, nodeId, k, now, mayCreateMissing, derive, end);
    }
    forall k, end | k !in a.grants && k.nodeId == nodeId && mayCreateMissing && EntitledTo(a, k.deviceId, now, end)
      ensures k in b.grants
    {
      MissingIsCreated(a, b, nodeId, k, now, mayCreateMissing, derive, end);
    }
  }

  lemma CreatedIsOnNode(
      a: Db, b: Db, nodeId: Id, k: Access, now: int, mayCreateMissing: bool, derive: CredentialBinding -> string)
    requires nodeId in a.nodes && CreatedAsExpected(a, b, nodeId, k, now, mayCreateMissing, derive)
    ensures k.nodeId == nodeId
  {
  }

  // Whatever a reconciliation creates or extends runs on after now.
  lemma ReconciledRunsOn(
      a: Db, b: Db, nodeId: Id, now: int, mayCreateMissing: bool, derive: CredentialBinding -> string, k: Access)
    requires nodeId in a.nodes && ReconcilesRows(a, b, nodeId, now, mayCreateMissing, derive) && k in b.grants
    requires k in a.grants ==> b.grants[k].expiresAt != a.grants[k].expiresAt
    ensures now < b.grants[k].expiresAt
  {
    hide EntitledTo, Stuck;
    if end :| EntitledTo(a, k.deviceId, now, end) {
      EntitledDeviceExists(a, k.deviceId, now, end);
    }
  }

  // A grant to be told whose only job is unfinished while its only event has failed is told again, under the
  // next version.
  lemma FailedEventIsRepaired(
      a: Db, b: Db, nodeId: Id, now: int, mayCreateMissing: bool, derive: CredentialBinding -> string, k: Access, j: Id)
    requires nodeId in a.nodes && ReconcilesRows(a, b, nodeId, now, mayCreateMissing, derive)
    requires k in a.grants && k.nodeId == nodeId && a.grants[k].appliedVersion < a.grants[k].desiredVersion
    requires a.grants[k].status == Revoked || exists end :: EntitledTo(a, k.deviceId, now, end)
    requires j in a.jobs && (a.jobs[j].status == JobPending || a.jobs[j].status == JobProcessing)
    requires forall i | i in a.jobs && a.jobs[i].nodeId == nodeId
                        && a.jobs[i].targetVersion == a.grants[k].desiredVersion :: i == j
    requires forall e | e in a.events && a.events[e].jobId == j :: a.events[e].status == EventFailed
    ensures b.grants[k].desiredVersion == a.nodes[nodeId].desiredConfigVersion + 1
  {
    hide EntitledTo;
    assert Stuck(a, nodeId, a.grants[k]);
    assert ReconciledRow(a, k, b.grants[k], now);
    if a.grants[k].status != Revoked {
      var end :| EntitledTo(a, k.deviceId, now, end);
    }
  }

  lemma SameEntitlement(a: Db, b: Db, deviceId: Id, now: int)
    requires b.devices == a.devices && b.subscriptions == a.subscriptions && deviceId in a.devices
    ensures Entitlement(b, deviceId, now) == Entitlement(a, deviceId, now)
  {
  }

  // Deliveries that were alive stay alive while no job or event changes.
  lemma LiveDeliveryRemains(a: Db, b: Db, nodeId: Id, version: nat)
    requires b.confirmations == a.confirmations && LiveDelivery(a, nodeId, version)
    requires forall j | j in a.jobs :: j in b.jobs && b.jobs[j] == a.jobs[j]
    requires forall e | e in a.events :: e in b.events && b.events[e] == a.events[e]
    ensures LiveDelivery(b, nodeId, version)
  {
  }

  ghost predicate KeepsDeliveriesAlive(a: Db, b: Db, nodeId: Id) {
    forall v: nat :: LiveDelivery(a, nodeId, v) ==> LiveDelivery(b, nodeId, v)
  }

  lemma RepairedRowIsSettled(a: Db, b: Db, k: Access, now: int, mayCreateMissing: bool, version: nat)
    requires k in a.grants && k in b.grants && k.deviceId in a.devices && k.deviceId in b.devices
    requires Entitlement(b, k.deviceId, now) == Entitlement(a, k.deviceId, now)
    requires KeepsDeliveriesAlive(a, b, k.nodeId)
    requires a.grants[k].appliedVersion <= a.grants[k].desiredVersion < version
    requires b.grants[k] == RepairedRow(a, k, now, mayCreateMissing, version)
    requires NetworkChange(a, k, now, mayCreateMissing).Some? ==> LiveDelivery(b, k.nodeId, version)
    ensures NetworkChange(b, k, now, mayCreateMissing).None? && !LocalActivation(b, k, now)
  {
    hide LiveDelivery, Entitlement;
    assert LiveDelivery(a, k.nodeId, a.grants[k].desiredVersion) ==>
      LiveDelivery(b, k.nodeId, a.grants[k].desiredVersion);
  }

  lemma RepairedDeviceIsSettled(
      a: Db, b: Db, nodeId: Id, deviceId: Id, now: int, mayCreateMissing: bool, derive: CredentialBinding -> string)
    requires GrantsFit(a) && nodeId in a.nodes && deviceId in a.devices
    requires IsRepaired(a, b, nodeId, now, mayCreateMissing, derive) && KeepsDeliveriesAlive(a, b, nodeId)
    ensures NetworkChange(b, Access(nodeId, deviceId), now, mayCreateMissing).None?
    ensures !LocalActivation(b, Access(nodeId, deviceId), now)
  {
    hide LiveDelivery, EffectiveExpiry, Entitlement, RepairedRow, LocalActivation, KeepsDeliveriesAlive;
    var k := Access(nodeId, deviceId);
    SameEntitlement(a, b, deviceId, now);
    var version := a.nodes[nodeId].desiredConfigVersion + 1;
    assert deviceId in ChangedDevices(a, nodeId, now, mayCreateMissing)
           <==> NetworkChange(a, k, now, mayCreateMissing).Some?;
    if k in a.grants {
      assert GrantFits(a.grants[k], a.nodes[nodeId], a.devices[deviceId]);
      assert b.grants[k] == RepairedRow(a, k, now, mayCreateMissing, version);
      hide NetworkChange;
      RepairedRowIsSettled(a, b, k, now, mayCreateMissing, version);
    } else if k in b.grants {
      assert CreatedAsExpected(a, b, nodeId, k, now, mayCreateMissing, derive);
      CreatedRowIsSettled(a, b, k, now, mayCreateMissing, version, derive);
    } else {
      MissingRowIsSettled(a, b, k, now, mayCreateMissing);
    }
  }

  lemma CreatedRowIsSettled(
      a: Db, b: Db, k: Access, now: int, mayCreateMissing: bool, version: nat, derive: CredentialBinding -> string)
    requires k !in a.grants && k in b.grants && k.deviceId in a.devices && k.deviceId in b.devices && 0 < version
    requires Entitlement(b, k.deviceId, now) == Entitlement(a, k.deviceId, now)
    requires NetworkChange(a, k, now, mayCreateMissing).Some? && LiveDelivery(b, k.nodeId, version)
    requires b.grants[k]
          == NewGrant(b.grants[k].id, k, NetworkChange(a, k, now, mayCreateMissing).value.expiresAt, version, derive)
    ensures NetworkChange(b, k, now, mayCreateMissing).None? && !LocalActivation(b, k, now)
  {
  }

  lemma MissingRowIsSettled(a: Db, b: Db, k: Access, now: int, mayCreateMissing: bool)
    requires k !in a.grants && k !in b.grants && k.deviceId in a.devices && k.deviceId in b.devices
    requires Entitlement(b, k.deviceId, now) == Entitlement(a, k.deviceId, now)
    requires NetworkChange(a, k, now, mayCreateMissing).None?
    ensures NetworkChange(b, k, now, mayCreateMissing).None? && !LocalActivation(b, k, now)
  {
  }

  // One reconciliation is a fixpoint: at the same instant a second one finds nothing to do.
  lemma RepairedNeedsNoRepair(
      a: Db, b: Db, nodeId: Id, now: int, includeMissingGrants: bool, derive: CredentialBinding -> string)
    requires GrantsFit(a) && nodeId in a.nodes
    requires IsRepaired(a, b, nodeId, now, MayCreateMissing(a, nodeId, includeMissingGrants), derive)
    requires KeepsDeliveriesAlive(a, b, nodeId)
    ensures !NeedsRepair(b, nodeId, now, includeMissingGrants)
  {
    hide IsRepaired, NetworkChange, LocalActivation, KeepsDeliveriesAlive;
    var mayCreateMissing := MayCreateMissing(a, nodeId, includeMissingGrants);
    RepairKeepsStatus(a, b, nodeId, now, includeMissingGrants, derive);
    forall d | d in b.devices
      ensures NetworkChange(b, Access(nodeId, d), now, mayCreateMissing).None?
      ensures !LocalActivation(b, Access(nodeId, d), now)
    {
      RepairedDeviceIsSettled(a, b, nodeId, d, now, mayCreateMissing, derive);
    }
  }

  lemma RepairKeepsStatus(
      a: Db, b: Db, nodeId: Id, now: int, includeMissingGrants: bool, derive: CredentialBinding -> string)
    requires GrantsFit(a) && nodeId in a.nodes
    requires IsRepaired(a, b, nodeId, now, MayCreateMissing(a, nodeId, includeMissingGrants), derive)
    ensures nodeId in b.nodes && b.devices == a.devices
    ensures MayCreateMissing(b, nodeId, includeMissingGrants) == MayCreateMissing(a, nodeId, includeMissingGrants)
  {
  }

  // ---------- carrying a repair out ----------

  function LocallyActivated(db: Db, nodeId: Id, activations: set<Id>): Db {
    db.(grants := map k | k in db.grants ::
      if k.nodeId == nodeId && k.deviceId in activations then db.grants[k].(status := Active) else db.grants[k])
  }

  lemma LocallyActivatedGrantsFit(db: Db, nodeId: Id, now: int)
    requires GrantsFit(db) && IdsBelowNext(db)
    ensures var after := LocallyActivated(db, nodeId, ActivatedDevices(db, nodeId, now));
            GrantsFit(after) && IdsBelowNext(after) && GrantsEvolve(db, after)
  {
    hide EffectiveExpiry, LiveDelivery, Entitlement;
    var after := LocallyActivated(db, nodeId, ActivatedDevices(db, nodeId, now));
    forall k | k in after.grants
      ensures GrantFits(after.grants[k], after.nodes[k.nodeId], after.devices[k.deviceId])
      ensures GrantEvolves(db.grants[k], after.grants[k], db.nodes[k.nodeId], after.nodes[k.nodeId])
      ensures after.grants[k].id < after.nextId
    {
      assert GrantFits(db.grants[k], db.nodes[k.nodeId], db.devices[k.deviceId]);
    }
  }

  lemma LocallyActivatedKeepsValid(db: Db, nodeId: Id, now: int)
    requires Valid(db)
    ensures var after := LocallyActivated(db, nodeId, ActivatedDevices(db, nodeId, now));
            Valid(after) && Evolves(db, after)
  {
    hide GrantsFit, GrantsEvolve, IdsBelowNext, JobsFit, EventsFit, DeliveriesFit, ConfirmationsFit, ActivatedDevices;
    LocallyActivatedGrantsFit(db, nodeId, now);
    SideTablesKeepValid(db, LocallyActivated(db, nodeId, ActivatedDevices(db, nodeId, now)));
  }

  // What a repair writes for one device of the node.
  ghost predicate WritesRepair(
      db: Db, nodeId: Id, k: Access, g: GrantRow, now: int, mayCreateMissing: bool, derive: CredentialBinding -> string)
    requires nodeId in db.nodes
  {
    && k.nodeId == nodeId
    && k.deviceId in db.devices
    && var change := NetworkChange(db, k, now, mayCreateMissing);
       && change.Some?
       && if k in db.grants
         then g == RepairedRow(db, k, now, mayCreateMissing, db.nodes[nodeId].desiredConfigVersion + 1)
          else g == NewGrant(g.id, k, change.value.expiresAt, db.nodes[nodeId].desiredConfigVersion + 1, derive)
  }

  lemma RepairAllowed(
      a: Db, base: Db, nodeId: Id, k: Access, g: GrantRow, now: int, mayCreateMissing: bool,
      derive: CredentialBinding -> string)
    requires GrantsFit(a) && NodesFit(a) && IdsBelowNext(a) && nodeId in a.nodes
    requires InAccessControlSync(a.nodes[nodeId].status)
    requires WritesRepair(a, nodeId, k, g, now, mayCreateMissing, derive)
    requires a.nextId <= base.nextId && (k !in a.grants ==> g.id < base.nextId)
    requires base == LocallyActivated(a, nodeId, ActivatedDevices(a, nodeId, now)).(nextId := base.nextId)
    ensures ChangeAllowed(base, nodeId, k, g)
  {
    hide LiveDelivery, EffectiveExpiry, DeliveryLost;
    if k in a.grants {
      assert GrantFits(a.grants[k], a.nodes[nodeId], a.devices[k.deviceId]);
    }
  }

  ghost predicate WritesRepairs(
      db: Db, nodeId: Id, changed: map<Access, GrantRow>, now: int, mayCreateMissing: bool,
      derive: CredentialBinding -> string)
    requires nodeId in db.nodes
  {
    && (forall k | k in changed :: WritesRepair(db, nodeId, k, changed[k], now, mayCreateMissing, derive))
    && (forall d | d in ChangedDevices(db, nodeId, now, mayCreateMissing) :: Access(nodeId, d) in changed)
  }

  lemma DevicesOf(db: Db, nodeId: Id, d: Id, now: int, mayCreateMissing: bool)
    requires d in db.devices
    ensures d in ChangedDevices(db, nodeId, now, mayCreateMissing)
            <==> NetworkChange(db, Access(nodeId, d), now, mayCreateMissing).Some?
    ensures d in ActivatedDevices(db, nodeId, now) <==> LocalActivation(db, Access(nodeId, d), now)
  {
  }

  lemma RowLeftToActivation(a: Db, nodeId: Id, k: Access, now: int, mayCreateMissing: bool, version: nat)
    requires k in a.grants && k.nodeId == nodeId && k.deviceId in a.devices
    requires NetworkChange(a, k, now, mayCreateMissing).None?
    ensures LocallyActivated(a, nodeId, ActivatedDevices(a, nodeId, now)).grants[k]
         == RepairedRow(a, k, now, mayCreateMissing, version)
  {
    hide NetworkChange, LocalActivation, ActivatedDevices;
    assert k == Access(nodeId, k.deviceId);
    DevicesOf(a, nodeId, k.deviceId, now, mayCreateMissing);
  }

  lemma ActivationElsewhere(db: Db, nodeId: Id, activations: set<Id>, k: Access)
    requires k in db.grants
    ensures k in LocallyActivated(db, nodeId, activations).grants
    ensures k.nodeId != nodeId ==> LocallyActivated(db, nodeId, activations).grants[k] == db.grants[k]
  {
  }

  lemma WrittenRow(
      db: Db, nodeId: Id, k: Access, g: GrantRow, now: int, mayCreateMissing: bool, derive: CredentialBinding -> string)
    requires nodeId in db.nodes && k in db.grants
    requires WritesRepair(db, nodeId, k, g, now, mayCreateMissing, derive)
    ensures k.nodeId == nodeId
    ensures g == RepairedRow(db, k, now, mayCreateMissing, db.nodes[nodeId].desiredConfigVersion + 1)
  {
    hide NetworkChange, RepairedRow;
  }

  lemma RowAfterRepair(
      a: Db, nodeId: Id, changed: map<Access, GrantRow>, k: Access, now: int, mayCreateMissing: bool,
      derive: CredentialBinding -> string)
    requires nodeId in a.nodes && k in a.grants && k.deviceId in a.devices
    requires WritesRepairs(a, nodeId, changed, now, mayCreateMissing, derive)
    ensures (LocallyActivated(a, nodeId, ActivatedDevices(a, nodeId, now)).grants + changed)[k] ==
              if k.nodeId == nodeId
              then RepairedRow(a, k, now, mayCreateMissing, a.nodes[nodeId].desiredConfigVersion + 1) else a.grants[k]
  {
    hide NetworkChange, LocalActivation, ChangedDevices, ActivatedDevices, RepairedRow, WritesRepair, LocallyActivated;
    ActivationElsewhere(a, nodeId, ActivatedDevices(a, nodeId, now), k);
    if k in changed {
      WrittenRow(a, nodeId, k, changed[k], now, mayCreateMissing, derive);
    } else if k.nodeId == nodeId {
      assert k == Access(nodeId, k.deviceId);
      DevicesOf(a, nodeId, k.deviceId, now, mayCreateMissing);
      RowLeftToActivation(a, nodeId, k, now, mayCreateMissing, a.nodes[nodeId].desiredConfigVersion + 1);
    }
  }

  lemma OnlyChangedAreNew(db: Db, nodeId: Id, activations: set<Id>, changed: map<Access, GrantRow>)
    ensures forall k | k in LocallyActivated(db, nodeId, activations).grants + changed && k !in db.grants ::
              && k in changed
              && (LocallyActivated(db, nodeId, activations).grants + changed)[k] == changed[k]
  {
  }

  lemma RepairedGrants(
      a: Db, b: Db, nodeId: Id, changed: map<Access, GrantRow>, now: int, mayCreateMissing: bool,
      derive: CredentialBinding -> string)
    requires nodeId in a.nodes && forall k | k in a.grants :: k.deviceId in a.devices
    requires WritesRepairs(a, nodeId, changed, now, mayCreateMissing, derive)
    requires b.grants == LocallyActivated(a, nodeId, ActivatedDevices(a, nodeId, now)).grants + changed
    requires b.devices == a.devices && b.subscriptions == a.subscriptions && b.deliveries == a.deliveries
    requires b.nodes == if ChangedDevices(a, nodeId, now, mayCreateMissing) == {} then a.nodes
                        else IncrementNodeVersion(a, nodeId).nodes
    requires ChangedDevices(a, nodeId, now, mayCreateMissing) != {} ==>
               LiveDelivery(b, nodeId, a.nodes[nodeId].desiredConfigVersion + 1)
    ensures IsRepaired(a, b, nodeId, now, mayCreateMissing, derive)
  {
    hide LiveDelivery, RepairedRow, NetworkChange, ActivatedDevices, ChangedDevices, CreatedAsExpected, WritesRepair;
    forall k | k in a.grants
      ensures k in b.grants && b.grants[k] == if k.nodeId == nodeId
                then RepairedRow(a, k, now, mayCreateMissing, a.nodes[nodeId].desiredConfigVersion + 1) else a.grants[k]
    {
      RowAfterRepair(a, nodeId, changed, k, now, mayCreateMissing, derive);
    }
    OnlyChangedAreNew(a, nodeId, ActivatedDevices(a, nodeId, now), changed);
    hide LocallyActivated;
    forall k | k in b.grants && k !in a.grants
      ensures CreatedAsExpected(a, b, nodeId, k, now, mayCreateMissing, derive)
    {
      assert WritesRepair(a, nodeId, k, changed[k], now, mayCreateMissing, derive);
      CreatedIsExpected(a, b, nodeId, k, changed[k], now, mayCreateMissing, derive);
    }
  }

  lemma CreatedIsExpected(
      a: Db, b: Db, nodeId: Id, k: Access, g: GrantRow, now: int, mayCreateMissing: bool,
      derive: CredentialBinding -> string)
    requires nodeId in a.nodes && k !in a.grants && k in b.grants && b.grants[k] == g
    requires WritesRepair(a, nodeId, k, g, now, mayCreateMissing, derive)
    ensures CreatedAsExpected(a, b, nodeId, k, now, mayCreateMissing, derive)
  {
  }

  // The version of a bump can be delivered.
  lemma BumpIsAlive(db: Db, after: Db, nodeId: Id, changed: map<Access, GrantRow>, lead: Id, key: Key)
    requires nodeId in db.nodes && after == Bump(db, nodeId, changed, ForGrant(lead), key, key)
    ensures LiveDelivery(after, nodeId, db.nodes[nodeId].desiredConfigVersion + 1)
  {
    BumpWrites(db, nodeId, changed, ForGrant(lead), key, key);
    assert after.events[db.nextId + 1].jobId == db.nextId;
    assert LiveJob(after, db.nextId);
  }

  lemma BumpKeepsDeliveriesAlive(db: Db, base: Db, nodeId: Id, changed: map<Access, GrantRow>, lead: Id, key: Key)
    requires IdsBelowNext(db) && nodeId in base.nodes && db.nextId <= base.nextId
    requires base.jobs == db.jobs && base.events == db.events && base.confirmations == db.confirmations
    ensures KeepsDeliveriesAlive(db, Bump(base, nodeId, changed, ForGrant(lead), key, key), nodeId)
  {
    var after := Bump(base, nodeId, changed, ForGrant(lead), key, key);
    BumpWrites(base, nodeId, changed, ForGrant(lead), key, key);
    forall v: nat | LiveDelivery(db, nodeId, v) ensures LiveDelivery(after, nodeId, v) {
      LiveDeliveryRemains(db, after, nodeId, v);
    }
  }
}
