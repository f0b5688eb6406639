// The services together: any interleaving of their transactions, of the queue
// workers' status changes and of changes made elsewhere keeps every invariant.
module ControlPlane {
  import opened Basics
  import opened Queries
  import opened XrayAccess
  import opened AccessState
  import opened NodeAgentConfiguration
  import opened Orchestration
  import opened Revocation
  import opened DeviceAccessRevocation
  import opened NodeLifecycle
  import opened SubscriptionAccessStore
  import opened AccessReconciliation
  import opened GrantScheduling
  import opened TrialActivation
  import opened Surroundings

  const EMPTY := Db(map[], map[], map[], map[], map[], map[], {}, map[], map[], map[], map[], 0)

  lemma EmptyIsValid()
    ensures Valid(EMPTY)
  {
  }

  // The versions asked of a node and the jobs that carry them correspond one to one.
  lemma JobsCarryEveryVersionOnce(db: Db, nodeId: Id, version: nat)
    requires Valid(db) && nodeId in db.nodes
    ensures 1 <= version <= db.nodes[nodeId].desiredConfigVersion <==>
              exists j :: j in db.jobs && db.jobs[j].nodeId == nodeId && db.jobs[j].targetVersion == version
    ensures forall i, j | i in db.jobs && j in db.jobs
              && db.jobs[i].nodeId == db.jobs[j].nodeId == nodeId
              && db.jobs[i].targetVersion == db.jobs[j].targetVersion == version :: i == j
  {
    hide GrantsFit, EventsFit, DeliveriesFit, ConfirmationsFit, RoutesFit, IdsBelowNext, NodesFit;
    if 1 <= version <= db.nodes[nodeId].desiredConfigVersion {
      assert HasJob(db.jobs, nodeId, version);
    }
    forall j | j in db.jobs ensures JobInOrder(db.jobs[j], db.nodes) {
    }
    assert OneJobPerVersion(db.jobs);
  }

  // In tables that a run has led to, each job is announced by exactly one event, of the same
  // subject and version, and a job for a grant is for a grant of the job's own node that was
  // asked to change under the job's version, or has been asked to change again since.
  lemma EveryJobIsAnnouncedForItsGrant(db: Db, j: Id)
    requires Valid(db) && Evolves(EMPTY, db) && j in db.jobs
    ensures exists e :: e in db.events && db.events[e].jobId == j
              && db.events[e].subject == db.jobs[j].subject && db.events[e].targetVersion == db.jobs[j].targetVersion
    ensures forall e, f | e in db.events && f in db.events && db.events[e].jobId == db.events[f].jobId == j :: e == f
    ensures db.jobs[j].subject.ForGrant? ==>
              exists k :: k in db.grants && k.nodeId == db.jobs[j].nodeId
                && db.grants[k].id == db.jobs[j].subject.grantId
                && db.jobs[j].targetVersion <= db.grants[k].desiredVersion
  {
    hide GrantsFit, JobsFit, DeliveriesFit, ConfirmationsFit, RoutesFit, IdsBelowNext, NodesFit, NodesEvolve,
      GrantsEvolve, RecordsEvolve;
    assert HasEvent(db.events, j);
    var e :| e in db.events && db.events[e].jobId == j;
    assert EventInOrder(db.events[e], db.jobs) && OneEventPerJob(db.events);
    assert j !in EMPTY.jobs;
    assert NamesGrant(db.jobs[j], db.grants);
  }

  // What a claim of a job asks of the access tables.
  ghost predicate ReadyToClaim(db: Db, job: SyncJob) {
    && job.nodeId in db.nodes && job.targetVersion <= db.nodes[job.nodeId].desiredConfigVersion
    && match job.subject
       case ForGrant(grantId) =>
         exists k :: k in db.grants && k.nodeId == job.nodeId && db.grants[k].id == grantId
           && db.grants[k].desiredVersion <= db.nodes[job.nodeId].desiredConfigVersion
       case ForRoute(endpointId, profileId) =>
         && RouteKey(endpointId, profileId) in db.routes
         && db.routes[RouteKey(endpointId, profileId)].nodeId == job.nodeId
         && db.routes[RouteKey(endpointId, profileId)].activationVersion == Some(job.targetVersion)
  }

  // A job for a grant can be claimed at any time: what a claim asks of the tables always holds.
  // Only a job for a route has to wait, until its own activation is the route's current one.
  lemma GrantJobsAreAlwaysReady(db: Db, j: Id)
    requires Valid(db) && Evolves(EMPTY, db) && j in db.jobs
    ensures db.jobs[j].subject.ForGrant? ==> ReadyToClaim(db, db.jobs[j])
    ensures db.jobs[j].subject.ForRoute? ==>
              var r := RouteKey(db.jobs[j].subject.endpointId, db.jobs[j].subject.connectionProfileId);
              ReadyToClaim(db, db.jobs[j]) <==>
                r in db.routes && db.routes[r].nodeId == db.jobs[j].nodeId
                && db.routes[r].activationVersion == Some(db.jobs[j].targetVersion)
  {
    hide EventsFit, DeliveriesFit, ConfirmationsFit, RoutesFit, IdsBelowNext, NodesFit, NodesEvolve, GrantsEvolve,
      RecordsEvolve;
    var job := db.jobs[j];
    assert JobInOrder(job, db.nodes);
    assert j !in EMPTY.jobs;
    assert NamesGrant(job, db.grants);
    if job.subject.ForGrant? {
      var k :| k in db.grants && k.nodeId == job.nodeId && db.grants[k].id == job.subject.grantId;
      assert GrantFits(db.grants[k], db.nodes[k.nodeId], db.devices[k.deviceId]);
    }
  }

  // Between any two moments of a run: a revoked grant is still revoked; and a grant that the
  // node had confirmed has been asked to change only under a version the node had not confirmed.
  lemma WhatARunKeeps(a: Db, b: Db, k: Access)
    requires Valid(a) && Valid(b) && Evolves(a, b) && k in a.grants
    ensures k in b.grants && k.nodeId in a.nodes && k.nodeId in b.nodes
    ensures !LiveGrant(a.grants[k]) ==> !LiveGrant(b.grants[k])
    ensures a.nodes[k.nodeId].appliedConfigVersion <= b.nodes[k.nodeId].appliedConfigVersion
              <= b.nodes[k.nodeId].desiredConfigVersion
    ensures b.grants[k].desiredVersion <= b.nodes[k.nodeId].appliedConfigVersion ==>
              b.grants[k].appliedVersion == b.grants[k].desiredVersion
    ensures b.grants[k].desiredVersion != a.grants[k].desiredVersion ==>
              a.nodes[k.nodeId].appliedConfigVersion < b.grants[k].desiredVersion
  {
    hide JobsFit, EventsFit, DeliveriesFit, ConfirmationsFit, RoutesFit, IdsBelowNext, RecordsEvolve;
    assert GrantFits(a.grants[k], a.nodes[k.nodeId], a.devices[k.deviceId]);
    assert NodeEvolves(a.nodes[k.nodeId], b.nodes[k.nodeId]);
    assert GrantEvolves(a.grants[k], b.grants[k], a.nodes[k.nodeId], b.nodes[k.nodeId]);
    assert GrantFits(b.grants[k], b.nodes[k.nodeId], b.devices[k.deviceId]);
  }

  // ---------- one transaction ----------

  datatype Request =
    | Schedule(grant: ScheduleInput)
    | Publish(route: PublishInput)
    | RevokeDevice(userId: Id, deviceId: Id)
    | Cancel(subscriptionId: Id)
    | TellExpiry(subscriptionId: Id, nodeId: Id)
    | MarkExpired(subscriptionId: Id)
    | GiveTrial(activationId: Id, userId: Id, expiresAt: int)
    | Reconcile(nodeId: Id, includeMissingGrants: bool)
    | Quarantine(quarantine: QuarantineInput)
    | Acknowledge(delivery: Delivery)
    | TellConfiguration(nodeId: Id)
    | Restore(nodeId: Id)
    | DrainNode(nodeId: Id)
    | DisableNode(nodeId: Id)
    | AdvanceJobTo(jobId: Id, jobStatus: JobStatus)
    | AdvanceEventTo(eventId: Id, eventStatus: EventStatus)
    | SetNodeTo(nodeId: Id, nodeStatus: NodeStatus)
    | Enrol(deviceId: Id, userId: Id)
    | Elsewhere(subscriptions: map<Id, Subscription>, endpoints: map<Id, Endpoint>,
                profiles: map<Id, ConnectionProfile>)

  ghost predicate CanRevokeDevice(db: Db, userId: Id, deviceId: Id) {
    deviceId in db.devices && db.devices[deviceId].userId == userId && db.devices[deviceId].active
  }

  ghost predicate DeviceIsRevoked(a: Db, b: Db, deviceId: Id, now: int)
    requires deviceId in a.devices
  {
    && RevokedAll(a, b, LiveGrantsOfDevice(a, deviceId), now)
    && b.devices == WithDeviceRevoked(a, deviceId).devices
  }

  ghost predicate CanCancel(db: Db, subscriptionId: Id) {
    subscriptionId in db.subscriptions && !db.subscriptions[subscriptionId].status.Cancelled?
  }

  ghost predicate IsCancelled(a: Db, b: Db, subscriptionId: Id, now: int)
    requires subscriptionId in a.subscriptions
  {
    && RevokedAll(a, b, CancellationScope(a, subscriptionId, now), now)
    && b.devices == a.devices
    && b.subscriptions == WithSubscriptionStatus(a, subscriptionId, Cancelled).subscriptions
  }

  ghost predicate CanMarkExpired(db: Db, subscriptionId: Id, now: int) {
    ExpiryPassed(db, subscriptionId, now) && db.subscriptions[subscriptionId].status.ActiveSubscription?
  }

  ghost predicate IsReconciled(
      a: Db, b: Db, nodeId: Id, now: int, includeMissingGrants: bool, derive: CredentialBinding -> string)
  {
    && nodeId in a.nodes
    && (forall k | k in a.grants :: k.deviceId in a.devices)
    && IsRepaired(a, b, nodeId, now, MayCreateMissing(a, nodeId, includeMissingGrants), derive)
  }

  ghost predicate CanAcknowledge(db: Db, x: Delivery) {
    x in db.deliveries && x.jobId in db.jobs && db.jobs[x.jobId].status.JobSucceeded? && x.jobId !in db.confirmations
    && x.nodeId in db.nodes
  }

  ghost predicate AwaitsDelivery(db: Db, nodeId: Id, jobId: Id) {
    && nodeId in db.nodes
    && db.nodes[nodeId].appliedConfigVersion < db.nodes[nodeId].desiredConfigVersion
    && AwaitsConfirmation(db, nodeId, jobId)
  }

  ghost predicate IsTold(a: Db, b: Db, nodeId: Id, now: int, derive: CredentialBinding -> string) {
    if exists j: Id :: AwaitsDelivery(a, nodeId, j)
    then exists j: Id :: AwaitsDelivery(a, nodeId, j) && b == a.(deliveries := a.deliveries
           + {Delivery(nodeId, j, a.nodes[nodeId].desiredConfigVersion, ContentFor(a, nodeId, now, derive))})
    else b == a
  }

  ghost predicate CanRestore(db: Db, nodeId: Id) {
    && nodeId in db.nodes
    && (db.nodes[nodeId].status.Draining? || db.nodes[nodeId].status.Disabled?)
    && db.nodes[nodeId].desiredConfigVersion <= db.nodes[nodeId].appliedConfigVersion
  }

  // What a request does to the tables: its effect where its conditions are met, and otherwise nothing.
  ghost predicate Performed(a: Db, request: Request, now: int, derive: CredentialBinding -> string, b: Db) {
    if IsGranting(request) then GrantingPerformed(a, request, now, derive, b)
    else if IsOfSubscription(request) then OfSubscriptionPerformed(a, request, now, derive, b)
    else if IsOfNode(request) then OfNodePerformed(a, request, now, derive, b)
    else if IsLifecycle(request) then LifecyclePerformed(a, request, b)
    else OtherPerformed(a, request, b)
  }

  predicate IsGranting(request: Request) {
    request.Schedule? || request.Publish? || request.RevokeDevice? || request.GiveTrial?
  }

  ghost predicate GrantingPerformed(a: Db, request: Request, now: int, derive: CredentialBinding -> string, b: Db)
    requires IsGranting(request)
  {
    match request
    case Schedule(input) =>
      if KeysUnused(a, input.JobKey(), input.EventKey()) && CanBeScheduled(a, input)
      then b == Scheduled(a, input, derive) else b == a
    case Publish(input) =>
      if KeysUnused(a, input.JobKey(), input.EventKey()) && RouteCanOpen(a, input)
      then b == Published(a, input) else b == a
    case RevokeDevice(userId, deviceId) =>
      if CanRevokeDevice(a, userId, deviceId) then DeviceIsRevoked(a, b, deviceId, now) else b == a
    case GiveTrial(activationId, userId, expiresAt) =>
      if NoKeyUsed(a, activationId, ServedNodes(a, userId))
      then TrialGiven(a, b, userId, TrialNodes(a, userId), expiresAt, derive) else b == a
  }

  predicate IsOfSubscription(request: Request) {
    request.Cancel? || request.TellExpiry? || request.MarkExpired? || request.Reconcile?
  }

  ghost predicate OfSubscriptionPerformed(a: Db, request: Request, now: int, derive: CredentialBinding -> string, b: Db)
    requires IsOfSubscription(request)
  {
    match request
    case Cancel(subscriptionId) =>
      if CanCancel(a, subscriptionId) then IsCancelled(a, b, subscriptionId, now) else b == a
    case TellExpiry(subscriptionId, nodeId) =>
      if ExpiryPending(a, subscriptionId, nodeId, now) then ExpiryIsTold(a, b, subscriptionId, nodeId, now) else b == a
    case MarkExpired(subscriptionId) =>
      b == if CanMarkExpired(a, subscriptionId, now) then WithSubscriptionStatus(a, subscriptionId, Expired) else a
    case Reconcile(nodeId, includeMissingGrants) =>
      if NeedsRepair(a, nodeId, now, includeMissingGrants)
      then IsReconciled(a, b, nodeId, now, includeMissingGrants, derive) else b == a
  }

  predicate IsOfNode(request: Request) {
    request.Quarantine? || request.Acknowledge? || request.TellConfiguration?
  }

  ghost predicate OfNodePerformed(a: Db, request: Request, now: int, derive: CredentialBinding -> string, b: Db)
    requires IsOfNode(request)
  {
    match request
    case Quarantine(input) =>
      if KeysUnused(a, input.JobKey(), input.EventKey()) && input.nodeId in a.nodes
         && InAccessControlSync(a.nodes[input.nodeId].status)
      then IsQuarantined(a, b, input.nodeId, now) else b == a
    case Acknowledge(x) => b == if CanAcknowledge(a, x) then Acknowledged(a, x) else a
    case TellConfiguration(nodeId) => IsTold(a, b, nodeId, now, derive)
  }

  predicate IsLifecycle(request: Request) {
    request.Restore? || request.DrainNode? || request.DisableNode?
  }

  ghost predicate LifecyclePerformed(a: Db, request: Request, b: Db)
    requires IsLifecycle(request)
  {
    match request
    case Restore(nodeId) => b == if CanRestore(a, nodeId) then WithStatus(a, nodeId, Healthy) else a
    case DrainNode(nodeId) =>
      b == if nodeId in a.nodes && a.nodes[nodeId].status.Healthy? then WithStatus(a, nodeId, Draining) else a
    case DisableNode(nodeId) =>
      b == if nodeId in a.nodes && (a.nodes[nodeId].status.Healthy? || a.nodes[nodeId].status.Draining?)
           then WithStatus(a, nodeId, Disabled) else a
  }

  predicate IsOther(request: Request) {
    request.AdvanceJobTo? || request.AdvanceEventTo? || request.SetNodeTo? || request.Enrol? || request.Elsewhere?
  }

  ghost predicate OtherPerformed(a: Db, request: Request, b: Db)
    requires IsOther(request)
  {
    match request
    case AdvanceJobTo(jobId, status) => b == if JobCanAdvance(a, jobId) then WithJobStatus(a, jobId, status) else a
    case AdvanceEventTo(eventId, status) =>
      b == if EventCanAdvance(a, eventId) then WithEventStatus(a, eventId, status) else a
    case SetNodeTo(nodeId, status) => b == WithNode(a, nodeId, status)
    case Enrol(deviceId, userId) => b == WithDevice(a, deviceId, userId)
    case Elsewhere(subscriptions, endpoints, profiles) =>
      b == a.(subscriptions := subscriptions, endpoints := endpoints, profiles := profiles)
  }

  // Any one transaction of any service, and what it does.
  method AnyTransaction(database: Database, request: Request, now: int)
    requires Valid(database.db)
    modifies database`db
    ensures Valid(database.db) && Evolves(old(database.db), database.db)
    ensures Performed(old(database.db), request, now, database.derive, database.db)
  {
    hide Valid, Evolves, GrantingPerformed, OfSubscriptionPerformed, OfNodePerformed, LifecyclePerformed,
      OtherPerformed;
    if IsGranting(request) {
      GrantingTransaction(database, request, now);
    } else if IsOfSubscription(request) {
      SubscriptionTransaction(database, request, now);
    } else if IsOfNode(request) {
      NodeTransaction(database, request, now);
    } else if IsLifecycle(request) {
      LifecycleTransaction(database, request);
    } else {
      OtherTransaction(database, request);
    }
  }

  method GrantingTransaction(database: Database, request: Request, now: int)
    requires Valid(database.db) && IsGranting(request)
    modifies database`db
    ensures Valid(database.db) && Evolves(old(database.db), database.db)
    ensures GrantingPerformed(old(database.db), request, now, database.derive, database.db)
  {
    hide Valid, Evolves, KeysUnused, CanBeScheduled, Scheduled, RouteCanOpen, Published, RevokedAll, TrialGiven,
      TrialNodes, IsScheduled, IsPublished, NoKeyUsed, ServedNodes, NoLiveGrant;
    match request {
    case Schedule(input) =>
      var service := new NodeAccessGrantScheduler(database);
      var r := service.Schedule(input);
    case Publish(input) =>
      var service := new OrchestrationService(database);
      var r := service.PublishConnectionRoute(input);
    case RevokeDevice(userId, deviceId) =>
      var service := new DeviceAccessRevoker(database);
      var r := service.Revoke(userId, deviceId, now);
    case GiveTrial(activationId, userId, expiresAt) =>
      var service := new TrialActivationService(database);
      var r := service.ScheduleExistingDeviceAccess(activationId, userId, expiresAt);
    }
  }

  method SubscriptionTransaction(database: Database, request: Request, now: int)
    requires Valid(database.db) && IsOfSubscription(request)
    modifies database`db
    ensures Valid(database.db) && Evolves(old(database.db), database.db)
    ensures OfSubscriptionPerformed(old(database.db), request, now, database.derive, database.db)
  {
    hide Valid, Evolves, RevokedAll, CancellationScope, ExpiryPending, ExpiryIsTold, NeedsRepair, IsRepaired,
      IsReconciliationCandidate, MayCreateMissing;
    var service := new PrismaSubscriptionAccessStore(database);
    match request {
    case Cancel(subscriptionId) =>
      var r := service.CancelSubscriptionAccess(subscriptionId, now);
    case TellExpiry(subscriptionId, nodeId) =>
      var r := service.ScheduleExpiredSubscriptionOnNode(subscriptionId, nodeId, now);
    case MarkExpired(subscriptionId) =>
      var r := service.MaterializeExpiredSubscriptionStatus(subscriptionId, now);
    case Reconcile(nodeId, includeMissingGrants) =>
      var r := service.ReconcileOneNode(nodeId, now, includeMissingGrants);
    }
  }

  method NodeTransaction(database: Database, request: Request, now: int)
    requires Valid(database.db) && IsOfNode(request)
    modifies database`db
    ensures Valid(database.db) && Evolves(old(database.db), database.db)
    ensures OfNodePerformed(old(database.db), request, now, database.derive, database.db)
  {
    hide Valid, Evolves, KeysUnused, IsQuarantined, AnswersQuarantine, NamesQuarantineJob, LiveGrantsOn, Acknowledged,
      ConfirmsWhatWasTold, AllConfirmed, ContentFor;
    match request {
    case Quarantine(input) =>
      var service := new NodeLifecycleManager(database);
      var r := service.Quarantine(input, now);
    case Acknowledge(x) =>
      DeliveriesAreKnown(database.db);
      var service := new OrchestrationService(database);
      var r := service.AcknowledgeNodeConfig(x.nodeId, x.jobId, x.targetVersion, x.content);
    case TellConfiguration(nodeId) =>
      ghost var before := database.db;
      var service := new NodeAgentConfigurationService(database);
      var r := service.SnapshotInTransaction(nodeId, now);
      if r.Committed? && r.value.pendingJobId.Some? {
        assert AwaitsDelivery(before, nodeId, r.value.pendingJobId.value);
      } else if r.Committed? {
        assert forall j: Id :: AwaitsDelivery(before, nodeId, j) <==> r.value.pendingJobId == Some(j);
      }
    }
  }

  method LifecycleTransaction(database: Database, request: Request)
    requires Valid(database.db) && IsLifecycle(request)
    modifies database`db
    ensures Valid(database.db) && Evolves(old(database.db), database.db)
    ensures LifecyclePerformed(old(database.db), request, database.db)
  {
    hide Valid, Evolves, WithStatus, AllConfirmed;
    var service := new NodeLifecycleManager(database);
    match request {
    case Restore(nodeId) => var r := service.RestoreHealthy(nodeId);
    case DrainNode(nodeId) => var r := service.Drain(nodeId);
    case DisableNode(nodeId) => var r := service.Disable(nodeId);
    }
  }

  method OtherTransaction(database: Database, request: Request)
    requires Valid(database.db) && IsOther(request)
    modifies database`db
    ensures Valid(database.db) && Evolves(old(database.db), database.db)
    ensures OtherPerformed(old(database.db), request, database.db)
  {
    hide Valid, Evolves, WithJobStatus, WithEventStatus, WithNode, WithDevice, JobCanAdvance, EventCanAdvance;
    var others := new OtherServices(database);
    match request {
    case AdvanceJobTo(jobId, status) => others.AdvanceJob(jobId, status);
    case AdvanceEventTo(eventId, status) => others.AdvanceEvent(eventId, status);
    case SetNodeTo(nodeId, status) => others.SetNode(nodeId, status);
    case Enrol(deviceId, userId) => others.EnrolDevice(deviceId, userId);
    case Elsewhere(subscriptions, endpoints, profiles) => others.ChangeElsewhere(subscriptions, endpoints, profiles);
    }
  }

  // ---------- every sequence of transactions ----------

  datatype Call = Call(request: Request, now: int)

  // The tables before, between and after some transactions that follow each other in any order.
  ghost predicate IsHistory(dbs: seq<Db>, calls: seq<Call>, derive: CredentialBinding -> string) {
    && |dbs| == |calls| + 1
    && Valid(dbs[0])
    && forall i | 0 <= i < |calls| :: Follows(dbs[i], calls[i], derive, dbs[i + 1])
  }

  ghost predicate Follows(a: Db, call: Call, derive: CredentialBinding -> string, b: Db) {
    Performed(a, call.request, call.now, derive, b) && Valid(b) && Evolves(a, b)
  }

  // Whatever the transactions: between any two moments the tables have only evolved.
  lemma {:induction false} HistoryEvolves(dbs: seq<Db>, calls: seq<Call>, derive: CredentialBinding -> string, i: nat,
                                          j: nat)
    requires IsHistory(dbs, calls, derive) && i <= j < |dbs|
    ensures Valid(dbs[i]) && Valid(dbs[j]) && Evolves(dbs[i], dbs[j])
    decreases j - i
  {
    hide Valid, Evolves, Performed;
    if i < j {
      HistoryEvolves(dbs, calls, derive, i, j - 1);
      assert Follows(dbs[j - 1], calls[j - 1], derive, dbs[j]);
      EvolvesTransitive(dbs[i], dbs[j - 1], dbs[j]);
    } else {
      assert i > 0 ==> Follows(dbs[i - 1], calls[i - 1], derive, dbs[i]);
      EvolvesReflexive(dbs[i]);
    }
  }

  // ---------- what a confirmation confirms ----------

  lemma GrantingDeliversNothing(a: Db, request: Request, now: int, derive: CredentialBinding -> string, b: Db)
    requires IsGranting(request) && GrantingPerformed(a, request, now, derive, b)
    ensures b.deliveries == a.deliveries
  {
    hide KeysUnused, CanBeScheduled, RouteCanOpen, CanRevokeDevice, NoKeyUsed, ServedNodes, TrialNodes,
      LiveGrantsOfDevice, ScheduledGrant, TrialGrantsGiven, TrialNodesGiven, GrantsAfter, NodesAfter;
  }

  lemma OfSubscriptionDeliversNothing(a: Db, request: Request, now: int, derive: CredentialBinding -> string, b: Db)
    requires IsOfSubscription(request) && OfSubscriptionPerformed(a, request, now, derive, b)
    ensures b.deliveries == a.deliveries
  {
    hide CanCancel, ExpiryPending, NeedsRepair, CancellationScope, GrantsAfter, NodesAfter, RepairedRow, Rescheduled,
      CreatedAsExpected, ChangedDevices, LiveDelivery;
  }

  lemma OfNodeDeliversNothing(a: Db, request: Request, now: int, derive: CredentialBinding -> string, b: Db)
    requires IsOfNode(request) && !request.TellConfiguration? && OfNodePerformed(a, request, now, derive, b)
    ensures b.deliveries == a.deliveries
  {
    hide KeysUnused, CanAcknowledge, ConfirmGrants, RevokedRows, LiveGrantsOn;
  }

  lemma LifecycleDeliversNothing(a: Db, request: Request, b: Db)
    requires IsLifecycle(request) && LifecyclePerformed(a, request, b)
    ensures b.deliveries == a.deliveries
  {
    hide CanRestore;
  }

  lemma OtherDeliversNothing(a: Db, request: Request, b: Db)
    requires IsOther(request) && OtherPerformed(a, request, b)
    ensures b.deliveries == a.deliveries
  {
    hide JobCanAdvance, EventCanAdvance, WithJobStatus, WithEventStatus, WithNode, WithDevice;
  }

  lemma OnlyTellingDelivers(a: Db, call: Call, derive: CredentialBinding -> string, b: Db)
    requires Follows(a, call, derive, b) && !call.request.TellConfiguration?
    ensures b.deliveries == a.deliveries
  {
    hide Valid, Evolves, GrantingPerformed, OfSubscriptionPerformed, OfNodePerformed, LifecyclePerformed,
      OtherPerformed;
    if IsGranting(call.request) {
      GrantingDeliversNothing(a, call.request, call.now, derive, b);
    } else if IsOfSubscription(call.request) {
      OfSubscriptionDeliversNothing(a, call.request, call.now, derive, b);
    } else if IsOfNode(call.request) {
      OfNodeDeliversNothing(a, call.request, call.now, derive, b);
    } else if IsLifecycle(call.request) {
      LifecycleDeliversNothing(a, call.request, b);
    } else {
      OtherDeliversNothing(a, call.request, b);
    }
  }

  // A node is told its configuration, and the delivery is recorded for the job.
  ghost predicate ToldAt(dbs: seq<Db>, calls: seq<Call>, derive: CredentialBinding -> string, x: Delivery, k: nat) {
    && k < |calls| < |dbs|
    && calls[k].request == TellConfiguration(x.nodeId)
    && AwaitsDelivery(dbs[k], x.nodeId, x.jobId)
    && x.targetVersion == dbs[k].nodes[x.nodeId].desiredConfigVersion
    && x.content == ContentFor(dbs[k], x.nodeId, calls[k].now, derive)
  }

  lemma {:induction false} DeliveryWasTold(
      dbs: seq<Db>, calls: seq<Call>, derive: CredentialBinding -> string, j: nat, x: Delivery) returns (k: nat)
    requires IsHistory(dbs, calls, derive) && dbs[0].deliveries == {} && j < |dbs| && x in dbs[j].deliveries
    ensures k < j && ToldAt(dbs, calls, derive, x, k)
    decreases j
  {
    hide Valid, Evolves, ContentFor, GrantingPerformed, OfSubscriptionPerformed, LifecyclePerformed, OtherPerformed;
    k := j - 1;
    assert Follows(dbs[k], calls[k], derive, dbs[j]);
    if x in dbs[k].deliveries {
      k := DeliveryWasTold(dbs, calls, derive, k, x);
    } else if !calls[k].request.TellConfiguration? {
      OnlyTellingDelivers(dbs[k], calls[k], derive, dbs[j]);
    }
  }

  // An accepted confirmation never confirms what the node was not told: at some earlier moment of
  // the history the node was told a configuration of exactly this version, and every grant that the
  // confirmation changes had, in the tables of that moment, the desired version and the expiry it has now.
  lemma AcknowledgedWasTold(
      dbs: seq<Db>, calls: seq<Call>, derive: CredentialBinding -> string, i: nat, x: Delivery) returns (k: nat)
    requires IsHistory(dbs, calls, derive) && dbs[0].deliveries == {}
    requires i < |calls| && calls[i].request == Acknowledge(x) && CanAcknowledge(dbs[i], x)
    ensures k < i && ToldAt(dbs, calls, derive, x, k)
    ensures forall g | g in dbs[i].grants && g in dbs[i + 1].grants && dbs[i + 1].grants[g] != dbs[i].grants[g] ::
              && g.nodeId == x.nodeId && g in dbs[k].grants
              && dbs[k].grants[g].desiredVersion == dbs[i].grants[g].desiredVersion <= x.targetVersion
              && dbs[k].grants[g].expiresAt == dbs[i].grants[g].expiresAt
  {
    hide Valid, Evolves, GrantingPerformed, OfSubscriptionPerformed, LifecyclePerformed, OtherPerformed;
    assert Follows(dbs[i], calls[i], derive, dbs[i + 1]);
    HistoryEvolves(dbs, calls, derive, i, i);
    DeliveryOf(dbs[i], x);
    AcknowledgedConfirmsWhatWasTold(dbs[i], x);
    k := DeliveryWasTold(dbs, calls, derive, i, x);
  }

  lemma DeliveryOf(db: Db, x: Delivery)
    requires Valid(db) && x in db.deliveries
    ensures DeliveryFits(db, x)
  {
    hide GrantsFit, JobsFit, EventsFit, ConfirmationsFit, RoutesFit, NodesFit, IdsBelowNext, DeliveryFits;
  }

  // Every sequence of calls on empty tables is such a history.
  method EveryRun(derive: CredentialBinding -> string, calls: seq<Call>)
    returns (database: Database, ghost dbs: seq<Db>)
    ensures IsHistory(dbs, calls, derive) && dbs[0] == EMPTY && dbs[|calls|] == database.db
    ensures Valid(database.db) && Evolves(EMPTY, database.db)
  {
    hide Valid, Evolves, Performed;
    EmptyIsValid();
    database := new Database(EMPTY, derive);
    dbs := [EMPTY];
    for i := 0 to |calls|
      invariant fresh(database) && database.derive == derive && Valid(database.db)
      invariant IsHistory(dbs, calls[..i], derive) && dbs[0] == EMPTY && dbs[i] == database.db
    {
      AnyTransaction(database, calls[i].request, calls[i].now);
      dbs := dbs + [database.db];
    }
    assert calls[..|calls|] == calls;
    HistoryEvolves(dbs, calls, derive, 0, |calls|);
  }
}
