// What the queue workers, and everything outside the services modelled here, may do to the
// access tables at any time.
module Surroundings {
  import opened Basics
  import opened XrayAccess
  import opened AccessState
  import opened NodeAgentConfiguration
  import opened NodeLifecycle

  function WithJobStatus(db: Db, jobId: Id, status: JobStatus): (after: Db)
    requires jobId in db.jobs
    ensures after.deliveries == db.deliveries
  {
    db.(jobs := db.jobs[jobId := db.jobs[jobId].(status := status)])
  }

  function WithEventStatus(db: Db, eventId: Id, status: EventStatus): (after: Db)
    requires eventId in db.events
    ensures after.deliveries == db.deliveries
  {
    db.(events := db.events[eventId := db.events[eventId].(status := status)])
  }

  lemma JobStatusKeepsJobs(jobs: map<Id, SyncJob>, events: map<Id, OutboxEvent>, nodes: map<Id, Node>, id: Id,
                           status: JobStatus)
    requires id in jobs && JobsFit(jobs, nodes) && EventsFit(events, jobs)
    ensures JobsFit(jobs[id := jobs[id].(status := status)], nodes)
    ensures EventsFit(events, jobs[id := jobs[id].(status := status)])
  {
    var after := jobs[id := jobs[id].(status := status)];
    forall n, v: nat | n in nodes && 1 <= v <= nodes[n].desiredConfigVersion ensures HasJob(after, n, v) {
      assert HasJob(jobs, n, v);
      var j :| j in jobs && jobs[j].nodeId == n && jobs[j].targetVersion == v;
      assert after[j].nodeId == n && after[j].targetVersion == v;
    }
    forall e | e in events ensures EventInOrder(events[e], after) {
      assert EventInOrder(events[e], jobs);
    }
    forall j | j in after ensures JobInOrder(after[j], nodes) && HasEvent(events, j) {
      assert JobInOrder(jobs[j], nodes) && HasEvent(events, j);
    }
  }

  ghost predicate OnlyStatusesEvolve(a: Db, b: Db) {
    && b == a.(jobs := b.jobs, events := b.events)
    && b.jobs.Keys == a.jobs.Keys && (forall j | j in a.jobs :: JobEvolves(a.jobs[j], b.jobs[j]))
    && b.events.Keys == a.events.Keys && (forall e | e in a.events :: EventEvolves(a.events[e], b.events[e]))
  }

  lemma StatusesEvolve(a: Db, b: Db)
    requires IdsBelowNext(a) && OnlyStatusesEvolve(a, b)
    ensures IdsBelowNext(b) && Evolves(a, b)
  {
  }

  lemma StatusesKeepGrants(a: Db, b: Db)
    requires OnlyStatusesEvolve(a, b) && NodesFit(a) && GrantsFit(a) && RoutesFit(a)
    ensures NodesFit(b) && GrantsFit(b) && RoutesFit(b)
  {
  }

  lemma StatusesKeepConfirmations(a: Db, b: Db)
    requires OnlyStatusesEvolve(a, b) && ConfirmationsFit(a)
    ensures ConfirmationsFit(b)
  {
  }

  lemma QueueStatusKeepsRest(a: Db, b: Db)
    requires IdsBelowNext(a) && NodesFit(a) && GrantsFit(a) && RoutesFit(a) && ConfirmationsFit(a) && DeliveriesFit(a)
    requires OnlyStatusesEvolve(a, b)
    ensures IdsBelowNext(b) && NodesFit(b) && GrantsFit(b) && RoutesFit(b) && ConfirmationsFit(b) && DeliveriesFit(b)
    ensures Evolves(a, b)
  {
    hide IdsBelowNext, NodesFit, GrantsFit, RoutesFit, ConfirmationsFit, Evolves, DeliveryFits;
    StatusesEvolve(a, b);
    StatusesKeepGrants(a, b);
    StatusesKeepConfirmations(a, b);
    forall x | x in b.deliveries ensures DeliveryFits(b, x) {
      DeliveryStillFits(a, b, x);
    }
  }

  lemma DeliveryStillFits(a: Db, b: Db, x: Delivery)
    requires DeliveryFits(a, x) && OnlyStatusesEvolve(a, b)
    ensures DeliveryFits(b, x)
  {
  }

  lemma JobStatusKeepsValid(db: Db, jobId: Id, status: JobStatus)
    requires Valid(db) && jobId in db.jobs
    requires db.jobs[jobId].status.JobPending? || db.jobs[jobId].status.JobProcessing?
    ensures Valid(WithJobStatus(db, jobId, status)) && Evolves(db, WithJobStatus(db, jobId, status))
  {
    hide JobsFit, EventsFit, RoutesFit, DeliveriesFit, ConfirmationsFit, GrantsFit, NodesFit, IdsBelowNext;
    JobStatusKeepsJobs(db.jobs, db.events, db.nodes, jobId, status);
    QueueStatusKeepsRest(db, WithJobStatus(db, jobId, status));
  }

  lemma EventStatusKeepsEvents(events: map<Id, OutboxEvent>, jobs: map<Id, SyncJob>, id: Id, status: EventStatus)
    requires id in events && EventsFit(events, jobs)
    ensures EventsFit(events[id := events[id].(status := status)], jobs)
  {
    var after := events[id := events[id].(status := status)];
    forall j | j in jobs ensures HasEvent(after, j) {
      assert HasEvent(events, j);
      var e :| e in events && events[e].jobId == j;
      assert after[e].jobId == j;
    }
    forall e | e in after ensures EventInOrder(after[e], jobs) {
      assert EventInOrder(events[e], jobs);
    }
  }

  lemma EventStatusKeepsValid(db: Db, eventId: Id, status: EventStatus)
    requires Valid(db) && eventId in db.events
    requires db.events[eventId].status.EventPending? || db.events[eventId].status.EventProcessing?
    ensures Valid(WithEventStatus(db, eventId, status)) && Evolves(db, WithEventStatus(db, eventId, status))
  {
    hide JobsFit, EventsFit, RoutesFit, DeliveriesFit, ConfirmationsFit, GrantsFit, NodesFit, IdsBelowNext;
    EventStatusKeepsEvents(db.events, db.jobs, eventId, status);
    QueueStatusKeepsRest(db, WithEventStatus(db, eventId, status));
  }

  // New nodes and devices, nodes that are provisioned or deleted, and any change of subscriptions,
  // endpoints and profiles.
  ghost predicate ChangedElsewhere(a: Db, b: Db) {
    && b == a.(nodes := b.nodes, devices := b.devices, subscriptions := b.subscriptions, endpoints := b.endpoints,
               profiles := b.profiles)
    && (forall n | n in b.nodes :: if n in a.nodes
          then b.nodes[n] == a.nodes[n].(status := b.nodes[n].status) && MayBecome(a, n, b.nodes[n].status)
          else b.nodes[n].desiredConfigVersion == b.nodes[n].appliedConfigVersion == 0)
    && (forall n | n in a.nodes :: n in b.nodes)
    && (forall d | d in a.devices :: d in b.devices && b.devices[d] == a.devices[d])
  }

  // A node only leaves provisioning, stays quarantined and deleted, and is quarantined without live grants.
  predicate MayBecome(db: Db, nodeId: Id, status: NodeStatus)
    requires nodeId in db.nodes
  {
    var before := db.nodes[nodeId].status;
    && (before.Deleted? ==> status.Deleted?)
    && (before.Quarantined? ==> status.Quarantined? || status.Deleted?)
    && (status.Provisioning? ==> before.Provisioning?)
    && (status.Quarantined? ==> LiveGrantsOn(db, nodeId) == {})
  }

  lemma ChangedElsewhereKeepsValid(a: Db, b: Db)
    requires Valid(a) && ChangedElsewhere(a, b)
    ensures Valid(b) && Evolves(a, b)
  {
    hide JobsFit, EventsFit, DeliveriesFit, ConfirmationsFit;
    forall k | k in b.grants ensures GrantFits(b.grants[k], b.nodes[k.nodeId], b.devices[k.deviceId]) {
      assert GrantFits(a.grants[k], a.nodes[k.nodeId], a.devices[k.deviceId]);
      assert LiveGrant(a.grants[k]) ==> k in LiveGrantsOn(a, k.nodeId);
    }
    SideTablesKeepValid(a, b);
  }

  predicate JobCanAdvance(db: Db, jobId: Id) {
    jobId in db.jobs && (db.jobs[jobId].status.JobPending? || db.jobs[jobId].status.JobProcessing?)
  }

  predicate EventCanAdvance(db: Db, eventId: Id) {
    eventId in db.events && (db.events[eventId].status.EventPending? || db.events[eventId].status.EventProcessing?)
  }

  function WithNode(db: Db, nodeId: Id, status: NodeStatus): (after: Db)
    ensures after.deliveries == db.deliveries
  {
    if nodeId !in db.nodes then db.(nodes := db.nodes[nodeId := Node(status, 0, 0)])
    else if MayBecome(db, nodeId, status) then db.(nodes := db.nodes[nodeId := db.nodes[nodeId].(status := status)])
    else db
  }

  function WithDevice(db: Db, deviceId: Id, userId: Id): (after: Db)
    ensures after.deliveries == db.deliveries
  {
    if deviceId !in db.devices then db.(devices := db.devices[deviceId := Device(userId, true)]) else db
  }

  // What may become of one node.
  lemma OneNodeElsewhere(db: Db, nodeId: Id, node: Node)
    requires if nodeId in db.nodes then node == db.nodes[nodeId].(status := node.status)
                                        && MayBecome(db, nodeId, node.status)
             else node.desiredConfigVersion == node.appliedConfigVersion == 0
    requires forall n | n in db.nodes :: MayBecome(db, n, db.nodes[n].status)
    ensures ChangedElsewhere(db, db.(nodes := db.nodes[nodeId := node]))
  {
    hide MayBecome;
  }

  lemma NothingElsewhere(db: Db)
    requires forall n | n in db.nodes :: MayBecome(db, n, db.nodes[n].status)
    ensures ChangedElsewhere(db, db)
  {
    hide MayBecome;
  }

  lemma NodeIsElsewhere(db: Db, nodeId: Id, status: NodeStatus)
    requires Valid(db)
    ensures ChangedElsewhere(db, WithNode(db, nodeId, status))
  {
    hide Valid, MayBecome, ChangedElsewhere;
    StatusMayStay(db);
    if nodeId !in db.nodes {
      OneNodeElsewhere(db, nodeId, Node(status, 0, 0));
    } else if MayBecome(db, nodeId, status) {
      OneNodeElsewhere(db, nodeId, db.nodes[nodeId].(status := status));
    } else {
      NothingElsewhere(db);
    }
  }

  class OtherServices {
    const database: Database

    constructor (database: Database)
      ensures this.database == database
    {
      this.database := database;
    }

    method AdvanceJob(jobId: Id, status: JobStatus)
      requires Valid(database.db)
      modifies database`db
      ensures Valid(database.db) && Evolves(old(database.db), database.db)
      ensures database.db == if JobCanAdvance(old(database.db), jobId)
                             then WithJobStatus(old(database.db), jobId, status)
                             else old(database.db)
    {
      hide Valid, Evolves;
      EvolvesReflexive(database.db);
      if JobCanAdvance(database.db, jobId) {
        JobStatusKeepsValid(database.db, jobId, status);
        database.db := WithJobStatus(database.db, jobId, status);
      }
    }

    method AdvanceEvent(eventId: Id, status: EventStatus)
      requires Valid(database.db)
      modifies database`db
      ensures Valid(database.db) && Evolves(old(database.db), database.db)
      ensures database.db == if EventCanAdvance(old(database.db), eventId)
                             then WithEventStatus(old(database.db), eventId, status)
                             else old(database.db)
    {
      hide Valid, Evolves;
      EvolvesReflexive(database.db);
      if EventCanAdvance(database.db, eventId) {
        EventStatusKeepsValid(database.db, eventId, status);
        database.db := WithEventStatus(database.db, eventId, status);
      }
    }

    method SetNode(nodeId: Id, status: NodeStatus)
      requires Valid(database.db)
      modifies database`db
      ensures Valid(database.db) && Evolves(old(database.db), database.db)
      ensures database.db == WithNode(old(database.db), nodeId, status)
    {
      hide Valid, Evolves, ChangedElsewhere;
      NodeIsElsewhere(database.db, nodeId, status);
      ChangedElsewhereKeepsValid(database.db, WithNode(database.db, nodeId, status));
      database.db := WithNode(database.db, nodeId, status);
    }

    method EnrolDevice(deviceId: Id, userId: Id)
      requires Valid(database.db)
      modifies database`db
      ensures Valid(database.db) && Evolves(old(database.db), database.db)
      ensures database.db == WithDevice(old(database.db), deviceId, userId)
    {
      hide Valid, Evolves;
      StatusMayStay(database.db);
      ChangedElsewhereKeepsValid(database.db, WithDevice(database.db, deviceId, userId));
      database.db := WithDevice(database.db, deviceId, userId);
    }

    method ChangeElsewhere(subscriptions: map<Id, Subscription>, endpoints: map<Id, Endpoint>,
                           profiles: map<Id, ConnectionProfile>)
      requires Valid(database.db)
      modifies database`db
      ensures Valid(database.db) && Evolves(old(database.db), database.db)
      ensures database.db
              == old(database.db).(subscriptions := subscriptions, endpoints := endpoints, profiles := profiles)
    {
      hide Valid, Evolves;
      StatusMayStay(database.db);
      var t := database.db.(subscriptions := subscriptions, endpoints := endpoints, profiles := profiles);
      ChangedElsewhereKeepsValid(database.db, t);
      database.db := t;
    }
  }

  lemma StatusMayStay(db: Db)
    requires Valid(db)
    ensures forall n | n in db.nodes :: MayBecome(db, n, db.nodes[n].status)
  {
    hide JobsFit, EventsFit, DeliveriesFit, ConfirmationsFit, RoutesFit;
    forall n | n in db.nodes && db.nodes[n].status.Quarantined? ensures LiveGrantsOn(db, n) == {} {
      QuarantinedHoldsNoLiveGrant(db, n);
    }
  }
}
