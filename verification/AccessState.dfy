// The tables that hold desired and confirmed access, what every transaction on
// them keeps, and how they may change from one transaction to the next.
module AccessState {
  import opened Basics
  import opened XrayAccess

  const DATA_PLANE_CREDENTIAL_DERIVATION_VERSION := 1

  datatype NodeStatus = Provisioning | Healthy | Draining | Disabled | Quarantined | Deleted

  datatype Node = Node(status: NodeStatus, desiredConfigVersion: nat, appliedConfigVersion: nat)

  datatype Device = Device(userId: Id, active: bool)

  datatype SubscriptionStatus = PendingSubscription | ActiveSubscription | Expired | Cancelled

  datatype Subscription = Subscription(userId: Id, status: SubscriptionStatus, expiresAt: Option<int>)

  // The grant table is unique on (node, device), so it is indexed by that pair.
  datatype Access = Access(nodeId: Id, deviceId: Id)

  datatype Hashed = Hashed(credential: string)

  datatype GrantRow = GrantRow(
    id: Id,
    status: GrantStatus,
    expiresAt: int,
    desiredVersion: nat,
    appliedVersion: nat,
    revokedAt: Option<int>,
    credentialHash: Hashed,
    derivationVersion: Option<nat>)

  datatype CredentialBinding = CredentialBinding(grantId: Id, deviceId: Id, nodeId: Id)

  datatype Subject = ForGrant(grantId: Id) | ForRoute(endpointId: Id, connectionProfileId: Id)

  // A key that an administrator gives never equals one that a service builds.
  datatype Key =
    | Given(text: string)
    | Trial(activationId: Id, nodeId: Id)
    | Expiry(subscriptionId: Id, nodeId: Id)
    | Cancellation(subscriptionId: Id, nodeId: Id, version: nat)
    | DeviceRevocation(grant: Access, version: nat)
    | Reconciliation(nodeId: Id, version: nat)

  datatype JobStatus = JobPending | JobProcessing | JobSucceeded | JobFailed

  datatype SyncJob = SyncJob(nodeId: Id, subject: Subject, targetVersion: nat, key: Key, status: JobStatus)

  datatype EventStatus = EventPending | EventProcessing | EventPublished | EventFailed

  datatype OutboxEvent =
    OutboxEvent(jobId: Id, subject: Subject, targetVersion: nat, key: Key, status: EventStatus)

  datatype RouteKey = RouteKey(endpointId: Id, connectionProfileId: Id)

  datatype Address = Address(host: string, kind: string, port: nat, priority: int)

  datatype Protocol =
    Protocol(key: string, version: nat, protocolKind: string, transportKind: string, securityKind: string,
             clientCompatibility: string, priority: int)

  datatype PublicConfig = PublicConfig(tlsServerName: string, displayName: string)

  datatype Endpoint = Endpoint(nodeId: Id, active: bool, address: Address)

  datatype ConnectionProfile =
    ConnectionProfile(nodeId: Id, active: bool, protocol: Protocol, publicConfig: Option<PublicConfig>)

  // A route as a node is told of it.
  datatype ToldRoute = ToldRoute(activationVersion: nat, address: Address, protocol: Protocol,
                                 publicConfig: PublicConfig)

  datatype RouteRow = RouteRow(nodeId: Id, activationVersion: Option<nat>)

  // What a node is told. The hash of it is injective, so it stands for its own hash.
  datatype Content = Content(targetVersion: nat, grants: map<Access, Grant>, routes: map<RouteKey, ToldRoute>)

  datatype Delivery = Delivery(nodeId: Id, jobId: Id, targetVersion: nat, content: Content)

  datatype Confirmation = Confirmation(nodeId: Id, targetVersion: nat, content: Content)

  datatype Db = Db(
    nodes: map<Id, Node>,
    devices: map<Id, Device>,
    subscriptions: map<Id, Subscription>,
    grants: map<Access, GrantRow>,
    jobs: map<Id, SyncJob>,
    events: map<Id, OutboxEvent>,
    deliveries: set<Delivery>,
    confirmations: map<Id, Confirmation>,
    endpoints: map<Id, Endpoint>,
    profiles: map<Id, ConnectionProfile>,
    routes: map<RouteKey, RouteRow>,
    nextId: Id)

  // The outcome of a transaction: committed, or rolled back with nothing changed.
  datatype Tx<T> = Committed(value: T) | Aborted

  predicate InAccessControlSync(s: NodeStatus) {
    s.Healthy? || s.Draining? || s.Disabled?
  }

  predicate LiveGrant(g: GrantRow) {
    !g.status.Revoked?
  }

  // ---------- what every transaction keeps ----------

  ghost predicate GrantFits(g: GrantRow, n: Node, d: Device) {
    && g.appliedVersion <= g.desiredVersion <= n.desiredConfigVersion
    && (g.desiredVersion <= n.appliedConfigVersion ==> g.appliedVersion == g.desiredVersion)
    && (LiveGrant(g) ==> d.active && !n.status.Quarantined?)
    && !n.status.Provisioning?
  }

  ghost predicate GrantsFit(db: Db) {
    forall k | k in db.grants ::
      && k.nodeId in db.nodes
      && k.deviceId in db.devices
      && GrantFits(db.grants[k], db.nodes[k.nodeId], db.devices[k.deviceId])
  }

  ghost predicate NodesFit(db: Db) {
    forall n | n in db.nodes :: db.nodes[n].appliedConfigVersion <= db.nodes[n].desiredConfigVersion
  }

  // A key that names a version belongs to the job for that version.
  ghost predicate KeyFits(key: Key, nodeId: Id, version: nat) {
    match key
    case Cancellation(_, n, v) => n == nodeId && v == version
    case DeviceRevocation(g, v) => g.nodeId == nodeId && v == version
    case Reconciliation(n, v) => n == nodeId && v == version
    case _ => true
  }

  ghost predicate HasJob(jobs: map<Id, SyncJob>, nodeId: Id, version: nat) {
    exists j :: j in jobs && jobs[j].nodeId == nodeId && jobs[j].targetVersion == version
  }

  ghost predicate HasEvent(events: map<Id, OutboxEvent>, jobId: Id) {
    exists e :: e in events && events[e].jobId == jobId
  }

  ghost predicate JobInOrder(job: SyncJob, nodes: map<Id, Node>) {
    && job.nodeId in nodes
    && 1 <= job.targetVersion <= nodes[job.nodeId].desiredConfigVersion
    && KeyFits(job.key, job.nodeId, job.targetVersion)
  }

  ghost predicate OneJobPerVersion(jobs: map<Id, SyncJob>) {
    forall i, j | i in jobs && j in jobs
      && jobs[i].nodeId == jobs[j].nodeId && jobs[i].targetVersion == jobs[j].targetVersion :: i == j
  }

  ghost predicate OneJobPerKey(jobs: map<Id, SyncJob>) {
    forall i, j | i in jobs && j in jobs && jobs[i].key == jobs[j].key :: i == j
  }

  // The target versions of a node's jobs are exactly 1 to its desired version, each once.
  ghost predicate JobsFit(jobs: map<Id, SyncJob>, nodes: map<Id, Node>) {
    && (forall j | j in jobs :: JobInOrder(jobs[j], nodes))
    && OneJobPerVersion(jobs)
    && OneJobPerKey(jobs)
    && (forall n, v: nat {:trigger HasJob(jobs, n, v)} | n in nodes && 1 <= v <= nodes[n].desiredConfigVersion ::
          HasJob(jobs, n, v))
  }

  ghost predicate EventInOrder(event: OutboxEvent, jobs: map<Id, SyncJob>) {
    && event.jobId in jobs
    && event.targetVersion == jobs[event.jobId].targetVersion
    && event.subject == jobs[event.jobId].subject
    && (event.key == jobs[event.jobId].key || (event.key.Given? && jobs[event.jobId].key.Given?))
    && KeyFits(event.key, jobs[event.jobId].nodeId, event.targetVersion)
  }

  ghost predicate OneEventPerJob(events: map<Id, OutboxEvent>) {
    forall e, f | e in events && f in events && events[e].jobId == events[f].jobId :: e == f
  }

  ghost predicate OneEventPerKey(events: map<Id, OutboxEvent>) {
    forall e, f | e in events && f in events && events[e].key == events[f].key :: e == f
  }

  // Each job is announced by exactly one event.
  ghost predicate EventsFit(events: map<Id, OutboxEvent>, jobs: map<Id, SyncJob>) {
    && (forall e | e in events :: EventInOrder(events[e], jobs))
    && OneEventPerJob(events)
    && OneEventPerKey(events)
    && (forall j {:trigger HasEvent(events, j)} | j in jobs :: HasEvent(events, j))
  }

  ghost predicate IdsBelowNext(db: Db) {
    && (forall j | j in db.jobs :: j < db.nextId)
    && (forall e | e in db.events :: e < db.nextId)
    && (forall k | k in db.grants :: db.grants[k].id < db.nextId)
  }

  // A grant that a node was told about has not changed unless its desired version has.
  ghost predicate StillAsTold(g: GrantRow, told: Grant, n: Node) {
    && told.id == g.id
    && told.desiredVersion == g.desiredVersion
    && told.expiresAt == g.expiresAt
    && (told.status.Revoked? ==> !LiveGrant(g))
    && (!told.status.Revoked? && !LiveGrant(g) ==> n.status.Deleted?)
  }

  ghost predicate DeliveryFits(db: Db, x: Delivery) {
    && x.nodeId in db.nodes
    && x.jobId in db.jobs
    && db.jobs[x.jobId].nodeId == x.nodeId
    && db.jobs[x.jobId].targetVersion == x.targetVersion == x.content.targetVersion
    && (forall k | k in db.grants && k.nodeId == x.nodeId && db.grants[k].desiredVersion <= x.targetVersion ::
          k in x.content.grants && StillAsTold(db.grants[k], x.content.grants[k], db.nodes[x.nodeId]))
  }

  ghost predicate DeliveriesFit(db: Db) {
    forall x | x in db.deliveries :: DeliveryFits(db, x)
  }

  ghost predicate ConfirmationsFit(db: Db) {
    forall j | j in db.confirmations ::
      && j in db.jobs
      && db.jobs[j].status.JobSucceeded?
      && Delivery(db.confirmations[j].nodeId, j, db.confirmations[j].targetVersion, db.confirmations[j].content)
           in db.deliveries
      && db.confirmations[j].nodeId in db.nodes
      && db.confirmations[j].targetVersion <= db.nodes[db.confirmations[j].nodeId].appliedConfigVersion
  }

  ghost predicate RoutesFit(db: Db) {
    forall r | r in db.routes ::
      && db.routes[r].nodeId in db.nodes
      && (db.routes[r].activationVersion.Some? ==>
            db.routes[r].activationVersion.value <= db.nodes[db.routes[r].nodeId].desiredConfigVersion)
  }

  ghost predicate Valid(db: Db) {
    && IdsBelowNext(db)
    && NodesFit(db) && GrantsFit(db) && JobsFit(db.jobs, db.nodes) && EventsFit(db.events, db.jobs)
    && DeliveriesFit(db) && ConfirmationsFit(db) && RoutesFit(db)
  }

  // ---------- how the tables may change ----------

  ghost predicate StatusEvolves(a: NodeStatus, b: NodeStatus) {
    && (a.Deleted? ==> b.Deleted?)
    && (a.Quarantined? ==> b.Quarantined? || b.Deleted?)
    && (b.Provisioning? ==> a.Provisioning?)
  }

  ghost predicate NodeEvolves(a: Node, b: Node) {
    && a.desiredConfigVersion <= b.desiredConfigVersion
    && a.appliedConfigVersion <= b.appliedConfigVersion
    && StatusEvolves(a.status, b.status)
  }

  // A revoked grant stays revoked, and what a node must learn about a grant never
  // changes without a version above every version asked of the node before.
  ghost predicate GrantEvolves(a: GrantRow, b: GrantRow, before: Node, after: Node) {
    && b.id == a.id
    && b.credentialHash == a.credentialHash
    && b.derivationVersion == a.derivationVersion
    && a.appliedVersion <= b.appliedVersion
    && (!LiveGrant(a) ==> !LiveGrant(b))
    && (b.desiredVersion == a.desiredVersion || before.desiredConfigVersion < b.desiredVersion)
    && (b.desiredVersion == a.desiredVersion ==> b.expiresAt == a.expiresAt)
    && (b.desiredVersion == a.desiredVersion && LiveGrant(a) && !LiveGrant(b) ==> after.status.Deleted?)
  }

  ghost predicate NodesEvolve(a: Db, b: Db) {
    && (forall n | n in a.nodes :: n in b.nodes && NodeEvolves(a.nodes[n], b.nodes[n]))
    && (forall d | d in a.devices :: d in b.devices && b.devices[d].userId == a.devices[d].userId
          && (b.devices[d].active ==> a.devices[d].active))
  }

  ghost predicate GrantsEvolve(a: Db, b: Db) {
    && (forall k | k in a.grants && k.nodeId in a.nodes && k.nodeId in b.nodes ::
          k in b.grants && GrantEvolves(a.grants[k], b.grants[k], a.nodes[k.nodeId], b.nodes[k.nodeId]))
    && (forall k | k in b.grants && k !in a.grants && k.nodeId in a.nodes ::
          a.nodes[k.nodeId].desiredConfigVersion < b.grants[k].desiredVersion)
  }

  ghost predicate JobEvolves(a: SyncJob, b: SyncJob) {
    && b == a.(status := b.status)
    && (a.status.JobSucceeded? || a.status.JobFailed? ==> b.status == a.status)
  }

  ghost predicate EventEvolves(a: OutboxEvent, b: OutboxEvent) {
    && b == a.(status := b.status)
    && (a.status.EventPublished? || a.status.EventFailed? ==> b.status == a.status)
  }

  // Jobs, events, deliveries and confirmations are never lost, and what is final stays.
  ghost predicate RecordsEvolve(a: Db, b: Db) {
    && (forall j | j in a.jobs :: j in b.jobs && JobEvolves(a.jobs[j], b.jobs[j]))
    && (forall e | e in a.events :: e in b.events && EventEvolves(a.events[e], b.events[e]))
    && a.deliveries <= b.deliveries
    && (forall j | j in a.confirmations :: j in b.confirmations && b.confirmations[j] == a.confirmations[j])
    && a.nextId <= b.nextId
  }

  // A job for a grant is for one of its node's grants, asked to change under the job's version or since.
  ghost predicate NamesGrant(job: SyncJob, grants: map<Access, GrantRow>) {
    job.subject.ForGrant? ==>
      exists k :: k in grants && k.nodeId == job.nodeId && grants[k].id == job.subject.grantId
        && job.targetVersion <= grants[k].desiredVersion
  }

  ghost predicate NewJobsNameGrants(a: Db, b: Db) {
    forall j | j in b.jobs && j !in a.jobs :: NamesGrant(b.jobs[j], b.grants)
  }

  ghost predicate Evolves(a: Db, b: Db) {
    NodesEvolve(a, b) && GrantsEvolve(a, b) && RecordsEvolve(a, b) && NewJobsNameGrants(a, b)
  }

  lemma EvolvesReflexive(a: Db)
    ensures Evolves(a, a)
  {
  }

  lemma GrantsEvolveTransitive(a: Db, b: Db, c: Db)
    requires GrantsFit(a) && GrantsFit(b)
    requires NodesEvolve(a, b) && NodesEvolve(b, c) && GrantsEvolve(a, b) && GrantsEvolve(b, c)
    ensures GrantsEvolve(a, c)
  {
    forall k | k in c.grants && k !in a.grants && k.nodeId in a.nodes
      ensures a.nodes[k.nodeId].desiredConfigVersion < c.grants[k].desiredVersion
    {
      if k in b.grants {
        assert GrantEvolves(b.grants[k], c.grants[k], b.nodes[k.nodeId], c.nodes[k.nodeId]);
      }
    }
    forall k | k in a.grants && k.nodeId in a.nodes && k.nodeId in c.nodes
      ensures k in c.grants && GrantEvolves(a.grants[k], c.grants[k], a.nodes[k.nodeId], c.nodes[k.nodeId])
    {
      assert GrantEvolves(a.grants[k], b.grants[k], a.nodes[k.nodeId], b.nodes[k.nodeId]);
      assert GrantEvolves(b.grants[k], c.grants[k], b.nodes[k.nodeId], c.nodes[k.nodeId]);
    }
  }

  lemma RecordsEvolveTransitive(a: Db, b: Db, c: Db)
    requires RecordsEvolve(a, b) && RecordsEvolve(b, c)
    ensures RecordsEvolve(a, c)
  {
    forall j | j in a.jobs ensures j in c.jobs && JobEvolves(a.jobs[j], c.jobs[j]) {
      assert JobEvolves(a.jobs[j], b.jobs[j]) && JobEvolves(b.jobs[j], c.jobs[j]);
    }
    forall e | e in a.events ensures e in c.events && EventEvolves(a.events[e], c.events[e]) {
      assert EventEvolves(a.events[e], b.events[e]) && EventEvolves(b.events[e], c.events[e]);
    }
  }

  // A job that names a grant goes on naming it.
  lemma StillNamesGrant(a: Db, b: Db, j: Id)
    requires GrantsFit(a) && NodesEvolve(a, b) && GrantsEvolve(a, b) && RecordsEvolve(a, b)
    requires j in a.jobs && NamesGrant(a.jobs[j], a.grants)
    ensures NamesGrant(b.jobs[j], b.grants)
  {
    assert JobEvolves(a.jobs[j], b.jobs[j]);
    if a.jobs[j].subject.ForGrant? {
      var k :| k in a.grants && k.nodeId == a.jobs[j].nodeId && a.grants[k].id == a.jobs[j].subject.grantId
        && a.jobs[j].targetVersion <= a.grants[k].desiredVersion;
      assert GrantFits(a.grants[k], a.nodes[k.nodeId], a.devices[k.deviceId]);
      assert GrantEvolves(a.grants[k], b.grants[k], a.nodes[k.nodeId], b.nodes[k.nodeId]);
    }
  }

  lemma NewJobsTransitive(a: Db, b: Db, c: Db)
    requires GrantsFit(b) && NodesEvolve(b, c) && GrantsEvolve(b, c) && RecordsEvolve(b, c)
    requires NewJobsNameGrants(a, b) && NewJobsNameGrants(b, c)
    ensures NewJobsNameGrants(a, c)
  {
    hide NodesEvolve, GrantsEvolve, NamesGrant;
    forall j | j in c.jobs && j !in a.jobs ensures NamesGrant(c.jobs[j], c.grants) {
      if j in b.jobs {
        StillNamesGrant(b, c, j);
      }
    }
  }

  lemma EvolvesTransitive(a: Db, b: Db, c: Db)
    requires Valid(a) && Valid(b) && Evolves(a, b) && Evolves(b, c)
    ensures Evolves(a, c)
  {
    hide GrantsFit, JobsFit, EventsFit, DeliveriesFit, ConfirmationsFit, RoutesFit, NodesFit, GrantsEvolve,
      RecordsEvolve, NewJobsNameGrants;
    GrantsEvolveTransitive(a, b, c);
    RecordsEvolveTransitive(a, b, c);
    NewJobsTransitive(a, b, c);
  }

  // Once delivered, a snapshot keeps fitting: whatever has changed since on its node
  // carries a higher version.
  lemma DeliveriesKeepFitting(a: Db, b: Db)
    requires Valid(a) && Evolves(a, b) && GrantsFit(b) && b.deliveries == a.deliveries
    ensures DeliveriesFit(b)
  {
    forall x | x in b.deliveries ensures DeliveryFits(b, x) {
      assert DeliveryFits(a, x);
      forall k | k in b.grants && k.nodeId == x.nodeId && b.grants[k].desiredVersion <= x.targetVersion
        ensures k in x.content.grants && StillAsTold(b.grants[k], x.content.grants[k], b.nodes[x.nodeId])
      {
        assert x.targetVersion <= a.nodes[x.nodeId].desiredConfigVersion;
        assert k in a.grants;
        assert GrantEvolves(a.grants[k], b.grants[k], a.nodes[k.nodeId], b.nodes[k.nodeId]);
        assert StillAsTold(a.grants[k], x.content.grants[k], a.nodes[x.nodeId]);
        assert NodeEvolves(a.nodes[k.nodeId], b.nodes[k.nodeId]);
      }
    }
  }

  // ---------- the steps a transaction is made of ----------

  function IncrementNodeVersion(db: Db, nodeId: Id): Db
    requires nodeId in db.nodes
  {
    db.(nodes := db.nodes[nodeId := db.nodes[nodeId].(
          desiredConfigVersion := db.nodes[nodeId].desiredConfigVersion + 1)])
  }

  lemma OneNodeRaised(db: Db, nodeId: Id)
    requires nodeId in db.nodes
    ensures IncrementNodeVersion(db, nodeId).nodes == db.nodes[nodeId := Node(
              db.nodes[nodeId].status, db.nodes[nodeId].desiredConfigVersion + 1,
                db.nodes[nodeId].appliedConfigVersion)]
  {
  }

  // One job for the node's desired version, and the event that announces it.
  function CreateNodeSyncOperation(db: Db, nodeId: Id, subject: Subject, jobKey: Key, eventKey: Key): Db
    requires nodeId in db.nodes
  {
    var version := db.nodes[nodeId].desiredConfigVersion;
    db.(jobs := db.jobs[db.nextId := SyncJob(nodeId, subject, version, jobKey, JobPending)],
        events := db.events[db.nextId + 1 := OutboxEvent(db.nextId, subject, version, eventKey, EventPending)],
        nextId := db.nextId + 2)
  }

  predicate KeysUnused(db: Db, jobKey: Key, eventKey: Key) {
    && (forall j | j in db.jobs :: db.jobs[j].key != jobKey)
    && (forall e | e in db.events :: db.events[e].key != eventKey)
  }

  function JobsWithKey(db: Db, key: Key): set<Id> {
    set j | j in db.jobs && db.jobs[j].key == key
  }

  function EventsWithKey(db: Db, key: Key): set<Id> {
    set e | e in db.events && db.events[e].key == key
  }

  lemma KeysUnusedExactly(db: Db, jobKey: Key, eventKey: Key)
    ensures KeysUnused(db, jobKey, eventKey) <==> JobsWithKey(db, jobKey) == {} && EventsWithKey(db, eventKey) == {}
  {
    if JobsWithKey(db, jobKey) == {} && EventsWithKey(db, eventKey) == {} {
      forall j | j in db.jobs ensures db.jobs[j].key != jobKey {
        assert j !in JobsWithKey(db, jobKey);
      }
      forall e | e in db.events ensures db.events[e].key != eventKey {
        assert e !in EventsWithKey(db, eventKey);
      }
    }
  }

  // One version bump: the node's next desired version, the grants it changes, one job and one event for it.
  function Bump(db: Db, nodeId: Id, changed: map<Access, GrantRow>, subject: Subject, jobKey: Key, eventKey: Key): Db
    requires nodeId in db.nodes
  {
    CreateNodeSyncOperation(
      IncrementNodeVersion(db, nodeId).(grants := db.grants + changed), nodeId, subject, jobKey, eventKey)
  }

  lemma BumpWrites(db: Db, nodeId: Id, changed: map<Access, GrantRow>, subject: Subject, jobKey: Key, eventKey: Key)
    requires nodeId in db.nodes
    ensures var after := Bump(db, nodeId, changed, subject, jobKey, eventKey);
            && after == db.(nodes := IncrementNodeVersion(db, nodeId).nodes, grants := db.grants + changed,
                            jobs := after.jobs, events := after.events, nextId := db.nextId + 2)
            && after.jobs == db.jobs[db.nextId :=
                 SyncJob(nodeId, subject, db.nodes[nodeId].desiredConfigVersion + 1, jobKey, JobPending)]
            && after.events == db.events[db.nextId + 1 :=
                 OutboxEvent(db.nextId, subject, db.nodes[nodeId].desiredConfigVersion + 1, eventKey, EventPending)]
  {
  }

  // A key that names the next version of a node has not been used.
  lemma NextVersionKeyIsUnused(db: Db, nodeId: Id, key: Key)
    requires Valid(db) && nodeId in db.nodes
    requires match key
             case Cancellation(_, n, v) => n == nodeId && v == db.nodes[nodeId].desiredConfigVersion + 1
             case DeviceRevocation(g, v) => g.nodeId == nodeId && v == db.nodes[nodeId].desiredConfigVersion + 1
             case Reconciliation(n, v) => n == nodeId && v == db.nodes[nodeId].desiredConfigVersion + 1
             case _ => false
    ensures KeysUnused(db, key, key)
  {
  }

  // What a bump may do to one grant.
  ghost predicate ChangeAllowed(db: Db, nodeId: Id, k: Access, g: GrantRow) {
    && nodeId in db.nodes
    && k.nodeId == nodeId
    && k.deviceId in db.devices
    && g.desiredVersion == db.nodes[nodeId].desiredConfigVersion + 1
    && g.appliedVersion <= db.nodes[nodeId].desiredConfigVersion
    && g.id < db.nextId
    && (LiveGrant(g) ==> db.devices[k.deviceId].active && !db.nodes[nodeId].status.Quarantined?)
    && !db.nodes[nodeId].status.Provisioning?
    && (k in db.grants ==>
          && g.id == db.grants[k].id
          && g.credentialHash == db.grants[k].credentialHash
          && g.derivationVersion == db.grants[k].derivationVersion
          && g.appliedVersion == db.grants[k].appliedVersion
          && (LiveGrant(g) ==> LiveGrant(db.grants[k])))
  }

  ghost predicate BumpAllowed(db: Db, nodeId: Id, changed: map<Access, GrantRow>, jobKey: Key, eventKey: Key) {
    && nodeId in db.nodes
    && (forall k | k in changed :: ChangeAllowed(db, nodeId, k, changed[k]))
    && KeysUnused(db, jobKey, eventKey)
    && (eventKey == jobKey || (eventKey.Given? && jobKey.Given?))
    && KeyFits(jobKey, nodeId, db.nodes[nodeId].desiredConfigVersion + 1)
    && KeyFits(eventKey, nodeId, db.nodes[nodeId].desiredConfigVersion + 1)
  }

  // A job for a grant is for one of the grants that a bump changes.
  ghost predicate Leads(subject: Subject, changed: map<Access, GrantRow>) {
    subject.ForGrant? ==> exists k :: k in changed && changed[k].id == subject.grantId
  }

  lemma BumpNamesGrant(db: Db, nodeId: Id, changed: map<Access, GrantRow>, subject: Subject, jobKey: Key, eventKey: Key)
    requires BumpAllowed(db, nodeId, changed, jobKey, eventKey) && Leads(subject, changed)
    ensures NewJobsNameGrants(db, Bump(db, nodeId, changed, subject, jobKey, eventKey))
  {
  }

  lemma BumpKeepsGrants(db: Db, nodeId: Id, changed: map<Access, GrantRow>, subject: Subject, jobKey: Key,
                        eventKey: Key)
    requires NodesFit(db) && GrantsFit(db) && BumpAllowed(db, nodeId, changed, jobKey, eventKey)
    ensures GrantsFit(Bump(db, nodeId, changed, subject, jobKey, eventKey))
    ensures GrantsEvolve(db, Bump(db, nodeId, changed, subject, jobKey, eventKey))
  {
    var after := Bump(db, nodeId, changed, subject, jobKey, eventKey);
    forall k | k in after.grants
      ensures k.nodeId in after.nodes && k.deviceId in after.devices
      ensures GrantFits(after.grants[k], after.nodes[k.nodeId], after.devices[k.deviceId])
      ensures k !in db.grants && k.nodeId in db.nodes ==>
                db.nodes[k.nodeId].desiredConfigVersion < after.grants[k].desiredVersion
      ensures k in db.grants && k.nodeId in db.nodes ==>
                GrantEvolves(db.grants[k], after.grants[k], db.nodes[k.nodeId], after.nodes[k.nodeId])
    {
      if k in changed {
        assert ChangeAllowed(db, nodeId, k, changed[k]);
      } else {
        assert k in db.grants && GrantFits(db.grants[k], db.nodes[k.nodeId], db.devices[k.deviceId]);
      }
    }
  }

  // The new job is the only one for the new version.
  lemma BumpKeepsJobs(jobs: map<Id, SyncJob>, before: map<Id, Node>, after: map<Id, Node>, id: Id, job: SyncJob)
    requires JobsFit(jobs, before) && id !in jobs && job.nodeId in before
    requires after == before[job.nodeId := before[job.nodeId].(desiredConfigVersion := job.targetVersion)]
    requires job.targetVersion == before[job.nodeId].desiredConfigVersion + 1
    requires KeyFits(job.key, job.nodeId, job.targetVersion) && forall j | j in jobs :: jobs[j].key != job.key
    ensures JobsFit(jobs[id := job], after)
  {
    forall j | j in jobs ensures JobInOrder(jobs[j], after) {
      assert JobInOrder(jobs[j], before);
    }
    var more := jobs[id := job];
    assert OneJobPerVersion(more) && OneJobPerKey(more);
    forall n, v: nat | n in after && 1 <= v <= after[n].desiredConfigVersion ensures HasJob(more, n, v) {
      if n == job.nodeId && v == job.targetVersion {
        assert more[id] == job;
      } else {
        assert HasJob(jobs, n, v);
        var j :| j in jobs && jobs[j].nodeId == n && jobs[j].targetVersion == v;
        assert more[j] == jobs[j];
      }
    }
  }

  lemma BumpKeepsEvents(events: map<Id, OutboxEvent>, jobs: map<Id, SyncJob>, id: Id, event: OutboxEvent, job: SyncJob)
    requires EventsFit(events, jobs) && event.jobId !in jobs && id !in events
    requires EventInOrder(event, jobs[event.jobId := job]) && forall e | e in events :: events[e].key != event.key
    ensures EventsFit(events[id := event], jobs[event.jobId := job])
  {
    var moreEvents, moreJobs := events[id := event], jobs[event.jobId := job];
    forall e | e in moreEvents ensures EventInOrder(moreEvents[e], moreJobs) {
      assert e in events ==> EventInOrder(events[e], jobs);
    }
    forall e, f | e in moreEvents && f in moreEvents && moreEvents[e].jobId == moreEvents[f].jobId ensures e == f {
      assert e in events ==> EventInOrder(events[e], jobs);
      assert f in events ==> EventInOrder(events[f], jobs);
    }
    forall j | j in moreJobs ensures HasEvent(moreEvents, j) {
      if j == event.jobId {
        assert moreEvents[id] == event;
      } else {
        assert HasEvent(events, j);
        var e :| e in events && events[e].jobId == j;
        assert moreEvents[e] == events[e];
      }
    }
  }

  lemma BumpEvolves(db: Db, nodeId: Id, changed: map<Access, GrantRow>, subject: Subject, jobKey: Key, eventKey: Key)
    requires NodesFit(db) && IdsBelowNext(db) && nodeId in db.nodes
    requires forall k | k in changed :: changed[k].id < db.nextId
    ensures var after := Bump(db, nodeId, changed, subject, jobKey, eventKey);
            NodesFit(after) && NodesEvolve(db, after) && RecordsEvolve(db, after) && IdsBelowNext(after)
  {
  }

  lemma BumpKeepsRecords(db: Db, nodeId: Id, changed: map<Access, GrantRow>, subject: Subject, jobKey: Key,
                         eventKey: Key)
    requires RoutesFit(db) && ConfirmationsFit(db) && IdsBelowNext(db) && nodeId in db.nodes
    ensures var after := Bump(db, nodeId, changed, subject, jobKey, eventKey);
            RoutesFit(after) && ConfirmationsFit(after)
  {
  }

  // A version bump keeps every invariant of the tables.
  lemma BumpKeepsValid(db: Db, nodeId: Id, changed: map<Access, GrantRow>, subject: Subject, jobKey: Key, eventKey: Key)
    requires Valid(db) && BumpAllowed(db, nodeId, changed, jobKey, eventKey) && Leads(subject, changed)
    ensures Valid(Bump(db, nodeId, changed, subject, jobKey, eventKey))
    ensures Evolves(db, Bump(db, nodeId, changed, subject, jobKey, eventKey))
  {
    hide GrantsFit, JobsFit, EventsFit, DeliveriesFit, ConfirmationsFit, RoutesFit, NodesFit;
    hide NodesEvolve, GrantsEvolve, RecordsEvolve, NewJobsNameGrants, Leads;
    var after := Bump(db, nodeId, changed, subject, jobKey, eventKey);
    var version := after.nodes[nodeId].desiredConfigVersion;
    var job := SyncJob(nodeId, subject, version, jobKey, JobPending);
    BumpKeepsGrants(db, nodeId, changed, subject, jobKey, eventKey);
    BumpNamesGrant(db, nodeId, changed, subject, jobKey, eventKey);
    BumpKeepsJobs(db.jobs, db.nodes, after.nodes, db.nextId, job);
    BumpKeepsEvents(db.events, db.jobs, db.nextId + 1,
                    OutboxEvent(db.nextId, subject, version, eventKey, EventPending), job);
    BumpEvolves(db, nodeId, changed, subject, jobKey, eventKey);
    BumpKeepsRecords(db, nodeId, changed, subject, jobKey, eventKey);
    DeliveriesKeepFitting(db, after);
  }

  // Tables that say nothing about versions may change as long as grants still fit.
  // Known nodes keep their versions, new ones start at zero.
  ghost predicate SameVersions(a: Db, b: Db) {
    forall n | n in b.nodes :: if n in a.nodes
      then b.nodes[n] == a.nodes[n].(status := b.nodes[n].status)
      else b.nodes[n].desiredConfigVersion == b.nodes[n].appliedConfigVersion == 0
  }

  lemma SideTablesKeepJobs(a: Db, b: Db)
    requires JobsFit(a.jobs, a.nodes) && NodesEvolve(a, b) && SameVersions(a, b) && b.jobs == a.jobs
    ensures JobsFit(b.jobs, b.nodes)
  {
  }

  lemma SideTablesKeepValid(a: Db, b: Db)
    requires Valid(a) && NodesEvolve(a, b) && SameVersions(a, b) && a.nextId <= b.nextId
    requires b.jobs == a.jobs && b.events == a.events && b.deliveries == a.deliveries
    requires b.confirmations == a.confirmations
    requires GrantsFit(b) && GrantsEvolve(a, b) && RoutesFit(b) && IdsBelowNext(b)
    ensures Valid(b) && Evolves(a, b)
  {
    hide GrantsFit, EventsFit, DeliveriesFit, RoutesFit, GrantsEvolve, JobsFit;
    SideTablesKeepJobs(a, b);
    DeliveriesKeepFitting(a, b);
  }

  // Subscriptions, endpoints, profiles and routes take no part in the other invariants.
  lemma RouteTablesKeepValid(a: Db, b: Db)
    requires Valid(a) && RoutesFit(b)
    requires b == a.(subscriptions := b.subscriptions, endpoints := b.endpoints, profiles := b.profiles,
                     routes := b.routes)
    ensures Valid(b) && Evolves(a, b)
  {
    hide RoutesFit, JobsFit, EventsFit, GrantsEvolve, GrantsFit, DeliveriesFit;
    SameEntitiesEvolve(a, b);
    SideTablesKeepValid(a, b);
  }

  lemma SameEntitiesEvolve(a: Db, b: Db)
    requires GrantsFit(a) && IdsBelowNext(a)
    requires b.nodes == a.nodes && b.devices == a.devices && b.grants == a.grants && b.jobs == a.jobs
    requires b.events == a.events && b.nextId == a.nextId
    ensures NodesEvolve(a, b) && SameVersions(a, b) && GrantsFit(b) && GrantsEvolve(a, b) && IdsBelowNext(b)
  {
  }

  lemma IdsMayGrow(a: Db, nextId: Id)
    requires Valid(a) && a.nextId <= nextId
    ensures Valid(a.(nextId := nextId)) && Evolves(a, a.(nextId := nextId))
  {
    hide GrantsFit, EventsFit, JobsFit, DeliveryFits, Evolves;
    var b := a.(nextId := nextId);
    EvolvesReflexive(a);
    forall x | x in b.deliveries ensures DeliveryFits(b, x) {
      assert DeliveryFits(a, x);
      SameDeliveryFits(a, b, x);
    }
    SameGrantsFit(a, b);
    EvolvesAlike(a, b);
  }

  lemma SameDeliveryFits(a: Db, b: Db, x: Delivery)
    requires DeliveryFits(a, x) && b == a.(nextId := b.nextId)
    ensures DeliveryFits(b, x)
  {
  }

  lemma SameGrantsFit(a: Db, b: Db)
    requires GrantsFit(a) && b == a.(nextId := b.nextId)
    ensures GrantsFit(b)
  {
  }

  lemma EvolvesAlike(a: Db, b: Db)
    requires b == a.(nextId := b.nextId) && a.nextId <= b.nextId
    ensures Evolves(a, b)
  {
  }

  lemma FitsOf(db: Db)
    requires Valid(db)
    ensures GrantsFit(db) && NodesFit(db) && IdsBelowNext(db)
  {
  }
}
