// Confirmation of delivered configurations, and publication of connection routes.
module Orchestration {
  import opened Basics
  import opened Queries
  import opened XrayAccess
  import opened AccessState
  import opened NodeAgentConfiguration

  predicate AwaitsGrant(g: GrantRow, target: nat) {
    g.desiredVersion <= target && g.appliedVersion < g.desiredVersion
  }

  function Confirmed(g: GrantRow): GrantRow {
    g.(appliedVersion := g.desiredVersion, status := if g.status.Pending? then Active else g.status)
  }

  function ConfirmGrants(grants: map<Access, GrantRow>, nodeId: Id, target: nat): map<Access, GrantRow> {
    map k | k in grants ::
      if k.nodeId == nodeId && AwaitsGrant(grants[k], target) then Confirmed(grants[k]) else grants[k]
  }

  function RaiseApplied(node: Node, target: nat): Node {
    if node.appliedConfigVersion < target then node.(appliedConfigVersion := target) else node
  }

  // Everything an accepted confirmation writes.
  function Acknowledged(db: Db, x: Delivery): Db
    requires x.nodeId in db.nodes
  {
    db.(confirmations := db.confirmations[x.jobId := Confirmation(x.nodeId, x.targetVersion, x.content)],
        nodes := db.nodes[x.nodeId := RaiseApplied(db.nodes[x.nodeId], x.targetVersion)],
        grants := ConfirmGrants(db.grants, x.nodeId, x.targetVersion))
  }

  // At and below the version a node has confirmed, no grant is left to confirm.
  lemma NothingLeftBelowApplied(db: Db, nodeId: Id, target: nat)
    requires GrantsFit(db) && nodeId in db.nodes && target <= db.nodes[nodeId].appliedConfigVersion
    ensures ConfirmGrants(db.grants, nodeId, target) == db.grants
  {
    forall k | k in db.grants && k.nodeId == nodeId ensures !AwaitsGrant(db.grants[k], target) {
      assert GrantFits(db.grants[k], db.nodes[nodeId], db.devices[k.deviceId]);
    }
  }

  lemma ConfirmedGrantsFit(db: Db, x: Delivery)
    requires NodesFit(db) && GrantsFit(db) && x.nodeId in db.nodes
    requires x.targetVersion <= db.nodes[x.nodeId].desiredConfigVersion
    ensures GrantsFit(Acknowledged(db, x)) && NodesFit(Acknowledged(db, x))
    ensures NodesEvolve(db, Acknowledged(db, x)) && GrantsEvolve(db, Acknowledged(db, x))
  {
    var after := Acknowledged(db, x);
    forall k | k in after.grants
      ensures k.nodeId in after.nodes && k.deviceId in after.devices
      ensures GrantFits(after.grants[k], after.nodes[k.nodeId], after.devices[k.deviceId])
      ensures GrantEvolves(db.grants[k], after.grants[k], db.nodes[k.nodeId], after.nodes[k.nodeId])
    {
      assert GrantFits(db.grants[k], db.nodes[k.nodeId], db.devices[k.deviceId]);
    }
  }

  lemma AcknowledgedJobsFit(db: Db, x: Delivery)
    requires JobsFit(db.jobs, db.nodes) && x.nodeId in db.nodes
    ensures JobsFit(db.jobs, Acknowledged(db, x).nodes)
  {
  }

  lemma AcknowledgedRecordsFit(db: Db, x: Delivery)
    requires IdsBelowNext(db) && RoutesFit(db) && ConfirmationsFit(db) && x.nodeId in db.nodes
    requires x in db.deliveries && x.jobId in db.jobs && db.jobs[x.jobId].status.JobSucceeded?
    requires x.jobId !in db.confirmations
    ensures var after := Acknowledged(db, x);
            RoutesFit(after) && ConfirmationsFit(after) && IdsBelowNext(after) && RecordsEvolve(db, after)
  {
    var after := Acknowledged(db, x);
    forall k | k in after.grants ensures after.grants[k].id < after.nextId {
      assert after.grants[k].id == db.grants[k].id;
    }
  }

  lemma AcknowledgedKeepsValid(db: Db, x: Delivery)
    requires Valid(db) && x in db.deliveries && db.jobs[x.jobId].status.JobSucceeded? && x.jobId !in db.confirmations
    ensures Valid(Acknowledged(db, x)) && Evolves(db, Acknowledged(db, x))
  {
    hide GrantsFit, EventsFit, ConfirmationsFit, RoutesFit, NodesFit, JobsFit, IdsBelowNext, DeliveriesFit;
    hide NodesEvolve, GrantsEvolve, RecordsEvolve;
    DeliveredIsAsked(db, x);
    var after := Acknowledged(db, x);
    ConfirmedGrantsFit(db, x);
    AcknowledgedJobsFit(db, x);
    AcknowledgedRecordsFit(db, x);
    DeliveriesKeepFitting(db, after);
  }

  lemma DeliveredIsAsked(db: Db, x: Delivery)
    requires JobsFit(db.jobs, db.nodes) && DeliveriesFit(db) && x in db.deliveries
    ensures DeliveryFits(db, x)
    ensures 1 <= x.targetVersion <= db.nodes[x.nodeId].desiredConfigVersion
  {
  }

  // What a node was told about a grant is what the confirmation marks as applied.
  ghost predicate ConfirmsWhatWasTold(before: Db, after: Db, x: Delivery) {
    forall k | k in before.grants && k in after.grants && after.grants[k] != before.grants[k] ::
      && k.nodeId == x.nodeId
      && k in x.content.grants
      && after.grants[k].appliedVersion == after.grants[k].desiredVersion == x.content.grants[k].desiredVersion
      && after.grants[k].expiresAt == x.content.grants[k].expiresAt
      && (x.content.grants[k].status.Revoked? ==> !LiveGrant(after.grants[k]))
      && (!LiveGrant(after.grants[k]) && !x.content.grants[k].status.Revoked? ==>
            x.nodeId in after.nodes && after.nodes[x.nodeId].status.Deleted?)
  }

  lemma AcknowledgedConfirmsWhatWasTold(db: Db, x: Delivery)
    requires DeliveryFits(db, x)
    ensures ConfirmsWhatWasTold(db, Acknowledged(db, x), x)
  {
    var after := Acknowledged(db, x);
    forall k | k in db.grants && after.grants[k] != db.grants[k]
      ensures k in x.content.grants && StillAsTold(db.grants[k], x.content.grants[k], db.nodes[x.nodeId])
    {
    }
  }

  // What a confirmation writes, row by row: each grant of the node that it reaches and that was still to
  // be confirmed has its versions equal and is active if it was pending; the confirmation is recorded;
  // the node's confirmed version rises to the target; nothing else changes.
  ghost predicate ConfirmsRows(a: Db, b: Db, x: Delivery) {
    && b == a.(grants := b.grants, nodes := b.nodes, confirmations := b.confirmations)
    && b.confirmations == a.confirmations[x.jobId := Confirmation(x.nodeId, x.targetVersion, x.content)]
    && b.nodes.Keys == a.nodes.Keys && b.grants.Keys == a.grants.Keys
    && (forall n | n in a.nodes ::
          && b.nodes[n].status == a.nodes[n].status
          && b.nodes[n].desiredConfigVersion == a.nodes[n].desiredConfigVersion
          && (n == x.nodeId && a.nodes[n].appliedConfigVersion < x.targetVersion ==>
                b.nodes[n].appliedConfigVersion == x.targetVersion)
          && (n != x.nodeId || x.targetVersion <= a.nodes[n].appliedConfigVersion ==>
                b.nodes[n].appliedConfigVersion == a.nodes[n].appliedConfigVersion))
    && (forall k | k in a.grants ::
          if k.nodeId == x.nodeId && a.grants[k].desiredVersion <= x.targetVersion
             && a.grants[k].appliedVersion < a.grants[k].desiredVersion
          then
            && b.grants[k] == a.grants[k].(appliedVersion := b.grants[k].appliedVersion, status := b.grants[k].status)
            && b.grants[k].appliedVersion == a.grants[k].desiredVersion
            && (a.grants[k].status == Pending ==> b.grants[k].status == Active)
            && (a.grants[k].status != Pending ==> b.grants[k].status == a.grants[k].status)
          else b.grants[k] == a.grants[k])
  }

  lemma AcknowledgedConfirmsRows(db: Db, x: Delivery)
    requires x.nodeId in db.nodes
    ensures ConfirmsRows(db, Acknowledged(db, x), x)
  {
  }

  // A repeat writes what is there already.
  lemma RepeatConfirmsRows(db: Db, x: Delivery)
    requires Valid(db) && x.nodeId in db.nodes && x.targetVersion <= db.nodes[x.nodeId].appliedConfigVersion
    requires x.jobId in db.confirmations
    requires db.confirmations[x.jobId] == Confirmation(x.nodeId, x.targetVersion, x.content)
    ensures ConfirmsRows(db, db, x)
  {
    hide JobsFit, EventsFit, DeliveriesFit, RoutesFit;
    forall k | k in db.grants && k.nodeId == x.nodeId && db.grants[k].desiredVersion <= x.targetVersion
      ensures db.grants[k].appliedVersion == db.grants[k].desiredVersion
    {
      assert GrantFits(db.grants[k], db.nodes[x.nodeId], db.devices[k.deviceId]);
    }
  }

  // A grant that a confirmation reaches is in force from then on, so an agent that is told again serves it.
  lemma ConfirmedIsServed(
      a: Db, b: Db, x: Delivery, now: int, derive: CredentialBinding -> string, s: Snapshot, later: int, k: Access)
    requires ConfirmsRows(a, b, x) && x.nodeId in a.nodes && k in a.grants && k.nodeId == x.nodeId
    requires a.grants[k].desiredVersion <= x.targetVersion && a.grants[k].appliedVersion < a.grants[k].desiredVersion
    requires a.grants[k].status != Revoked && InForce(a.grants[k].(status := Active), k, now, derive)
    requires forall g :: g in ContentFor(b, x.nodeId, now, derive).grants.Values ==> g in s.grants
    requires later < a.grants[k].expiresAt
    ensures XrayClient(a.grants[k].id, derive(CredentialBinding(a.grants[k].id, k.deviceId, x.nodeId)))
            in SelectServableXrayClients(s, later)
  {
    assert b.grants[k] == a.grants[k].(appliedVersion := a.grants[k].desiredVersion, status := Active);
    hide ContentFor, SelectServableXrayClients, ConfirmsRows;
    EveryGrantInForceIsServed(b, x.nodeId, now, derive, s, later, k);
  }

  ghost predicate AllConfirmed(db: Db, nodeId: Id) {
    forall k | k in db.grants && k.nodeId == nodeId :: db.grants[k].appliedVersion == db.grants[k].desiredVersion
  }

  // A node whose confirmed version is its desired one has confirmed every one of its grants.
  lemma CaughtUpHasConfirmedAll(db: Db, nodeId: Id)
    requires Valid(db) && nodeId in db.nodes
    requires db.nodes[nodeId].desiredConfigVersion <= db.nodes[nodeId].appliedConfigVersion
    ensures AllConfirmed(db, nodeId)
  {
    forall k | k in db.grants && k.nodeId == nodeId ensures db.grants[k].appliedVersion == db.grants[k].desiredVersion {
      assert GrantFits(db.grants[k], db.nodes[nodeId], db.devices[k.deviceId]);
    }
  }

  datatype PublishInput =
    PublishInput(nodeId: Id, endpointId: Id, connectionProfileId: Id,
                 syncJobIdempotencyKey: string, outboxEventIdempotencyKey: string)
  {
    function Subject(): Subject { ForRoute(endpointId, connectionProfileId) }

    function RouteKey(): RouteKey { AccessState.RouteKey(endpointId, connectionProfileId) }

    function JobKey(): Key { Given(syncJobIdempotencyKey) }

    function EventKey(): Key { Given(outboxEventIdempotencyKey) }
  }

  datatype PublishResult = PublishResult(jobId: Id, eventId: Id, activationVersion: nat)

  predicate RouteCanOpen(db: Db, input: PublishInput) {
    && input.nodeId in db.nodes
    && db.nodes[input.nodeId].status.Healthy?
    && input.endpointId in db.endpoints
    && db.endpoints[input.endpointId].nodeId == input.nodeId
    && input.connectionProfileId in db.profiles
    && db.profiles[input.connectionProfileId].nodeId == input.nodeId
    && db.profiles[input.connectionProfileId].publicConfig.Some?
    && (input.RouteKey() in db.routes ==>
          db.routes[input.RouteKey()].nodeId == input.nodeId)
  }

  // The tables after a first publication: a bump that changes no grant, and the opened route.
  function Published(db: Db, input: PublishInput): Db
    requires RouteCanOpen(db, input)
  {
    OpenedRoute(Bump(Activated(CreatedRoute(db, input), input), input.nodeId, map[], input.Subject(), input.JobKey(),
                     input.EventKey()), input)
  }

  function CreatedRoute(db: Db, input: PublishInput): Db {
    if input.RouteKey() in db.routes then db
    else db.(routes := db.routes[input.RouteKey() := RouteRow(input.nodeId, None)])
  }

  function Activated(db: Db, input: PublishInput): Db
    requires input.endpointId in db.endpoints && input.connectionProfileId in db.profiles
  {
    db.(endpoints := db.endpoints[input.endpointId := db.endpoints[input.endpointId].(active := true)],
        profiles := db.profiles[input.connectionProfileId := db.profiles[input.connectionProfileId].(active := true)])
  }

  function OpenedRoute(db: Db, input: PublishInput): Db
    requires input.nodeId in db.nodes
  {
    db.(routes := db.routes[input.RouteKey() :=
          RouteRow(input.nodeId, Some(db.nodes[input.nodeId].desiredConfigVersion))])
  }

  lemma NoGrantChanges(db: Db)
    ensures db.(grants := db.grants + map[]) == db
  {
  }

  lemma RoutesOf(db: Db)
    requires Valid(db)
    ensures RoutesFit(db)
  {
  }

  lemma RouteRowFits(a: Db, b: Db, r: RouteKey, row: RouteRow)
    requires RoutesFit(a) && b.nodes == a.nodes && b.routes == a.routes[r := row] && row.nodeId in a.nodes
    requires row.activationVersion.Some? ==> row.activationVersion.value <= a.nodes[row.nodeId].desiredConfigVersion
    ensures RoutesFit(b)
  {
  }

  lemma CreatedRouteFits(db: Db, input: PublishInput)
    requires RoutesFit(db) && input.nodeId in db.nodes
    ensures RoutesFit(CreatedRoute(db, input))
            && CreatedRoute(db, input) == db.(routes := CreatedRoute(db, input).routes)
  {
    hide RoutesFit;
    if input.RouteKey() !in db.routes {
      RouteRowFits(db, CreatedRoute(db, input), input.RouteKey(), RouteRow(input.nodeId, None));
    }
  }

  lemma ActivatedKeepsValid(db: Db, input: PublishInput)
    requires Valid(db) && input.nodeId in db.nodes
    requires input.endpointId in db.endpoints && input.connectionProfileId in db.profiles
    ensures var a := Activated(CreatedRoute(db, input), input); Valid(a) && Evolves(db, a)
  {
    hide Valid, Evolves, RoutesFit, CreatedRoute;
    RoutesOf(db);
    CreatedRouteFits(db, input);
    var a := Activated(CreatedRoute(db, input), input);
    SameRoutesFit(CreatedRoute(db, input), a);
    RouteTablesKeepValid(db, a);
  }

  // Opening a route changes no grant, and its operation is for the node as a whole.
  lemma ActivatedAllowsBump(db: Db, input: PublishInput)
    requires RouteCanOpen(db, input) && KeysUnused(db, input.JobKey(), input.EventKey())
    ensures var a := Activated(CreatedRoute(db, input), input);
            BumpAllowed(a, input.nodeId, map[], input.JobKey(), input.EventKey()) && Leads(input.Subject(), map[])
  {
  }

  lemma BumpKeepsNodes(db: Db, nodeId: Id, changed: map<Access, GrantRow>, subject: Subject, jobKey: Key, eventKey: Key)
    requires nodeId in db.nodes
    ensures nodeId in Bump(db, nodeId, changed, subject, jobKey, eventKey).nodes
  {
  }

  lemma SameRoutesFit(a: Db, b: Db)
    requires RoutesFit(a) && b.routes == a.routes && b.nodes == a.nodes
    ensures RoutesFit(b)
  {
  }

  lemma OpenedKeepsValid(db: Db, input: PublishInput)
    requires Valid(db) && input.nodeId in db.nodes
    ensures Valid(OpenedRoute(db, input)) && Evolves(db, OpenedRoute(db, input))
  {
    hide Valid, Evolves, RoutesFit;
    RoutesOf(db);
    var after := OpenedRoute(db, input);
    RouteRowFits(db, after, input.RouteKey(),
                 RouteRow(input.nodeId, Some(db.nodes[input.nodeId].desiredConfigVersion)));
    RouteTablesKeepValid(db, after);
  }

  lemma PublishedKeepsValid(db: Db, input: PublishInput)
    requires Valid(db) && RouteCanOpen(db, input) && KeysUnused(db, input.JobKey(), input.EventKey())
    ensures Valid(Published(db, input)) && Evolves(db, Published(db, input))
  {
    hide Valid, Evolves, OpenedRoute, Activated, Bump, BumpAllowed, KeysUnused, Leads;
    ActivatedKeepsValid(db, input);
    ActivatedAllowsBump(db, input);
    var a := Activated(CreatedRoute(db, input), input);
    BumpKeepsNodes(a, input.nodeId, map[], input.Subject(), input.JobKey(), input.EventKey());
    BumpKeepsValid(a, input.nodeId, map[], input.Subject(), input.JobKey(), input.EventKey());
    var bumped := Bump(a, input.nodeId, map[], input.Subject(), input.JobKey(), input.EventKey());
    OpenedKeepsValid(bumped, input);
    EvolvesTransitive(db, a, bumped);
    EvolvesTransitive(db, bumped, Published(db, input));
  }

  // A publication, row by row: the node is told the route from the next version on, at the address and with
  // the configuration that are stored; no grant, no other node, route, endpoint or profile changes.
  ghost predicate PublishesRoute(a: Db, b: Db, input: PublishInput) {
    && b == a.(nodes := b.nodes, endpoints := b.endpoints, profiles := b.profiles, routes := b.routes,
               jobs := b.jobs, events := b.events, nextId := b.nextId)
    && input.nodeId in a.nodes && input.endpointId in a.endpoints && input.connectionProfileId in a.profiles
    && a.profiles[input.connectionProfileId].publicConfig.Some?
    && b.nodes.Keys == a.nodes.Keys
    && (forall n | n in a.nodes && n != input.nodeId :: b.nodes[n] == a.nodes[n])
    && var version := a.nodes[input.nodeId].desiredConfigVersion + 1;
       && b.nodes[input.nodeId]
            == Node(a.nodes[input.nodeId].status, version, a.nodes[input.nodeId].appliedConfigVersion)
       && b.endpoints == a.endpoints[input.endpointId := a.endpoints[input.endpointId].(active := true)]
       && b.profiles == a.profiles[input.connectionProfileId := a.profiles[input.connectionProfileId].(active := true)]
       && b.routes
         == a.routes[RouteKey(input.endpointId, input.connectionProfileId) := RouteRow(input.nodeId, Some(version))]
       && b.jobs == a.jobs[a.nextId := SyncJob(
            input.nodeId, ForRoute(input.endpointId, input.connectionProfileId), version,
            Given(input.syncJobIdempotencyKey), JobPending)]
       && b.events == a.events[a.nextId + 1 := OutboxEvent(
            a.nextId, ForRoute(input.endpointId, input.connectionProfileId), version,
            Given(input.outboxEventIdempotencyKey), EventPending)]
  }

  lemma PublishedPublishesRoute(db: Db, input: PublishInput)
    requires RouteCanOpen(db, input)
    ensures PublishesRoute(db, Published(db, input), input)
  {
    hide Bump, CreatedRoute, IncrementNodeVersion, PublishesRoute, Activated;
    var version := db.nodes[input.nodeId].desiredConfigVersion + 1;
    CreatedThenOpened(db, input, RouteRow(input.nodeId, Some(version)));
    var activated := ActivatedRows(db, input);
    BumpWrites(activated, input.nodeId, map[], input.Subject(), input.JobKey(), input.EventKey());
    OneNodeRaised(activated, input.nodeId);
    assert activated.grants + map[] == db.grants;
    WritesPublishRoute(db, Published(db, input), input);
  }

  ghost function ActivatedRows(db: Db, input: PublishInput): (activated: Db)
    requires RouteCanOpen(db, input)
    ensures activated == Activated(CreatedRoute(db, input), input)
    ensures activated == db.(
              routes := CreatedRoute(db, input).routes,
              endpoints := db.endpoints[input.endpointId := db.endpoints[input.endpointId].(active := true)],
              profiles :=
                db.profiles[input.connectionProfileId := db.profiles[input.connectionProfileId].(active := true)])
  {
    Activated(CreatedRoute(db, input), input)
  }

  lemma WritesPublishRoute(db: Db, after: Db, input: PublishInput)
    requires RouteCanOpen(db, input)
    requires after == db.(
               nodes := db.nodes[input.nodeId := Node(db.nodes[input.nodeId].status,
                                                      db.nodes[input.nodeId].desiredConfigVersion + 1,
                                                      db.nodes[input.nodeId].appliedConfigVersion)],
               endpoints := db.endpoints[input.endpointId := db.endpoints[input.endpointId].(active := true)],
               profiles := db.profiles[input.connectionProfileId :=
                 db.profiles[input.connectionProfileId].(active := true)],
               routes := db.routes[input.RouteKey() :=
                 RouteRow(input.nodeId, Some(db.nodes[input.nodeId].desiredConfigVersion + 1))],
               jobs := db.jobs[db.nextId := SyncJob(input.nodeId, input.Subject(),
                 db.nodes[input.nodeId].desiredConfigVersion + 1, input.JobKey(), JobPending)],
               events := db.events[db.nextId + 1 := OutboxEvent(db.nextId, input.Subject(),
                 db.nodes[input.nodeId].desiredConfigVersion + 1, input.EventKey(), EventPending)],
               nextId := db.nextId + 2)
    ensures PublishesRoute(db, after, input)
  {
  }

  lemma CreatedThenOpened(db: Db, input: PublishInput, row: RouteRow)
    ensures var created := CreatedRoute(db, input);
            && created == db.(routes := created.routes)
            && created.routes[input.RouteKey() := row] == db.routes[input.RouteKey() := row]
  {
  }

  // From then on the node is told the route, until it is changed again.
  lemma PublishedIsTold(a: Db, b: Db, input: PublishInput, now: int, derive: CredentialBinding -> string)
    requires RouteCanOpen(a, input) && PublishesRoute(a, b, input)
    ensures var r := RouteKey(input.endpointId, input.connectionProfileId);
            var told := ContentFor(b, input.nodeId, now, derive).routes;
            && r in told
            && told[r] == ToldRoute(a.nodes[input.nodeId].desiredConfigVersion + 1, a.endpoints[r.endpointId].address,
                                    a.profiles[r.connectionProfileId].protocol,
                                    a.profiles[r.connectionProfileId].publicConfig.value)
  {
  }

  // The result names the job and the event that carry the request's keys and its route.
  ghost predicate IsPublished(db: Db, input: PublishInput, r: PublishResult) {
    && r.jobId in db.jobs
    && r.eventId in db.events
    && db.jobs[r.jobId].key == input.JobKey()
    && db.jobs[r.jobId].nodeId == input.nodeId
    && db.jobs[r.jobId].targetVersion == r.activationVersion
    && db.jobs[r.jobId].subject == input.Subject()
    && db.events[r.eventId].jobId == r.jobId
    && db.events[r.eventId].key == input.EventKey()
  }

  // Whether the rows that carry a request's keys are those of the request.
  lemma PublishedBefore(db: Db, input: PublishInput, jobId: Option<Id>, eventId: Option<Id>)
    requires Valid(db)
    requires jobId == First(JobsWithKey(db, input.JobKey())) && eventId == First(EventsWithKey(db, input.EventKey()))
    ensures (exists r :: IsPublished(db, input, r)) <==>
              && jobId.Some? && eventId.Some?
              && jobId.value in db.jobs && eventId.value in db.events
              && db.jobs[jobId.value].nodeId == input.nodeId
              && db.jobs[jobId.value].subject == input.Subject() == db.events[eventId.value].subject
              && db.events[eventId.value].jobId == jobId.value
              && db.events[eventId.value].targetVersion == db.jobs[jobId.value].targetVersion
    ensures (exists r :: IsPublished(db, input, r)) ==>
              IsPublished(db, input, PublishResult(jobId.value, eventId.value, db.jobs[jobId.value].targetVersion))
  {
    hide GrantsFit, DeliveriesFit, ConfirmationsFit, RoutesFit;
    if r :| IsPublished(db, input, r) {
      assert r.jobId in JobsWithKey(db, input.JobKey()) && r.eventId in EventsWithKey(db, input.EventKey());
      assert OneJobPerKey(db.jobs) && OneEventPerKey(db.events);
    }
    if jobId.Some? && eventId.Some? {
      assert jobId.value in JobsWithKey(db, input.JobKey()) && eventId.value in EventsWithKey(db, input.EventKey());
      assert IsPublished(db, input, PublishResult(jobId.value, eventId.value, db.jobs[jobId.value].targetVersion)) <==>
               && db.jobs[jobId.value].nodeId == input.nodeId
               && db.jobs[jobId.value].subject == input.Subject()
               && db.events[eventId.value].jobId == jobId.value;
    }
  }

  class OrchestrationService {
    const database: Database

    constructor (database: Database)
      ensures this.database == database
    {
      this.database := database;
    }

    // Accepts a node's statement that it has applied a delivered configuration.
    method AcknowledgeNodeConfig(nodeId: Id, jobId: Id, target: nat, content: Content) returns (r: Tx<nat>)
      requires Valid(database.db)
      modifies database`db
      ensures Valid(database.db) && Evolves(old(database.db), database.db)
      ensures r.Aborted? ==> database.db == old(database.db)
      ensures r.Committed? <==>
                && Delivery(nodeId, jobId, target, content) in old(database.db).deliveries
                && old(database.db).jobs[jobId].status.JobSucceeded?
                && (jobId in old(database.db).confirmations ==>
                      old(database.db).confirmations[jobId] == Confirmation(nodeId, target, content))
      ensures r.Committed? ==>
                ConfirmsWhatWasTold(old(database.db), database.db, Delivery(nodeId, jobId, target, content))
      ensures r.Committed? ==> ConfirmsRows(old(database.db), database.db, Delivery(nodeId, jobId, target, content))
      ensures r.Committed? ==>
                && jobId in database.db.confirmations
                && database.db.confirmations[jobId] == Confirmation(nodeId, target, content)
      ensures r.Committed? ==>
                && nodeId in database.db.nodes && target <= database.db.nodes[nodeId].appliedConfigVersion
                && r.value == database.db.nodes[nodeId].appliedConfigVersion
      ensures r.Committed? && target == database.db.nodes[nodeId].desiredConfigVersion ==>
                AllConfirmed(database.db, nodeId)
      ensures r.Committed? ==>
                if jobId in old(database.db).confirmations then database.db == old(database.db)
                else database.db == Acknowledged(old(database.db), Delivery(nodeId, jobId, target, content))
    {
      hide Evolves, GrantsFit, EventsFit, NodesFit, IdsBelowNext, RoutesFit, AllConfirmed, Acknowledged, ConfirmGrants,
        ConfirmsWhatWasTold, ConfirmsRows, JobsFit, DeliveryFits;
      var t := database.db;
      var x := Delivery(nodeId, jobId, target, content);
      EvolvesReflexive(t);
      if x in t.deliveries {
        DeliveredIsAsked(t, x);
        DeliveredToKnownJob(t, x);
      }
      if jobId in t.confirmations {
        if t.confirmations[jobId] != Confirmation(nodeId, target, content) {
          return Aborted;
        }
        assert x in t.deliveries;
        NothingLeftBelowApplied(t, nodeId, target);
        t := t.(grants := ConfirmGrants(t.grants, nodeId, target));
        NothingConfirmed(t, x);
        RepeatConfirmsRows(t, x);
        if target == t.nodes[nodeId].desiredConfigVersion {
          CaughtUpHasConfirmedAll(t, nodeId);
        }
        database.db := t;
        return Committed(t.nodes[nodeId].appliedConfigVersion);
      }
      if x !in t.deliveries || !t.jobs[jobId].status.JobSucceeded? {
        return Aborted;
      }
      AcknowledgedKeepsValid(t, x);
      AcknowledgedConfirmsWhatWasTold(t, x);
      AcknowledgedConfirmsRows(t, x);
      AcknowledgedReaches(t, x);
      t := t.(confirmations := t.confirmations[jobId := Confirmation(nodeId, target, content)]);
      if t.nodes[nodeId].appliedConfigVersion < target {
        t := t.(nodes := t.nodes[nodeId := t.nodes[nodeId].(appliedConfigVersion := target)]);
      }
      t := t.(grants := ConfirmGrants(t.grants, nodeId, target));
      AcknowledgedIs(database.db, x, t);
      if target == t.nodes[nodeId].desiredConfigVersion {
        CaughtUpHasConfirmedAll(t, nodeId);
      }
      database.db := t;
      r := Committed(t.nodes[nodeId].appliedConfigVersion);
    }

    // Opens a route under the next version of its node, once for each pair of keys.
    method PublishConnectionRoute(input: PublishInput) returns (r: Tx<PublishResult>)
      requires Valid(database.db)
      modifies database`db
      ensures Valid(database.db) && Evolves(old(database.db), database.db)
      ensures r.Aborted? ==> database.db == old(database.db)
      ensures KeysUnused(old(database.db), input.JobKey(), input.EventKey()) ==>
                (r.Committed? <==> RouteCanOpen(old(database.db), input))
      ensures r.Committed? && KeysUnused(old(database.db), input.JobKey(), input.EventKey()) ==>
                && RouteCanOpen(old(database.db), input)
                && database.db == Published(old(database.db), input)
                && PublishesRoute(old(database.db), database.db, input)
      ensures !KeysUnused(old(database.db), input.JobKey(), input.EventKey()) ==>
                && database.db == old(database.db)
                && (r.Committed? <==> exists before :: IsPublished(old(database.db), input, before))
      ensures r.Committed? ==> IsPublished(database.db, input, r.value)
    {
      hide Valid, Evolves, Published, IsPublished, PublishesRoute;
      var t := database.db;
      EvolvesReflexive(t);
      var subject := input.Subject();
      var existingJob := First(JobsWithKey(t, input.JobKey()));
      var existingEvent := First(EventsWithKey(t, input.EventKey()));
      assert existingJob.Some? ==> existingJob.value in JobsWithKey(t, input.JobKey());
      assert existingEvent.Some? ==> existingEvent.value in EventsWithKey(t, input.EventKey());
      KeysUnusedExactly(t, input.JobKey(), input.EventKey());
      if existingJob.Some? || existingEvent.Some? {
        PublishedBefore(t, input, existingJob, existingEvent);
        if existingJob.None? || existingEvent.None? {
          return Aborted;
        }
        var job, event := t.jobs[existingJob.value], t.events[existingEvent.value];
        if job.nodeId != input.nodeId || job.subject != subject || event.subject != subject
           || event.jobId != existingJob.value || event.targetVersion != job.targetVersion {
          return Aborted;
        }
        return Committed(PublishResult(existingJob.value, existingEvent.value, job.targetVersion));
      }
      if input.nodeId !in t.nodes || !t.nodes[input.nodeId].status.Healthy? {
        return Aborted;
      }
      if input.endpointId !in t.endpoints || t.endpoints[input.endpointId].nodeId != input.nodeId {
        return Aborted;
      }
      if input.connectionProfileId !in t.profiles || t.profiles[input.connectionProfileId].nodeId != input.nodeId {
        return Aborted;
      }
      if t.profiles[input.connectionProfileId].publicConfig.None? {
        return Aborted;
      }
      var key := input.RouteKey();
      if key in t.routes && t.routes[key].nodeId != input.nodeId {
        return Aborted;
      }
      PublishedPublishesRoute(t, input);
      var result := OpenRoute(input);
      r := Committed(result);
    }

    // The writes of a first publication.
    method OpenRoute(input: PublishInput) returns (r: PublishResult)
      requires Valid(database.db) && RouteCanOpen(database.db, input)
      requires KeysUnused(database.db, input.JobKey(), input.EventKey())
      modifies database`db
      ensures Valid(database.db) && Evolves(old(database.db), database.db)
      ensures database.db == Published(old(database.db), input)
      ensures r.activationVersion == old(database.db).nodes[input.nodeId].desiredConfigVersion + 1
      ensures IsPublished(database.db, input, r)
    {
      hide Valid, Evolves, KeysUnused;
      PublishedKeepsValid(database.db, input);
      var t := CreatedRoute(database.db, input);
      t := Activated(t, input);
      t := IncrementNodeVersion(t, input.nodeId);
      NoGrantChanges(t);
      var activationVersion := t.nodes[input.nodeId].desiredConfigVersion;
      var jobId, eventId := t.nextId, t.nextId + 1;
      t := CreateNodeSyncOperation(t, input.nodeId, input.Subject(), input.JobKey(), input.EventKey());
      t := OpenedRoute(t, input);
      database.db := t;
      r := PublishResult(jobId, eventId, activationVersion);
    }
  }

  lemma DeliveredToKnownJob(db: Db, x: Delivery)
    requires DeliveryFits(db, x)
    ensures x.nodeId in db.nodes && x.jobId in db.jobs
  {
  }

  lemma DeliveriesAreKnown(db: Db)
    requires Valid(db)
    ensures forall x | x in db.deliveries :: x.nodeId in db.nodes && x.jobId in db.jobs
  {
    hide GrantsFit, JobsFit, EventsFit, ConfirmationsFit, RoutesFit, NodesFit, IdsBelowNext;
    forall x | x in db.deliveries ensures x.nodeId in db.nodes && x.jobId in db.jobs {
      DeliveredToKnownJob(db, x);
    }
  }

  lemma NothingConfirmed(db: Db, x: Delivery)
    ensures ConfirmsWhatWasTold(db, db, x)
  {
  }

  lemma AcknowledgedReaches(db: Db, x: Delivery)
    requires x.nodeId in db.nodes
    ensures x.targetVersion <= Acknowledged(db, x).nodes[x.nodeId].appliedConfigVersion
    ensures Acknowledged(db, x).confirmations[x.jobId] == Confirmation(x.nodeId, x.targetVersion, x.content)
  {
  }

  // The writes of a confirmation, in any grouping, amount to Acknowledged.
  lemma AcknowledgedIs(db: Db, x: Delivery, t: Db)
    requires x.nodeId in db.nodes
    requires t == db.(confirmations := db.confirmations[x.jobId := Confirmation(x.nodeId, x.targetVersion, x.content)],
                      nodes := t.nodes, grants := ConfirmGrants(db.grants, x.nodeId, x.targetVersion))
    requires t.nodes == if db.nodes[x.nodeId].appliedConfigVersion < x.targetVersion
                        then db.nodes[x.nodeId := db.nodes[x.nodeId].(appliedConfigVersion := x.targetVersion)]
                        else db.nodes
    ensures t == Acknowledged(db, x)
  {
  }
}
