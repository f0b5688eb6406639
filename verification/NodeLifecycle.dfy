// The life cycle of a node: draining, disabling, restoring and emergency quarantine.
module NodeLifecycle {
  import opened Basics
  import opened Queries
  import opened XrayAccess
  import opened AccessState
  import opened NodeAgentConfiguration
  import opened Orchestration
  import opened Revocation

  // A change of status closes the routes of the node.
  function WithStatus(db: Db, nodeId: Id, status: NodeStatus): Db
    requires nodeId in db.nodes
  {
    db.(nodes := db.nodes[nodeId := db.nodes[nodeId].(status := status)],
        routes := map r | r in db.routes ::
          if db.routes[r].nodeId == nodeId && db.nodes[nodeId].status != status
          then db.routes[r].(activationVersion := None) else db.routes[r])
  }

  // Whatever the change, the node is told no route any more; other nodes are told what they were.
  lemma StatusClosesRoutes(db: Db, nodeId: Id, status: NodeStatus, now: int, derive: CredentialBinding -> string)
    requires nodeId in db.nodes && db.nodes[nodeId].status != status
    ensures var b := WithStatus(db, nodeId, status);
            && b == db.(nodes := b.nodes, routes := b.routes)
            && b.nodes.Keys == db.nodes.Keys
            && b.nodes[nodeId]
              == Node(status, db.nodes[nodeId].desiredConfigVersion, db.nodes[nodeId].appliedConfigVersion)
            && ContentFor(b, nodeId, now, derive).routes == map[]
            && ContentFor(b, nodeId, now, derive).grants == ContentFor(db, nodeId, now, derive).grants
            && (forall n | n in db.nodes && n != nodeId ::
                  b.nodes[n] == db.nodes[n] && ContentFor(b, n, now, derive) == ContentFor(db, n, now, derive))
  {
    var b := WithStatus(db, nodeId, status);
    forall n | n in db.nodes && n != nodeId ensures ContentFor(b, n, now, derive) == ContentFor(db, n, now, derive) {
      forall r | r in db.routes ensures RouteIsOpen(b, r, n) == RouteIsOpen(db, r, n) {
      }
    }
  }

  function LiveGrantsOn(db: Db, nodeId: Id): set<Access> {
    set k | k in db.grants && k.nodeId == nodeId && LiveGrant(db.grants[k])
  }

  lemma StatusKeepsValid(db: Db, nodeId: Id, status: NodeStatus)
    requires Valid(db) && nodeId in db.nodes
    requires InAccessControlSync(db.nodes[nodeId].status)
    requires InAccessControlSync(status) || (status.Quarantined? && LiveGrantsOn(db, nodeId) == {})
    ensures Valid(WithStatus(db, nodeId, status)) && Evolves(db, WithStatus(db, nodeId, status))
  {
    hide JobsFit, EventsFit, DeliveriesFit, ConfirmationsFit, GrantsFit, GrantsEvolve, LiveGrantsOn;
    StatusKeepsGrants(db, nodeId, status);
    SideTablesKeepValid(db, WithStatus(db, nodeId, status));
  }

  lemma StatusKeepsGrants(db: Db, nodeId: Id, status: NodeStatus)
    requires GrantsFit(db) && IdsBelowNext(db) && nodeId in db.nodes
    requires InAccessControlSync(status) || (status.Quarantined? && LiveGrantsOn(db, nodeId) == {})
    ensures GrantsFit(WithStatus(db, nodeId, status)) && GrantsEvolve(db, WithStatus(db, nodeId, status))
  {
    var after := WithStatus(db, nodeId, status);
    forall k | k in after.grants
      ensures GrantFits(after.grants[k], after.nodes[k.nodeId], after.devices[k.deviceId])
    {
      assert GrantFits(db.grants[k], db.nodes[k.nodeId], db.devices[k.deviceId]);
      assert k !in LiveGrantsOn(db, nodeId) || InAccessControlSync(status);
    }
  }

  datatype QuarantineInput =
    QuarantineInput(nodeId: Id, syncJobIdempotencyKey: string, outboxEventIdempotencyKey: string)
  {
    function JobKey(): Key { Given(syncJobIdempotencyKey) }

    function EventKey(): Key { Given(outboxEventIdempotencyKey) }
  }

  datatype QuarantineResult = QuarantineResult(jobId: Option<Id>, eventId: Option<Id>, targetVersion: nat)

  class NodeLifecycleManager {
    const database: Database

    constructor (database: Database)
      ensures this.database == database
    {
      this.database := database;
    }

    // Moves a node back to HEALTHY. The database refuses while a version is unconfirmed,
    // so a node that becomes HEALTHY has confirmed every grant it holds.
    method RestoreHealthy(nodeId: Id) returns (r: Tx<NodeStatus>)
      requires Valid(database.db)
      modifies database`db
      ensures Valid(database.db) && Evolves(old(database.db), database.db)
      ensures r.Aborted? ==> database.db == old(database.db)
      ensures r.Committed? <==>
                && nodeId in old(database.db).nodes
                && (old(database.db).nodes[nodeId].status.Healthy?
                    || ((old(database.db).nodes[nodeId].status.Draining?
                         || old(database.db).nodes[nodeId].status.Disabled?)
                        && old(database.db).nodes[nodeId].desiredConfigVersion
                             <= old(database.db).nodes[nodeId].appliedConfigVersion))
      ensures database.db == if r.Committed? && nodeId in old(database.db).nodes
                                && !old(database.db).nodes[nodeId].status.Healthy?
                             then WithStatus(old(database.db), nodeId, Healthy) else old(database.db)
      ensures r.Committed? && nodeId in old(database.db).nodes && !old(database.db).nodes[nodeId].status.Healthy? ==>
                AllConfirmed(database.db, nodeId)
    {
      hide Valid, Evolves, AllConfirmed;
      var t := database.db;
      EvolvesReflexive(t);
      if nodeId !in t.nodes {
        return Aborted;
      }
      var node := t.nodes[nodeId];
      if node.status.Healthy? {
        return Committed(Healthy);
      }
      if !node.status.Draining? && !node.status.Disabled? {
        return Aborted;
      }
      if node.appliedConfigVersion < node.desiredConfigVersion {
        return Aborted;
      }
      StatusKeepsValid(t, nodeId, Healthy);
      t := WithStatus(t, nodeId, Healthy);
      CaughtUpHasConfirmedAll(t, nodeId);
      database.db := t;
      r := Committed(Healthy);
    }

    method Drain(nodeId: Id) returns (r: Tx<NodeStatus>)
      requires Valid(database.db)
      modifies database`db
      ensures Valid(database.db) && Evolves(old(database.db), database.db)
      ensures r.Committed? <==>
                && nodeId in old(database.db).nodes
                && (old(database.db).nodes[nodeId].status.Draining? || old(database.db).nodes[nodeId].status.Healthy?)
      ensures database.db == if r.Committed? && nodeId in old(database.db).nodes
                                && !old(database.db).nodes[nodeId].status.Draining?
                             then WithStatus(old(database.db), nodeId, Draining) else old(database.db)
    {
      hide Valid, Evolves, WithStatus;
      var t := database.db;
      EvolvesReflexive(t);
      if nodeId !in t.nodes {
        return Aborted;
      }
      if t.nodes[nodeId].status.Draining? {
        return Committed(Draining);
      }
      if !t.nodes[nodeId].status.Healthy? {
        return Aborted;
      }
      StatusKeepsValid(t, nodeId, Draining);
      database.db := WithStatus(t, nodeId, Draining);
      r := Committed(Draining);
    }

    method Disable(nodeId: Id) returns (r: Tx<NodeStatus>)
      requires Valid(database.db)
      modifies database`db
      ensures Valid(database.db) && Evolves(old(database.db), database.db)
      ensures r.Committed? <==>
                nodeId in old(database.db).nodes && InAccessControlSync(old(database.db).nodes[nodeId].status)
      ensures database.db == if r.Committed? && nodeId in old(database.db).nodes
                                && !old(database.db).nodes[nodeId].status.Disabled?
                             then WithStatus(old(database.db), nodeId, Disabled) else old(database.db)
    {
      hide Valid, Evolves, WithStatus;
      var t := database.db;
      EvolvesReflexive(t);
      if nodeId !in t.nodes {
        return Aborted;
      }
      if t.nodes[nodeId].status.Disabled? {
        return Committed(Disabled);
      }
      if !t.nodes[nodeId].status.Healthy? && !t.nodes[nodeId].status.Draining? {
        return Aborted;
      }
      StatusKeepsValid(t, nodeId, Disabled);
      database.db := WithStatus(t, nodeId, Disabled);
      r := Committed(Disabled);
    }

    // Revokes every live grant of a node under one new version and takes the node out of
    // service for good. A repeat with the same keys changes nothing.
    method Quarantine(input: QuarantineInput, now: int) returns (r: Tx<QuarantineResult>)
      requires Valid(database.db)
      modifies database`db
      ensures Valid(database.db) && Evolves(old(database.db), database.db)
      ensures r.Aborted? ==> database.db == old(database.db)
      ensures r.Committed? ==>
                && input.nodeId in database.db.nodes && database.db.nodes[input.nodeId].status.Quarantined?
                && LiveGrantsOn(database.db, input.nodeId) == {}
      ensures KeysUnused(old(database.db), input.JobKey(), input.EventKey()) ==>
                (r.Committed? <==>
                   && input.nodeId in old(database.db).nodes
                   && (old(database.db).nodes[input.nodeId].status.Quarantined?
                       || InAccessControlSync(old(database.db).nodes[input.nodeId].status)))
      ensures input.nodeId in old(database.db).nodes && old(database.db).nodes[input.nodeId].status.Quarantined? ==>
                database.db == old(database.db)
      // A request whose keys are known is answered exactly when they were used for it.
      ensures !KeysUnused(old(database.db), input.JobKey(), input.EventKey()) ==>
                && database.db == old(database.db)
                && (r.Committed? <==> exists j, e :: AnswersQuarantine(old(database.db), input, j, e))
                && (r.Committed? ==>
                      && r.value.jobId.Some? && r.value.eventId.Some?
                      && AnswersQuarantine(database.db, input, r.value.jobId.value, r.value.eventId.value)
                      && r.value.targetVersion == database.db.jobs[r.value.jobId.value].targetVersion)
      ensures r.Committed? && (input.nodeId in old(database.db).nodes ==>
                               !old(database.db).nodes[input.nodeId].status.Quarantined?) ==>
                && input.nodeId in old(database.db).nodes
                && IsQuarantined(old(database.db), database.db, input.nodeId, now)
                && QuarantinesRows(old(database.db), database.db, input.nodeId, now)
                && r.value.targetVersion == database.db.nodes[input.nodeId].desiredConfigVersion
                && (r.value.jobId.Some? <==> LiveGrantsOn(old(database.db), input.nodeId) != {})
                && NamesQuarantineJob(database.db, input, r.value.jobId, r.value.eventId)
    {
      hide Valid, Evolves, WithStatus, IsQuarantined, QuarantinesRows, KeysUnused, NamesQuarantineJob;
      var t := database.db;
      EvolvesReflexive(t);
      var existingJob := First(JobsWithKey(t, input.JobKey()));
      var existingEvent := First(EventsWithKey(t, input.EventKey()));
      KeysUnusedExactly(t, input.JobKey(), input.EventKey());
      assert existingJob.Some? ==> existingJob.value in JobsWithKey(t, input.JobKey());
      assert existingEvent.Some? ==> existingEvent.value in EventsWithKey(t, input.EventKey());
      if existingJob.Some? || existingEvent.Some? {
        QuarantinedBefore(t, input, existingJob, existingEvent);
        if existingJob.None? || existingEvent.None? {
          return Aborted;
        }
        var job, event := t.jobs[existingJob.value], t.events[existingEvent.value];
        if job.nodeId != input.nodeId || !job.subject.ForGrant? || job.nodeId !in t.nodes
           || !t.nodes[job.nodeId].status.Quarantined? || event.subject != job.subject {
          return Aborted;
        }
        QuarantinedHoldsNoLiveGrant(t, input.nodeId);
        return Committed(QuarantineResult(existingJob, existingEvent, job.targetVersion));
      }
      if input.nodeId !in t.nodes {
        return Aborted;
      }
      if t.nodes[input.nodeId].status.Quarantined? {
        QuarantinedHoldsNoLiveGrant(t, input.nodeId);
        return Committed(QuarantineResult(None, None, t.nodes[input.nodeId].desiredConfigVersion));
      }
      if !InAccessControlSync(t.nodes[input.nodeId].status) {
        return Aborted;
      }
      var result := RevokeAllAndQuarantine(input, now);
      r := Committed(result);
    }

    method RevokeAllAndQuarantine(input: QuarantineInput, now: int) returns (r: QuarantineResult)
      requires Valid(database.db) && input.nodeId in database.db.nodes
      requires InAccessControlSync(database.db.nodes[input.nodeId].status)
      requires KeysUnused(database.db, input.JobKey(), input.EventKey())
      modifies database`db
      ensures Valid(database.db) && Evolves(old(database.db), database.db)
      ensures IsQuarantined(old(database.db), database.db, input.nodeId, now)
      ensures QuarantinesRows(old(database.db), database.db, input.nodeId, now)
      ensures input.nodeId in database.db.nodes && database.db.nodes[input.nodeId].status.Quarantined?
      ensures LiveGrantsOn(database.db, input.nodeId) == {}
      ensures r.jobId.Some? <==> LiveGrantsOn(old(database.db), input.nodeId) != {}
      ensures NamesQuarantineJob(database.db, input, r.jobId, r.eventId)
      ensures r.targetVersion == database.db.nodes[input.nodeId].desiredConfigVersion
    {
      hide Valid, Evolves, KeysUnused, RevokedRows, LiveGrantsOn, QuarantinesRows;
      var t, jobId, eventId := RevokeAllLive(input, now);
      var nodeId := input.nodeId;
      StatusKeepsValid(t, nodeId, Quarantined);
      EvolvesTransitive(database.db, t, WithStatus(t, nodeId, Quarantined));
      StillNoneLive(t, WithStatus(t, nodeId, Quarantined), nodeId);
      SameRoutesClose(database.db, t, nodeId);
      t := WithStatus(t, nodeId, Quarantined);
      QuarantinedRows(database.db, t, nodeId, now);
      database.db := t;
      r := QuarantineResult(jobId, eventId, t.nodes[nodeId].desiredConfigVersion);
    }

    method RevokeAllLive(input: QuarantineInput, now: int) returns (t: Db, jobId: Option<Id>, eventId: Option<Id>)
      requires Valid(database.db) && input.nodeId in database.db.nodes
      requires InAccessControlSync(database.db.nodes[input.nodeId].status)
      requires KeysUnused(database.db, input.JobKey(), input.EventKey())
      ensures Valid(t) && Evolves(database.db, t)
      ensures LiveGrantsOn(t, input.nodeId) == {}
      ensures t.deliveries == database.db.deliveries && t.routes == database.db.routes
      ensures t.grants == database.db.grants
                + RevokedRows(database.db, input.nodeId, LiveGrantsOn(database.db, input.nodeId), now)
      ensures t.nodes == if LiveGrantsOn(database.db, input.nodeId) == {} then database.db.nodes
                         else IncrementNodeVersion(database.db, input.nodeId).nodes
      ensures jobId.Some? <==> LiveGrantsOn(database.db, input.nodeId) != {}
      ensures NamesQuarantineJob(t, input, jobId, eventId)
    {
      hide Valid, Evolves, KeysUnused, RevokeOn, RevokedRows, LiveGrantsOn, NamesQuarantineJob, IncrementNodeVersion;
      t, jobId, eventId := database.db, None, None;
      var live := LiveGrantsOn(t, input.nodeId);
      var lead := First(GrantIds(t, live));
      if lead.Some? {
        AllLiveRevoked(t, input, now, lead.value);
        t := RevokeOn(t, input.nodeId, live, now, lead.value, input.JobKey(), input.EventKey());
        jobId, eventId := Some(database.db.nextId), Some(database.db.nextId + 1);
      } else {
        NoneNamed(t, input);
        NoLead(t, input.nodeId, now);
        EvolvesReflexive(t);
      }
    }
  }

  // The job and the event that carry the request's keys tell of grants of the quarantined node.
  ghost predicate AnswersQuarantine(db: Db, input: QuarantineInput, jobId: Id, eventId: Id) {
    && jobId in db.jobs && eventId in db.events && input.nodeId in db.nodes
    && db.jobs[jobId].key == input.JobKey()
    && db.jobs[jobId].nodeId == input.nodeId
    && db.jobs[jobId].subject.ForGrant?
    && db.events[eventId].key == input.EventKey()
    && db.events[eventId].subject == db.jobs[jobId].subject
    && db.nodes[input.nodeId].status.Quarantined?
  }

  // Whether the rows that carry a request's keys are those of the request.
  lemma QuarantinedBefore(db: Db, input: QuarantineInput, jobId: Option<Id>, eventId: Option<Id>)
    requires Valid(db)
    requires jobId == First(JobsWithKey(db, input.JobKey())) && eventId == First(EventsWithKey(db, input.EventKey()))
    ensures (exists j, e :: AnswersQuarantine(db, input, j, e)) <==>
              jobId.Some? && eventId.Some? && AnswersQuarantine(db, input, jobId.value, eventId.value)
  {
    hide GrantsFit, DeliveriesFit, ConfirmationsFit, RoutesFit;
    if j, e :| AnswersQuarantine(db, input, j, e) {
      assert j in JobsWithKey(db, input.JobKey()) && e in EventsWithKey(db, input.EventKey());
      assert OneJobPerKey(db.jobs) && OneEventPerKey(db.events);
    }
  }

  ghost predicate NamesQuarantineJob(db: Db, input: QuarantineInput, jobId: Option<Id>, eventId: Option<Id>) {
    if jobId.None? then eventId.None?
    else
      && jobId.value in db.jobs
      && db.jobs[jobId.value].key == input.JobKey()
      && db.jobs[jobId.value].nodeId == input.nodeId
      && input.nodeId in db.nodes
      && db.jobs[jobId.value].targetVersion == db.nodes[input.nodeId].desiredConfigVersion
      && eventId.Some?
      && eventId.value in db.events
      && db.events[eventId.value].key == input.EventKey()
      && db.events[eventId.value].jobId == jobId.value
  }

  // Every grant that was live is revoked, under a new version when there was one, and no other changed.
  ghost predicate IsQuarantined(a: Db, b: Db, nodeId: Id, now: int)
    requires nodeId in a.nodes
  {
    && b.grants == a.grants + RevokedRows(a, nodeId, LiveGrantsOn(a, nodeId), now)
    && b.nodes == a.nodes[nodeId := Node(
         Quarantined,
         a.nodes[nodeId].desiredConfigVersion + (if LiveGrantsOn(a, nodeId) == {} then 0 else 1),
         a.nodes[nodeId].appliedConfigVersion)]
    && b.deliveries == a.deliveries
  }

  // Row by row: each live grant of the node is revoked as of now, its status and, if there was such a grant,
  // its version change, its routes are closed, and nothing else about grants, nodes and routes changes.
  ghost predicate QuarantinesRows(a: Db, b: Db, nodeId: Id, now: int) {
    && b.grants.Keys == a.grants.Keys && b.nodes.Keys == a.nodes.Keys && b.routes.Keys == a.routes.Keys
    && nodeId in a.nodes
    && (forall k | k in a.grants ::
          if k.nodeId == nodeId && a.grants[k].status != Revoked
          then IsRevokedNow(a.grants[k], b.grants[k], a.nodes[nodeId], now)
          else b.grants[k] == a.grants[k])
    && (forall n | n in a.nodes && n != nodeId :: b.nodes[n] == a.nodes[n])
    && b.nodes[nodeId].status == Quarantined
    && b.nodes[nodeId].appliedConfigVersion == a.nodes[nodeId].appliedConfigVersion
    && b.nodes[nodeId].desiredConfigVersion == a.nodes[nodeId].desiredConfigVersion
         + (if exists k :: k in a.grants && k.nodeId == nodeId && a.grants[k].status != Revoked then 1 else 0)
    && (forall r | r in a.routes ::
          if a.routes[r].nodeId == nodeId then b.routes[r] == RouteRow(nodeId, None) else b.routes[r] == a.routes[r])
  }

  lemma LiveGrantsExactly(a: Db, nodeId: Id)
    ensures LiveGrantsOn(a, nodeId) != {} <==>
              exists k :: k in a.grants && k.nodeId == nodeId && a.grants[k].status != Revoked
  {
    if k :| k in a.grants && k.nodeId == nodeId && a.grants[k].status != Revoked {
      assert k in LiveGrantsOn(a, nodeId);
    }
  }

  lemma QuarantinedRoutes(a: Db, nodeId: Id)
    requires nodeId in a.nodes && InAccessControlSync(a.nodes[nodeId].status)
    ensures var routes := WithStatus(a, nodeId, Quarantined).routes;
            && routes.Keys == a.routes.Keys
            && forall r | r in a.routes ::
                 routes[r] == if a.routes[r].nodeId == nodeId then RouteRow(nodeId, None) else a.routes[r]
  {
  }

  lemma QuarantinedRows(a: Db, b: Db, nodeId: Id, now: int)
    requires nodeId in a.nodes && InAccessControlSync(a.nodes[nodeId].status) && IsQuarantined(a, b, nodeId, now)
    requires b.routes == WithStatus(a, nodeId, Quarantined).routes
    ensures QuarantinesRows(a, b, nodeId, now)
  {
    hide WithStatus;
    LiveGrantsExactly(a, nodeId);
    QuarantinedRoutes(a, nodeId);
  }

  lemma QuarantinedHoldsNoLiveGrant(db: Db, nodeId: Id)
    requires Valid(db) && nodeId in db.nodes && db.nodes[nodeId].status.Quarantined?
    ensures LiveGrantsOn(db, nodeId) == {}
  {
  }

  lemma SameRoutesClose(a: Db, t: Db, nodeId: Id)
    requires nodeId in a.nodes && nodeId in t.nodes && t.routes == a.routes
    requires t.nodes[nodeId].status == a.nodes[nodeId].status
    ensures WithStatus(t, nodeId, Quarantined).routes == WithStatus(a, nodeId, Quarantined).routes
  {
  }

  lemma NoneNamed(db: Db, input: QuarantineInput)
    ensures NamesQuarantineJob(db, input, None, None)
  {
  }

  // All live grants of the node revoked under its next version.
  lemma AllLiveRevoked(db: Db, input: QuarantineInput, now: int, lead: Id)
    requires Valid(db) && input.nodeId in db.nodes && InAccessControlSync(db.nodes[input.nodeId].status)
    requires KeysUnused(db, input.JobKey(), input.EventKey()) && lead in GrantIds(db, LiveGrantsOn(db, input.nodeId))
    ensures var t :=
            RevokeOn(db, input.nodeId, LiveGrantsOn(db, input.nodeId), now, lead, input.JobKey(), input.EventKey());
            && Valid(t) && Evolves(db, t)
            && LiveGrantsOn(db, input.nodeId) != {} && LiveGrantsOn(t, input.nodeId) == {}
            && t.deliveries == db.deliveries && t.routes == db.routes
            && t.grants == db.grants + RevokedRows(db, input.nodeId, LiveGrantsOn(db, input.nodeId), now)
            && t.nodes == IncrementNodeVersion(db, input.nodeId).nodes
            && NamesQuarantineJob(t, input, Some(db.nextId), Some(db.nextId + 1))
  {
    hide Valid, Evolves, KeysUnused, RevokeOn, RevokedRows, LiveGrantsOn;
    var live := LiveGrantsOn(db, input.nodeId);
    LiveOnNode(db, input.nodeId);
    RevokeOnKeepsValid(db, input.nodeId, live, now, lead, input.JobKey(), input.EventKey());
    RevokeOnWrites(db, input.nodeId, live, now, lead, input.JobKey(), input.EventKey());
    RevokeOnAnnounces(db, input.nodeId, live, now, lead, input.JobKey(), input.EventKey());
    NoneLiveAfter(db, RevokeOn(db, input.nodeId, live, now, lead, input.JobKey(), input.EventKey()), input.nodeId, now);
  }

  lemma LiveOnNode(db: Db, nodeId: Id)
    ensures AllLive(db, LiveGrantsOn(db, nodeId))
    ensures forall k | k in LiveGrantsOn(db, nodeId) :: k.nodeId == nodeId
  {
  }

  lemma NoneLiveAfter(a: Db, b: Db, nodeId: Id, now: int)
    requires nodeId in a.nodes && LiveGrantsOn(a, nodeId) != {} && InAccessControlSync(a.nodes[nodeId].status)
    requires b.grants == a.grants + RevokedRows(a, nodeId, LiveGrantsOn(a, nodeId), now)
    ensures LiveGrantsOn(b, nodeId) == {}
  {
  }

  lemma NoLead(db: Db, nodeId: Id, now: int)
    requires nodeId in db.nodes && GrantIds(db, LiveGrantsOn(db, nodeId)) == {}
    ensures LiveGrantsOn(db, nodeId) == {}
    ensures db.grants + RevokedRows(db, nodeId, LiveGrantsOn(db, nodeId), now) == db.grants
  {
    assert forall k | k in LiveGrantsOn(db, nodeId) :: db.grants[k].id in GrantIds(db, LiveGrantsOn(db, nodeId));
  }

  lemma StillNoneLive(a: Db, b: Db, nodeId: Id)
    requires b.grants == a.grants && LiveGrantsOn(a, nodeId) == {}
    ensures LiveGrantsOn(b, nodeId) == {}
  {
  }
}
