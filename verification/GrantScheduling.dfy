// New grants: one device on one node at an administrator's request, or every
// device of a user on every node when a trial starts.
module GrantScheduling {
  import opened Basics
  import opened Queries
  import opened XrayAccess
  import opened AccessState
  import opened NodeAgentConfiguration
  import opened Orchestration
  import opened AccessReconciliation

  datatype ScheduleInput = ScheduleInput(
    nodeId: Id, deviceId: Id, expiresAt: int, syncJobIdempotencyKey: string, outboxEventIdempotencyKey: string)
  {
    function Grant(): Access { Access(nodeId, deviceId) }

    function JobKey(): Key { Given(syncJobIdempotencyKey) }

    function EventKey(): Key { Given(outboxEventIdempotencyKey) }
  }

  datatype ScheduleResult = ScheduleResult(grantId: Id, jobId: Id, eventId: Id, targetVersion: nat)

  // The result names the grant, the job and the event that carry the request's keys.
  ghost predicate IsScheduled(db: Db, input: ScheduleInput, r: ScheduleResult) {
    && r.jobId in db.jobs
    && r.eventId in db.events
    && input.Grant() in db.grants
    && db.grants[input.Grant()].id == r.grantId
    && db.jobs[r.jobId].key == input.JobKey()
    && db.jobs[r.jobId].nodeId == input.nodeId
    && db.jobs[r.jobId].subject == ForGrant(r.grantId) == db.events[r.eventId].subject
    && db.jobs[r.jobId].targetVersion == r.targetVersion
    && db.events[r.eventId].key == input.EventKey()
  }

  // Whenever and however often it is asked, one request has one result.
  lemma ScheduledOnce(db: Db, later: Db, input: ScheduleInput, r: ScheduleResult, again: ScheduleResult)
    requires Valid(db) && Valid(later) && Evolves(db, later)
    requires IsScheduled(db, input, r) && IsScheduled(later, input, again)
    ensures again == r
  {
    hide GrantsFit, DeliveriesFit, ConfirmationsFit, RoutesFit;
    assert JobEvolves(db.jobs[r.jobId], later.jobs[r.jobId]);
    assert EventEvolves(db.events[r.eventId], later.events[r.eventId]);
    assert OneJobPerKey(later.jobs) && OneEventPerKey(later.events);
  }

  // Whether the rows that carry a request's keys are those of the request.
  lemma ScheduledBefore(db: Db, input: ScheduleInput, jobId: Option<Id>, eventId: Option<Id>)
    requires Valid(db)
    requires jobId == First(JobsWithKey(db, input.JobKey())) && eventId == First(EventsWithKey(db, input.EventKey()))
    ensures (exists r :: IsScheduled(db, input, r)) <==>
              && jobId.Some? && eventId.Some?
              && jobId.value in db.jobs && eventId.value in db.events && input.Grant() in db.grants
              && db.jobs[jobId.value].nodeId == input.nodeId
              && db.jobs[jobId.value].subject == ForGrant(db.grants[input.Grant()].id)
                == db.events[eventId.value].subject
    ensures (exists r :: IsScheduled(db, input, r)) ==>
              IsScheduled(db, input, ScheduleResult(db.grants[input.Grant()].id, jobId.value, eventId.value,
                                                    db.jobs[jobId.value].targetVersion))
  {
    hide GrantsFit, DeliveriesFit, ConfirmationsFit, RoutesFit;
    if r :| IsScheduled(db, input, r) {
      assert r.jobId in JobsWithKey(db, input.JobKey()) && r.eventId in EventsWithKey(db, input.EventKey());
      assert OneJobPerKey(db.jobs) && OneEventPerKey(db.events);
    }
    if jobId.Some? && eventId.Some? && input.Grant() in db.grants {
      assert jobId.value in JobsWithKey(db, input.JobKey()) && eventId.value in EventsWithKey(db, input.EventKey());
      var before :=
        ScheduleResult(db.grants[input.Grant()].id, jobId.value, eventId.value, db.jobs[jobId.value].targetVersion);
      assert IsScheduled(db, input, before) <==>
               && db.jobs[jobId.value].nodeId == input.nodeId
               && db.jobs[jobId.value].subject == ForGrant(before.grantId) == db.events[eventId.value].subject;
    }
  }

  predicate CanBeScheduled(db: Db, input: ScheduleInput) {
    && input.deviceId in db.devices
    && db.devices[input.deviceId].active
    && input.nodeId in db.nodes
    && db.nodes[input.nodeId].status.Healthy?
    && input.Grant() !in db.grants
  }

  function ScheduledGrant(db: Db, input: ScheduleInput, derive: CredentialBinding -> string): map<Access, GrantRow>
    requires input.nodeId in db.nodes
  {
    map[input.Grant() := NewGrant(
          db.nextId, input.Grant(), input.expiresAt, db.nodes[input.nodeId].desiredConfigVersion + 1, derive)]
  }

  function Scheduled(db: Db, input: ScheduleInput, derive: CredentialBinding -> string): Db
    requires input.nodeId in db.nodes
  {
    Bump(db.(nextId := db.nextId + 1), input.nodeId, ScheduledGrant(db, input, derive), ForGrant(db.nextId),
         input.JobKey(), input.EventKey())
  }

  // Row by row: one new grant, waiting for the node, under the node's next version, with one job and one
  // event that name it; nothing else changes.
  ghost predicate SchedulesGrant(a: Db, b: Db, input: ScheduleInput, derive: CredentialBinding -> string) {
    && b == a.(grants := b.grants, nodes := b.nodes, jobs := b.jobs, events := b.events, nextId := b.nextId)
    && input.nodeId in a.nodes
    && var k, version := Access(input.nodeId, input.deviceId), a.nodes[input.nodeId].desiredConfigVersion + 1;
       && k !in a.grants && k in b.grants && b.grants == a.grants[k := b.grants[k]]
       && NewlyGranted(b.grants[k], k, input.expiresAt, version, derive)
       && b.nodes == a.nodes[input.nodeId :=
            Node(a.nodes[input.nodeId].status, version, a.nodes[input.nodeId].appliedConfigVersion)]
       && var subject := ForGrant(b.grants[k].id);
          && b.jobs == a.jobs[a.nextId + 1 :=
               SyncJob(input.nodeId, subject, version, Given(input.syncJobIdempotencyKey), JobPending)]
          && b.events == a.events[a.nextId + 2 :=
               OutboxEvent(a.nextId + 1, subject, version, Given(input.outboxEventIdempotencyKey), EventPending)]
  }

  lemma ScheduledSchedules(db: Db, input: ScheduleInput, derive: CredentialBinding -> string)
    requires CanBeScheduled(db, input)
    ensures SchedulesGrant(db, Scheduled(db, input, derive), input, derive)
  {
    hide Bump, IncrementNodeVersion, NewlyGranted;
    var base, k := db.(nextId := db.nextId + 1), input.Grant();
    var version := db.nodes[input.nodeId].desiredConfigVersion + 1;
    NewGrantIsNewlyGranted(db.nextId, k, input.expiresAt, version, derive);
    hide NewGrant;
    BumpWrites(base, input.nodeId, ScheduledGrant(db, input, derive), ForGrant(db.nextId), input.JobKey(),
               input.EventKey());
    OneNodeRaised(base, input.nodeId);
    OneMoreGrant(db.grants, k, NewGrant(db.nextId, k, input.expiresAt, version, derive));
  }

  lemma OneMoreGrant(grants: map<Access, GrantRow>, k: Access, row: GrantRow)
    ensures grants + map[k := row] == grants[k := row]
  {
  }

  lemma ScheduledGrantIs(db: Db, input: ScheduleInput, derive: CredentialBinding -> string)
    requires input.nodeId in db.nodes
    ensures ScheduledGrant(db, input, derive) == map[input.Grant() := NewGrant(
              db.nextId, input.Grant(), input.expiresAt, db.nodes[input.nodeId].desiredConfigVersion + 1, derive)]
  {
  }

  lemma SchedulingAllowed(db: Db, base: Db, input: ScheduleInput, derive: CredentialBinding -> string)
    requires CanBeScheduled(db, input) && KeysUnused(db, input.JobKey(), input.EventKey())
    requires db.nodes[input.nodeId].appliedConfigVersion <= db.nodes[input.nodeId].desiredConfigVersion
    requires base == db.(nextId := db.nextId + 1)
    ensures BumpAllowed(base, input.nodeId, ScheduledGrant(db, input, derive), input.JobKey(), input.EventKey())
    ensures Leads(ForGrant(db.nextId), ScheduledGrant(db, input, derive))
  {
    assert ScheduledGrant(db, input, derive)[input.Grant()].id == db.nextId;
  }

  lemma ScheduledKeepsValid(db: Db, input: ScheduleInput, derive: CredentialBinding -> string)
    requires Valid(db) && CanBeScheduled(db, input) && KeysUnused(db, input.JobKey(), input.EventKey())
    ensures Valid(Scheduled(db, input, derive)) && Evolves(db, Scheduled(db, input, derive))
    ensures IsScheduled(Scheduled(db, input, derive), input,
              ScheduleResult(db.nextId, db.nextId + 1, db.nextId + 2, db.nodes[input.nodeId].desiredConfigVersion + 1))
  {
    hide Valid, Evolves, Bump, ScheduledGrant, BumpAllowed, KeysUnused;
    var base := db.(nextId := db.nextId + 1);
    var changed := ScheduledGrant(db, input, derive);
    NodeVersionsInOrder(db, input.nodeId);
    SchedulingAllowed(db, base, input, derive);
    assert changed == map[input.Grant() := NewGrant(
      db.nextId, input.Grant(), input.expiresAt, db.nodes[input.nodeId].desiredConfigVersion + 1, derive)] by {
      ScheduledGrantIs(db, input, derive);
    }
    IdsMayGrow(db, db.nextId + 1);
    BumpKeepsValid(base, input.nodeId, changed, ForGrant(db.nextId), input.JobKey(), input.EventKey());
    BumpWrites(base, input.nodeId, changed, ForGrant(db.nextId), input.JobKey(), input.EventKey());
    EvolvesTransitive(db, base, Scheduled(db, input, derive));
  }

  lemma NodeVersionsInOrder(db: Db, nodeId: Id)
    requires Valid(db) && nodeId in db.nodes
    ensures db.nodes[nodeId].appliedConfigVersion <= db.nodes[nodeId].desiredConfigVersion
  {
  }

  class NodeAccessGrantScheduler {
    const database: Database

    constructor (database: Database)
      ensures this.database == database
    {
      this.database := database;
    }

    // Grants one device access to one healthy node, once for each pair of keys.
    method Schedule(input: ScheduleInput) returns (r: Tx<ScheduleResult>)
      requires Valid(database.db)
      modifies database`db
      ensures Valid(database.db) && Evolves(old(database.db), database.db)
      ensures r.Committed? ==> IsScheduled(database.db, input, r.value)
      ensures r.Aborted? ==> database.db == old(database.db)
      ensures KeysUnused(old(database.db), input.JobKey(), input.EventKey()) ==>
                (r.Committed? <==> CanBeScheduled(old(database.db), input))
      ensures r.Committed? && KeysUnused(old(database.db), input.JobKey(), input.EventKey()) ==>
                && CanBeScheduled(old(database.db), input)
                && database.db == Scheduled(old(database.db), input, database.derive)
                && SchedulesGrant(old(database.db), database.db, input, database.derive)
      // A request whose keys are known is answered exactly when they were used for it.
      ensures !KeysUnused(old(database.db), input.JobKey(), input.EventKey()) ==>
                && database.db == old(database.db)
                && (r.Committed? <==> exists before :: IsScheduled(old(database.db), input, before))
    {
      hide Valid, Evolves, Bump, KeysUnused, IsScheduled, SchedulesGrant;
      var t := database.db;
      EvolvesReflexive(t);
      var syncJob := First(JobsWithKey(t, input.JobKey()));
      var outboxEvent := First(EventsWithKey(t, input.EventKey()));
      KeysUnusedExactly(t, input.JobKey(), input.EventKey());
      assert syncJob.Some? ==> syncJob.value in JobsWithKey(t, input.JobKey());
      assert outboxEvent.Some? ==> outboxEvent.value in EventsWithKey(t, input.EventKey());
      if syncJob.Some? || outboxEvent.Some? {
        ScheduledBefore(t, input, syncJob, outboxEvent);
        if syncJob.None? || outboxEvent.None? {
          return Aborted;
        }
        var job, event := t.jobs[syncJob.value], t.events[outboxEvent.value];
        if job.nodeId != input.nodeId || input.Grant() !in t.grants
           || job.subject != ForGrant(t.grants[input.Grant()].id) || event.subject != job.subject {
          return Aborted;
        }
        return Committed(ScheduleResult(t.grants[input.Grant()].id, syncJob.value, outboxEvent.value,
                                        job.targetVersion));
      }
      if input.deviceId !in t.devices || !t.devices[input.deviceId].active {
        return Aborted;
      }
      if input.nodeId !in t.nodes || !t.nodes[input.nodeId].status.Healthy? {
        return Aborted;
      }
      if input.Grant() in t.grants {
        return Aborted;
      }
      ScheduledKeepsValid(t, input, database.derive);
      ScheduledSchedules(t, input, database.derive);
      var targetVersion := t.nodes[input.nodeId].desiredConfigVersion + 1;
      database.db := Scheduled(t, input, database.derive);
      r := Committed(ScheduleResult(t.nextId, t.nextId + 1, t.nextId + 2, targetVersion));
    }
  }
}
