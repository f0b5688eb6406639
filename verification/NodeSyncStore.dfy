// The node sync jobs: claimed by the command that names them, leased, completed or retried.
module NodeSyncStore {
  import opened Basics
  import opened AccessState
  import L = Leases

  datatype SyncCommand = SyncCommand(jobId: Id, subject: Subject, targetVersion: nat)

  datatype JobBody = JobBody(subject: Subject, targetVersion: nat)

  datatype ClaimResult = ClaimedJob(id: Id, leaseToken: Id) | AlreadyCompleted | TerminalJob | NotNow

  datatype RetryResult = RetriedJob | FailedJob | Fenced

  const NODE_SYNC_LEASE_EXPIRED := "NODE_SYNC_LEASE_EXPIRED"
  const ROUTE_ACTIVATION_CLOSED := "ROUTE_ACTIVATION_CLOSED"

  // The status of the job as the access tables know it.
  function AsJobStatus(s: L.WorkStatus): JobStatus {
    match s
    case Waiting => JobPending
    case Processing => JobProcessing
    case Completed => JobSucceeded
    case Failed => JobFailed
  }

  // Whatever the queue does to a job is a change of status that the access tables allow.
  lemma QueueKeepsFinalJobs(a: L.Work, b: L.Work, terms: L.Terms, job: SyncJob)
    requires L.WorkEvolves(a, b, terms) && job.status == AsJobStatus(a.status)
    ensures JobEvolves(job, job.(status := AsJobStatus(b.status)))
  {
  }

  // What the access tables see of the queue: a job succeeds exactly when its work is finished, fails exactly
  // when it is closed or out of attempts, and is pending again after a retry or an expired lease.
  lemma TablesSeeTheQueue(w: L.Work, terms: L.Terms, now: int, owner: string, token: Id, code: string)
    ensures AsJobStatus(L.NEW_WORK.status) == JobPending
    ensures AsJobStatus(L.Claimed(w, terms, now, owner, token).status) == JobProcessing
    ensures AsJobStatus(L.Finished(w, now).status) == JobSucceeded
    ensures AsJobStatus(L.ClosedWork(w, now, code).status) == JobFailed
    ensures forall after | after in {L.Retried(w, terms, now, code), L.Reclaimed(w, terms, now)} ::
              AsJobStatus(after.status) == if w.attempts < terms.maxAttempts then JobPending else JobFailed
  {
  }

  // The command names the job as it is stored.
  ghost predicate Names(command: SyncCommand, bodies: map<Id, JobBody>) {
    && command.jobId in bodies
    && command.subject == bodies[command.jobId].subject
    && command.targetVersion == bodies[command.jobId].targetVersion
  }

  class PrismaNodeSyncStore {
    var rows: L.Table
    var bodies: map<Id, JobBody>
    const terms: L.Terms
    // Stands in for a token drawn at random: one that was never drawn before.
    var nextToken: Id
    ghost var issued: set<Id>

    ghost predicate Valid()
      reads this
    {
      && L.TableFits(rows, terms, issued)
      && bodies.Keys == rows.Keys
      && terms.datesFailures
      && forall token | token in issued :: token < nextToken
    }

    constructor (bodies: map<Id, JobBody>, leaseDurationMs: int, retryDelayMs: int, maxAttempts: nat)
      ensures Valid() && this.bodies == bodies && forall i | i in rows :: rows[i] == L.NEW_WORK
    {
      this.bodies := bodies;
      this.terms := L.Terms(leaseDurationMs, retryDelayMs, maxAttempts, NODE_SYNC_LEASE_EXPIRED, true);
      this.rows := map i | i in bodies :: L.NEW_WORK;
      this.nextToken := 0;
      this.issued := {};
    }

    twostate predicate Evolved()
      reads this
    {
      && bodies == old(bodies)
      && old(issued) <= issued
      && L.TableEvolves(old(rows), rows, terms, old(issued))
    }

    predicate Matches(command: SyncCommand)
      reads this
    {
      command.jobId in bodies && bodies[command.jobId] == JobBody(command.subject, command.targetVersion)
    }

    method ReclaimExpiredLeases(now: int)
      requires Valid()
      modifies this
      ensures Valid() && Evolved() && issued == old(issued)
      ensures rows == L.ReclaimAll(old(rows), old(rows.Keys), terms, now)
      ensures L.Swept(old(rows), rows, old(rows.Keys), terms, now)
      ensures forall i | i in rows :: !L.Reclaimable(rows[i], terms, now)
    {
      L.ReclaimAllFits(rows, rows.Keys, terms, now, issued);
      L.ReclaimAllSweeps(rows, rows.Keys, terms, now, issued);
      rows := L.ReclaimAll(rows, rows.Keys, terms, now);
    }

    // Claims the job that a command names. The four statements are separate transactions, each at its
    // own instant: other workers may act between them. ready and overtaken are what the second and the third find in
    // the access tables of the node, the grant and the route that the job is for.
    method Claim(command: SyncCommand, leaseOwner: string, ready: bool, overtaken: bool) returns (r: ClaimResult)
      requires Valid()
      modifies this
      ensures Valid() && bodies == old(bodies)
      ensures L.TableEvolves(old(rows), rows, terms, old(issued)) && old(issued) <= issued
      ensures r.ClaimedJob? ==>
                && ready && Names(command, bodies) && r.id == command.jobId && r.id in rows
                && r.leaseToken in issued && r.leaseToken !in old(issued)
                && rows[r.id].status.Processing?
                && rows[r.id].leaseOwner == Some(leaseOwner) && rows[r.id].leaseToken == Some(r.leaseToken)
      ensures r.AlreadyCompleted? ==>
                command.jobId in rows && rows[command.jobId].status.Completed? && Names(command, bodies)
      ensures r.TerminalJob? ==>
                command.jobId in rows && (rows[command.jobId].status.Failed? || !Names(command, bodies))
      ensures r.NotNow? ==>
                command.jobId in rows ==> !L.Terminal(rows[command.jobId]) && Names(command, bodies)
    {
      hide L.TableEvolves, L.TableFits;
      ghost var start, begun := rows, issued;
      L.TableStays(rows, terms, issued);
      var now: int := *;
      ReleaseExpiredLease(command, now);
      L.TableEvolvesOnwards(start, start, rows, terms, begun, begun);
      ghost var known := issued;
      OthersAct(start, begun);
      now := *;
      var token := TryClaim(command, leaseOwner, now, ready, start, begun);
      if token.Some? {
        return ClaimedJob(command.jobId, token.value);
      }
      OthersAct(start, begun);
      if command.subject.ForRoute? {
        now := *;
        var closed := CloseRoute(command, now, overtaken, start, begun);
        if closed {
          return TerminalJob;
        }
        OthersAct(start, begun);
      }
      if command.jobId in rows && !Matches(command) {
        return TerminalJob;
      }
      if command.jobId in rows && rows[command.jobId].status.Completed? {
        return AlreadyCompleted;
      }
      if command.jobId in rows && rows[command.jobId].status.Failed? {
        return TerminalJob;
      }
      r := NotNow;
    }

    method ReleaseExpiredLease(command: SyncCommand, now: int)
      requires Valid()
      modifies this`rows
      ensures Valid() && L.TableEvolves(old(rows), rows, terms, issued)
      ensures rows == if Matches(command) && command.jobId in old(rows) && L.LeaseExpired(old(rows)[command.jobId], now)
                      then old(rows)[command.jobId := L.Reclaimed(old(rows)[command.jobId], terms, now)] else old(rows)
    {
      hide L.TableEvolves, L.TableFits;
      L.TableStays(rows, terms, issued);
      L.RowsFit(rows, terms, issued);
      if Matches(command) && L.LeaseExpired(rows[command.jobId], now) {
        L.ChangesFit(rows[command.jobId], terms, now, "", 0, "");
        L.ReleasedRowFits(rows, command.jobId, L.Reclaimed(rows[command.jobId], terms, now), terms, issued);
        rows := rows[command.jobId := L.Reclaimed(rows[command.jobId], terms, now)];
      }
    }

    method TryClaim(command: SyncCommand, leaseOwner: string, now: int, ready: bool, ghost start: L.Table,
                    ghost begun: set<Id>)
      returns (token: Option<Id>)
      requires Valid() && begun <= issued && L.TableEvolves(start, rows, terms, begun)
      modifies this
      ensures Valid() && bodies == old(bodies) && old(issued) <= issued && L.TableEvolves(start, rows, terms, begun)
      ensures token.Some? <==>
                && ready && Names(command, bodies) && command.jobId in old(rows)
                  && L.Claimable(old(rows)[command.jobId], terms, now)
      ensures token.Some? ==>
                && token.value !in old(issued) && token.value in issued
                && rows == old(rows)[command.jobId :=
                     L.Claimed(old(rows)[command.jobId], terms, now, leaseOwner, token.value)]
      ensures token.None? ==> rows == old(rows)
    {
      hide L.TableEvolves, L.TableFits;
      token := None;
      if ready && Matches(command) && L.Claimable(rows[command.jobId], terms, now) {
        token := Some(nextToken);
        ghost var before, known := rows, issued;
        L.ClaimedTableFits(rows, command.jobId, terms, now, leaseOwner, nextToken, issued);
        rows := rows[command.jobId := L.Claimed(rows[command.jobId], terms, now, leaseOwner, nextToken)];
        issued := issued + {nextToken};
        L.TableEvolvesOnwards(start, before, rows, terms, begun, known);
        nextToken := nextToken + 1;
      }
    }

    // Closes a job whose route has a later activation, or had one and is closed.
    method CloseRoute(command: SyncCommand, now: int, overtaken: bool, ghost start: L.Table, ghost begun: set<Id>)
      returns (closed: bool)
      requires Valid() && begun <= issued && L.TableEvolves(start, rows, terms, begun)
      modifies this`rows
      ensures Valid() && L.TableEvolves(start, rows, terms, begun)
      ensures closed <==>
                && overtaken && Names(command, bodies) && command.jobId in old(rows)
                && (old(rows)[command.jobId].status.Waiting? || L.LeaseExpired(old(rows)[command.jobId], now))
      ensures rows == if closed && command.jobId in old(rows)
                      then old(rows)[command.jobId :=
                                     L.ClosedWork(old(rows)[command.jobId], now, ROUTE_ACTIVATION_CLOSED)]
                      else old(rows)
    {
      hide L.TableEvolves, L.TableFits;
      closed := false;
      if overtaken && Matches(command)
         && (rows[command.jobId].status.Waiting? || L.LeaseExpired(rows[command.jobId], now)) {
        ghost var before := rows;
        L.RowsFit(rows, terms, issued);
        L.ChangesFit(rows[command.jobId], terms, now, "", 0, ROUTE_ACTIVATION_CLOSED);
        L.ReleasedRowFits(rows, command.jobId, L.ClosedWork(rows[command.jobId], now, ROUTE_ACTIVATION_CLOSED), terms,
                          issued);
        rows := rows[command.jobId := L.ClosedWork(rows[command.jobId], now, ROUTE_ACTIVATION_CLOSED)];
        L.TableEvolvesOnwards(start, before, rows, terms, begun, issued);
        closed := true;
      }
    }

    // Only the worker that still holds the lease may complete the job.
    method Complete(id: Id, leaseOwner: string, leaseToken: Id, now: int) returns (completed: bool)
      requires Valid()
      modifies this`rows
      ensures Valid() && L.TableEvolves(old(rows), rows, terms, issued)
      ensures completed <==> id in old(rows) && L.Holds(old(rows)[id], leaseOwner, leaseToken, now)
      ensures rows == if completed && id in old(rows) then old(rows)[id := L.Finished(old(rows)[id], now)]
                      else old(rows)
    {
      hide L.TableEvolves, L.TableFits;
      L.TableStays(rows, terms, issued);
      L.RowsFit(rows, terms, issued);
      completed := id in rows && L.Holds(rows[id], leaseOwner, leaseToken, now);
      if completed {
        L.ChangesFit(rows[id], terms, now, leaseOwner, leaseToken, "");
        L.ReleasedRowFits(rows, id, L.Finished(rows[id], now), terms, issued);
        rows := rows[id := L.Finished(rows[id], now)];
      }
    }

    method Retry(id: Id, leaseOwner: string, leaseToken: Id, errorCode: string, now: int) returns (r: RetryResult)
      requires Valid()
      modifies this`rows
      ensures Valid() && L.TableEvolves(old(rows), rows, terms, issued)
      ensures r.Fenced? <==> !(id in old(rows) && L.Holds(old(rows)[id], leaseOwner, leaseToken, now))
      ensures r.FailedJob? ==> id in old(rows) && terms.maxAttempts <= old(rows)[id].attempts
      ensures r.RetriedJob? ==> id in old(rows) && old(rows)[id].attempts < terms.maxAttempts
      ensures rows == if !r.Fenced? && id in old(rows)
                      then old(rows)[id := L.Retried(old(rows)[id], terms, now, errorCode)]
                      else old(rows)
    {
      hide L.TableEvolves, L.TableFits;
      L.TableStays(rows, terms, issued);
      L.RowsFit(rows, terms, issued);
      if id !in rows || !L.Holds(rows[id], leaseOwner, leaseToken, now) {
        return Fenced;
      }
      L.ChangesFit(rows[id], terms, now, leaseOwner, leaseToken, errorCode);
      L.ReleasedRowFits(rows, id, L.Retried(rows[id], terms, now, errorCode), terms, issued);
      rows := rows[id := L.Retried(rows[id], terms, now, errorCode)];
      r := if rows[id].status.Failed? then FailedJob else RetriedJob;
    }

    // Any statements of any other workers.
    method OthersAct(ghost start: L.Table, ghost begun: set<Id>)
      requires Valid() && begun <= issued && L.TableEvolves(start, rows, terms, begun)
      modifies this
      ensures Valid() && bodies == old(bodies) && old(issued) <= issued && L.TableEvolves(start, rows, terms, begun)
    {
      hide L.TableEvolves, L.TableFits;
      var steps: nat :| 0 <= steps;
      for step := 0 to steps
        invariant Valid() && bodies == old(bodies) && old(issued) <= issued && L.TableEvolves(start, rows, terms, begun)
      {
        ghost var before := rows;
        var choice: nat, id: Id, owner: string, token: Id, now: int, code: string := *, *, *, *, *, *;
        var command: SyncCommand, found: bool := *, *;
        if choice == 0 {
          var claimed := TryClaim(command, owner, now, found, start, begun);
        } else if choice == 1 {
          var closed := CloseRoute(command, now, found, start, begun);
        } else {
          if choice == 2 {
            ReleaseExpiredLease(command, now);
          } else if choice == 3 {
            var completed := Complete(id, owner, token, now);
          } else if choice == 4 {
            var retried := Retry(id, owner, token, code, now);
          } else {
            ReclaimExpiredLeases(now);
          }
          L.TableEvolvesOnwards(start, before, rows, terms, begun, issued);
        }
      }
    }
  }
}
