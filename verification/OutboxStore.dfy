// The outbox: events wait to be handed to the queue, one worker at a time.
module OutboxStore {
  import opened Basics
  import opened Queries
  import opened Leases

  datatype ClaimedEvent = ClaimedEvent(id: Id, topic: string, payload: string, leaseToken: Id)

  datatype EventBody = EventBody(topic: string, payload: string, createdAt: int)

  const OUTBOX_LEASE_EXPIRED := "OUTBOX_LEASE_EXPIRED"

  predicate ClaimableIn(rows: Table, scope: set<Id>, terms: Terms, i: Id, now: int) {
    i in rows && i in scope && Claimable(rows[i], terms, now)
  }

  // The event that was created first, the lowest identifier among equals.
  ghost predicate OldestIn(rows: Table, bodies: map<Id, EventBody>, scope: set<Id>, terms: Terms, id: Id, now: int)
    requires bodies.Keys == rows.Keys
  {
    && ClaimableIn(rows, scope, terms, id, now)
    && forall i: Id | ClaimableIn(rows, scope, terms, i, now) ::
         bodies[id].createdAt < bodies[i].createdAt || (bodies[id].createdAt == bodies[i].createdAt && id <= i)
  }

  ghost predicate NoneClaimableIn(rows: Table, scope: set<Id>, terms: Terms, now: int) {
    forall i: Id :: !ClaimableIn(rows, scope, terms, i, now)
  }

  // The one that was created first, the lowest identifier among equals.
  method OldestOf(candidates: set<Id>, bodies: map<Id, EventBody>) returns (r: Option<Id>)
    requires candidates <= bodies.Keys
    ensures r.None? <==> candidates == {}
    ensures r.Some? ==> r.value in candidates && forall i | i in candidates ::
              bodies[r.value].createdAt < bodies[i].createdAt
              || (bodies[r.value].createdAt == bodies[i].createdAt && r.value <= i)
  {
    var instants := Ordered(set i | i in candidates :: bodies[i].createdAt);
    forall i | i in candidates ensures bodies[i].createdAt in instants {
    }
    if instants == [] {
      return None;
    }
    assert instants[0] in instants;
    var oldest := set i | i in candidates && bodies[i].createdAt == instants[0];
    assert exists i :: i in oldest by {
      var i :| i in candidates && bodies[i].createdAt == instants[0];
      assert i in oldest;
    }
    r := First(oldest);
    assert r.value in oldest;
    forall i | i in candidates
      ensures bodies[r.value].createdAt < bodies[i].createdAt
              || (bodies[r.value].createdAt == bodies[i].createdAt && r.value <= i)
    {
      assert bodies[i].createdAt == instants[0] ==> i in oldest;
    }
  }

  class PrismaOutboxStore {
    var rows: Table
    const bodies: map<Id, EventBody>
    const terms: Terms
    // The events this store may touch, when it is limited to some.
    const eventIds: Option<set<Id>>
    // Stands in for a token drawn at random: one that was never drawn before.
    var nextToken: Id
    // Every lease token handed out so far.
    ghost var issued: set<Id>

    ghost predicate Valid()
      reads this
    {
      && TableFits(rows, terms, issued)
      && bodies.Keys == rows.Keys
      && !terms.datesFailures
      && (forall token | token in issued :: token < nextToken)
    }

    constructor (bodies: map<Id, EventBody>, leaseDurationMs: int, retryDelayMs: int, maxAttempts: nat,
                 eventIds: Option<set<Id>>)
      ensures Valid() && this.bodies == bodies && this.eventIds == eventIds
      ensures rows == map i | i in bodies :: NEW_WORK
      ensures issued == {}
    {
      this.bodies := bodies;
      this.terms := Terms(leaseDurationMs, retryDelayMs, maxAttempts, OUTBOX_LEASE_EXPIRED, false);
      this.eventIds := eventIds;
      this.rows := map i | i in bodies :: NEW_WORK;
      this.nextToken := 0;
      this.issued := {};
    }

    function Scope(): set<Id> {
      if eventIds.Some? then eventIds.value else bodies.Keys
    }

    twostate predicate Evolved()
      reads this
    {
      && old(issued) <= issued
      && TableEvolves(old(rows), rows, terms, old(issued))
    }

    method ReclaimExpiredLeases(now: int)
      requires Valid()
      modifies this
      ensures Valid() && Evolved() && issued == old(issued)
      ensures rows == ReclaimAll(old(rows), Scope(), terms, now)
      ensures Swept(old(rows), rows, Scope(), terms, now)
      ensures forall i | i in Scope() && i in rows :: !Reclaimable(rows[i], terms, now)
    {
      ReclaimAllFits(rows, Scope(), terms, now, issued);
      ReclaimAllSweeps(rows, Scope(), terms, now, issued);
      rows := ReclaimAll(rows, Scope(), terms, now);
    }

    predicate ClaimableHere(i: Id, now: int)
      reads this
    {
      ClaimableIn(rows, Scope(), terms, i, now)
    }

    ghost predicate IsOldest(id: Id, now: int)
      requires bodies.Keys == rows.Keys
      reads this
    {
      OldestIn(rows, bodies, Scope(), terms, id, now)
    }

    ghost predicate NothingClaimable(now: int)
      reads this
    {
      NoneClaimableIn(rows, Scope(), terms, now)
    }

    method FindOldest(now: int) returns (r: Option<Id>)
      requires bodies.Keys == rows.Keys
      ensures r.None? ==> NothingClaimable(now)
      ensures r.Some? ==> IsOldest(r.value, now)
    {
      hide Claimable;
      var candidates := set i | i in rows && ClaimableHere(i, now);
      assert forall i: Id | ClaimableIn(rows, Scope(), terms, i, now) :: i in candidates;
      r := OldestOf(candidates, bodies);
    }

    // The oldest claimable event, leased to this worker under a fresh token.
    method ClaimNext(leaseOwner: string, now: int) returns (claimed: Option<ClaimedEvent>)
      requires Valid()
      modifies this
      ensures Valid() && Evolved()
      ensures claimed.None? ==> rows == old(rows) && issued == old(issued) && old(NothingClaimable(now))
      ensures claimed.Some? ==>
                var c := claimed.value;
                && old(bodies.Keys == rows.Keys && IsOldest(c.id, now))
                && c.leaseToken !in old(issued) && issued == old(issued) + {c.leaseToken}
                && rows == old(rows)[c.id := Claimed(old(rows)[c.id], terms, now, leaseOwner, c.leaseToken)]
                && c.topic == bodies[c.id].topic && c.payload == bodies[c.id].payload
    {
      hide TableFits, TableEvolves, OldestIn;
      TableStays(rows, terms, issued);
      var oldest := FindOldest(now);
      if oldest.None? {
        return None;
      }
      var id, token := oldest.value, nextToken;
      OldestIsClaimable(id, now);
      nextToken := nextToken + 1;
      ClaimedTableFits(rows, id, terms, now, leaseOwner, token, issued);
      issued := issued + {token};
      rows := rows[id := Claimed(rows[id], terms, now, leaseOwner, token)];
      claimed := Some(ClaimedEvent(id, bodies[id].topic, bodies[id].payload, token));
    }

    lemma OldestIsClaimable(id: Id, now: int)
      requires bodies.Keys == rows.Keys && IsOldest(id, now)
      ensures id in rows && Claimable(rows[id], terms, now)
    {
    }

    // Only the worker that still holds the lease may finish the event.
    method MarkPublished(id: Id, leaseOwner: string, leaseToken: Id, now: int) returns (published: bool)
      requires Valid()
      modifies this
      ensures Valid() && Evolved() && issued == old(issued)
      ensures published <==> id in old(rows) && Holds(old(rows)[id], leaseOwner, leaseToken, now)
      ensures rows == if published && id in old(rows) then old(rows)[id := Finished(old(rows)[id], now)] else old(rows)
    {
      hide TableFits, TableEvolves;
      TableStays(rows, terms, issued);
      RowsFit(rows, terms, issued);
      published := id in rows && Holds(rows[id], leaseOwner, leaseToken, now);
      if published {
        ChangesFit(rows[id], terms, now, leaseOwner, leaseToken, "");
        ReleasedRowFits(rows, id, Finished(rows[id], now), terms, issued);
        rows := rows[id := Finished(rows[id], now)];
      }
    }

    method Retry(id: Id, leaseOwner: string, leaseToken: Id, errorCode: string, now: int) returns (retried: bool)
      requires Valid()
      modifies this
      ensures Valid() && Evolved() && issued == old(issued)
      ensures retried <==> id in old(rows) && Holds(old(rows)[id], leaseOwner, leaseToken, now)
      ensures rows == if retried && id in old(rows) then old(rows)[id := Retried(old(rows)[id], terms, now, errorCode)]
                      else old(rows)
    {
      hide TableFits, TableEvolves;
      TableStays(rows, terms, issued);
      RowsFit(rows, terms, issued);
      retried := id in rows && Holds(rows[id], leaseOwner, leaseToken, now);
      if retried {
        ChangesFit(rows[id], terms, now, leaseOwner, leaseToken, errorCode);
        ReleasedRowFits(rows, id, Retried(rows[id], terms, now, errorCode), terms, issued);
        rows := rows[id := Retried(rows[id], terms, now, errorCode)];
      }
    }
  }
}
