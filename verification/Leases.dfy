// A row of a work queue: attempts are bounded, a worker owns a row through an
// expiring lease with a token of its own, and finished work stays finished.
module Leases {
  import opened Basics

  datatype WorkStatus = Waiting | Processing | Completed | Failed

  datatype Work = Work(
    status: WorkStatus,
    attempts: nat,
    nextAttemptAt: Option<int>,
    leaseOwner: Option<string>,
    leaseToken: Option<Id>,
    leaseExpiresAt: Option<int>,
    lastErrorCode: Option<string>,
    finishedAt: Option<int>)

  const NEW_WORK := Work(Waiting, 0, None, None, None, None, None, None)

  // How one queue treats its rows.
  datatype Terms = Terms(leaseDurationMs: int, retryDelayMs: int, maxAttempts: nat, expiryCode: string,
                         datesFailures: bool)

  // A lease is set exactly while a row is processed, and no row is tried too often.
  ghost predicate WorkFits(w: Work, terms: Terms) {
    && w.attempts <= terms.maxAttempts
    && (w.status.Processing? ==> 1 <= w.attempts)
    && (w.leaseOwner.Some? <==> w.status.Processing?)
    && (w.leaseToken.Some? <==> w.status.Processing?)
    && (w.leaseExpiresAt.Some? <==> w.status.Processing?)
    && (w.status.Completed? ==> w.finishedAt.Some?)
  }

  predicate Terminal(w: Work) {
    w.status.Completed? || w.status.Failed?
  }

  // The most changes that a row may still see.
  function ChangesLeft(w: Work, terms: Terms): nat
    requires w.attempts <= terms.maxAttempts
  {
    match w.status
    case Waiting => 2 * (terms.maxAttempts - w.attempts) + 1
    case Processing => 2 * (terms.maxAttempts - w.attempts) + 2
    case _ => 0
  }

  // Each change of a row brings it closer to its end.
  ghost predicate WorkEvolves(a: Work, b: Work, terms: Terms) {
    && a.attempts <= terms.maxAttempts
    && b.attempts <= terms.maxAttempts
    && a.attempts <= b.attempts
    && (b == a || ChangesLeft(b, terms) < ChangesLeft(a, terms))
  }

  function Unleased(w: Work): Work {
    w.(leaseOwner := None, leaseToken := None, leaseExpiresAt := None)
  }

  predicate Claimable(w: Work, terms: Terms, now: int) {
    && w.status.Waiting?
    && w.attempts < terms.maxAttempts
    && (w.nextAttemptAt.Some? ==> w.nextAttemptAt.value <= now)
  }

  function Claimed(w: Work, terms: Terms, now: int, owner: string, token: Id): Work {
    w.(status := Processing, attempts := w.attempts + 1, nextAttemptAt := None,
       leaseOwner := Some(owner), leaseToken := Some(token), leaseExpiresAt := Some(now + terms.leaseDurationMs))
  }

  predicate LeaseExpired(w: Work, now: int) {
    w.status.Processing? && w.leaseExpiresAt.Some? && w.leaseExpiresAt.value <= now
  }

  predicate Reclaimable(w: Work, terms: Terms, now: int) {
    LeaseExpired(w, now) || (w.status.Waiting? && terms.maxAttempts <= w.attempts)
  }

  function Reclaimed(w: Work, terms: Terms, now: int): Work {
    var exhausted := terms.maxAttempts <= w.attempts;
    Unleased(w).(
      status := if exhausted then Failed else Waiting,
      finishedAt := if !terms.datesFailures then w.finishedAt else if exhausted then Some(now) else None,
      nextAttemptAt := if exhausted then None else Some(now),
      lastErrorCode := if exhausted && w.lastErrorCode.None? then Some(terms.expiryCode) else w.lastErrorCode)
  }

  // The worker that holds the lease, in time.
  predicate Holds(w: Work, owner: string, token: Id, now: int) {
    && w.status.Processing?
    && w.leaseOwner == Some(owner)
    && w.leaseToken == Some(token)
    && w.leaseExpiresAt.Some?
    && now < w.leaseExpiresAt.value
  }

  function Finished(w: Work, now: int): Work {
    Unleased(w).(status := Completed, finishedAt := Some(now))
  }

  function Retried(w: Work, terms: Terms, now: int, errorCode: string): Work {
    var exhausted := terms.maxAttempts <= w.attempts;
    Unleased(w).(
      status := if exhausted then Failed else Waiting,
      finishedAt := if !terms.datesFailures then w.finishedAt else if exhausted then Some(now) else None,
      nextAttemptAt := if exhausted then None else Some(now + terms.retryDelayMs),
      lastErrorCode := Some(errorCode))
  }

  // Work closed without another attempt.
  function ClosedWork(w: Work, now: int, errorCode: string): Work {
    Unleased(w).(status := Failed, finishedAt := Some(now), nextAttemptAt := None, lastErrorCode := Some(errorCode))
  }

  // ---------- what each change means for the workers ----------

  // A lease is held up to an instant and expired from it on.
  lemma LeaseHeldOrExpired(w: Work, terms: Terms, now: int)
    requires WorkFits(w, terms) && w.status.Processing?
    ensures LeaseExpired(w, now) <==> !Holds(w, w.leaseOwner.value, w.leaseToken.value, now)
    ensures forall owner: string, token: Id | Holds(w, owner, token, now) ::
              w.leaseOwner == Some(owner) && w.leaseToken == Some(token)
    ensures forall later | now <= later && LeaseExpired(w, now) :: LeaseExpired(w, later)
  {
  }

  // A claim uses up an attempt and is held by this worker under this token for the whole lease.
  lemma ClaimIsHeld(w: Work, terms: Terms, now: int, owner: string, token: Id)
    requires WorkFits(w, terms) && Claimable(w, terms, now)
    ensures var b := Claimed(w, terms, now, owner, token);
            && b.status == Processing && b.attempts == w.attempts + 1 && b.nextAttemptAt == None
            && (forall t :: Holds(b, owner, token, t) <==> t < now + terms.leaseDurationMs)
            && (forall t :: LeaseExpired(b, t) <==> now + terms.leaseDurationMs <= t)
            && b.lastErrorCode == w.lastErrorCode && b.finishedAt == w.finishedAt
  {
  }

  // Work is given up, with a reason, exactly when its attempts are used up.
  ghost predicate GivenUp(a: Work, b: Work, terms: Terms, now: int, reason: string) {
    && b.status == Failed && b.attempts == a.attempts && b.nextAttemptAt == None && b.lastErrorCode == Some(reason)
    && b.finishedAt == if terms.datesFailures then Some(now) else a.finishedAt
  }

  // Work waits for its next attempt, from an instant on.
  ghost predicate WaitsUntil(a: Work, b: Work, terms: Terms, at: int, reason: Option<string>) {
    && b.status == Waiting && b.attempts == a.attempts && b.lastErrorCode == reason
    && (forall t :: Claimable(b, terms, t) <==> at <= t)
    && b.finishedAt == if terms.datesFailures then None else a.finishedAt
  }

  ghost predicate NoLease(w: Work) {
    w.leaseOwner == None && w.leaseToken == None && w.leaseExpiresAt == None
  }

  // Work whose lease has expired is to be had again at once, unless its attempts are used up.
  lemma ReclaimGivesBack(w: Work, terms: Terms, now: int)
    requires WorkFits(w, terms) && Reclaimable(w, terms, now)
    ensures NoLease(Reclaimed(w, terms, now))
    ensures w.attempts < terms.maxAttempts ==> WaitsUntil(w, Reclaimed(w, terms, now), terms, now, w.lastErrorCode)
    ensures w.attempts == terms.maxAttempts ==>
              GivenUp(w, Reclaimed(w, terms, now), terms, now,
                      if w.lastErrorCode.Some? then w.lastErrorCode.value else terms.expiryCode)
  {
  }

  // Work that is tried again waits for the delay, unless its attempts are used up.
  lemma RetryWaits(w: Work, terms: Terms, now: int, errorCode: string)
    requires WorkFits(w, terms) && w.status.Processing?
    ensures NoLease(Retried(w, terms, now, errorCode))
    ensures w.attempts < terms.maxAttempts ==>
              WaitsUntil(w, Retried(w, terms, now, errorCode), terms, now + terms.retryDelayMs, Some(errorCode))
    ensures w.attempts == terms.maxAttempts ==> GivenUp(w, Retried(w, terms, now, errorCode), terms, now, errorCode)
  {
  }

  lemma FinishAndCloseEnd(w: Work, now: int, errorCode: string)
    ensures Finished(w, now) == w.(status := Completed, finishedAt := Some(now),
                                   leaseOwner := None, leaseToken := None, leaseExpiresAt := None)
    ensures NoLease(ClosedWork(w, now, errorCode))
    ensures GivenUp(w, ClosedWork(w, now, errorCode), Terms(0, 0, 0, "", true), now, errorCode)
  {
  }

  // No work is lost: until it is completed or its attempts are used up, it can be claimed once its
  // dates have passed, after a sweep if a worker still seems to hold it.
  lemma NoWorkIsLost(w: Work, terms: Terms, now: int)
    requires WorkFits(w, terms) && !Terminal(w) && w.attempts < terms.maxAttempts
    requires w.nextAttemptAt.Some? ==> w.nextAttemptAt.value <= now
    requires w.leaseExpiresAt.Some? ==> w.leaseExpiresAt.value <= now
    ensures Claimable(if Reclaimable(w, terms, now) then Reclaimed(w, terms, now) else w, terms, now)
  {
  }

  // A sweep of the table, without saying how: expired leases within scope are given back or, like
  // waiting work without attempts left, given up; everything else is as it was.
  ghost predicate Swept(a: Table, b: Table, scope: set<Id>, terms: Terms, now: int) {
    && b.Keys == a.Keys
    && forall i | i in a ::
         if i !in scope || Terminal(a[i]) || (a[i].status.Waiting? && a[i].attempts < terms.maxAttempts)
            || (a[i].status.Processing? && a[i].leaseExpiresAt.Some? && now < a[i].leaseExpiresAt.value)
         then b[i] == a[i]
         else
           && NoLease(b[i])
           && if a[i].attempts < terms.maxAttempts then WaitsUntil(a[i], b[i], terms, now, a[i].lastErrorCode)
              else GivenUp(a[i], b[i], terms, now,
                           if a[i].lastErrorCode.Some? then a[i].lastErrorCode.value else terms.expiryCode)
  }

  lemma ReclaimAllSweeps(rows: Table, scope: set<Id>, terms: Terms, now: int, issued: set<Id>)
    requires TableFits(rows, terms, issued)
    ensures Swept(rows, ReclaimAll(rows, scope, terms, now), scope, terms, now)
  {
    hide GivenUp, WaitsUntil, NoLease, Reclaimed;
    forall i | i in rows && i in scope && Reclaimable(rows[i], terms, now)
      ensures WorkFits(rows[i], terms)
      ensures NoLease(Reclaimed(rows[i], terms, now))
      ensures rows[i].attempts < terms.maxAttempts ==>
                WaitsUntil(rows[i], Reclaimed(rows[i], terms, now), terms, now, rows[i].lastErrorCode)
      ensures rows[i].attempts == terms.maxAttempts ==>
                GivenUp(rows[i], Reclaimed(rows[i], terms, now), terms, now,
                        if rows[i].lastErrorCode.Some? then rows[i].lastErrorCode.value else terms.expiryCode)
    {
      ReclaimGivesBack(rows[i], terms, now);
    }
  }

  ghost predicate Advances(a: Work, b: Work, terms: Terms) {
    WorkFits(b, terms) && WorkEvolves(a, b, terms) && b != a
  }

  // Each of these changes keeps the rules and uses up one of the changes left.
  lemma ChangesFit(w: Work, terms: Terms, now: int, owner: string, token: Id, errorCode: string)
    requires WorkFits(w, terms)
    ensures Claimable(w, terms, now) ==> Advances(w, Claimed(w, terms, now, owner, token), terms)
    ensures Reclaimable(w, terms, now) ==> Advances(w, Reclaimed(w, terms, now), terms)
    ensures Holds(w, owner, token, now) ==> Advances(w, Finished(w, now), terms)
    ensures Holds(w, owner, token, now) ==> Advances(w, Retried(w, terms, now, errorCode), terms)
    ensures !Terminal(w) ==> Advances(w, ClosedWork(w, now, errorCode), terms)
  {
  }

  // Within its bound, every sequence of changes of a row ends: one with n changes has
  // at least n fewer left.
  lemma {:induction false} ChangesAreBounded(rows: seq<Work>, terms: Terms)
    requires rows != [] && forall i | 0 <= i < |rows| :: rows[i].attempts <= terms.maxAttempts
    requires forall i | 0 <= i < |rows| - 1 :: WorkEvolves(rows[i], rows[i + 1], terms) && rows[i] != rows[i + 1]
    ensures |rows| - 1 <= ChangesLeft(rows[0], terms) <= 2 * terms.maxAttempts + 2
  {
    if |rows| > 1 {
      ChangesAreBounded(rows[1..], terms);
      assert WorkEvolves(rows[0], rows[1], terms);
    }
  }

  // ---------- a table of such rows ----------

  type Table = map<Id, Work>

  // Every row fits, and no two rows are leased under one token; tokens are never issued twice.
  ghost predicate TableFits(rows: Table, terms: Terms, issued: set<Id>) {
    && (forall i | i in rows :: WorkFits(rows[i], terms))
    && (forall i | i in rows && rows[i].leaseToken.Some? :: rows[i].leaseToken.value in issued)
    && (forall i, j | i in rows && j in rows && rows[i].leaseToken.Some?
                      && rows[i].leaseToken == rows[j].leaseToken :: i == j)
  }

  ghost predicate HeldSomewhere(rows: Table, token: Id) {
    exists i :: i in rows && rows[i].leaseToken == Some(token)
  }

  // Rows only move on, and a token that no row is leased under will never be one again.
  ghost predicate TableEvolves(a: Table, b: Table, terms: Terms, issued: set<Id>) {
    && (forall i | i in a :: i in b && WorkEvolves(a[i], b[i], terms))
    && (forall token | token in issued && HeldSomewhere(b, token) :: HeldSomewhere(a, token))
  }

  lemma TableEvolvesOnwards(a: Table, b: Table, c: Table, terms: Terms, issued: set<Id>, more: set<Id>)
    requires TableEvolves(a, b, terms, issued) && TableEvolves(b, c, terms, more) && issued <= more
    ensures TableEvolves(a, c, terms, issued)
  {
  }

  lemma TableStays(a: Table, terms: Terms, issued: set<Id>)
    requires TableFits(a, terms, issued)
    ensures TableEvolves(a, a, terms, issued)
  {
  }

  // Changing some rows, each within the rules and without issuing a token, keeps the table's rules.
  lemma ReleasedTableFits(a: Table, b: Table, terms: Terms, issued: set<Id>)
    requires TableFits(a, terms, issued) && b.Keys == a.Keys
    requires forall i | i in a ::
             b[i] == a[i] || (WorkFits(b[i], terms) && WorkEvolves(a[i], b[i], terms) && b[i].leaseToken.None?)
    ensures TableFits(b, terms, issued) && TableEvolves(a, b, terms, issued)
  {
  }

  lemma ClaimedTableFits(a: Table, id: Id, terms: Terms, now: int, owner: string, token: Id, issued: set<Id>)
    requires TableFits(a, terms, issued) && id in a && Claimable(a[id], terms, now) && token !in issued
    ensures var b := a[id := Claimed(a[id], terms, now, owner, token)];
            TableFits(b, terms, issued + {token}) && TableEvolves(a, b, terms, issued)
  {
    var b := a[id := Claimed(a[id], terms, now, owner, token)];
    forall i | i in a ensures WorkEvolves(a[i], b[i], terms) && WorkFits(b[i], terms) {
      ChangesFit(a[i], terms, now, owner, token, "");
    }
    forall t | t in issued && HeldSomewhere(b, t) ensures HeldSomewhere(a, t) {
      var i :| i in b && b[i].leaseToken == Some(t);
      assert a[i].leaseToken == Some(t);
    }
  }

  function ReclaimAll(rows: Table, scope: set<Id>, terms: Terms, now: int): Table {
    map i | i in rows ::
      if i in scope && Reclaimable(rows[i], terms, now) then Reclaimed(rows[i], terms, now) else rows[i]
  }

  lemma ReclaimAllFits(rows: Table, scope: set<Id>, terms: Terms, now: int, issued: set<Id>)
    requires TableFits(rows, terms, issued)
    ensures TableFits(ReclaimAll(rows, scope, terms, now), terms, issued)
    ensures TableEvolves(rows, ReclaimAll(rows, scope, terms, now), terms, issued)
  {
    forall i | i in rows ensures WorkFits(rows[i], terms) {
      ChangesFit(rows[i], terms, now, "", 0, "");
    }
    forall i | i in rows && Reclaimable(rows[i], terms, now)
      ensures WorkFits(Reclaimed(rows[i], terms, now), terms)
              && WorkEvolves(rows[i], Reclaimed(rows[i], terms, now), terms)
    {
      ChangesFit(rows[i], terms, now, "", 0, "");
    }
    ReleasedTableFits(rows, ReclaimAll(rows, scope, terms, now), terms, issued);
  }

  // One row released by its holder, by expiry or for good.
  lemma ReleasedRowFits(rows: Table, id: Id, w: Work, terms: Terms, issued: set<Id>)
    requires TableFits(rows, terms, issued) && id in rows && Advances(rows[id], w, terms) && w.leaseToken.None?
    ensures TableFits(rows[id := w], terms, issued) && TableEvolves(rows, rows[id := w], terms, issued)
  {
    ReleasedTableFits(rows, rows[id := w], terms, issued);
  }

  // A worker whose lease has ended, by whatever means, is fenced off for good: no row can
  // ever again be changed in the name of its token.
  lemma EndedLeaseIsFenced(a: Table, b: Table, terms: Terms, issued: set<Id>, owner: string, token: Id, now: int)
    requires TableEvolves(a, b, terms, issued) && token in issued && !HeldSomewhere(a, token)
    ensures forall i | i in b :: !Holds(b[i], owner, token, now)
  {
    forall i | i in b ensures !Holds(b[i], owner, token, now) {
      assert HeldSomewhere(b, token) ==> HeldSomewhere(a, token);
    }
  }

  // Whoever finishes a row, or lets its lease run out, holds nothing any more.
  lemma ReleaseEndsLease(a: Table, id: Id, w: Work, terms: Terms, issued: set<Id>)
    requires TableFits(a, terms, issued) && id in a && a[id].leaseToken.Some? && w.leaseToken.None?
    ensures !HeldSomewhere(a[id := w], a[id].leaseToken.value)
  {
  }

  lemma RowsFit(rows: Table, terms: Terms, issued: set<Id>)
    requires TableFits(rows, terms, issued)
    ensures forall i | i in rows :: WorkFits(rows[i], terms)
  {
  }
}
