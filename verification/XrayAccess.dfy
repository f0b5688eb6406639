// Which clients a configuration snapshot lets the data plane serve, and when
// that list must next be looked at again.
module XrayAccess {
  import opened Basics

  datatype GrantStatus = Pending | Active | Revoked

  datatype Grant = Grant(
    id: Id,
    status: GrantStatus,
    expiresAt: int,
    desiredVersion: nat,
    appliedVersion: nat,
    revokedAt: Option<int>,
    credential: Option<string>)

  datatype Acknowledgement = Acknowledgement(nodeSyncJobId: Id, targetVersion: nat, snapshotHash: string)

  datatype Route = Route(activationVersion: nat, endpointId: Id, profileId: Id, host: string, tlsServerName: string)

  datatype Snapshot = Snapshot(
    desiredConfigVersion: nat,
    appliedConfigVersion: nat,
    pendingAcknowledgement: Option<Acknowledgement>,
    grants: seq<Grant>,
    routes: seq<Route>)
  {
    // The three cross-field rules of the snapshot schema.
    predicate WellFormed() {
      && appliedConfigVersion <= desiredConfigVersion
      && (pendingAcknowledgement.Some? ==>
            && pendingAcknowledgement.value.targetVersion == desiredConfigVersion
            && appliedConfigVersion < desiredConfigVersion)
    }
  }

  datatype XrayClient = XrayClient(grantId: Id, credential: string)

  datatype Enforcement = Enforcement(grantId: Id, deadlineAt: int)

  function ClientKey(c: XrayClient): int { c.grantId }

  function EnforcementKey(e: Enforcement): int { e.grantId }

  // None where getActiveGrantExpiry yields NaN: the grant gives no access at any time.
  function ActiveGrantExpiry(g: Grant): Option<int> {
    if g.status.Active? && g.revokedAt.None? && g.credential.Some? then Some(g.expiresAt) else None
  }

  predicate ServableAt(g: Grant, now: int) {
    ActiveGrantExpiry(g).Some? && now < g.expiresAt
  }

  function ServableInOrder(grants: seq<Grant>, now: int): seq<XrayClient> {
    if grants == [] then []
    else
      (if ServableAt(grants[0], now) then [XrayClient(grants[0].id, grants[0].credential.value)] else [])
      + ServableInOrder(grants[1..], now)
  }

  function SelectServableXrayClients(s: Snapshot, now: int): seq<XrayClient> {
    SortBy(ClientKey, ServableInOrder(s.grants, now))
  }

  predicate Serves(clients: seq<XrayClient>, id: Id) {
    exists c :: c in clients && c.grantId == id
  }

  lemma {:induction false} ServableInOrderExactly(grants: seq<Grant>, now: int, c: XrayClient)
    ensures c in ServableInOrder(grants, now) <==>
            exists g :: g in grants && ServableAt(g, now) && g.id == c.grantId && g.credential == Some(c.credential)
  {
    if grants != [] {
      ServableInOrderExactly(grants[1..], now, c);
      assert grants == [grants[0]] + grants[1..];
    }
  }

  // A client is selected exactly when an active, unrevoked, unexpired grant carries its
  // credential, and the list is in grant order.
  lemma SelectedExactly(s: Snapshot, now: int, c: XrayClient)
    ensures c in SelectServableXrayClients(s, now) <==>
            exists g :: g in s.grants && ServableAt(g, now) && g.id == c.grantId && g.credential == Some(c.credential)
    ensures SortedBy(ClientKey, SelectServableXrayClients(s, now))
  {
    var inOrder := ServableInOrder(s.grants, now);
    ServableInOrderExactly(s.grants, now, c);
    SortByIsAPermutation(ClientKey, inOrder);
    assert c in inOrder <==> c in multiset(inOrder);
    assert c in SelectServableXrayClients(s, now) <==> c in multiset(SelectServableXrayClients(s, now));
  }

  // A grant whose every occurrence has expired is not served.
  lemma ExpiredIsNotServed(s: Snapshot, now: int, id: Id)
    requires forall g :: g in s.grants && g.id == id && ActiveGrantExpiry(g).Some? ==> g.expiresAt <= now
    ensures !Serves(SelectServableXrayClients(s, now), id)
  {
    forall c | c in SelectServableXrayClients(s, now) ensures c.grantId != id {
      SelectedExactly(s, now, c);
    }
  }

  ghost function ExpiriesIn(grants: seq<Grant>, now: int): set<int> {
    set g | g in grants && ServableAt(g, now) :: g.expiresAt
  }

  ghost function OverdueDeadlinesIn(grants: seq<Grant>, now: int, slaMs: int): set<int> {
    set g | g in grants && ActiveGrantExpiry(g).Some? && g.expiresAt <= now :: g.expiresAt + slaMs
  }

  ghost function DeadlinesIn(es: seq<Enforcement>): set<int> {
    set e | e in es :: e.deadlineAt
  }

  method FindNextXrayClientExpiry(s: Snapshot, now: int) returns (next: Option<int>)
    ensures IsEarliest(next, ExpiriesIn(s.grants, now))
  {
    next := None;
    for i := 0 to |s.grants|
      invariant IsEarliest(next, ExpiriesIn(s.grants[..i], now))
    {
      var g := s.grants[i];
      assert s.grants[..i+1] == s.grants[..i] + [g];
      assert ExpiriesIn(s.grants[..i+1], now)
          == ExpiriesIn(s.grants[..i], now) + if ServableAt(g, now) then {g.expiresAt} else {};
      if ServableAt(g, now) && (next.None? || g.expiresAt < next.value) {
        next := Some(g.expiresAt);
      }
    }
    assert s.grants[..|s.grants|] == s.grants;
  }

  method FindExpiredEnforcementDeadline(s: Snapshot, now: int, slaMs: int) returns (deadline: Option<int>)
    ensures IsEarliest(deadline, OverdueDeadlinesIn(s.grants, now, slaMs))
  {
    deadline := None;
    for i := 0 to |s.grants|
      invariant IsEarliest(deadline, OverdueDeadlinesIn(s.grants[..i], now, slaMs))
    {
      var g := s.grants[i];
      var overdue := ActiveGrantExpiry(g).Some? && g.expiresAt <= now;
      assert s.grants[..i+1] == s.grants[..i] + [g];
      assert OverdueDeadlinesIn(s.grants[..i+1], now, slaMs)
          == OverdueDeadlinesIn(s.grants[..i], now, slaMs) + if overdue then {g.expiresAt + slaMs} else {};
      if overdue && (deadline.None? || g.expiresAt + slaMs < deadline.value) {
        deadline := Some(g.expiresAt + slaMs);
      }
    }
    assert s.grants[..|s.grants|] == s.grants;
  }

  lemma {:induction false} ServableInOrderStable(grants: seq<Grant>, now: int, later: int)
    requires now <= later
    requires forall g :: g in grants && ServableAt(g, now) ==> later < g.expiresAt
    ensures ServableInOrder(grants, later) == ServableInOrder(grants, now)
  {
    if grants != [] {
      assert grants == [grants[0]] + grants[1..];
      ServableInOrderStable(grants[1..], now, later);
    }
  }

  // The selection is constant up to the next expiry, and changes at that instant.
  lemma SelectionChangesAtNextExpiry(s: Snapshot, now: int, next: Option<int>, later: int)
    requires IsEarliest(next, ExpiriesIn(s.grants, now))
    requires now <= later
    ensures SelectServableXrayClients(s, later) == SelectServableXrayClients(s, now)
            <==> next.None? || later < next.value
  {
    if next.None? || later < next.value {
      forall g | g in s.grants && ServableAt(g, now) ensures later < g.expiresAt {
        assert g.expiresAt in ExpiriesIn(s.grants, now);
      }
      ServableInOrderStable(s.grants, now, later);
    } else {
      ServableShrinks(s.grants, now, later);
    }
  }

  lemma {:induction false} ServableShrinks(grants: seq<Grant>, now: int, later: int)
    requires now <= later
    ensures |ServableInOrder(grants, later)| <= |ServableInOrder(grants, now)|
    ensures (exists g :: g in grants && ServableAt(g, now) && g.expiresAt <= later) ==>
              |ServableInOrder(grants, later)| < |ServableInOrder(grants, now)|
  {
    if grants != [] {
      assert grants == [grants[0]] + grants[1..];
      ServableShrinks(grants[1..], now, later);
    }
  }

  // The last grant with the id, as a Map built from the list holds it.
  function LastWithId(grants: seq<Grant>, id: Id): Option<Grant> {
    if grants == [] then None
    else if grants[|grants| - 1].id == id then Some(grants[|grants| - 1])
    else LastWithId(grants[..|grants| - 1], id)
  }

  // next revokes a grant that previous was serving before the revocation took effect.
  predicate RevokesServedGrant(previous: Snapshot, g: Grant, now: int) {
    && g.status.Revoked? && g.revokedAt.Some?
    && var before := LastWithId(previous.grants, g.id);
    && before.Some?
    && before.value.status.Active?
    && before.value.revokedAt.None?
    && before.value.credential.Some?
    && g.revokedAt.value < before.value.expiresAt
    && g.revokedAt.value <= now
  }

  // Which grants of a snapshot must be enforced: against the local snapshot when it is
  // readable, otherwise every recorded revocation.
  predicate MustEnforce(previous: Option<Snapshot>, g: Grant, now: int) {
    match previous
    case Some(local) => RevokesServedGrant(local, g, now)
    case None => g.status.Revoked? && g.revokedAt.Some?
  }

  // The last grant of that identifier was in force at an instant.
  ghost predicate HadInForce(previous: Snapshot, id: Id, t: int) {
    exists i :: 0 <= i < |previous.grants| && IsLastWithId(previous.grants, i, id)
      && previous.grants[i].status == Active && previous.grants[i].revokedAt == None
      && previous.grants[i].credential != None && t < previous.grants[i].expiresAt
  }

  ghost predicate IsLastWithId(grants: seq<Grant>, i: int, id: Id)
    requires 0 <= i < |grants|
  {
    grants[i].id == id && forall j | i < j < |grants| :: grants[j].id != id
  }

  lemma {:induction false} LastWithIdExactly(grants: seq<Grant>, id: Id)
    ensures LastWithId(grants, id).Some? <==> exists i :: 0 <= i < |grants| && grants[i].id == id
    ensures forall i | 0 <= i < |grants| && IsLastWithId(grants, i, id) :: LastWithId(grants, id) == Some(grants[i])
    ensures LastWithId(grants, id).Some? ==> exists i :: 0 <= i < |grants| && IsLastWithId(grants, i, id)
  {
    if grants != [] {
      var last := |grants| - 1;
      if grants[last].id == id {
        assert IsLastWithId(grants, last, id);
      } else {
        LastWithIdExactly(grants[..last], id);
        if i :| 0 <= i < |grants| && grants[i].id == id {
          assert grants[..last][i].id == id;
        }
        forall i | 0 <= i < |grants| && IsLastWithId(grants, i, id) ensures IsLastWithId(grants[..last], i, id) {
        }
        if i :| 0 <= i < last && IsLastWithId(grants[..last], i, id) {
          assert IsLastWithId(grants, i, id);
        }
      }
    }
  }

  // The revocation has come into effect, and at that instant the local snapshot had the grant in force.
  // Without a readable local snapshot, any revocation may have ended something.
  ghost predicate EndedService(previous: Option<Snapshot>, id: Id, t: int, now: int) {
    previous != None ==> t <= now && HadInForce(previous.value, id, t)
  }

  lemma HadInForceExactly(previous: Snapshot, id: Id, t: int)
    ensures HadInForce(previous, id, t) <==>
              && LastWithId(previous.grants, id).Some?
              && var g := LastWithId(previous.grants, id).value;
              g.status.Active? && g.revokedAt.None? && g.credential.Some? && t < g.expiresAt
  {
    hide LastWithId;
    LastWithIdExactly(previous.grants, id);
  }

  // A revocation is enforced exactly when it ended something that the node was serving.
  lemma MustEnforceExactly(previous: Option<Snapshot>, g: Grant, now: int)
    ensures MustEnforce(previous, g, now) <==>
              g.status == Revoked && exists t :: (g.revokedAt == Some(t) && EndedService(previous, g.id, t, now))
  {
    hide LastWithId, HadInForce;
    if g.revokedAt.Some? {
      if previous.Some? {
        HadInForceExactly(previous.value, g.id, g.revokedAt.value);
      }
      assert EndedService(previous, g.id, g.revokedAt.value, now) <==>
               previous.None? || (g.revokedAt.value <= now && HadInForce(previous.value, g.id, g.revokedAt.value));
    }
  }

  ghost predicate IsEnforcementOf(e: Enforcement, previous: Option<Snapshot>, grants: seq<Grant>, now: int,
                                  slaMs: int)
  {
    exists g :: g in grants && MustEnforce(previous, g, now)
                && e == Enforcement(g.id, g.revokedAt.value + slaMs)
  }

  // The list holds exactly the enforcements of the snapshot's grants, in grant order.
  ghost predicate EnforcesExactly(es: seq<Enforcement>, previous: Option<Snapshot>, grants: seq<Grant>, now: int,
                                  slaMs: int)
  {
    && SortedBy(EnforcementKey, es)
    && forall e :: e in es <==> IsEnforcementOf(e, previous, grants, now, slaMs)
  }

  // findRevokedXrayClientEnforcements and findSnapshotRevocationEnforcements differ in the test only.
  method FindRevocationEnforcements(previous: Option<Snapshot>, next: Snapshot, now: int, slaMs: int)
    returns (es: seq<Enforcement>)
    ensures EnforcesExactly(es, previous, next.grants, now, slaMs)
  {
    var found: seq<Enforcement> := [];
    for i := 0 to |next.grants|
      invariant forall e :: e in found <==> IsEnforcementOf(e, previous, next.grants[..i], now, slaMs)
    {
      var g := next.grants[i];
      assert next.grants[..i+1] == next.grants[..i] + [g];
      ghost var before := found;
      if MustEnforce(previous, g, now) {
        found := found + [Enforcement(g.id, g.revokedAt.value + slaMs)];
      }
      forall e ensures e in found <==> IsEnforcementOf(e, previous, next.grants[..i+1], now, slaMs) {
        assert e in before <==> IsEnforcementOf(e, previous, next.grants[..i], now, slaMs);
      }
    }
    assert next.grants[..|next.grants|] == next.grants;
    es := SortBy(EnforcementKey, found);
    SortByIsAPermutation(EnforcementKey, found);
    forall e ensures e in es <==> e in found {
      assert e in es <==> e in multiset(es);
      assert e in found <==> e in multiset(found);
    }
  }

  // A revocation that ended something the node was serving must by now be enforced without waiting any longer.
  ghost predicate IsOverdue(previous: Option<Snapshot>, grants: seq<Grant>, now: int, slaMs: int, reserveMs: int) {
    exists g :: g in grants && MustEnforce(previous, g, now) && g.revokedAt.value + slaMs - reserveMs <= now
  }

  lemma OverdueExactly(es: seq<Enforcement>, deadline: Option<int>, previous: Option<Snapshot>, grants: seq<Grant>,
                       now: int, slaMs: int, reserveMs: int)
    requires EnforcesExactly(es, previous, grants, now, slaMs) && IsEarliest(deadline, DeadlinesIn(es))
    ensures IsOverdue(previous, grants, now, slaMs, reserveMs)
            <==> deadline.Some? && deadline.value - reserveMs <= now
  {
    hide LastWithId;
    if deadline.Some? && deadline.value - reserveMs <= now {
      var e :| e in es && e.deadlineAt == deadline.value;
      assert IsEnforcementOf(e, previous, grants, now, slaMs);
    }
    if IsOverdue(previous, grants, now, slaMs, reserveMs) {
      var g :| g in grants && MustEnforce(previous, g, now) && g.revokedAt.value + slaMs - reserveMs <= now;
      var e := Enforcement(g.id, g.revokedAt.value + slaMs);
      assert IsEnforcementOf(e, previous, grants, now, slaMs);
      assert e.deadlineAt in DeadlinesIn(es);
    }
  }

  method EarliestDeadline(es: seq<Enforcement>) returns (deadline: Option<int>)
    ensures IsEarliest(deadline, DeadlinesIn(es))
  {
    deadline := None;
    for i := 0 to |es|
      invariant IsEarliest(deadline, DeadlinesIn(es[..i]))
    {
      assert es[..i+1] == es[..i] + [es[i]];
      assert DeadlinesIn(es[..i+1]) == DeadlinesIn(es[..i]) + {es[i].deadlineAt};
      if deadline.None? || es[i].deadlineAt < deadline.value {
        deadline := Some(es[i].deadlineAt);
      }
    }
    assert es[..|es|] == es;
  }
}
