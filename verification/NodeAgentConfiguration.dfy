// The database that the services share, and the snapshot a node is told.
module NodeAgentConfiguration {
  import opened Basics
  import opened Queries
  import opened XrayAccess
  import opened AccessState

  class Database {
    var db: Db

    // How a credential is derived from what it is bound to.
    const derive: CredentialBinding -> string

    constructor (initial: Db, derive: CredentialBinding -> string)
      ensures db == initial && this.derive == derive
    {
      db := initial;
      this.derive := derive;
    }
  }

  predicate VerifyHash(credential: string, stored: Hashed) {
    stored == Hashed(credential)
  }

  function CredentialOf(g: GrantRow, k: Access, now: int, derive: CredentialBinding -> string): Option<string> {
    if LiveGrant(g) && now < g.expiresAt && g.derivationVersion == Some(DATA_PLANE_CREDENTIAL_DERIVATION_VERSION) then
      var credential := derive(CredentialBinding(g.id, k.deviceId, k.nodeId));
      if VerifyHash(credential, g.credentialHash) then Some(credential) else None
    else None
  }

  function Told(g: GrantRow, k: Access, now: int, derive: CredentialBinding -> string): Grant {
    Grant(g.id, g.status, g.expiresAt, g.desiredVersion, g.appliedVersion, g.revokedAt, CredentialOf(g, k, now, derive))
  }

  predicate RouteIsOpen(db: Db, r: RouteKey, nodeId: Id)
    requires r in db.routes && nodeId in db.nodes
  {
    var route := db.routes[r];
    && route.nodeId == nodeId
    && route.activationVersion.Some?
    && route.activationVersion.value <= db.nodes[nodeId].desiredConfigVersion
    && r.endpointId in db.endpoints
    && db.endpoints[r.endpointId].nodeId == nodeId && db.endpoints[r.endpointId].active
    && r.connectionProfileId in db.profiles
    && db.profiles[r.connectionProfileId].nodeId == nodeId && db.profiles[r.connectionProfileId].active
    && db.profiles[r.connectionProfileId].publicConfig.Some?
  }

  function ToldOf(db: Db, r: RouteKey, nodeId: Id): ToldRoute
    requires r in db.routes && nodeId in db.nodes && RouteIsOpen(db, r, nodeId)
  {
    ToldRoute(db.routes[r].activationVersion.value, db.endpoints[r.endpointId].address,
              db.profiles[r.connectionProfileId].protocol, db.profiles[r.connectionProfileId].publicConfig.value)
  }

  function ContentFor(db: Db, nodeId: Id, now: int, derive: CredentialBinding -> string): Content
    requires nodeId in db.nodes
  {
    Content(
      db.nodes[nodeId].desiredConfigVersion,
      map k | k in db.grants && k.nodeId == nodeId :: Told(db.grants[k], k, now, derive),
      map r | r in db.routes && RouteIsOpen(db, r, nodeId) :: ToldOf(db, r, nodeId))
  }

  datatype Response = Response(desired: nat, applied: nat, pendingJobId: Option<Id>, content: Content)

  predicate AwaitsConfirmation(db: Db, nodeId: Id, jobId: Id)
    requires nodeId in db.nodes
  {
    && jobId in db.jobs
    && jobId !in db.confirmations
    && db.jobs[jobId].nodeId == nodeId
    && db.jobs[jobId].targetVersion == db.nodes[nodeId].desiredConfigVersion
    && db.jobs[jobId].status.JobSucceeded?
  }

  // What a grant is told as: every field of its row, and its credential while it may give access.
  ghost predicate TellsGrant(
      told: Grant, g: GrantRow, k: Access, now: int, derive: CredentialBinding -> string)
  {
    && told == Grant(g.id, g.status, g.expiresAt, g.desiredVersion, g.appliedVersion, g.revokedAt, told.credential)
    && forall credential :: told.credential == Some(credential) <==>
         && g.status != Revoked && now < g.expiresAt
         && g.derivationVersion == Some(DATA_PLANE_CREDENTIAL_DERIVATION_VERSION)
         && credential == derive(CredentialBinding(g.id, k.deviceId, k.nodeId))
         && g.credentialHash == Hashed(credential)
  }

  // The route is open with these contents: activated no later than the node's version, between an active
  // endpoint and an active profile of the node that has a public configuration.
  ghost predicate IsOpen(db: Db, r: RouteKey, nodeId: Id, told: ToldRoute)
    requires nodeId in db.nodes
  {
    && r in db.routes && r.endpointId in db.endpoints && r.connectionProfileId in db.profiles
    && db.routes[r] == RouteRow(nodeId, Some(told.activationVersion))
    && told.activationVersion <= db.nodes[nodeId].desiredConfigVersion
    && db.endpoints[r.endpointId] == Endpoint(nodeId, true, told.address)
    && db.profiles[r.connectionProfileId] == ConnectionProfile(nodeId, true, told.protocol, Some(told.publicConfig))
  }

  // The content tells every grant of the node and exactly its open routes.
  ghost predicate TellsNode(db: Db, nodeId: Id, now: int, derive: CredentialBinding -> string, content: Content)
    requires nodeId in db.nodes
  {
    && content.targetVersion == db.nodes[nodeId].desiredConfigVersion
    && (forall k :: k in content.grants <==> k in db.grants && k.nodeId == nodeId)
    && (forall k | k in content.grants :: TellsGrant(content.grants[k], db.grants[k], k, now, derive))
    && forall r, told :: r in content.routes && content.routes[r] == told <==> IsOpen(db, r, nodeId, told)
  }

  lemma ToldTellsGrant(g: GrantRow, k: Access, now: int, derive: CredentialBinding -> string)
    ensures TellsGrant(Told(g, k, now, derive), g, k, now, derive)
  {
  }

  lemma OpenExactly(db: Db, r: RouteKey, nodeId: Id, told: ToldRoute)
    requires nodeId in db.nodes
    ensures IsOpen(db, r, nodeId, told) <==>
              r in db.routes && RouteIsOpen(db, r, nodeId) && ToldOf(db, r, nodeId) == told
  {
  }

  lemma ContentTells(db: Db, nodeId: Id, now: int, derive: CredentialBinding -> string)
    requires nodeId in db.nodes
    ensures TellsNode(db, nodeId, now, derive, ContentFor(db, nodeId, now, derive))
  {
    hide RouteIsOpen, IsOpen, ToldOf, Told, TellsGrant;
    var content := ContentFor(db, nodeId, now, derive);
    forall k | k in content.grants ensures TellsGrant(content.grants[k], db.grants[k], k, now, derive) {
      ToldTellsGrant(db.grants[k], k, now, derive);
    }
    forall r, told ensures r in content.routes && content.routes[r] == told <==> IsOpen(db, r, nodeId, told) {
      OpenExactly(db, r, nodeId, told);
    }
  }

  // The node carried the job out for this version and has not confirmed it.
  ghost predicate IsCarriedOut(db: Db, jobId: Id, nodeId: Id, version: nat) {
    && jobId in db.jobs.Keys - db.confirmations.Keys && db.jobs[jobId].status == JobSucceeded
    && db.jobs[jobId].nodeId == nodeId && db.jobs[jobId].targetVersion == version
  }

  lemma AwaitsExactly(db: Db, nodeId: Id)
    requires nodeId in db.nodes
    ensures forall j: Id ::
              IsCarriedOut(db, j, nodeId, db.nodes[nodeId].desiredConfigVersion) <==> AwaitsConfirmation(db, nodeId, j)
  {
  }

  class NodeAgentConfigurationService {
    const database: Database

    constructor (database: Database)
      ensures this.database == database
    {
      this.database := database;
    }

    // Tells a node its configuration and records the delivery when a confirmation of it is awaited.
    method SnapshotInTransaction(nodeId: Id, now: int) returns (r: Tx<Response>)
      requires Valid(database.db)
      modifies database`db
      ensures Valid(database.db) && Evolves(old(database.db), database.db)
      ensures r.Aborted? <==> nodeId !in old(database.db).nodes
      ensures r.Aborted? ==> database.db == old(database.db)
      ensures r.Committed? ==> r.value.content == ContentFor(old(database.db), nodeId, now, database.derive)
      ensures r.Committed? ==> TellsNode(old(database.db), nodeId, now, database.derive, r.value.content)
      ensures r.Committed? ==>
                && r.value.desired == old(database.db).nodes[nodeId].desiredConfigVersion
                && r.value.applied == old(database.db).nodes[nodeId].appliedConfigVersion
      ensures r.Committed? ==> forall j: Id ::
                r.value.pendingJobId == Some(j) <==>
                  && r.value.applied < r.value.desired
                  && IsCarriedOut(old(database.db), j, nodeId, r.value.desired)
      ensures r.Committed? ==> database.db == old(database.db).(deliveries := old(database.db).deliveries
                + if r.value.pendingJobId.None? then {}
                  else {Delivery(nodeId, r.value.pendingJobId.value, r.value.desired, r.value.content)})
    {
      hide Valid, Evolves, RouteIsOpen, Told, TellsNode, IsCarriedOut;
      var t := database.db;
      EvolvesReflexive(t);
      if nodeId !in t.nodes {
        return Aborted;
      }
      var node := t.nodes[nodeId];
      var pending := None;
      if node.appliedConfigVersion < node.desiredConfigVersion {
        var candidates := set j | j in t.jobs && AwaitsConfirmation(t, nodeId, j);
        pending := First(candidates);
        assert forall j: Id :: AwaitsConfirmation(t, nodeId, j) ==> j in candidates;
      }
      AtMostOneAwaits(t, nodeId);
      AwaitsExactly(t, nodeId);
      var content := ContentFor(t, nodeId, now, database.derive);
      ContentTells(t, nodeId, now, database.derive);
      if pending.Some? {
        DeliveryKeepsValid(t, nodeId, pending.value, now, database.derive);
        database.db := t.(deliveries := t.deliveries
          + {Delivery(nodeId, pending.value, node.desiredConfigVersion, content)});
      }
      r := Committed(Response(node.desiredConfigVersion, node.appliedConfigVersion, pending, content));
    }
  }

  lemma AtMostOneAwaits(db: Db, nodeId: Id)
    requires Valid(db) && nodeId in db.nodes
    ensures forall i: Id, j: Id | AwaitsConfirmation(db, nodeId, i) && AwaitsConfirmation(db, nodeId, j) :: i == j
  {
  }

  lemma ContentFits(db: Db, nodeId: Id, jobId: Id, now: int, derive: CredentialBinding -> string)
    requires nodeId in db.nodes && AwaitsConfirmation(db, nodeId, jobId)
    ensures var content := ContentFor(db, nodeId, now, derive);
            DeliveryFits(db, Delivery(nodeId, jobId, content.targetVersion, content))
  {
  }

  // Recording what a node has just been told keeps every invariant.
  lemma DeliveryKeepsValid(db: Db, nodeId: Id, jobId: Id, now: int, derive: CredentialBinding -> string)
    requires Valid(db) && nodeId in db.nodes && AwaitsConfirmation(db, nodeId, jobId)
    ensures var content := ContentFor(db, nodeId, now, derive);
            var after := db.(deliveries := db.deliveries + {Delivery(nodeId, jobId, content.targetVersion, content)});
            Valid(after) && Evolves(db, after)
  {
    var content := ContentFor(db, nodeId, now, derive);
    ContentFits(db, nodeId, jobId, now, derive);
    OneMoreDelivery(db, Delivery(nodeId, jobId, content.targetVersion, content));
  }

  lemma OneMoreDelivery(db: Db, x: Delivery)
    requires Valid(db) && DeliveryFits(db, x)
    ensures var after := db.(deliveries := db.deliveries + {x}); Valid(after) && Evolves(db, after)
  {
    var after := db.(deliveries := db.deliveries + {x});
    forall y | y in after.deliveries ensures DeliveryFits(after, y) {
      assert DeliveryFits(db, y);
    }
    EvolvesReflexive(db);
  }

  // Whatever list of the delivered grants an agent holds, and whenever it looks, it serves a
  // client only for a grant that was active and unrevoked when the snapshot was taken, that
  // had not expired then and has not expired now, with the credential bound to it.
  lemma OnlyEntitledGrantsAreServed(
      db: Db, nodeId: Id, now: int, derive: CredentialBinding -> string, s: Snapshot, later: int, c: XrayClient)
    requires nodeId in db.nodes
    requires forall g :: g in s.grants ==> g in ContentFor(db, nodeId, now, derive).grants.Values
    requires c in SelectServableXrayClients(s, later)
    ensures exists k ::
              && k in db.grants && k.nodeId == nodeId
              && db.grants[k].id == c.grantId
              && db.grants[k].status.Active? && db.grants[k].revokedAt.None?
              && now < db.grants[k].expiresAt && later < db.grants[k].expiresAt
              && c.credential == derive(CredentialBinding(c.grantId, k.deviceId, nodeId))
  {
    SelectedExactly(s, later, c);
    var g :| g in s.grants && ServableAt(g, later) && g.id == c.grantId && g.credential == Some(c.credential);
    var told := ContentFor(db, nodeId, now, derive).grants;
    var k :| k in told && told[k] == g;
    assert told[k] == Told(db.grants[k], k, now, derive);
  }

  // An active, unrevoked and unexpired grant whose stored credential is of the current derivation and is the
  // one bound to it.
  ghost predicate InForce(g: GrantRow, k: Access, now: int, derive: CredentialBinding -> string) {
    && g.status == Active && g.revokedAt == None && now < g.expiresAt
    && g.derivationVersion == Some(DATA_PLANE_CREDENTIAL_DERIVATION_VERSION)
    && g.credentialHash == Hashed(derive(CredentialBinding(g.id, k.deviceId, k.nodeId)))
  }

  // And conversely: an agent that holds what it was told serves every grant in force, with the credential
  // bound to it, until the grant expires.
  lemma EveryGrantInForceIsServed(
      db: Db, nodeId: Id, now: int, derive: CredentialBinding -> string, s: Snapshot, later: int, k: Access)
    requires nodeId in db.nodes && k in db.grants && k.nodeId == nodeId && InForce(db.grants[k], k, now, derive)
    requires forall g :: g in ContentFor(db, nodeId, now, derive).grants.Values ==> g in s.grants
    requires later < db.grants[k].expiresAt
    ensures XrayClient(db.grants[k].id, derive(CredentialBinding(db.grants[k].id, k.deviceId, nodeId)))
            in SelectServableXrayClients(s, later)
  {
    var told := ContentFor(db, nodeId, now, derive).grants;
    var g := Told(db.grants[k], k, now, derive);
    assert k in told && told[k] == g;
    assert g in told.Values && g in s.grants;
    SelectedExactly(s, later, XrayClient(g.id, g.credential.value));
  }
}
