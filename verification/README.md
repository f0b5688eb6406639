# Verified model of the VPN control plane and its node agents

A Dafny model of the parts of this system that must stay right under failures, retries and
concurrency, with proofs of what they keep. `dafny verify dfyconfig.toml` checks everything.

The system hands out VPN access. The control plane keeps, in a relational database, which device
has access to which node until when (grants), and a version of the configuration that each node
should have. A node agent polls its configuration, makes the Xray process serve exactly the
entitled clients, and acknowledges the version. The model has five parts.

1. **The node agent** (`XrayAccess`, `DurableFiles`, `AgentState`, `NodeHost`, `LocalXrayAdapter`,
   `ReconcileLoop`, `AgentRuns`, `NodeAgent`). `NodeHost.Host` is the world outside the adapter: a
   clock, a disk that distinguishes what is visible from what survives a power loss, and a runtime that
   admits clients. Every call to it may fail, before or after it has had its effect, and takes time. A
   ghost log holds every disk there has been, so "at every instant" covers a crash at any point.
   `LocalXrayAdapter` has the three in-memory fields of the agent's adapter and one ghost flag, `leftOpen`,
   for the rethrows that deliberately do not stop the runtime. `AgentRuns` says what each operation
   does to the machine and proves what holds over every run of operations and of deaths of the runtime, the
   process and the machine; `NodeAgent.EveryRun` executes any list of requests and is such a run.
2. **The control plane** (`AccessState`, `NodeAgentConfiguration`, `Orchestration`, `Revocation`,
   `DeviceAccessRevocation`, `NodeLifecycle`, `AccessReconciliation`, `SubscriptionAccessStore`,
   `GrantScheduling`, `TrialActivation`, `Surroundings`, `ControlPlane`, `BatchCursor`). The
   tables are one value, `Db`; each transaction is one atomic method on it, as the row and advisory
   locks make it. `AccessState.Valid` states what every transaction keeps, and `AccessState.Evolves`
   how any later moment relates to an earlier one. `ControlPlane.Performed` is the effect of each
   request on the tables; the statements about histories are for every sequence of requests, and
   `ControlPlane.EveryRun` executes any. `Surroundings` holds what other services may do to the tables.
   `BatchCursor` is the cursor that chooses the work of the maintenance loop.
3. **Health decisions** (`ProbeCycle`, `ProbeVerdict`, `HealthDecision`, `HealthHistory`,
   `HealthEvidence`, `EvidenceVerdict`): votes of probe sources, the counter machine with hysteresis,
   recovery window, cooldown and quarantine, and the store that versions the decisions and uses each probe
   result at most once. `ProbeVerdict`, `HealthHistory` and `EvidenceVerdict` say what all of this comes to
   without the loops, counters and windows: from the votes, from the history, and from the stored evidence.
4. **Leased queues** (`Leases`, `OutboxStore`, `NodeSyncStore`, `PublisherRuns`, `OutboxPublisher`):
   conditional updates under expiring leases with fencing tokens, and publishers that interleave
   between any two of their effects and may stop at any point. `PublisherRuns` is about every sequence
   of effects, and the publishers of `OutboxPublisher` are proved to produce only those.
5. **The subscription feed** (`PercentEncoding`, `DataPlaneCredential`, `VlessTcpTls`, `VlessUri`,
   `RouteNames`, `SubscriptionFeed`): the greedy selection under several budgets, the URI printer and the
   label parser, on UTF-16 code units. `VlessUri` is a parser of whole URIs that reads every rendered route
   back; `RouteNames` says what the accepted names are made of.

`Basics`, `Queries` and `SecurityTiming` hold sorting, ordered queries and the timing constants.

## Findings

Three statements that a reader might expect are false of the code; each is replaced by the exact
condition under which the code meets it.

- The version in an intact state file can fall: a read of the file that fails transiently is treated
  like a missing file for the downgrade check. It falls exactly then
  (`AgentState.VersionFallsExactlyAfterReadFailure`, with a concrete case in
  `AgentState.OlderSnapshotReplacesUnreadable`).
- A stop-only latch can loosen: a latch that cannot be read when it is merged is replaced outright
  (`AgentState.LatchTightensExactlyWhenReadable`, with a concrete case in
  `AgentState.UnreadableLatchLoosens`).
- Rendering a route can throw instead of skipping it: a display name with a lone surrogate passes the
  validators and makes the percent-encoding throw, and nothing else does
  (`VlessTcpTls.RenderingThrowsExactly`, with a concrete case in `VlessTcpTls.LoneSurrogateThrows`).
  This is a fault of the function and matters to its direct callers: in the running service the name
  comes from a UTF-8 text column, which cannot hold a lone surrogate.

A fourth holds with a reservation. Three failure exits leave the runtime serving with a stale memory
of its clients; after them a local reconcile may keep what is admitted although it is not the list
wanted (a concrete case is `LocalXrayAdapter.StaleMemoryIsTrusted`). The property of
`ReconcileLocalState` holds from the next success or stop on, which the ghost flag `leftOpen` tracks.

One check is shown to be redundant for grants: a claim of a synchronisation job asks that the tables
are ready for it, and for a job of a grant they always are (`ControlPlane.GrantJobsAreAlwaysReady`).

## Assumptions

- Hashes are injective: the model stores the hashed content. The keyed derivation of credentials is
  an arbitrary function, injective where the feed needs it. In the control plane a credential hash
  verifies exactly the credential it was made from; in the feed the verifier is an arbitrary test.
- Identifiers and lease tokens are numbers handed out in increasing order instead of random ones; the
  proofs use only that a new one is fresh. Identifiers are totally ordered. Idempotency keys given by
  callers differ from those the services build themselves.
- The schema's uniqueness rules hold: one grant per node and device, one pool per node in a feed,
  versions and attempts from 0, jobs and events starting as pending.
- A failed apply of the runtime admits no client that is neither old nor offered, and a stop that
  reports success admits nobody.
- The enforcement bound supposes each command within its declared time and file calls and timers no
  slower than the slack that the constants leave (`ReconcileLoop.MAX_SLOWNESS_MS`).
- The address test of the platform takes for an address of version 4 only letters, digits and dots, and
  for one of version 6 only these, dashes, colons and percent signs (which begin a zone).

## Model

| member | source | states |
|---|---|---|
| `XrayAccess.SelectedExactly` | apps/node-agent/src/xray-access.ts:7-26 | A client is selected if and only if an active, unrevoked, unexpired grant carries its credential; the list is in grant order. |
| `XrayAccess.ExpiredIsNotServed` | apps/node-agent/src/xray-access.ts:143-148 | A grant whose every active occurrence has expired is not among the clients to serve. |
| `XrayAccess.FindNextXrayClientExpiry` | apps/node-agent/src/xray-access.ts:28-42 | The result is the least expiry still ahead of an active grant, and none exactly when there is no such expiry. |
| `XrayAccess.SelectionChangesAtNextExpiry` | apps/node-agent/src/xray-access.ts:28-42 | The client list stays what it is at every instant before the next expiry and differs at every instant from it on (if and only if). |
| `XrayAccess.FindExpiredEnforcementDeadline` | apps/node-agent/src/xray-access.ts:44-60 | The result is the least enforcement deadline among the active grants that have expired. |
| `XrayAccess.FindRevocationEnforcements` | apps/node-agent/src/xray-access.ts:88-141 | The list holds exactly the revocations that must be enforced: of grants the local snapshot served until after the revocation took effect, or, without a readable local snapshot, all recorded revocations; in grant order. |
| `XrayAccess.MustEnforceExactly` | apps/node-agent/src/xray-access.ts:88-141 | A revocation must be enforced if and only if it has come into effect and the local snapshot had the grant in force at that very instant (the last grant of that identifier: active, unrevoked, with a credential, unexpired), or no local snapshot is readable. |
| `XrayAccess.EarliestDeadline` | apps/node-agent/src/xray-access.ts:62-81 | The least deadline of the enforcements, none for an empty list. |
| `LocalXrayAdapter.LocalXrayAdapter.WriteJsonDurably` | apps/node-agent/src/local-xray-adapter.ts:665-684 | At every instant of a replacement, whichever call fails, each thing a power loss could leave under the name is a survivor of the disk the call began with or the complete new document; success shows the new document, and with directory synchronisation nothing else can survive. |
| `DurableFiles.CrashDuringReplacement` | apps/node-agent/src/local-xray-adapter.ts:665-684 | A power loss at any instant of a replacement leaves the complete old or the complete new document. |
| `DurableFiles.CrashAfterReplacement` | apps/node-agent/src/local-xray-adapter.ts:661-707 | Once only the new document can survive, every later power loss leaves exactly it, and it stays the only survivor. |
| `DurableFiles.RenameReplaces` | apps/node-agent/src/local-xray-adapter.ts:665-684 | Renaming a flushed temporary file over the name shows the new document and leaves only old survivors or the new one; it needs the flush to have come first. |
| `AgentState.EqualHashesServeAlike` | apps/node-agent/src/local-xray-adapter.ts:710-735 | Snapshots of equal hash serve the same clients at every instant, although the hash omits applied versions and the pending acknowledgement. |
| `AgentState.EqualHashesExactly` | apps/node-agent/src/local-xray-adapter.ts:710-735 | Two snapshots hash alike if and only if they say the same of version, routes and every grant, but for the versions the grants were confirmed at. |
| `AgentState.PlanExactly` | apps/node-agent/src/local-xray-adapter.ts:302-361 | Against a readable state, a lower version is refused as a downgrade, the same version is applied again if it says the same and refused as a collision if not, and only a higher one replaces the state, which is kept as the previous one; any other state is replaced outright. |
| `AgentState.ReplacementReadsBack` | apps/node-agent/src/local-xray-adapter.ts:737-751 | Every envelope that an apply writes reads back as consistent, its version strictly above the version it replaces. |
| `AgentState.VersionFallsExactlyAfterReadFailure` | apps/node-agent/src/local-xray-adapter.ts:302-361 | Applying a snapshot lowers the version of an intact state file if and only if the read of that file failed and the snapshot is older. |
| `AgentState.OlderSnapshotReplacesUnreadable` | apps/node-agent/src/local-xray-adapter.ts:302-361 | A concrete case: an intact file for version 2 that cannot be read for a moment is replaced by version 1. |
| `AgentState.MergedLatchTightens` | apps/node-agent/src/local-xray-adapter.ts:597-628 | A merged latch is canonical, so it parses back as valid; it demands every new enforcement; and it only tightens the latch that was read: target up, deadline down, grants more. |
| `AgentState.LatchTightensExactlyWhenReadable` | apps/node-agent/src/local-xray-adapter.ts:597-628 | Every replacement tightens the latch on disk if and only if reading that latch succeeds; after a failed read a replacement may loosen it. |
| `AgentState.UnreadableLatchLoosens` | apps/node-agent/src/local-xray-adapter.ts:597-628 | A concrete case: a latch for version 7, due at 1000 and naming grant 3, that cannot be read for a moment, is replaced by one for version 4, due at 2000 and naming grant 5 alone. |
| `LocalXrayAdapter.LocalXrayAdapter.ForceFailClosed` | apps/node-agent/src/local-xray-adapter.ts:515-528 | The remembered clients are forgotten first; the adapter records fail-closed exactly when the stop succeeded, and then nobody is admitted. |
| `LocalXrayAdapter.LocalXrayAdapter.FailClosedAndRethrow` | apps/node-agent/src/local-xray-adapter.ts:530-543 | The original error is passed on if the stop succeeded and replaced by the stop failure otherwise; never is anybody newly exposed. |
| `LocalXrayAdapter.LocalXrayAdapter.EnforceClockTrust` | apps/node-agent/src/local-xray-adapter.ts:477-495 | Anything but a trusted clock stops the runtime; a trusted one changes nothing. |
| `LocalXrayAdapter.LocalXrayAdapter.EnsureDurabilityConfirmed` | apps/node-agent/src/local-xray-adapter.ts:545-553 | Without confirmed durability of the state file the runtime is stopped; the files read the same as before. |
| `LocalXrayAdapter.LocalXrayAdapter.ReadState` | apps/node-agent/src/local-xray-adapter.ts:555-574 | The outcome is exactly what the file shows: valid, missing, corrupt or unreadable. |
| `LocalXrayAdapter.LocalXrayAdapter.ReadStopOnlyLatch` | apps/node-agent/src/local-xray-adapter.ts:576-595 | The outcome is exactly what the latch file shows. |
| `LocalXrayAdapter.LocalXrayAdapter.ConfirmDurability` | apps/node-agent/src/local-xray-adapter.ts:686-707 | Success, where directories can be synchronised, leaves the visible state file as the only survivor; failure never adds one. |
| `LocalXrayAdapter.LocalXrayAdapter.PersistStopOnlyLatch` | apps/node-agent/src/local-xray-adapter.ts:597-628 | The latch is read once more and replaced by the merge with that reading; at every instant the disk holds the old latch or the merged one, and success makes the merged one durable. |
| `LocalXrayAdapter.LocalXrayAdapter.ClearStopOnlyLatchAfterVerifiedApply` | apps/node-agent/src/local-xray-adapter.ts:630-655 | A latch file disappears only when it was valid, the snapshot reaches its target version, and at an instant of the clearing none of its grants is servable. |
| `LocalXrayAdapter.LocalXrayAdapter.ApplySnapshot` | apps/node-agent/src/local-xray-adapter.ts:302-435 | For every outcome of every file, clock, probe, apply and stop call: a latch on disk at the end means nobody is admitted, if the stops worked; at every instant the state file is the old or the planned one and the latch the old one or gone; a normal return has exactly this version and snapshot durable with its servable clients accepted; a removed latch was satisfied; refusals are exactly downgrades and collisions; every other failure stops the runtime, or leaves it open because a probe of this operation saw it serving; a snapshot that tells of a revocation already due stops the runtime before its clients are offered, so a grant it no longer serves was admitted no longer than the checks and stops before can take, and a failure leaves nobody admitted. |
| `LocalXrayAdapter.LocalXrayAdapter.EnforceSnapshotSecurity` | apps/node-agent/src/local-xray-adapter.ts:167-209 | After a normal return each revocation of a client the node was serving is on the durable latch and the runtime is stopped, or there was none and the disk is untouched; any throw stops the runtime; the state file is never at risk. |
| `LocalXrayAdapter.LocalXrayAdapter.NextLocalReconcileAt` | apps/node-agent/src/local-xray-adapter.ts:211-229 | If somebody is still admitted after a normal return, there is no latch, and the returned instant is within the integrity interval and no later than the first change of the client list. |
| `LocalXrayAdapter.NextLocalSecurityCheckAt` | apps/node-agent/src/local-xray-adapter.ts:757-770 | The instant is after now, within the integrity interval, the client list is constant until it, and if it comes before the end of the interval the list changes at it. |
| `LocalXrayAdapter.LocalXrayAdapter.ReconcileLocalState` | apps/node-agent/src/local-xray-adapter.ts:231-295 | After a normal return nobody is admitted or exactly the servable clients of the persisted snapshot at the sampled time, unless an earlier operation left through a fail-open rethrow; a runtime that the probe of this operation did not see serving is always offered exactly those clients, and it is left alone if and only if it was seen serving, these clients are remembered and nothing was due to be stopped; the list stays right until the returned instant; how long the watched grant was exposed is bounded for each way out; the files are left as they were. |
| `LocalXrayAdapter.StaleMemoryIsTrusted` | apps/node-agent/src/local-xray-adapter.ts:254-291 | A concrete case of the reservation: a failed apply leaves another list admitted, the memory of the earlier list survives, and the next reconcile for the earlier list leaves the runtime alone. |
| `ReconcileLoop.LocalStateReconcileLoop.ReconcileOnce` | apps/node-agent/src/local-state-reconciler.ts:54-87 | One round keeps the schedule: if the watched grant is still admitted after it, the next round starts so early that the reserve covers an apply in flight plus the stop before the enforcement limit. |
| `ReconcileLoop.LocalStateReconcileLoop.RunAlone` | apps/node-agent/src/security-timing.ts:1-20 | From every state in which the watched grant is not late already, for any number of rounds and any failures of applies, probes and file calls: an expired grant is admitted no later than its expiry plus the five-minute limit, unless a stop command failed; the 120 s reserve covers an apply in flight plus the stop. |
| `ReconcileLoop.LocalStateReconcileLoop.FreshStartIsOnTime` | apps/node-agent/src/security-timing.ts:1-20 | A loop that starts afresh, even after the expiry and with the grant still admitted, is in such a state up to the limit less the reserve, plus one retry delay and the lateness of a timer. |
| `NodeHost.Host.ApplyClients` | apps/node-agent/src/xray-runtime.ts:46-62 | The runtime contract: success admits exactly the offered clients; a failure admits none but old or offered ones. |
| `NodeHost.Host.FailClosed` | apps/node-agent/src/xray-runtime.ts:64-67 | The runtime contract: a stop that reports success admits nobody; one that fails admits nobody new. |
| `NodeAgent.NodeAgentRunner.RunCycle` | apps/node-agent/src/agent.ts:23-44 | Nothing is acknowledged before its exact version and snapshot are durable and its servable clients were accepted in this cycle; a version that the control plane has not asked to confirm is not applied; and whatever fails, the cycle is one operation in the sense of the runs below. |
| `AgentRuns.PlannedIsSound` | apps/node-agent/src/local-xray-adapter.ts:302-361 | What an apply may write over a sound disk is sound: complete, consistent and no older than the version that was durable. |
| `AgentRuns.SoundThroughOperation` | apps/node-agent/src/local-xray-adapter.ts:302-426 | A sound disk stays sound at every instant of an operation that writes only sound states. |
| `AgentRuns.SoundDuring` | apps/node-agent/src/local-xray-adapter.ts:302-426 | At every instant of every operation, whatever fails in it: no durable version is lost or undercut, for hosts whose reads of existing files succeed. |
| `AgentRuns.SoundAfterPowerLoss` | apps/node-agent/src/local-xray-adapter.ts:661-707 | A sound disk is sound after every power loss. |
| `AgentRuns.DurableVersionNeverFalls` | apps/node-agent/src/local-xray-adapter.ts:302-361 | Over every run of operations, of deaths of the runtime, and of deaths of the process and of the machine at any instant of an operation: a version durable at one moment, whoever made it so and whether or not it was acknowledged, is readable in the state file at every later moment as at least that version, and a whole state file is never corrupt. |
| `AgentRuns.AppliedIsDurable` | apps/node-agent/src/local-xray-adapter.ts:302-426 | An apply that returns, acknowledged or not, has made its version durable. |
| `AgentRuns.AppliedVersionStands` | apps/node-agent/src/local-xray-adapter.ts:302-426 | Over every run: the version of each apply that returned stands at every later moment, and the versions of the applies that return, which include all acknowledged ones, never decrease. |
| `AgentRuns.LatchedIsDurable` | apps/node-agent/src/local-xray-adapter.ts:167-209 | A security check that returns with something to enforce leaves its latch durable, canonical and demanding all it was merged from. |
| `AgentRuns.LatchNamesRevoked` | apps/node-agent/src/local-xray-adapter.ts:182-201 | When a security check returns, each grant of the told snapshot whose revocation had to be enforced (served by the local snapshot until after the revocation took effect, or revoked at all when no local snapshot is readable) is on the latch, which demands at least the told version. |
| `AgentRuns.DemandStands` | apps/node-agent/src/local-xray-adapter.ts:597-655 | Over every run with the same deaths: from the moment a latch is durable, the latch on disk, now or after a power loss, is valid and demands at least as much, until an apply lifts it; to lift it the apply must reach the target version, serve none of the latched grants at an instant of that apply, and hold its snapshot in the state file where it ends or is cut short. An apply that is refused, fails or dies before that leaves the latch standing. |
| `AgentRuns.RevokedStaysStopped` | apps/node-agent/src/local-xray-adapter.ts:167-209 | Over every run: once a security check has returned that found a grant of the told snapshot revoked while the node served it, nobody is admitted after any operation whose stop commands worked, whatever died in between, until an apply lifts the latch in the sense of the row above. |
| `AgentRuns.LiftingServesNoRevoked` | apps/node-agent/src/local-xray-adapter.ts:630-655 | Whatever lifts that latch is an apply of at least the version that told the revocation, and at an instant of it the revoked grant is not among the clients to serve. |
| `NodeAgent.EveryRun` | apps/node-agent/src/agent.ts:23-44 | Whatever the agent is asked to do (polls, local reconciles, looks ahead), wherever the runtime, the process or the machine dies, what happens is a run in the sense of the statements above, answering the requests one by one; so every version durable before it is durable after it. |
| `AccessState.BumpKeepsValid` | packages/orchestration-store/src/subscription-access-store.ts:931-974 | Raising a node's desired version with its grants, one job and one event keeps all table invariants and loses no history. |
| `AccessState.DeliveriesKeepFitting` | apps/api/src/node-agent/node-agent-configuration.service.ts:45-57 | A delivered snapshot keeps fitting under every evolution of the tables: whatever changed since on its node carries a higher version. |
| `NodeAgentConfiguration.NodeAgentConfigurationService.SnapshotInTransaction` | apps/api/src/node-agent/node-agent-configuration.service.ts:20-211 | The answer tells every grant of the node field by field, its credential if and only if it is unrevoked, unexpired and stored under the current derivation and hash, and exactly the routes activated by then between an active endpoint and an active profile with a public configuration; a delivery of exactly that content is recorded if and only if a carried-out, unconfirmed job for the desired version exists, and nothing else changes. |
| `NodeAgentConfiguration.DeliveryKeepsValid` | apps/api/src/node-agent/node-agent-configuration.service.ts:184-196 | Recording what a node has just been told keeps every invariant. |
| `NodeAgentConfiguration.OnlyEntitledGrantsAreServed` | apps/api/src/node-agent/node-agent-configuration.service.ts:64-93 | Across both programs: whatever order the agent holds the delivered grants in and whenever it looks, it serves a client only for a grant that was active and unrevoked in the tables, unexpired then and now, with the credential bound to that grant, device and node. |
| `NodeAgentConfiguration.EveryGrantInForceIsServed` | apps/api/src/node-agent/node-agent-configuration.service.ts:64-93 | And conversely: an agent that holds what it was told serves every active, unrevoked, unexpired grant whose stored credential is the bound one of the current derivation, until the grant expires. |
| `Orchestration.OrchestrationService.AcknowledgeNodeConfig` | apps/api/src/orchestration/orchestration.service.ts:332-463 | Accepted if and only if exactly this content was delivered for this job, the job succeeded and no other content was confirmed for it; then each grant of the node asked to change by that version has its confirmed version caught up, becomes active if it was pending and keeps everything else, every other grant row is unchanged, and each grant it confirms was told to the node with the same version and expiry; a repeat changes nothing. |
| `Orchestration.AcknowledgedConfirmsWhatWasTold` | apps/api/src/orchestration/orchestration.service.ts:391-444 | Each grant row a confirmation changes was in the delivered content with the same desired version and expiry, however much happened in between. |
| `Orchestration.ConfirmedIsServed` | apps/api/src/orchestration/orchestration.service.ts:391-444 | Across both programs: after a confirmation, a grant it confirmed is served, while it lasts, by every agent that holds what the node is told next. |
| `Orchestration.NothingLeftBelowApplied` | apps/api/src/orchestration/orchestration.service.ts:357-389 | At and below the version a node has confirmed no grant is left to confirm, so answering a repeat without writing is right. |
| `Orchestration.CaughtUpHasConfirmedAll` | apps/api/src/orchestration/orchestration.service.ts:391-444 | A node whose confirmed version is its desired one has confirmed every one of its grants. |
| `Orchestration.AcknowledgedKeepsValid` | apps/api/src/orchestration/orchestration.service.ts:391-463 | Confirming keeps every invariant and loses no history. |
| `Orchestration.OrchestrationService.PublishConnectionRoute` | apps/api/src/orchestration/orchestration.service.ts:101-294 | With unused keys it commits if and only if node, endpoint and profile allow it, and then opens exactly this route and its endpoint and profile under the node's next version, with one job and one event; with used keys it answers, without writing, if and only if they were used for this route. |
| `Orchestration.PublishedIsTold` | apps/api/src/orchestration/orchestration.service.ts:101-294 | What the node is told after a publication includes the published route, with the new version and the endpoint's and profile's own contents. |
| `DeviceAccessRevocation.DeviceAccessRevoker.Revoke` | apps/api/src/orchestration/device-access-revoker.service.ts:13-149 | The device is deactivated and each of its live grants, and no other, is revoked as of this instant, on a synchronised node under that node's next version; every other field, grant and node is unchanged; or nothing changes. |
| `Revocation.RevokeOnKeepsValid` | apps/api/src/orchestration/device-access-revoker.service.ts:72-137 | Revoking grants of one node, with or without a new version, keeps every invariant. |
| `Revocation.RevokeOnExtends` | apps/api/src/orchestration/device-access-revoker.service.ts:72-137 | Revoking node after node amounts to revoking the whole set: each further node extends the specification by exactly its grants and version. |
| `NodeLifecycle.NodeLifecycleManager.RestoreHealthy` | apps/api/src/orchestration/node-lifecycle-manager.service.ts:39-76 | Commits if and only if the node is healthy already, or drained or disabled with no version unconfirmed; a node that becomes healthy has confirmed every grant it holds. |
| `NodeLifecycle.NodeLifecycleManager.Drain` | apps/api/src/orchestration/node-lifecycle-manager.service.ts:78-115 | Commits if and only if the node is healthy or draining; only the status changes. |
| `NodeLifecycle.NodeLifecycleManager.Disable` | apps/api/src/orchestration/node-lifecycle-manager.service.ts:117-157 | Commits if and only if the node is healthy, draining or disabled; only the status changes. |
| `NodeLifecycle.NodeLifecycleManager.Quarantine` | apps/api/src/orchestration/node-lifecycle-manager.service.ts:159-330 | With unused keys it commits if and only if the node is quarantined already or may be; then every live grant of the node, and no other, is revoked as of this instant under one new version (none if there was no live grant), its routes are closed, and the job and event are named; with used keys it answers, without writing, if and only if they were used for this node's quarantine. |
| `NodeLifecycle.StatusClosesRoutes` | prisma/migrations/20260815132000_close_unbacked_route_activations/migration.sql:19-35 | A node whose status changes is told no route any more, and other nodes' routes are untouched. |
| `SubscriptionAccessStore.PrismaSubscriptionAccessStore.CancelSubscriptionAccess` | packages/orchestration-store/src/subscription-access-store.ts:142-279 | The subscription is cancelled and, while it still gave access, each live grant of its user, and no other, is revoked as of this instant, one new version per synchronised node; a repeat changes nothing. |
| `SubscriptionAccessStore.PrismaSubscriptionAccessStore.ScheduleExpiredSubscriptionOnNode` | packages/orchestration-store/src/subscription-access-store.ts:281-383 | It writes if and only if the pending-node query would list the node; then exactly the user's live grants there get the end of the longest entitlement that still runs, or else the end of the expired subscription, under one new version, once per subscription and node. |
| `SubscriptionAccessStore.PrismaSubscriptionAccessStore.MaterializeExpiredSubscriptionStatus` | packages/orchestration-store/src/subscription-access-store.ts:385-423 | A subscription becomes expired if and only if it is active and its time has passed. |
| `AccessReconciliation.EffectiveExpiry` | packages/orchestration-store/src/subscription-access-store.ts:914-929 | The result is the greatest end among the user's current entitlements, none exactly when there is none. |
| `AccessReconciliation.EntitlementExactly` | packages/orchestration-store/src/subscription-access-store.ts:914-929 | A device is entitled until an instant if and only if it is active, an active subscription of its user runs until exactly then, past now, and none of them runs longer. |
| `AccessReconciliation.LiveDeliveryExactly` | packages/orchestration-store/src/subscription-access-store.ts:476-506 | A version is still being delivered if and only if some job of the node for it was carried out and awaits confirmation, or is unfinished with an event that has not failed. |
| `AccessReconciliation.CandidateExactlyWhenRepairNeeded` | packages/orchestration-store/src/subscription-access-store.ts:687-811 | The candidate query selects a node if and only if a reconciliation of it at that instant would change something. |
| `SubscriptionAccessStore.PrismaSubscriptionAccessStore.ReconcileOneNode` | packages/orchestration-store/src/subscription-access-store.ts:425-663 | It reports a change if and only if a repair was needed; afterwards, row by row: entitled devices hold grants running exactly as long as their entitlement, created where missing and allowed, changed rows are under one new deliverable version, revocations whose delivery was lost are asked for again, and every other row is unchanged; at the same instant no repair is needed any more. |
| `SubscriptionAccessStore.PrismaSubscriptionAccessStore.PlanRepairs` | packages/orchestration-store/src/subscription-access-store.ts:519-559 | The changes entered are exactly those that entitlements and lost deliveries call for, device by device. |
| `SubscriptionAccessStore.PrismaSubscriptionAccessStore.RepairRows` | packages/orchestration-store/src/subscription-access-store.ts:586-640 | The rows written are exactly those the plan calls for, new grants under fresh identifiers, and the first of them leads the job. |
| `AccessReconciliation.RepairedNeedsNoRepair` | packages/orchestration-store/src/subscription-access-store.ts:425-663 | A repaired node needs no repair at that instant: one reconciliation is a fixpoint. |
| `AccessReconciliation.ReconciledRunsOn` | packages/orchestration-store/src/subscription-access-store.ts:425-663 | A reconciliation only creates grants, or gives existing ones an end, that lie after the instant of the reconciliation. |
| `AccessReconciliation.FailedEventIsRepaired` | packages/orchestration-store/src/subscription-access-store.ts:476-559 | A change whose only event has failed while its job is unfinished calls for a repair. |
| `AccessReconciliation.BumpIsAlive` | packages/orchestration-store/src/subscription-access-store.ts:477-506 | The version of a fresh bump counts as deliverable, which is what makes the repair final. |
| `GrantScheduling.NodeAccessGrantScheduler.Schedule` | apps/api/src/orchestration/node-access-grant-scheduler.service.ts:44-182 | With unused keys it commits if and only if device and node allow it and no grant exists, and then adds exactly one pending grant with the asked end, the credential bound to it and the node's next version, with one job and one event; with used keys it answers, without writing, if and only if they were used for this grant. |
| `GrantScheduling.ScheduledOnce` | apps/api/src/orchestration/node-access-grant-scheduler.service.ts:58-84 | Whenever and however often it is asked, one request has one result. |
| `TrialActivation.TrialActivationService.ScheduleExistingDeviceAccess` | apps/api/src/trials/trial-activation.service.ts:263-405 | It commits if and only if no key of this activation was used before on a node it would serve; then each active device of the user keeps its live grant on every node in service, now running until the trial's end, and gets one on every healthy node where it had none, under one new version per node so served; every other grant and node is unchanged; otherwise nothing changes. |
| `ControlPlane.JobsCarryEveryVersionOnce` | prisma/schema.prisma:585-791 | The target versions of a node's jobs are exactly 1 to its desired version, each once. |
| `ControlPlane.EveryJobIsAnnouncedForItsGrant` | packages/orchestration-store/src/subscription-access-store.ts:943-974 | In all tables a history leads to: each job has exactly one event, of its own subject and version, and a job for a grant names a grant of its own node that was asked to change under that version or a later one. |
| `ControlPlane.WhatARunKeeps` | apps/api/src/orchestration/orchestration.service.ts:391-444 | Between any two moments of a history: confirmed never exceeds desired, a revoked grant is still revoked, a grant at or below the confirmed version is confirmed, and it is asked to change only under a version not yet confirmed. |
| `Surroundings.JobStatusKeepsValid` | prisma/migrations/20260810203000_make_terminal_orchestration_immutable/migration.sql:1-15 | Every status change of a job that is not final keeps all invariants. |
| `Surroundings.EventStatusKeepsValid` | prisma/migrations/20260810203000_make_terminal_orchestration_immutable/migration.sql:17-29 | Every status change of an event that is not final keeps all invariants. |
| `ControlPlane.AnyTransaction` | packages/orchestration-store/src/subscription-access-store.ts:65-140 | Any one transaction of any service, with any arguments, keeps all invariants and all history and has exactly the effect that its request calls for on these tables, or none if its conditions do not hold. |
| `ControlPlane.HistoryEvolves` | apps/api/src/orchestration/orchestration.service.ts:72-463 | Over every sequence of transactions, in any order and of any length: all invariants hold at every moment, and between any two moments the tables have only evolved. That each single step keeps them is what `ControlPlane.AnyTransaction` proves of every request; this row chains the steps. |
| `ControlPlane.AcknowledgedWasTold` | apps/api/src/orchestration/orchestration.service.ts:332-463 | Over every such sequence from tables without deliveries: an accepted confirmation was preceded by an answer to that node with exactly this content for this job and version, and each grant row the confirmation changes was in that answer with the same desired version and expiry, whatever came in between. |
| `ControlPlane.EveryRun` | apps/api/src/orchestration/orchestration.service.ts:72-463 | Executing any list of requests from empty tables is such a sequence, request by request. |
| `ControlPlane.GrantJobsAreAlwaysReady` | packages/orchestration-store/src/node-sync-store.ts:123-195 | In all tables a history leads to, what claiming a job asks of nodes and grants always holds for a job for a grant; a job for a route is ready if and only if its activation is the current one of its node's route. |
| `BatchCursor.CandidateCursor.FindCandidates` | packages/orchestration-store/src/subscription-access-store.ts:665-685 | A batch is the first candidates after the cursor and then from the start up to it, and the cursor moves to its last member. |
| `BatchCursor.BatchNeverRepeats` | packages/orchestration-store/src/subscription-access-store.ts:665-685 | No batch repeats an identifier or exceeds its limit, even when the candidates change between its two queries. |
| `BatchCursor.NotPickedIsCloser` | packages/orchestration-store/src/subscription-access-store.ts:813-833 | A standing candidate that a batch does not pick is closer to the cursor by a whole batch. |
| `BatchCursor.StandingIsPicked` | packages/orchestration-store/src/subscription-access-store.ts:813-833 | No starvation: over any queries, however the candidates change, a candidate that stands in all of them is a member of one of any batches that together could cover every identifier. |
| `BatchCursor.CandidateCursor.FindRepeatedly` | packages/orchestration-store/src/subscription-access-store.ts:813-833 | The batches that the cursor finds one after the other are those that the statement above is about. |
| `ProbeCycle.AggregateHealthProbeCycle` | packages/orchestration-store/src/health-decision.ts:166-310 | The loops, with their sets, compute the aggregation whose every field the lemmas on `ProbeVerdict` determine from votes and policy. |
| `ProbeCycle.HearSignals` | packages/orchestration-store/src/health-decision.ts:180-234 | The hearing loop, with its three sets, computes the tally of votes, rejected identifiers and verdicts. |
| `ProbeCycle.ConfirmedFailureClass` | packages/orchestration-store/src/health-decision.ts:266-276 | Grouping failures by class finds the first class, in the policy's order, that a quorum confirms. |
| `ProbeCycle.InOrderIsStrict` | packages/orchestration-store/src/health-decision.ts:180-184 | Signals of distinct identifiers are heard strictly by time of receipt, ties by identifier, and none is lost. |
| `ProbeCycle.HearAllFits` | packages/orchestration-store/src/health-decision.ts:185-234 | The votes are admissible and pairwise distinct in source, independence key and identifier, and every signal has one verdict. |
| `ProbeCycle.AdmissibleIsHeard` | packages/orchestration-store/src/health-decision.ts:185-234 | Every admissible signal votes, or shares its source or its independence key with a vote. |
| `ProbeCycle.DecidedByQuorum` | packages/orchestration-store/src/health-decision.ts:236-309 | A cycle fails or succeeds only on a quorum of votes pairwise distinct in source and key, all saying so in one failure class or all succeeding, and with no vote for the opposite; it is mixed if and only if both kinds of votes exist. |
| `ProbeCycle.OrderDoesNotMatter` | packages/orchestration-store/src/health-decision.ts:166-310 | The result does not depend on the order of the signals. |
| `ProbeCycle.RejectedSignalsDoNotMatter` | packages/orchestration-store/src/health-decision.ts:143-310 | Decision, failure class and voting identifiers do not change when signals that the validity checks reject are added or left out. |
| `ProbeVerdict.VotesExactly` | packages/orchestration-store/src/health-decision.ts:143-234 | A signal votes if and only if it is of this cycle and route, fresh, authenticated, from a healthy control, unused, and no vote received before it has its source or its independence key. |
| `ProbeVerdict.DecidedExactly` | packages/orchestration-store/src/health-decision.ts:236-309 | Success if and only if some quorum of distinct votes succeeds and no vote is a route failure; failed with a class if and only if a quorum of distinct votes fails with it, no earlier class of the policy has one, and successes and failures do not both occur; mixed if and only if they do. |
| `ProbeVerdict.AggregatedTells` | packages/orchestration-store/src/health-decision.ts:166-310 | The listed identifiers are exactly those of the votes on the route, in ascending order; every signal is told exactly whether and why it was rejected; a further probe is due exactly for a mixed cycle, after the policy's delay. |
| `ProbeVerdict.ToldFirstFailure` | packages/orchestration-store/src/health-decision.ts:143-164 | A signal that is not admissible is told the first of six tests that it fails, in their order, and is admissible if and only if it fails none. |
| `HealthDecision.EvaluateHealthCycle` | packages/orchestration-store/src/health-decision.ts:354-466 | Updating a copied state in place computes the decision whose every field the lemmas of `HealthHistory` determine from the history alone. |
| `HealthDecision.CountersRefineHistory` | packages/orchestration-store/src/health-decision.ts:387-454 | For every sequence of evaluations: the failure counter counts failed cycles since the last success, the uncertainty counter uncertain ones since the last decided one, and the recovery window is open if and only if the recovery counter is positive, beginning at the first of the counted successes. |
| `HealthDecision.HealthyOnlyAfterRecovery` | packages/orchestration-store/src/health-decision.ts:402-443 | A scope becomes healthy only by a success completing an unbroken recovery: enough successes, none but successes and policy-free evaluations among them, the first begun long enough ago, and every gate passed. |
| `HealthDecision.QuarantineIsAbsorbing` | packages/orchestration-store/src/health-decision.ts:358-372 | Once quarantined, a scope is quarantined after every further sequence of evaluations. |
| `HealthDecision.ExclusionIsNeverSudden` | packages/orchestration-store/src/health-decision.ts:387-401 | Under one policy (whose schema puts the degradation threshold below the exclusion threshold), exclusion by failures never strikes a scope that was healthy or unknown just before. |
| `HealthDecision.CooldownIsOfLastRecovery` | packages/orchestration-store/src/health-decision.ts:432-439 | The stored cooldown is that of the most recent recovery in the history. |
| `HealthDecision.ReplacementWaitsForCooldown` | packages/orchestration-store/src/health-decision.ts:323-352 | A replacement is triggered if and only if there is a critical trust failure, or the exclusion threshold is reached and the cooldown of the most recent recovery has ended; new assignments are allowed exactly for a healthy scope. |
| `HealthHistory.QuarantinedExactly` | packages/orchestration-store/src/health-decision.ts:354-372 | Over every run: the scope is quarantined if and only if some evaluation of the run carried a critical trust failure. |
| `HealthHistory.HistoryDecides` | packages/orchestration-store/src/health-decision.ts:354-466 | Over every run, from counts of the history: the scope is healthy if and only if this cycle completes a recovery (enough successes since it last served, none but successes and missing policies among them, begun long enough ago, every gate passed, no trust failure ever) or it was healthy and the cycle was judged, in time and harmless; harm is a missing policy or one failure or doubt too many; unknown until something harms it or it recovers, degraded otherwise; excluded if and only if something excluded it, or it never recovered, since its last recovery; and which of the twelve reasons is given. |
| `HealthHistory.CooldownDecides` | packages/orchestration-store/src/health-decision.ts:432-439 | Over every run: the stored cooldown ends the policy's time after the last recovery, and there is none before the first. |
| `HealthHistory.HistoryTells` | packages/orchestration-store/src/health-decision.ts:323-352 | Over every run, the decision: assignments are allowed exactly for a serving scope, an incident is triggered exactly by an excluding cycle, a replacement by a trust failure or by an excluding cycle after the cooldown; identifiers, cycle and policy version are those of the judged cycle. |
| `HealthHistory.OtherConditionsAreKept` | packages/orchestration-store/src/health-decision.ts:317-321 | A condition that no cycle brings about is kept unless trust fails or a recovery ends it, and a disabled scope never recovers. |
| `HealthEvidence.PrismaHealthEvidenceStore.EvaluateAndApplyDecision` | packages/orchestration-store/src/health-evidence-store.ts:356-612 | Exactly when a request is answered; a new decision is recorded under the next version with the state it decides, a known request is answered from its record without any change; every invariant of decisions, versions, cycles and evidence holds after it. |
| `HealthEvidence.RecordedFits` | packages/orchestration-store/src/health-evidence-store.ts:480-612 | Recording a decision keeps, for all scopes: states are those of the decision history, versions consecutive, cycle starts strictly increasing, and each probe result accepted at most once. |
| `HealthEvidence.AcceptedIsFresh` | packages/orchestration-store/src/health-evidence-store.ts:480-510 | A probe result that a decision accepts was among its inputs and had been accepted by no earlier decision. |
| `HealthEvidence.PrismaHealthEvidenceStore.IsNewerThanPrevious` | packages/orchestration-store/src/health-evidence-store.ts:435-452 | Comparing with the latest judged cycle alone decides whether the cycle is newer than all of them. |
| `HealthEvidence.AnsweredForGood` | packages/orchestration-store/src/health-evidence-store.ts:374-388 | In every later state of the tables a decided request is decided, by the same decision and by no other. |
| `HealthEvidence.PrismaHealthEvidenceStore.AskAgain` | packages/orchestration-store/src/health-evidence-store.ts:374-388 | Asking again, whatever the policy and whatever decisions were asked for and probe results reported in between, finds the same decision and changes nothing. |
| `HealthEvidence.PrismaHealthEvidenceStore.RecordProbeResult` | packages/orchestration-store/src/health-evidence-store.ts:223-319 | Exactly when a report is stored, when it is answered from the stored one, and when it is refused; one row per source and source identifier. |
| `HealthEvidence.StoredQuarantineIsFinal` | packages/orchestration-store/src/health-evidence-store.ts:356-612 | A scope stored as quarantined is stored as quarantined in every later state of the tables. |
| `EvidenceVerdict.RecordedTells` | packages/orchestration-store/src/health-evidence-store.ts:435-612 | Every recorded decision: the votes are those of the stored results of this cycle and route from healthy controls, received in time, not accepted by an earlier decision and independent of each vote heard before; they come to the recorded verdict; exactly they are linked as accepted; and state, reason and actions are those of the scope's whole history with this evaluation. |
| `EvidenceVerdict.EvidenceVotes` | packages/orchestration-store/src/health-evidence-store.ts:453-500 | Of the stored results of a request exactly those vote that may and that share neither source nor key with a vote received earlier. |
| `Leases.ChangesFit` | packages/orchestration-store/src/outbox-store.ts:36-146 | Every claim, expiry, completion, retry and closing keeps the rules of a row (lease fields set exactly while processing, attempts within the bound) and uses up one of its remaining changes. |
| `Leases.ChangesAreBounded` | packages/orchestration-store/src/outbox-store.ts:36-146 | Every sequence of changes of a row ends within twice the allowed attempts plus two. |
| `Leases.EndedLeaseIsFenced` | packages/orchestration-store/src/outbox-store.ts:98-146 | A worker whose lease has ended, by whatever means, can never again change any row in the name of its token. |
| `Leases.ReleaseEndsLease` | packages/orchestration-store/src/outbox-store.ts:36-146 | Finishing a row, retrying it or letting its lease expire ends the lease. |
| `Leases.ClaimIsHeld` | packages/orchestration-store/src/outbox-store.ts:60-88 | A claim uses one attempt and is held by its owner under its token at exactly the instants before the lease duration has passed; from then on it is expired. |
| `Leases.ReclaimGivesBack` | packages/orchestration-store/src/outbox-store.ts:36-58 | Work whose lease has expired waits again, claimable at that instant with its attempts unchanged, exactly while attempts are left; otherwise it has failed. |
| `Leases.RetryWaits` | packages/orchestration-store/src/outbox-store.ts:120-146 | Retried work waits until exactly the retry delay has passed, with the code of the error, while attempts are left; otherwise it has failed with that code. |
| `Leases.NoWorkIsLost` | packages/orchestration-store/src/outbox-store.ts:36-146 | Work that is neither completed nor failed nor out of attempts can be claimed once its dates have passed, after a sweep if a worker still seems to hold it. |
| `Leases.ClaimedTableFits` | packages/orchestration-store/src/outbox-store.ts:60-88 | A claim under a fresh token keeps the rules of the table: no token held twice, final rows untouched. |
| `Leases.ReclaimAllFits` | packages/orchestration-store/src/outbox-store.ts:36-58 | Reclaiming every expired lease keeps the rules of the table and loses no row. |
| `OutboxStore.PrismaOutboxStore.ReclaimExpiredLeases` | packages/orchestration-store/src/outbox-store.ts:36-58 | Each event in scope whose lease has expired is claimable again at once with the same attempts, or has failed if its attempts are used up; no other event changes, and no lease in scope is expired any more. |
| `OutboxStore.PrismaOutboxStore.ClaimNext` | packages/orchestration-store/src/outbox-store.ts:60-88 | The oldest claimable event in scope is leased under a token never issued before; nothing is claimed exactly when nothing is claimable. |
| `OutboxStore.PrismaOutboxStore.MarkPublished` | packages/orchestration-store/src/outbox-store.ts:98-118 | It succeeds if and only if this worker still holds an unexpired lease under this token, and then only that row is finished. |
| `OutboxStore.PrismaOutboxStore.Retry` | packages/orchestration-store/src/outbox-store.ts:120-146 | It succeeds if and only if the lease is still held; the row waits again or, out of attempts, fails for good; nothing is completed by it. |
| `NodeSyncStore.PrismaNodeSyncStore.ReclaimExpiredLeases` | packages/orchestration-store/src/node-sync-store.ts:37-59 | Each job whose lease has expired is claimable again at once with the same attempts, or has failed if its attempts are used up; no other job changes, and no lease is expired any more. |
| `NodeSyncStore.PrismaNodeSyncStore.Claim` | packages/orchestration-store/src/node-sync-store.ts:61-259 | With other workers acting between its statements, each of which reads the clock anew, a claim returns a lease under a fresh token, for a ready job, that this worker then holds, or tells truly that the job is completed or closed. |
| `NodeSyncStore.PrismaNodeSyncStore.TryClaim` | packages/orchestration-store/src/node-sync-store.ts:123-195 | The claiming statement leases the job if and only if it is ready, is the job of the command and is claimable; nothing else changes. |
| `NodeSyncStore.PrismaNodeSyncStore.CloseRoute` | packages/orchestration-store/src/node-sync-store.ts:197-230 | The closing statement closes the job if and only if its route activation has been overtaken and no live lease is on it; nothing else changes. |
| `NodeSyncStore.PrismaNodeSyncStore.Complete` | packages/orchestration-store/src/node-sync-store.ts:261-281 | It succeeds if and only if the lease is still held, and then only that job is finished. |
| `NodeSyncStore.PrismaNodeSyncStore.Retry` | packages/orchestration-store/src/node-sync-store.ts:283-317 | Fenced if and only if the lease is not held; otherwise retried or failed, according to the attempts left. |
| `NodeSyncStore.QueueKeepsFinalJobs` | packages/orchestration-store/src/node-sync-store.ts:37-317 | Whatever the queue does to a job is a change of status that the control-plane tables allow. |
| `NodeSyncStore.TablesSeeTheQueue` | packages/orchestration-store/src/node-sync-store.ts:37-317 | To the tables a job succeeds exactly when its work is finished, fails when it is closed or out of attempts, and is pending again after a retry or an expired lease with attempts left. |
| `OutboxPublisher.Publishers.Deliver` | apps/worker/src/outbox-publisher.ts:38-54 | The event goes to the queue first and is settled only after that; a wrong topic, a payload that does not parse and a failed addition each lead to a retry with their own code, in that order of precedence; the step is one of the effects that the statements about runs allow. |
| `OutboxPublisher.Publishers.MarkPublished` | apps/worker/src/outbox-publisher.ts:55-67 | Published is reported if and only if the answer arrived and the row was marked, which takes a lease still held; a fenced publisher changes nothing. |
| `OutboxPublisher.Publishers.Retry` | apps/worker/src/outbox-publisher.ts:68-91 | Retrying ends the round whatever becomes of the statement; it is reported if and only if the answer arrived and the lease was still held; a fenced publisher changes nothing. |
| `OutboxPublisher.ProcessOne` | apps/worker/src/outbox-publisher.ts:33-92 | With other publishers acting between any two of its effects, a round that reports an event published has put it on the queue and left its row completed. |
| `PublisherRuns.RunFits` | apps/worker/src/outbox-publisher.ts:33-92 | Over every sequence of effects of any number of publishers: no lease is held twice, attempts stay within the bound, only valid payloads are queued, whatever is published has been queued, and the queue and every finished row stay. |
| `PublisherRuns.PublishedOnceAfterEnqueueing` | apps/worker/src/outbox-publisher.ts:38-67 | Over every such sequence: an event is marked published at most once, and its stored payload was on the queue by then. |
| `PublisherRuns.PublishedByMarking` | apps/worker/src/outbox-publisher.ts:55-67 | Over every such sequence: an event that became published was marked so by a publisher at a moment that the lemma finds. |
| `PublisherRuns.NoEventIsLost` | apps/worker/src/outbox-publisher.ts:33-92 | Over every such sequence, at every moment: an event is published and on the queue, or all its attempts are used up, or from some instant on a sweep leaves it there for any publisher to claim. |
| `PublisherRuns.EndedLeaseChangesNothing` | apps/worker/src/outbox-publisher.ts:55-91 | Over every such sequence: a publisher whose lease has ended, by whatever means, changes no row any more, whatever it still believes. |
| `OutboxPublisher.EveryRun` | apps/worker/src/outbox-publisher.ts:33-92 | Whoever takes turns in whatever order, with statements and answers lost and publishers stopping anywhere, what happens is such a sequence, turn by turn, from untried events and an empty queue. |
| `PercentEncoding.EncodingRoundTrips` | apps/api/src/subscription-access/vless-tcp-tls.renderer.ts:48-52 | Percent-encoding (sections 2.1 and 2.3 of RFC 3986, over UTF-8) fails on a lone surrogate and on nothing else, and what it yields decodes to what was encoded. |
| `PercentEncoding.EncodingIsPlain` | apps/api/src/subscription-access/vless-tcp-tls.renderer.ts:48-52 | The encoding consists of unreserved characters, percent signs and upper-case hexadecimal digits. |
| `PercentEncoding.EscapesExactly` | apps/api/src/subscription-access/vless-tcp-tls.renderer.ts:48-52 | Of any well-formed text, letters, digits and the nine marks of encodeURIComponent begin the encoding as they are, and everything else begins it with a percent sign. |
| `DataPlaneCredential.DeriveDataPlaneCredential` | packages/orchestration-store/src/data-plane-credential.ts:11-20 | Setting two bytes of the digest in place and grouping the first sixteen as hexadecimal gives a credential of the demanded shape and leaves all other bytes. |
| `DataPlaneCredential.DerivedHasShape` | packages/orchestration-store/src/data-plane-credential.ts:11-20 | For every digest the credential has the version 4 layout of section 4.4 of RFC 4122 that rendering demands. |
| `DataPlaneCredential.CredentialReadsBack` | packages/orchestration-store/src/data-plane-credential.ts:11-20 | The hexadecimal digits of a credential decode to the first sixteen bytes of the hash, with 4 in the upper half of the seventh and binary 10 at the top of the ninth. |
| `SubscriptionFeed.DerivedNeverRefused` | apps/api/src/subscription-access/vless-tcp-tls.renderer.ts:28-46 | Credentials laid out as above, from whatever keyed hash, never keep a route from being rendered: it is renderable if and only if its port, its names and its address are. |
| `SubscriptionFeed.RenderableExactly` | apps/api/src/subscription-access/subscription-feed.service.ts:52-92 | A route is rendered if and only if it is VLESS over TCP with TLS for the client, has a stored credential that verifies under the current derivation, proper names, a port and an address of its kind. |
| `VlessTcpTls.RenderedIsPlain` | apps/api/src/subscription-access/vless-tcp-tls.renderer.ts:28-53 | A rendered URI is one line of visible ASCII and the label after it contains no further number sign. |
| `VlessTcpTls.RenderedCarriesName` | apps/api/src/subscription-access/vless-tcp-tls.renderer.ts:28-53 | The label read back from a rendered URI is the route's display name. |
| `VlessUri.RenderedReadsBack` | apps/api/src/subscription-access/vless-tcp-tls.renderer.ts:28-53 | A parser of its own (scheme, text up to the at sign, bracketed or plain host, decimal port, query fields, label) gives back credential, host, port, the four query fields with the server name, and the display name of every rendered route. |
| `VlessUri.RenderedTells` | apps/api/src/subscription-access/vless-tcp-tls.renderer.ts:28-53 | Routes that render to one URI tell a client the same. |
| `RouteNames.HostNameExactly` | apps/api/src/subscription-access/vless-tcp-tls.renderer.ts:12-19 | The test for server names accepts exactly the texts of at most 253 characters that join labels with dots, each of at most 63 letters, digits and inner dashes. |
| `RouteNames.DisplayNameExactly` | apps/api/src/subscription-access/vless-tcp-tls.renderer.ts:21-26 | Among well-formed texts, the test for display names accepts exactly those that write 1 to 128 code points, none of them a control character. |
| `VlessTcpTls.RenderingThrowsExactly` | apps/api/src/subscription-access/vless-tcp-tls.renderer.ts:28-53 | Rendering throws if and only if the route is otherwise renderable and its display name holds a lone surrogate. |
| `VlessTcpTls.LoneSurrogateThrows` | apps/api/src/subscription-access/vless-tcp-tls.renderer.ts:21-52 | A concrete case: with a name of half a surrogate pair, every well-shaped credential gives a route that makes rendering throw. |
| `VlessTcpTls.ExtractSubscriptionFeedDisplayLabels` | apps/api/src/orchestration/vpn-node-closed-test.ts:167-187 | The loop over lines computes the labels of all non-empty lines in order, or rejects the feed when one has none. |
| `VlessTcpTls.JoinRoundTrips` | apps/api/src/orchestration/vpn-node-closed-test.ts:167-187 | Joining lines and splitting the text again gives the lines back. |
| `SubscriptionFeed.RenderFeed` | apps/api/src/subscription-access/subscription-feed.service.ts:48-110 | A returned feed is exactly the URIs, in selection order, of the first renderable route of each of the first nodes of each pool up to its limit, and its tracked bytes are its length; rendering fails with an exception if and only if some route throws whose node is not served by then, before any budget has run out; otherwise a feed is returned if and only if that selection is not empty and fits the route and byte budgets. |
| `SubscriptionFeed.ChosenWhenRoom` | apps/api/src/subscription-access/subscription-feed.service.ts:52-105 | A renderable route of a node not yet served is in the specification if and only if its pool has room: the greedy test is the declarative one. |
| `SubscriptionFeed.PoolsAreFilled` | apps/api/src/subscription-access/subscription-feed.service.ts:52-105 | A pool offers one route each of at most as many different nodes as its limit, and leaves out a node that could be offered only when that many earlier ones are in. |
| `SubscriptionFeed.NodesHaveOwnUris` | apps/api/src/subscription-access/subscription-feed.service.ts:65-87 | Two renderable routes of different nodes never render to the same URI, so dropping repeated URIs drops no node. |
| `SubscriptionFeed.FeedBytes` | apps/api/src/subscription-access/subscription-feed.service.ts:93-99 | A feed takes as many UTF-8 bytes as it has characters. |
| `SubscriptionFeed.FeedRoundTrips` | apps/api/src/orchestration/vpn-node-closed-test.ts:167-187 | The labels extracted from a feed are the display names of its routes, in order. |
| `SubscriptionFeed.FeedTellsRoutes` | apps/api/src/subscription-access/subscription-feed.service.ts:48-110 | A client that reads a feed line by line finds exactly the chosen routes in order: the credential of each one's own binding, its address, port, server name and display name. |

## Left out

- AgentRuns.DurableVersionNeverFalls: stated for hosts whose reads of existing files succeed; without that it is false, as `AgentState.VersionFallsExactlyAfterReadFailure` shows. That an apply makes its version durable (`AgentRuns.AppliedIsDurable`) also needs directories that can be synchronised.
- AgentRuns.DemandStands: stated for hosts whose reads of existing files succeed; without that it is false, as `AgentState.LatchTightensExactlyWhenReadable` shows.
- ReconcileLoop.LocalStateReconcileLoop.RunAlone: the loop runs alone and for any finite number of rounds; wake-ups by state changes, aborts and dates that do not parse are not modelled.
- LocalXrayAdapter.LocalXrayAdapter.ReconcileLocalState: the promise about admitted clients excludes the time between a fail-open rethrow and the next success or stop, because the code does not keep it there.
- ProbeCycle.OrderDoesNotMatter: stated for signals of distinct identifiers, which is what the evidence store passes; of two signals with one identifier the first heard counts.
- NodeSyncStore.PrismaNodeSyncStore.Claim: whether the job is ready and whether its route activation has been overtaken are parameters of the two statements; `ControlPlane.GrantJobsAreAlwaysReady` says when the tables make a job ready, and of an overtaken activation no more is said.
- TrialActivation.TrialActivationService.ScheduleExistingDeviceAccess: the creation of the trial subscription around it is not modelled.
- DeviceAccessRevocation.DeviceAccessRevoker.Revoke: the device row is written after its grants instead of before; both commit together.
- NodeHost.Host.ApplyClients: the file-based runtime that rewrites and reloads the Xray configuration is represented by this contract only.
- SubscriptionFeed.RenderFeed: the token check, the rendering switch and the selection query stand before the model; the selected routes are its input.
- HTTP controllers, dependency injection, the bot, the web client, environment parsing, logging, audit events and metrics.
- SQL itself: locks and isolation levels justify the atomic steps; constraints and triggers that can only abort a transaction are not modelled, those that decide an outcome are.
- The order of rows that carry equal keys, and the order in which one transaction writes rows.
- The batch loops around the per-node and per-subscription transactions; their cursors and transactions are modelled.
- Policy fields that no decision reads, and evaluation text beyond reason and class.
- Rate limits, login, credential lifecycles, bot idempotency, development and bootstrap scripts: they would only add easier members.
- Grants of deleted nodes are revoked in place without a new version, as the code does; nothing is claimed about what such a node still serves.
