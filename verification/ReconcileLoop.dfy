// The loop that brings the runtime in line with the local state, and the bound it gives on
// how long an expired grant can stay admitted.
module ReconcileLoop {
  import opened Basics
  import opened SecurityTiming
  import opened XrayAccess
  import opened DurableFiles
  import opened AgentState
  import opened NodeHost
  import opened LocalXrayAdapter

  // The last instant at which the snapshot gives the grant access.
  ghost predicate ExpiresAt(snapshot: Snapshot, id: Id, expiry: int) {
    && (exists g :: g in snapshot.grants && g.id == id && ActiveGrantExpiry(g) == Some(expiry))
    && (forall g :: g in snapshot.grants && g.id == id && ActiveGrantExpiry(g).Some? ==> g.expiresAt <= expiry)
  }

  ghost predicate PersistedExpiry(d: Disk<Document>, id: Id, expiry: int)
    requires d.Valid()
  {
    forall env | StateReadsAs(d, ValidState(env)) :: ExpiresAt(env.current.snapshot, id, expiry)
  }

  // One in-flight apply and the stop fit into the reserve; a retry, the reads before the next
  // sample and the stop do too, as long as file calls and timers are not slower than this.
  const MAX_SLOWNESS_MS := LOCAL_FAIL_CLOSED_RESERVE_MS - LOCAL_SECURITY_RETRY_DELAY_MS
                           - CHRONYC_TIMEOUT_MS - XRAY_FAIL_CLOSED_MAX_DURATION_MS

  class LocalStateReconcileLoop {
    const adapter: LocalXrayAdapter
    // How late a timer may fire.
    const lateness: nat

    constructor (adapter: LocalXrayAdapter, lateness: nat)
      ensures this.adapter == adapter && this.lateness == lateness
    {
      this.adapter, this.lateness := adapter, lateness;
    }

    ghost function LatestStart(expiry: int): int {
      expiry + ACCESS_CONTROL_ENFORCEMENT_SLA_MS - LOCAL_FAIL_CLOSED_RESERVE_MS + LOCAL_SECURITY_RETRY_DELAY_MS
        + lateness
    }

    // The watched grant is not admitted long after it expired, and will not be again.
    ghost predicate OnTime(expiry: int)
      reads adapter, adapter.host
    {
      && (Serves(adapter.host.admitted, adapter.host.watched) ==> adapter.host.time <= LatestStart(expiry))
      && adapter.host.lastExposure <= expiry + ACCESS_CONTROL_ENFORCEMENT_SLA_MS
      && (adapter.runtimeClientsFingerprint.Some?
          && !Serves(adapter.runtimeClientsFingerprint.value.clients, adapter.host.watched) ==>
            !Serves(adapter.host.admitted, adapter.host.watched) && expiry <= adapter.host.time)
    }

    // A loop that starts afresh, even after the expiry with the grant still admitted, is on time up to
    // the latest start.
    lemma FreshStartIsOnTime(expiry: int)
      requires adapter.Inv() && adapter.runtimeClientsFingerprint == None
      requires adapter.host.time <= LatestStart(expiry) && lateness + 8 * adapter.host.fileDelay <= MAX_SLOWNESS_MS
      ensures OnTime(expiry)
    {
    }

    // For any number of rounds and any failures of the applies, the probes and the file calls:
    // the watched grant is never admitted later than the enforcement limit after its expiry,
    // unless a stop command itself failed.
    method RunAlone(rounds: nat, ghost expiry: int)
      requires adapter.Inv() && OnTime(expiry)
      requires PersistedExpiry(adapter.host.disk, adapter.host.watched, expiry)
      requires lateness + 8 * adapter.host.fileDelay <= MAX_SLOWNESS_MS
      modifies adapter, adapter.host
      ensures adapter.Inv()
      ensures adapter.host.stopFailures == old(adapter.host.stopFailures) ==>
                adapter.host.lastExposure <= expiry + ACCESS_CONTROL_ENFORCEMENT_SLA_MS
    {
      var host := adapter.host;
      for round := 0 to rounds
        invariant adapter.Inv()
        invariant host.disk.Observe(StateFile) == old(host.disk).Observe(StateFile)
        invariant old(host.stopFailures) <= host.stopFailures
        invariant host.stopFailures == old(host.stopFailures) ==> OnTime(expiry)
      {
        var deadlineAt := ReconcileOnce(expiry);
        host.SleepUntil(deadlineAt, lateness);
      }
    }

    // One round: the next one starts at the returned instant, or as soon as this one is over.
    method ReconcileOnce(ghost expiry: int) returns (deadlineAt: int)
      requires adapter.Inv()
      requires PersistedExpiry(adapter.host.disk, adapter.host.watched, expiry)
      requires lateness + 8 * adapter.host.fileDelay <= MAX_SLOWNESS_MS
      modifies adapter, adapter.host
      ensures adapter.Inv() && old(adapter.host.stopFailures) <= adapter.host.stopFailures
      ensures adapter.host.disk.Observe(StateFile) == old(adapter.host.disk).Observe(StateFile)
      ensures old(OnTime(expiry)) && adapter.host.stopFailures == old(adapter.host.stopFailures) ==>
                && OnTime(expiry)
                && (Serves(adapter.host.admitted, adapter.host.watched) ==>
                      adapter.host.time + lateness <= LatestStart(expiry)
                        && deadlineAt + lateness <= LatestStart(expiry))
    {
      var host := adapter.host;
      assert !Serves([], host.watched);
      hide Bounded, Settled, SelectServableXrayClients, Serves, IsEarliest, OverdueDeadlinesIn, IsNextCheck,
        StateReadsAs, adapter.ServingDecides, Disk.Valid;
      var r;
      ghost var exit, current, sampledAt, deadline;
      r, exit, current, sampledAt, deadline := adapter.ReconcileLocalState();
      deadlineAt := match r case Returned(at) => at case Thrown(_) => host.time + LOCAL_SECURITY_RETRY_DELAY_MS;
      if !exit.StoppedEarly? {
        NextCheckIsSoon(r, current, sampledAt);
        if expiry <= sampledAt {
          ExpiredDeadline(old(host.disk), current, host.watched, expiry, sampledAt, deadline);
        } else {
          UnexpiredIsServed(old(host.disk), current, host.watched, expiry, sampledAt);
        }
      }
    }
  }

  // A grant that has expired is not among the clients to serve, and its deadline is not missed.
  lemma ExpiredDeadline(d: Disk<Document>, current: Snapshot, id: Id, expiry: int, now: int, deadline: Option<int>)
    requires d.Valid() && PersistedExpiry(d, id, expiry) && expiry <= now
    requires exists env :: StateReadsAs(d, ValidState(env)) && current == env.current.snapshot
    requires IsEarliest(deadline, OverdueDeadlinesIn(current.grants, now, ACCESS_CONTROL_ENFORCEMENT_SLA_MS))
    ensures !Serves(SelectServableXrayClients(current, now), id)
    ensures deadline.Some? && deadline.value <= expiry + ACCESS_CONTROL_ENFORCEMENT_SLA_MS
  {
    ExpiredIsNotServed(current, now, id);
    var g :| g in current.grants && g.id == id && ActiveGrantExpiry(g) == Some(expiry);
    assert g.expiresAt + ACCESS_CONTROL_ENFORCEMENT_SLA_MS
        in OverdueDeadlinesIn(current.grants, now, ACCESS_CONTROL_ENFORCEMENT_SLA_MS);
  }

  lemma UnexpiredIsServed(d: Disk<Document>, current: Snapshot, id: Id, expiry: int, now: int)
    requires d.Valid() && PersistedExpiry(d, id, expiry) && now < expiry
    requires exists env :: StateReadsAs(d, ValidState(env)) && current == env.current.snapshot
    ensures Serves(SelectServableXrayClients(current, now), id)
  {
    var g :| g in current.grants && g.id == id && ActiveGrantExpiry(g) == Some(expiry);
    SelectedExactly(current, now, XrayClient(id, g.credential.value));
  }

  lemma NextCheckIsSoon(r: Result<int>, current: Snapshot, now: int)
    requires r.Returned? ==> IsNextCheck(r.value, current, now)
    ensures r.Returned? ==> r.value <= now + LOCAL_STATE_INTEGRITY_CHECK_INTERVAL_MS
  {
  }
}
