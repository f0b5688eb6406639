// The agent's cycle, and that every run of cycles, local reconciles, deaths of the runtime, deaths
// of the process and power losses is a run in the sense of AgentRuns.
module NodeAgent {
  import opened Basics
  import opened XrayAccess
  import opened DurableFiles
  import opened AgentState
  import opened NodeHost
  import opened LocalXrayAdapter
  import opened AgentRuns

  datatype CycleOutcome = Synchronized | WaitingForCommand | Acknowledged | Failed

  ghost function MomentOf(host: Host): (now: Moment)
    requires host.Valid()
    reads host
    ensures now.Valid() && now.Disk() == host.disk
  {
    Moment(host.diskLog, host.admitted, host.time, host.stopFailures)
  }

  ghost function MachineOf(host: Host): Machine {
    Machine(host.directorySync, host.reliableReads)
  }

  class NodeAgentRunner {
    const adapter: LocalXrayAdapter

    constructor (adapter: LocalXrayAdapter)
      ensures this.adapter == adapter
    {
      this.adapter := adapter;
    }

    // The state file durably holds exactly this snapshot's version and hash, and the data plane
    // accepted its servable clients since the given instant.
    ghost predicate DurablyApplied(snapshot: Snapshot, since: int)
      requires adapter.host.Valid()
      reads adapter, adapter.host
    {
      exists appliedAt :: since <= appliedAt <= adapter.host.time
                          && adapter.IsApplied(snapshot, SelectServableXrayClients(snapshot, appliedAt))
    }

    // One poll of the control plane. Every call to it may fail; acknowledging tells whether the
    // acknowledgement was sent.
    method RunCycle(snapshot: Snapshot)
      returns (outcome: CycleOutcome, ghost acknowledging: bool, ghost operation: Operation)
      requires adapter.Inv() && snapshot.WellFormed()
      modifies adapter, adapter.host
      ensures adapter.Inv()
      ensures Performs(MachineOf(adapter.host), operation, old(MomentOf(adapter.host)), MomentOf(adapter.host))
      ensures IsPollOf(operation, snapshot)
      // Nothing is acknowledged before it is applied and durable.
      ensures acknowledging ==>
                && snapshot.pendingAcknowledgement.Some?
                && operation.Applying? && operation.returned
                && DurablyApplied(snapshot, old(adapter.host.time))
      ensures outcome == Acknowledged ==> acknowledging
      ensures outcome == WaitingForCommand ==> operation.Securing? && operation.returned
      ensures outcome == Synchronized ==>
                snapshot.pendingAcknowledgement.None? && operation.Applying? && operation.returned
      ensures operation.Idle? ==> outcome == Failed && unchanged(adapter) && unchanged(adapter.host)
    {
      hide Bounded, ClearedWhileHeld, StateReadsAs, LatchReadsAs, HoldsOn, Settled;
      acknowledging, operation := false, Idle;
      var host := adapter.host;
      var heartbeat: bool, configuration: bool := *, *;
      if !heartbeat || !configuration {
        outcome := Failed;
        return;
      }
      if snapshot.pendingAcknowledgement.None? && snapshot.desiredConfigVersion != snapshot.appliedConfigVersion {
        var secured;
        ghost var read, checkedAt, es, again, latch;
        secured, read, checkedAt, es, again, latch := adapter.EnforceSnapshotSecurity(snapshot);
        operation := Securing(snapshot, read, checkedAt, es, again, latch, secured.Returned?);
        outcome := if secured.Returned? then WaitingForCommand else Failed;
        return;
      }
      var applied;
      ghost var appliedAt, read, latched;
      applied, appliedAt, read, latched := adapter.ApplySnapshot(snapshot);
      operation := Applying(snapshot, appliedAt, read, latched, applied.Returned?);
      if applied.Thrown? {
        outcome := Failed;
        return;
      }
      if snapshot.pendingAcknowledgement.None? {
        outcome := Synchronized;
        return;
      }
      acknowledging := true;
      assert adapter.IsApplied(snapshot, SelectServableXrayClients(snapshot, appliedAt));
      var delivered: bool := *;
      outcome := if delivered then Acknowledged else Failed;
    }
  }

  // What a poll may do with the configuration it is told.
  predicate IsPollOf(operation: Operation, snapshot: Snapshot) {
    match operation
    case Idle => true
    case Looking => false
    case Applying(s, _, _, _, _) =>
      && s == snapshot
      && (snapshot.pendingAcknowledgement.Some? || snapshot.desiredConfigVersion == snapshot.appliedConfigVersion)
    case Securing(s, _, _, _, _, _, _) =>
      && s == snapshot
      && snapshot.pendingAcknowledgement.None? && snapshot.desiredConfigVersion != snapshot.appliedConfigVersion
  }

  // What the world asks of the agent: to poll and be told a configuration, to look after the local
  // state, to look when to do so next, or nothing.
  datatype Work = Poll(snapshot: Snapshot) | ReconcileLocally | LookAhead | Rest

  datatype Command = Do(work: Work) | KillRuntime | Interrupt(work: Work, powerLoss: bool)

  predicate DoneFor(operation: Operation, work: Work) {
    match work
    case Poll(snapshot) => if snapshot.WellFormed() then IsPollOf(operation, snapshot) else operation.Idle?
    case ReconcileLocally => operation.Looking?
    case LookAhead => operation.Looking?
    case Rest => operation.Idle?
  }

  predicate Answers(event: Event, command: Command) {
    match command
    case Do(work) => event.Completed? && DoneFor(event.operation, work)
    case KillRuntime => event.RuntimeDied?
    case Interrupt(work, powerLoss) => event.Cut? && event.powerLoss == powerLoss && DoneFor(event.operation, work)
  }

  method Carry(runner: NodeAgentRunner, work: Work) returns (ghost operation: Operation)
    requires runner.adapter.Inv()
    modifies runner.adapter, runner.adapter.host
    ensures runner.adapter.Inv() && DoneFor(operation, work)
    ensures Performs(MachineOf(runner.adapter.host), operation, old(MomentOf(runner.adapter.host)),
                     MomentOf(runner.adapter.host))
  {
    hide Bounded;
    operation := Idle;
    match work {
    case Poll(snapshot) =>
      if snapshot.WellFormed() {
        var outcome;
        ghost var acknowledging;
        outcome, acknowledging, operation := runner.RunCycle(snapshot);
      }
    case ReconcileLocally =>
      var reconciled;
      ghost var exit, current, sampledAt, deadline;
      reconciled, exit, current, sampledAt, deadline := runner.adapter.ReconcileLocalState();
      operation := Looking;
    case LookAhead =>
      var next;
      ghost var sampledAt;
      BoundedAtStart(runner.adapter.host.diskLog, {}, {});
      next, sampledAt := runner.adapter.NextLocalReconcileAt();
      operation := Looking;
    case Rest =>
    }
  }

  // After a death the agent is started again.
  method Obey(host: Host, runner: NodeAgentRunner, command: Command) returns (next: NodeAgentRunner, ghost event: Event)
    requires runner.adapter.Inv() && runner.adapter.host == host
    modifies runner.adapter, host
    ensures next.adapter.Inv() && next.adapter.host == host
    ensures next == runner || (fresh(next) && fresh(next.adapter))
    ensures Step(MachineOf(host), event, old(MomentOf(host)), MomentOf(host)) && Answers(event, command)
  {
    hide Performs, DoneFor;
    ghost var before := MomentOf(host);
    next, event := runner, RuntimeDied;
    match command {
    case Do(work) =>
      ghost var operation := Carry(runner, work);
      event := Completed(operation);
    case KillRuntime =>
      host.RuntimeDies();
    case Interrupt(work, powerLoss) =>
      ghost var operation := Carry(runner, work);
      ghost var end := MomentOf(host);
      OperationExtendsLog(MachineOf(host), operation, before, end);
      ghost var at := Die(host, powerLoss, |before.log| - 1);
      event := Cut(operation, end, at, powerLoss);
      var adapter := new LocalXrayAdapter(host);
      next := new NodeAgentRunner(adapter);
    }
  }

  // Whatever is asked of the agent and whatever fails, what happens is a run.
  method EveryRun(host: Host, commands: seq<Command>) returns (ghost moments: seq<Moment>, ghost events: seq<Event>)
    requires host.Valid()
    modifies host
    ensures host.Valid() && IsRun(MachineOf(host), moments, events)
    ensures |events| == |commands| && forall i | 0 <= i < |events| :: Answers(events[i], commands[i])
    ensures moments[0] == old(MomentOf(host)) && moments[|moments| - 1] == MomentOf(host)
    // Whatever version was durable still is, and the state file is as whole as it was.
    ensures host.reliableReads ==>
              forall floor: Option<nat> :: Sound(old(host.disk), floor) ==> Sound(host.disk, floor)
  {
    hide Step, Answers, Sound;
    var adapter := new LocalXrayAdapter(host);
    var runner := new NodeAgentRunner(adapter);
    moments, events := [MomentOf(host)], [];
    for i := 0 to |commands|
      invariant fresh(runner) && fresh(runner.adapter) && runner.adapter.Inv() && runner.adapter.host == host
      invariant IsRun(MachineOf(host), moments, events)
      invariant |events| == i && forall k | 0 <= k < i :: Answers(events[k], commands[k])
      invariant moments[0] == old(MomentOf(host)) && moments[i] == MomentOf(host)
    {
      ghost var event;
      runner, event := Obey(host, runner, commands[i]);
      moments, events := moments + [MomentOf(host)], events + [event];
    }
    forall floor: Option<nat> | host.reliableReads && Sound(old(host.disk), floor)
      ensures Sound(host.disk, floor)
    {
      DurableVersionNeverFalls(MachineOf(host), moments, events, 0, |events|, floor);
    }
  }

  method Die(host: Host, powerLoss: bool, ghost since: nat) returns (ghost at: nat)
    requires host.Valid() && since < |host.diskLog|
    modifies host
    ensures host.Valid()
    ensures since <= at < |old(host.diskLog)| && old(host.diskLog)[at].Valid()
    ensures if powerLoss then CrashesTo(old(host.diskLog)[at], host.disk) else host.disk == old(host.diskLog)[at]
  {
    ghost var log := host.diskLog;
    if powerLoss {
      host.PowerLoss(since);
      at :| since <= at < |log| && log[at].Valid() && CrashesTo(log[at], host.disk);
    } else {
      host.ProcessDies(since);
      at :| since <= at < |log| && log[at].Valid() && host.disk == log[at];
    }
  }
}
