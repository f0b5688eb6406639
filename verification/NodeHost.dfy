// The world around the adapter: the clock, the file system and the Xray runtime.
// Every call may fail, takes up to its declared time, and its outcome is not chosen by the caller.
module NodeHost {
  import opened Basics
  import opened SecurityTiming
  import opened XrayAccess
  import opened DurableFiles
  import opened AgentState

  datatype ReadResult = ReadText(content: Content<Document>) | NotFound | Unreadable

  datatype ClockAssessment = Trusted | Untrusted | ProbeFailed

  // What the data plane may admit after an apply: the offered clients, or after a failure any of
  // those and of the ones before.
  predicate ApplyMayLeave(before: seq<XrayClient>, offered: seq<XrayClient>, after: seq<XrayClient>, ok: bool) {
    if ok then after == offered else forall c :: c in after ==> c in before || c in offered
  }

  class Host {
    // Does the platform support synchronising a directory?
    const directorySync: bool
    // How long one file-system call may take.
    const fileDelay: nat
    // Does reading an existing file always succeed?
    const reliableReads: bool
    // A grant picked by an observer, for which exposure is recorded.
    ghost const watched: Id

    var time: int
    // The clients the data plane admits; none when it is stopped.
    var admitted: seq<XrayClient>
    var disk: Disk<Document>

    // Every disk the machine has had: a power loss can strike at any of them.
    ghost var diskLog: seq<Disk<Document>>
    // How often a stop command failed.
    ghost var stopFailures: nat
    // What the serving probes answered so far.
    ghost var probes: seq<Option<bool>>
    // The latest instant at which the watched grant may have been admitted.
    ghost var lastExposure: int

    ghost predicate Valid()
      reads this
    {
      && disk.Valid()
      && diskLog != [] && diskLog[|diskLog| - 1] == disk
      && lastExposure <= time
      && (Serves(admitted, watched) ==> lastExposure == time)
    }

    constructor (directorySync: bool, fileDelay: nat, reliableReads: bool, ghost watched: Id,
                 time: int, disk: Disk<Document>)
      requires disk.Valid()
      ensures Valid() && admitted == [] && this.disk == disk && this.time == time
      ensures this.directorySync == directorySync && this.fileDelay == fileDelay
      ensures this.reliableReads == reliableReads && this.watched == watched
      ensures stopFailures == 0 && probes == []
    {
      this.directorySync, this.fileDelay, this.reliableReads := directorySync, fileDelay, reliableReads;
      this.watched := watched;
      this.time, this.admitted, this.disk := time, [], disk;
      diskLog, stopFailures, probes, lastExposure := [disk], 0, [], time;
    }

    // Time has passed without a change of the admitted clients.
    twostate predicate Spent(limit: int)
      reads this
    {
      && old(time) <= time <= old(time) + limit
      && lastExposure == if Serves(admitted, watched) then time else old(lastExposure)
    }

    // The watched grant was not exposed during the call, unless it was already admitted.
    twostate predicate NoNewExposure()
      reads this
    {
      !Serves(old(admitted), watched) ==> lastExposure == old(lastExposure) && !Serves(admitted, watched)
    }

    // A probe made since then, and the last one made, saw the runtime serving.
    twostate predicate SeenServing()
      reads this
    {
      |old(probes)| < |probes| && probes[|probes| - 1] == Some(true)
    }

    twostate predicate DiskKept()
      reads this
    {
      disk == old(disk) && diskLog == old(diskLog)
    }

    twostate predicate DiskLogged()
      reads this
    {
      diskLog == old(diskLog) + [disk]
    }

    method Elapse(limit: nat)
      requires Valid()
      modifies this`time, this`lastExposure
      ensures Valid() && Spent(limit)
    {
      var passed :| 0 <= passed <= limit;
      time := time + passed;
      lastExposure := if Serves(admitted, watched) then time else lastExposure;
    }

    // Waits until an instant; the timer may fire late.
    method SleepUntil(at: int, lateness: nat)
      requires Valid()
      modifies this`time, this`lastExposure
      ensures Valid() && old(time) <= time
      ensures time <= (if old(time) < at then at else old(time)) + lateness
      ensures lastExposure == if Serves(admitted, watched) then time else old(lastExposure)
    {
      var target := if time < at then at else time;
      var late :| 0 <= late <= lateness;
      time := target + late;
      lastExposure := if Serves(admitted, watched) then time else lastExposure;
    }

    // The Xray process may die at any moment; a machine may lose power at any disk it has had.
    method RuntimeDies()
      requires Valid()
      modifies this`admitted
      ensures Valid() && admitted == []
    {
      admitted := [];
    }

    // The machine comes back with what one of its disks since the given point could leave.
    method PowerLoss(ghost since: nat)
      requires Valid() && since < |diskLog|
      modifies this`disk, this`diskLog, this`admitted, this`lastExposure
      ensures Valid()
      ensures exists at | since <= at < |old(diskLog)| ::
                old(diskLog)[at].Valid() && CrashesTo(old(diskLog)[at], disk)
    {
      ghost var before := disk;
      disk := disk.SyncNames().(flushed := disk.contents.Keys);
      diskLog := diskLog + [disk];
      admitted := *;
      lastExposure := if Serves(admitted, watched) then time else lastExposure;
      VisibleCanSurvive(before);
      assert before == old(diskLog)[|old(diskLog)| - 1];
    }

    // The agent process dies at some point since the given one; the file system keeps what was
    // visible then, and the data plane whom it admitted then.
    method ProcessDies(ghost since: nat)
      requires Valid() && since < |diskLog|
      modifies this`disk, this`diskLog, this`admitted, this`lastExposure
      ensures Valid()
      ensures exists at | since <= at < |old(diskLog)| :: old(diskLog)[at].Valid() && disk == old(diskLog)[at]
    {
      assert disk == diskLog[|diskLog| - 1];
      admitted := *;
      lastExposure := if Serves(admitted, watched) then time else lastExposure;
    }

    method AssessClock() returns (assessment: ClockAssessment)
      requires Valid()
      modifies this`time, this`lastExposure
      ensures Valid() && Spent(CHRONYC_TIMEOUT_MS)
    {
      Elapse(CHRONYC_TIMEOUT_MS);
      assessment := *;
    }

    method ReadFile(p: Path) returns (r: ReadResult)
      requires Valid()
      modifies this`time, this`lastExposure
      ensures Valid() && Spent(fileDelay)
      ensures r.ReadText? ==> disk.Observe(p) == Some(r.content)
      ensures r.NotFound? ==> disk.Observe(p) == None
      ensures reliableReads ==> !r.Unreadable?
    {
      Elapse(fileDelay);
      var fails: bool := *;
      var seen := disk.Observe(p);
      r := if fails && !reliableReads then Unreadable
           else if seen.Some? then ReadText(seen.value) else NotFound;
    }

    method MakeDirectory() returns (ok: bool)
      requires Valid()
      modifies this`time, this`lastExposure
      ensures Valid() && Spent(fileDelay)
    {
      Elapse(fileDelay);
      ok := *;
    }

    // Removing an absent file succeeds. A failed call may still have taken effect.
    method RemoveFile(p: Path) returns (ok: bool)
      requires Valid()
      modifies this`time, this`lastExposure, this`disk, this`diskLog
      ensures Valid() && Spent(fileDelay) && DiskLogged()
      ensures disk == old(disk) || (p in old(disk).entries && disk == old(disk).Remove(p))
      ensures ok ==> p !in disk.entries
    {
      Elapse(fileDelay);
      var effective: bool := *;
      ok := *;
      if p in disk.entries && (ok || effective) {
        disk := disk.Remove(p);
      }
      diskLog := diskLog + [disk];
    }

    // Opens a new file for writing; fails when the name exists.
    method CreateFile(p: Path) returns (file: Option<File>)
      requires Valid()
      modifies this`time, this`lastExposure, this`disk, this`diskLog
      ensures Valid() && Spent(fileDelay) && DiskLogged()
      ensures file.Some? ==>
                p !in old(disk).entries && file.value == old(disk).NewFile(p) && disk == old(disk).Create(p)
      ensures file.None? ==> disk == old(disk)
    {
      hide Disk.Valid, Serves;
      Elapse(fileDelay);
      var fails: bool := *;
      if fails || p in disk.entries {
        file := None;
      } else {
        CreatedIsValid(disk, p);
        file := Some(disk.NewFile(p));
        disk := disk.Create(p);
      }
      diskLog := diskLog + [disk];
    }

    // A failed write may leave a part of the document.
    method WriteFile(file: File, document: Document) returns (ok: bool)
      requires Valid() && file in disk.contents
      modifies this`time, this`lastExposure, this`disk, this`diskLog
      ensures Valid() && Spent(fileDelay) && DiskLogged()
      ensures disk == old(disk).Write(file, if ok then Whole(document) else Torn)
    {
      Elapse(fileDelay);
      ok := *;
      disk := disk.Write(file, if ok then Whole(document) else Torn);
      diskLog := diskLog + [disk];
    }

    method SyncFile(file: File) returns (ok: bool)
      requires Valid()
      modifies this`time, this`lastExposure, this`disk, this`diskLog
      ensures Valid() && Spent(fileDelay) && DiskLogged()
      ensures disk == if ok then old(disk).Flush(file) else old(disk)
    {
      Elapse(fileDelay);
      ok := *;
      if ok {
        disk := disk.Flush(file);
      }
      diskLog := diskLog + [disk];
    }

    method CloseFile() returns (ok: bool)
      requires Valid()
      modifies this`time, this`lastExposure
      ensures Valid() && Spent(fileDelay)
    {
      Elapse(fileDelay);
      ok := *;
    }

    // A failed call may still have taken effect.
    method RenameFile(from: Path, to: Path) returns (ok: bool)
      requires Valid() && from in disk.entries && from != to && from.Temporary() == to.Temporary()
      modifies this`time, this`lastExposure, this`disk, this`diskLog
      ensures Valid() && Spent(fileDelay) && DiskLogged()
      ensures disk == old(disk) || disk == old(disk).Rename(from, to)
      ensures ok ==> disk == old(disk).Rename(from, to)
    {
      hide Disk.Valid, Serves;
      Elapse(fileDelay);
      var effective: bool := *;
      ok := *;
      if ok || effective {
        RenamedIsValid(disk, from, to);
        disk := disk.Rename(from, to);
      }
      diskLog := diskLog + [disk];
    }

    // Opens an existing file without changing it.
    method OpenFile(p: Path) returns (file: Option<File>)
      requires Valid()
      modifies this`time, this`lastExposure
      ensures Valid() && Spent(fileDelay)
      ensures file.Some? ==> disk.Lookup(p) == file
    {
      Elapse(fileDelay);
      var fails: bool := *;
      file := if fails then None else disk.Lookup(p);
    }

    // Opens the directory, synchronises it and closes it. Where the platform does not support
    // this, the error is ignored; a failing close is not.
    method SyncParentDirectory() returns (ok: bool)
      requires Valid()
      modifies this`time, this`lastExposure, this`disk, this`diskLog
      ensures Valid() && Spent(3 * fileDelay) && DiskLogged()
      ensures disk == old(disk) || disk == old(disk).SyncNames()
      ensures ok && directorySync ==> disk == old(disk).SyncNames()
    {
      Elapse(3 * fileDelay);
      ok := *;
      var synchronised: bool := *;
      if (ok && directorySync) || synchronised {
        disk := disk.SyncNames();
      }
      diskLog := diskLog + [disk];
    }

    method IsServing() returns (answer: Option<bool>)
      requires Valid()
      modifies this`time, this`lastExposure, this`probes
      ensures Valid() && Spent(XRAY_SERVING_PROBE_MAX_DURATION_MS)
      ensures probes == old(probes) + [answer]
    {
      Elapse(XRAY_SERVING_PROBE_MAX_DURATION_MS);
      answer := *;
      probes := probes + [answer];
    }

    // A failed apply leaves admitted what it will of the old and the new clients.
    method ApplyClients(clients: seq<XrayClient>) returns (ok: bool)
      requires Valid()
      modifies this`time, this`lastExposure, this`admitted
      ensures Valid() && old(time) <= time <= old(time) + XRAY_APPLY_MAX_DURATION_MS
      ensures ApplyMayLeave(old(admitted), clients, admitted, ok)
      ensures lastExposure ==
              if Serves(old(admitted), watched) || Serves(clients, watched) || Serves(admitted, watched)
              then time else old(lastExposure)
    {
      var before := admitted;
      var passed :| 0 <= passed <= XRAY_APPLY_MAX_DURATION_MS;
      time := time + passed;
      ok := *;
      if ok {
        admitted := clients;
      } else {
        var left: seq<XrayClient> := *;
        if forall c :: c in left ==> c in before || c in clients {
          admitted := left;
        }
      }
      lastExposure := if Serves(before, watched) || Serves(clients, watched) || Serves(admitted, watched)
                      then time else lastExposure;
    }

    // Stops serving. A stop that reports success admits nobody.
    method FailClosed() returns (ok: bool)
      requires Valid()
      modifies this`time, this`lastExposure, this`admitted, this`stopFailures
      ensures Valid() && old(time) <= time <= old(time) + XRAY_FAIL_CLOSED_MAX_DURATION_MS
      ensures ok ==> admitted == [] && stopFailures == old(stopFailures)
      ensures !ok ==> stopFailures == old(stopFailures) + 1
      ensures forall c :: c in admitted ==> c in old(admitted)
      ensures NoNewExposure()
    {
      var before := admitted;
      var passed :| 0 <= passed <= XRAY_FAIL_CLOSED_MAX_DURATION_MS;
      time := time + passed;
      ok := *;
      if ok {
        admitted := [];
      } else {
        var left: seq<XrayClient> := *;
        if forall c :: c in left ==> c in before {
          admitted := left;
        }
        stopFailures := stopFailures + 1;
      }
      lastExposure := if Serves(before, watched) || Serves(admitted, watched) then time else lastExposure;
    }
  }
}
