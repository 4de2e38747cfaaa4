/** One supervised worker as a value: its lifecycle state, its operating-system
    process, and the effect of every block that runs under the worker's lock. */
module WorkerStates {
  import opened Wrappers

  datatype WorkerState = Stopped | Starting | Healthy | Degraded | Draining | Stopping | Crashed

  /** `Exited` is what `Popen.poll` reports once the process is gone. */
  datatype Process = NoProcess | Alive | Exited(code: int)

  datatype Fault =
    | SegmentationFault | KilledBySystem | Aborted | CleanExit | NonZeroExit(code: int) | ExitDuringStartup

  datatype CrashReport = CrashReport(exitCode: int, reason: Fault)

  datatype Worker = Worker(
    state: WorkerState,
    process: Process,
    intentionalShutdown: bool,
    latestCrash: Option<CrashReport>)

  function Created(): Worker {
    Worker(Stopped, NoProcess, false, None)
  }

  /** `start`, when the process is spawned; a running worker is left alone. */
  function Launched(w: Worker): Worker {
    if w.process.Alive? then w else Worker(Starting, Alive, false, None)
  }

  /** `start`, when spawning raises: the previous process handle is kept. */
  function LaunchRaised(w: Worker): Worker {
    if w.process.Alive? then w else Worker(Stopped, w.process, false, None)
  }

  function Classify(code: int): Fault {
    if code == -11 || code == 139 then SegmentationFault
    else if code == -9 || code == 137 then KilledBySystem
    else if code == -6 || code == 134 then Aborted
    else if code == 0 then CleanExit
    else NonZeroExit(code)
  }

  function RecordExit(w: Worker, reason: Fault): Worker
    requires w.process.Exited?
  {
    w.(latestCrash := Some(CrashReport(w.process.code, reason)), state := Crashed)
  }

  /** `check_and_handle_exit`: the worker afterwards and the report it returns. */
  function CheckExit(w: Worker): (Worker, Option<CrashReport>) {
    if !w.process.Exited? then (w, None)
    else if (w.state == Stopped || w.state == Stopping) && w.intentionalShutdown then (w, None)
    else if w.state == Crashed && w.latestCrash.Some? then (w, w.latestCrash)
    else
      var recorded := RecordExit(w, Classify(w.process.code));
      (recorded, recorded.latestCrash)
  }

  function Drained(w: Worker): Worker {
    if w.state == Healthy || w.state == Degraded then w.(state := Draining) else w
  }

  /** First locked block of `stop`. */
  function StopEntered(w: Worker): Worker {
    w.(intentionalShutdown := true, state := if w.process.Alive? then Stopping else Stopped)
  }

  /** The process ends with `code`, unless it already ended. */
  function Ended(w: Worker, code: int): Worker {
    if w.process.Alive? then w.(process := Exited(code)) else w
  }

  /** A stored report always describes the exit of this worker's process, and
      the state CRASHED is never shown without such a report. */
  ghost predicate CrashIsReported(w: Worker) {
    && (w.latestCrash.Some? ==> w.process == Exited(w.latestCrash.value.exitCode))
    && (w.state == Crashed ==> w.latestCrash.Some?)
  }
}
