/** `ProcessSupervisor`: every method leaves the fields at the end of a protocol
    run, so the theorems about runs are about these objects. */
module SupervisorEngine {
  import opened Wrappers
  import opened WorkerStates
  import opened SupervisorProtocol
  import opened SupervisorInvariants
  import opened SupervisorObjects

  datatype SupervisorError = StartupError | SwapError | StopTimeout

  function Named(w: WorkerProcess?): Option<WorkerProcess> {
    if w == null then None else Some(w)
  }

  class ProcessSupervisor {
    var active: WorkerProcess?
    var allWorkers: seq<WorkerProcess>
    ghost const trace: Trace

    ghost predicate Valid()
      reads this, trace, trace.view.workers.Keys
    {
      && trace.Valid() && trace.start == Initial()
      && trace.view.registered == allWorkers
      && trace.view.active == Named(active)
      && forall w | w in trace.view.workers :: w.Value() == trace.view.workers[w]
    }

    constructor ()
      ensures Valid() && fresh(trace) && trace.view == Initial()
      ensures active == null && allWorkers == []
    {
      active, allWorkers := null, [];
      trace := new Trace(Initial());
    }

    ghost predicate At(t: nat, pc: Pc<WorkerProcess>)
      reads trace
    {
      t in trace.view.threads && trace.view.threads[t] == pc
    }

    method SpawnWorker(spawns: bool, ghost t: nat, ghost caller: Caller) returns (worker: WorkerProcess, raised: bool)
      requires Valid() && t !in trace.view.threads
      modifies this`allWorkers, trace
      ensures Valid() && old(trace.steps) <= trace.steps
      ensures fresh(worker) && worker in trace.view.workers && raised == !spawns
                && (if raised then worker.process.NoProcess? else worker.process.Alive?)
      ensures At(t, if raised then Finished(SpawnFailed(worker)) else Polling(worker, caller))
      ensures allWorkers == old(allWorkers) + [worker]
      ensures trace.view.workers.Keys == old(trace.view.workers.Keys) + {worker}
      ensures trace.view.threads.Keys == old(trace.view.threads.Keys) + {t}
    {
      worker := Register(t, caller);
      raised := StartWorker(worker, spawns, t, caller);
    }

    method Register(ghost t: nat, ghost caller: Caller) returns (worker: WorkerProcess)
      requires Valid() && t !in trace.view.threads
      modifies this`allWorkers, trace
      ensures Valid() && old(trace.steps) <= trace.steps
      ensures fresh(worker) && worker in trace.view.workers && worker.Value() == Created()
      ensures At(t, Spawned(worker, caller)) && allWorkers == old(allWorkers) + [worker]
      ensures trace.view.workers.Keys == old(trace.view.workers.Keys) + {worker}
      ensures trace.view.threads.Keys == old(trace.view.threads.Keys) + {t}
    {
      worker := new WorkerProcess();
      trace.Take(Begin(t, worker, caller));
      allWorkers := allWorkers + [worker];
    }

    method StartWorker(worker: WorkerProcess, spawns: bool, ghost t: nat, ghost caller: Caller) returns (raised: bool)
      requires Valid() && worker in trace.view.workers && At(t, Spawned(worker, caller)) && !worker.process.Alive?
      modifies worker, trace
      ensures Valid() && old(trace.steps) <= trace.steps && raised == !spawns
                && (if raised then worker.process == old(worker.process) else worker.process.Alive?)
      ensures At(t, if raised then Finished(SpawnFailed(worker)) else Polling(worker, caller))
      ensures trace.view.workers.Keys == old(trace.view.workers.Keys)
                && trace.view.threads.Keys == old(trace.view.threads.Keys)
    {
      raised := worker.Start(spawns);
      if raised {
        trace.Take(StartFails(t));
      } else {
        trace.Take(StartOk(t));
      }
    }

    /** What every reachable state guarantees, read off the objects. */
    lemma Guarantees()
      requires Valid()
      ensures IsRun(Initial<WorkerProcess>(), trace.steps)
                && Reached(Initial<WorkerProcess>(), trace.steps) == trace.view
      ensures Inv(trace.view)
    {
      trace.IsProtocolRun(|trace.steps|);
      assert trace.steps[..|trace.steps|] == trace.steps;
      RunKeepsInv(Initial<WorkerProcess>(), trace.steps);
    }

    /** A replacement that failed readiness is stopped and taken off the list. */
    method RollBackWorker(worker: WorkerProcess, code: int, dies: bool, ghost t: nat) returns (raised: bool)
      requires Valid() && worker in trace.view.workers && At(t, InStop(worker, Entering, RollBack))
      modifies this`allWorkers, trace, worker
      ensures Valid() && old(trace.steps) <= trace.steps && trace.view.workers.Keys == old(trace.view.workers.Keys)
      ensures At(t, Finished(if raised then StopRaised(worker) else RolledBack(worker)))
      ensures raised <==> old(worker.process.Alive?) && !dies
      ensures !raised ==> worker !in allWorkers && !worker.process.Alive?
      ensures allWorkers == if raised then old(allWorkers) else Remove(old(allWorkers), worker)
      ensures trace.view.threads.Keys == old(trace.view.threads.Keys)
    {
      raised := worker.Stop(code, dies, trace, t, RollBack);
      if !raised {
        Unlist(worker, t);
      }
    }

    method Unlist(worker: WorkerProcess, ghost t: nat)
      requires Valid() && worker in trace.view.workers && At(t, Unregistering(worker))
      modifies this`allWorkers, trace
      ensures Valid() && old(trace.steps) <= trace.steps && trace.view.workers == old(trace.view.workers)
      ensures At(t, Finished(RolledBack(worker))) && trace.view.threads.Keys == old(trace.view.threads.Keys)
      ensures allWorkers == Remove(old(allWorkers), worker) && worker !in allWorkers
    {
      trace.Take(Unregister(t));
      allWorkers := Remove(allWorkers, worker);
      Guarantees();
      assert ThreadOk(trace.view, trace.view.threads[t]);
    }

    method AwaitReady(worker: WorkerProcess, ticks: seq<Tick>, ghost t: nat, ghost caller: Caller) returns (ready: bool)
      requires Valid() && worker in trace.view.workers && At(t, Polling(worker, caller))
      modifies trace, worker
      ensures Valid() && old(trace.steps) <= trace.steps && trace.view.workers.Keys == old(trace.view.workers.Keys)
      ensures At(t, if ready then Ready(worker, caller) else InStop(worker, Entering, RollBack))
      ensures ready ==> worker.state == Healthy
      ensures old(worker.process.Alive?) ==>
                (ready <==> ComesUp(ticks)) && (worker.process.Alive? <==> !ExitsFirst(ticks))
      ensures trace.view.threads.Keys == old(trace.view.threads.Keys)
    {
      ready := worker.WaitUntilHealthy(ticks, trace, t, caller);
    }

    /** What a launch or swap that raised leaves of its worker: a failed readiness takes
        it off the list again, dead; a spawn that raised, or a process that outlived
        SIGKILL, leaves it listed. */
    predicate Failure(error: SupervisorError, listed: seq<WorkerProcess>, worker: WorkerProcess, dies: bool)
      reads this`allWorkers, worker`process
    {
      match error
      case StartupError => allWorkers == listed + [worker] && worker.process.NoProcess?
      case SwapError =>
        allWorkers == Remove(listed + [worker], worker) && worker !in allWorkers && !worker.process.Alive?
      case StopTimeout => allWorkers == listed + [worker] && !dies
    }

    static function OutcomeOf(error: SupervisorError, worker: WorkerProcess): Outcome<WorkerProcess> {
      match error
      case StartupError => SpawnFailed(worker)
      case SwapError => RolledBack(worker)
      case StopTimeout => StopRaised(worker)
    }

    /** The common part of `launch_initial_worker` and `hot_swap`. */
    method BringUp(spawns: bool, ticks: seq<Tick>, code: int, dies: bool, ghost t: nat, ghost caller: Caller)
      returns (worker: WorkerProcess, result: Result<(), SupervisorError>)
      requires Valid() && t !in trace.view.threads
      modifies this`allWorkers, trace
      ensures Valid() && old(trace.steps) <= trace.steps
      ensures trace.view.workers.Keys == old(trace.view.workers.Keys) + {worker}
      ensures trace.view.threads.Keys == old(trace.view.threads.Keys) + {t}
      ensures fresh(worker) && worker in trace.view.workers
      ensures result.Ok? ==>
                At(t, Ready(worker, caller)) && worker.state == Healthy && allWorkers == old(allWorkers) + [worker]
      ensures result.Err? ==>
                Failure(result.error, old(allWorkers), worker, dies) && At(t, Finished(OutcomeOf(result.error, worker)))
      ensures result.Ok? <==> spawns && ComesUp(ticks)
      ensures result == Err(StartupError) <==> !spawns
      ensures result == Err(StopTimeout) <==> spawns && !ComesUp(ticks) && !ExitsFirst(ticks) && !dies
    {
      var raised;
      worker, raised := SpawnWorker(spawns, t, caller);
      if raised {
        return worker, Err(StartupError);
      }
      var ready := AwaitReady(worker, ticks, t, caller);
      if ready {
        return worker, Ok(());
      }
      var stuck := RollBackWorker(worker, code, dies, t);
      return worker, Err(if stuck then StopTimeout else SwapError);
    }

    /** `launch_initial_worker`. */
    method LaunchInitialWorker(spawns: bool, ticks: seq<Tick>, code: int, dies: bool, ghost t: nat)
      returns (worker: WorkerProcess, result: Result<(), SupervisorError>)
      requires Valid() && t !in trace.view.threads
      modifies this, trace
      ensures Valid() && old(trace.steps) <= trace.steps
      ensures result.Ok? ==> active == worker && worker.state == Healthy && worker in allWorkers
      ensures result.Err? ==> active == old(active)
      ensures result.Err? ==>
                Failure(result.error, old(allWorkers), worker, dies) && At(t, Finished(OutcomeOf(result.error, worker)))
      ensures result.Ok? <==> spawns && ComesUp(ticks)
      ensures result == Err(StartupError) <==> !spawns
      ensures result == Err(StopTimeout) <==> spawns && !ComesUp(ticks) && !ExitsFirst(ticks) && !dies
    {
      worker, result := BringUp(spawns, ticks, code, dies, t, Launch);
      if result.Ok? {
        trace.Take(Activate(t));
        active := worker;
      }
    }

    /** `_drain_and_stop_worker`: the worker leaves the list unless it outlived SIGKILL. */
    method DrainAndStopWorker(worker: WorkerProcess, code: int, dies: bool, ghost t: nat)
      requires Valid() && worker in trace.view.workers && At(t, ToDrain(worker))
      modifies this`allWorkers, trace, worker
      ensures Valid() && old(trace.steps) <= trace.steps && trace.view.workers.Keys == old(trace.view.workers.Keys)
      ensures At(t, Finished(Retired(worker)))
      ensures worker.state == Stopped && worker.intentionalShutdown
      ensures allWorkers == if worker.process.Alive? then old(allWorkers) else Remove(old(allWorkers), worker)
      ensures worker.process.Alive? <==> old(worker.process.Alive?) && !dies
    {
      BeginDrain(worker, t);
      StopDrained(worker, code, dies, t);
      Tidy(worker, t);
    }

    method BeginDrain(worker: WorkerProcess, ghost t: nat)
      requires Valid() && worker in trace.view.workers && At(t, ToDrain(worker))
      modifies trace, worker
      ensures Valid() && old(trace.steps) <= trace.steps && trace.view.workers.Keys == old(trace.view.workers.Keys)
      ensures At(t, InStop(worker, Entering, RetireDrained)) && worker.Value() == Drained(old(worker.Value()))
    {
      trace.Move(SupervisorProtocol.Drain(t), t, worker, InStop(worker, Entering, RetireDrained),
        Drained(worker.Value()));
      worker.Drain();
    }

    method StopDrained(worker: WorkerProcess, code: int, dies: bool, ghost t: nat)
      requires Valid() && worker in trace.view.workers && At(t, InStop(worker, Entering, RetireDrained))
      modifies trace, worker
      ensures Valid() && old(trace.steps) <= trace.steps && trace.view.workers.Keys == old(trace.view.workers.Keys)
      ensures At(t, Cleaning(worker)) && worker.state == Stopped && worker.intentionalShutdown
      ensures worker.process.Alive? <==> old(worker.process.Alive?) && !dies
    {
      var _ := worker.Stop(code, dies, trace, t, RetireDrained);
    }

    method Tidy(worker: WorkerProcess, ghost t: nat)
      requires Valid() && worker in trace.view.workers && At(t, Cleaning(worker))
      modifies this`allWorkers, trace
      ensures Valid() && old(trace.steps) <= trace.steps && trace.view.workers == old(trace.view.workers)
      ensures At(t, Finished(Retired(worker)))
      ensures allWorkers == if worker.process.Alive? then old(allWorkers) else Remove(old(allWorkers), worker)
    {
      trace.Take(Clean(t));
      if !worker.process.Alive? {
        allWorkers := Remove(allWorkers, worker);
      }
    }

    /** The end of `hot_swap`: the previous worker, if it still runs, goes to a
        drain, on thread `drainer` when the drain is asynchronous. */
    method Dispose(worker: WorkerProcess, previous: WorkerProcess?, inBackground: bool, code: int, dies: bool,
                   ghost t: nat, ghost drainer: nat)
      requires Valid() && worker in trace.view.workers
      requires previous != null ==> previous in trace.view.workers
      requires At(t, Switched(worker, Named(previous)))
      requires drainer !in trace.view.threads
      modifies this`allWorkers, trace, if previous == null then {} else {previous}
      ensures Valid() && old(trace.steps) <= trace.steps
      ensures trace.view.workers.Keys == old(trace.view.workers.Keys)
      ensures previous != null && old(previous.process.Alive?) ==>
        if inBackground then At(drainer, ToDrain(previous)) && unchanged(previous) && allWorkers == old(allWorkers)
        else previous.state == Stopped && (previous.process.Alive? <==> !dies)
      ensures allWorkers == if previous != null && old(previous.process.Alive?) && !inBackground && dies
                            then Remove<WorkerProcess>(old(allWorkers), previous) else old(allWorkers)
    {
      if previous != null && previous.process.Alive? && !inBackground {
        DrainHere(worker, previous, code, dies, t);
      } else {
        HandOver(worker, previous, t, drainer);
      }
    }

    method HandOver(worker: WorkerProcess, previous: WorkerProcess?, ghost t: nat, ghost drainer: nat)
      requires Valid() && (previous != null ==> previous in trace.view.workers)
      requires At(t, Switched(worker, Named(previous))) && drainer !in trace.view.threads
      modifies trace
      ensures Valid() && old(trace.steps) <= trace.steps && trace.view.workers == old(trace.view.workers)
      ensures previous != null && previous.process.Alive? ==> At(drainer, ToDrain(previous))
    {
      trace.Take(HandOff(t, drainer));
    }

    method DrainHere(worker: WorkerProcess, previous: WorkerProcess, code: int, dies: bool, ghost t: nat)
      requires Valid() && previous in trace.view.workers && previous.process.Alive?
      requires At(t, Switched(worker, Some(previous)))
      modifies this`allWorkers, trace, previous
      ensures Valid() && old(trace.steps) <= trace.steps
      ensures trace.view.workers.Keys == old(trace.view.workers.Keys)
      ensures previous.state == Stopped && (previous.process.Alive? <==> !dies)
      ensures allWorkers == if dies then Remove(old(allWorkers), previous) else old(allWorkers)
    {
      trace.Take(HandOff(t, t));
      DrainAndStopWorker(previous, code, dies, t);
    }

    method SwitchPointer(worker: WorkerProcess, ghost t: nat) returns (previous: WorkerProcess?)
      requires Valid() && worker in trace.view.workers && At(t, Ready(worker, Swap))
      modifies this`active, trace
      ensures Valid() && old(trace.steps) <= trace.steps && trace.view.workers == old(trace.view.workers)
      ensures previous == old(active) && active == worker && previous != worker
      ensures previous != null ==> previous in trace.view.workers
      ensures At(t, Switched(worker, Named(previous)))
      ensures trace.view.threads.Keys == old(trace.view.threads.Keys)
    {
      Guarantees();
      assert ThreadOk(trace.view, trace.view.threads[t]);
      previous := active;
      trace.Take(Activate(t));
      active := worker;
    }

    /** `hot_swap`. */
    method HotSwap(spawns: bool, ticks: seq<Tick>, code: int, dies: bool, inBackground: bool, ghost t: nat,
                   ghost drainer: nat)
      returns (worker: WorkerProcess, result: Result<(), SupervisorError>)
      requires Valid() && t !in trace.view.threads && drainer !in trace.view.threads && t != drainer
      modifies this, trace, if active == null then {} else {active}
      ensures Valid() && old(trace.steps) <= trace.steps
      ensures result.Ok? ==> active == worker && fresh(worker) && worker.state == Healthy
      ensures result.Ok? && old(active) != null && old(active.process.Alive?) ==>
        if inBackground then At(drainer, ToDrain(old(active)))
        else old(active).state == Stopped && (old(active).process.Alive? <==> !dies)
      ensures result.Ok? ==>
                allWorkers == if old(active) != null && old(active.process.Alive?) && !inBackground && dies
                              then Remove<WorkerProcess>(old(allWorkers) + [worker], old(active))
                              else old(allWorkers) + [worker]
      ensures result.Err? ==> active == old(active) && (active != null ==> unchanged(active))
      ensures result.Err? ==>
                Failure(result.error, old(allWorkers), worker, dies) && At(t, Finished(OutcomeOf(result.error, worker)))
      ensures result.Ok? <==> spawns && ComesUp(ticks)
      ensures result == Err(StartupError) <==> !spawns
      ensures result == Err(StopTimeout) <==> spawns && !ComesUp(ticks) && !ExitsFirst(ticks) && !dies
    {
      worker, result := BringUp(spawns, ticks, code, dies, t, Swap);
      if result.Err? {
        return;
      }
      Replace(worker, inBackground, code, dies, t, drainer);
    }

    /** From the pointer switch on. */
    method Replace(worker: WorkerProcess, inBackground: bool, code: int, dies: bool, ghost t: nat, ghost drainer: nat)
      requires Valid() && worker in trace.view.workers && At(t, Ready(worker, Swap))
      requires drainer !in trace.view.threads
      modifies this, trace, if active == null then {} else {active}
      ensures Valid() && old(trace.steps) <= trace.steps && active == worker
      ensures old(active) != null && old(active.process.Alive?) ==>
        if inBackground then At(drainer, ToDrain(old(active)))
        else old(active).state == Stopped && (old(active).process.Alive? <==> !dies)
      ensures allWorkers == if old(active) != null && old(active.process.Alive?) && !inBackground && dies
                            then Remove<WorkerProcess>(old(allWorkers), old(active)) else old(allWorkers)
    {
      var previous := SwitchPointer(worker, t);
      Dispose(worker, previous, inBackground, code, dies, t, drainer);
    }

    /** What one watchdog visit makes of a worker, when its probe gives `answer`. */
    static function Visited(w: Worker, answer: bool): Worker {
      var (checked, crash) := CheckExit(w);
      var healthy := w.process.Alive? && answer;
      if crash.Some? then checked
      else checked.(state := ProbedState(checked.state, healthy))
    }

    /** An exit that was not intended and not yet recorded. */
    static predicate HasCrashed(w: Worker) {
      w.process.Exited? && !((w.state == Stopped || w.state == Stopping) && w.intentionalShutdown)
      && !(w.state == Crashed && w.latestCrash.Some?)
    }

    /** The visit on the fields: a crash is recorded with its code and reason, a probe
        moves a worker between HEALTHY and DEGRADED, and nothing else changes. */
    static predicate VisitedAs(was: Worker, now: Worker, answer: bool) {
      && now.process == was.process && now.intentionalShutdown == was.intentionalShutdown
      && (HasCrashed(was) ==>
            && now.state == Crashed && now.latestCrash.Some? && now.latestCrash.value.exitCode == was.process.code
            && Explains(now.latestCrash.value.reason, was.process.code))
      && (!HasCrashed(was) ==> now.latestCrash == was.latestCrash)
      && (was.process.Alive? && was.state == Healthy ==> now.state == if answer then Healthy else Degraded)
      && (was.process.Alive? && was.state == Degraded ==> now.state == if answer then Healthy else Degraded)
      && (was.process.Alive? && was.state != Healthy && was.state != Degraded ==> now.state == was.state)
      && (was.process.NoProcess? ==> now.state == if was.state == Healthy then Degraded else was.state)
      && (was.process.Exited? && !HasCrashed(was) ==> now.state == was.state)
    }

    static lemma VisitOnTheFields(was: Worker, answer: bool)
      ensures VisitedAs(was, Visited(was, answer), answer)
    {
    }

    method HandleWorkerCrashed(worker: WorkerProcess, ghost t: nat, ghost todo: seq<WorkerProcess>)
      requires Valid() && At(t, Reporting(worker, todo))
      modifies this`active, trace
      ensures Valid() && old(trace.steps) <= trace.steps && trace.view.workers == old(trace.view.workers)
      ensures At(t, Passing(todo))
      ensures active == if old(active) == worker then null else old(active)
    {
      trace.Take(PassReport(t));
      if active == worker {
        active := null;
      }
    }

    /** The health check of one visit, lifted from the worker. */
    method ReadWorker(worker: WorkerProcess, answer: bool, ghost t: nat, ghost todo: seq<WorkerProcess>)
      requires Valid() && worker in trace.view.workers && At(t, Reading(worker, todo))
      modifies worker`state, trace
      ensures Valid() && old(trace.steps) <= trace.steps && At(t, Passing(todo))
      ensures trace.view.workers == old(trace.view.workers)[worker := worker.Value()]
      ensures worker.state == ProbedState(old(worker.state), worker.process.Alive? && answer)
    {
      worker.CheckHealth(answer, trace, t, todo);
      LocalUpdatesOneWorker(old(trace.view), trace.view, t, worker);
    }

    /** One iteration of the pass. */
    method VisitWorker(worker: WorkerProcess, answer: bool, ghost t: nat, ghost todo: seq<WorkerProcess>)
      requires Valid() && worker in trace.view.workers && todo != [] && todo[0] == worker && At(t, Passing(todo))
      modifies this`active, worker, trace
      ensures Valid() && old(trace.steps) <= trace.steps
                && trace.view.workers == old(trace.view.workers)[worker := worker.Value()]
      ensures At(t, Passing(todo[1..]))
      ensures worker.Value() == Visited(old(worker.Value()), answer)
      ensures active == if CheckExit(old(worker.Value())).1.Some? && old(active) == worker then null else old(active)
    {
      var crash := CheckWorker(worker, t, todo);
      if crash.Some? {
        HandleWorkerCrashed(worker, t, todo[1..]);
      } else {
        ReadWorker(worker, answer, t, todo[1..]);
      }
    }

    method CheckWorker(worker: WorkerProcess, ghost t: nat, ghost todo: seq<WorkerProcess>)
      returns (crash: Option<CrashReport>)
      requires Valid() && worker in trace.view.workers && todo != [] && todo[0] == worker && At(t, Passing(todo))
      modifies worker, trace
      ensures Valid() && old(trace.steps) <= trace.steps
                && trace.view.workers == old(trace.view.workers)[worker := worker.Value()]
      ensures (worker.Value(), crash) == CheckExit(old(worker.Value()))
      ensures At(t, if crash.Some? then Reporting(worker, todo[1..]) else Reading(worker, todo[1..]))
    {
      trace.Move(PassCheck(t), t, worker,
                 if CheckExit(worker.Value()).1.Some? then Reporting(worker, todo[1..]) else Reading(worker, todo[1..]),
                 CheckExit(worker.Value()).0);
      crash := worker.CheckAndHandleExit();
    }

    /** `_check_all_workers_once`, with the answers the probes would give: every
        registered worker is visited, and the pointer is cleared exactly when the
        active worker has a crash to report. */
    method CheckAllWorkersOnce(answers: WorkerProcess -> bool, ghost t: nat)
      requires Valid() && t !in trace.view.threads
      modifies this`active, allWorkers, trace
      ensures Valid() && old(trace.steps) <= trace.steps && At(t, Finished(PassDone))
      ensures forall w | w in allWorkers :: w.Value() == Visited(old(w.Value()), answers(w))
      ensures forall w | w in allWorkers :: VisitedAs(old(w.Value()), w.Value(), answers(w))
      ensures allWorkers == old(allWorkers)
      ensures active == if old(active) in allWorkers && old(active.process.Exited?)
                           && !old((active.state == Stopped || active.state == Stopping) && active.intentionalShutdown)
                        then null else old(active)
    {
      BeginPass(t);
      VisitAll(allWorkers, answers, t);
      EndPass(t);
      forall w | w in allWorkers ensures VisitedAs(old(w.Value()), w.Value(), answers(w)) {
        VisitOnTheFields(old(w.Value()), answers(w));
      }
    }

    method BeginPass(ghost t: nat)
      requires Valid() && t !in trace.view.threads
      modifies trace
      ensures Valid() && old(trace.steps) <= trace.steps && At(t, Passing(allWorkers))
      ensures NoDuplicates(allWorkers) && trace.view.workers == old(trace.view.workers) && forall w | w in allWorkers ::
                w in trace.view.workers
    {
      Guarantees();
      trace.Take(PassBegin(t));
    }

    method EndPass(ghost t: nat)
      requires Valid() && At(t, Passing([]))
      modifies trace
      ensures Valid() && old(trace.steps) <= trace.steps && At(t, Finished(PassDone))
                && trace.view.workers == old(trace.view.workers)
    {
      trace.Take(PassEnd(t));
    }

    /** How far a pass has come: the workers still to visit are as they were. */
    ghost predicate VisitedUpTo(before: map<WorkerProcess, Worker>, pointed: WorkerProcess?,
                                snapshot: seq<WorkerProcess>, todo: seq<WorkerProcess>,
                                answers: WorkerProcess -> bool, t: nat)
      reads this, trace, trace.view.workers.Keys
    {
      && Valid() && At(t, Passing(todo)) && trace.view.workers.Keys == before.Keys
      && NoDuplicates(todo) && (forall w | w in todo :: w in snapshot) && (forall w | w in snapshot :: w in before)
      && PassState(before, pointed, snapshot, todo, answers, trace.view.workers, active)
    }

    static ghost predicate PassState(before: map<WorkerProcess, Worker>, pointed: WorkerProcess?,
                                     snapshot: seq<WorkerProcess>, todo: seq<WorkerProcess>,
                                     answers: WorkerProcess -> bool, workers: map<WorkerProcess, Worker>,
                                     active: WorkerProcess?)
      requires forall w | w in snapshot :: w in before && w in workers
    {
      && (forall w | w in snapshot :: workers[w] == if w in todo then before[w] else Visited(before[w], answers(w)))
      && active == if Cleared(before, pointed, snapshot, todo) then null else pointed
    }

    /** The pass has visited the active worker and found a crash to report. */
    static predicate Cleared(before: map<WorkerProcess, Worker>, pointed: WorkerProcess?, snapshot: seq<WorkerProcess>,
                             todo: seq<WorkerProcess>)
      requires forall w | w in snapshot :: w in before
    {
      pointed in snapshot && pointed !in todo && CheckExit(before[pointed]).1.Some?
    }

    method VisitAll(snapshot: seq<WorkerProcess>, answers: WorkerProcess -> bool, ghost t: nat)
      requires Valid() && At(t, Passing(snapshot))
      requires NoDuplicates(snapshot) && forall w | w in snapshot :: w in trace.view.workers
      modifies this`active, snapshot, trace
      ensures VisitedUpTo(old(trace.view.workers), old(active), snapshot, [], answers, t)
                && old(trace.steps) <= trace.steps
    {
      var todo := snapshot;
      while todo != []
        invariant VisitedUpTo(old(trace.view.workers), old(active), snapshot, todo, answers, t)
        invariant old(trace.steps) <= trace.steps
        decreases |todo|
      {
        assert todo[0] in todo;
        VisitNext(old(trace.view.workers), old(active), snapshot, todo, answers, t);
        todo := todo[1..];
      }
    }

    method VisitNext(ghost before: map<WorkerProcess, Worker>, ghost pointed: WorkerProcess?,
                     ghost snapshot: seq<WorkerProcess>, todo: seq<WorkerProcess>,
                     answers: WorkerProcess -> bool, ghost t: nat)
      requires VisitedUpTo(before, pointed, snapshot, todo, answers, t) && todo != []
      modifies this`active, todo[0], trace
      ensures VisitedUpTo(before, pointed, snapshot, todo[1..], answers, t) && old(trace.steps) <= trace.steps
    {
      assert todo[0] in todo && todo == [todo[0]] + todo[1..];
      ghost var known, current := trace.view.workers, active;
      VisitWorker(todo[0], answers(todo[0]), t, todo);
      PassGoesOn(before, pointed, snapshot, todo, answers, known, current);
    }

    static lemma PassGoesOn(before: map<WorkerProcess, Worker>, pointed: WorkerProcess?, snapshot: seq<WorkerProcess>,
                            todo: seq<WorkerProcess>, answers: WorkerProcess -> bool,
                            known: map<WorkerProcess, Worker>, current: WorkerProcess?)
      requires todo != [] && NoDuplicates(todo) && todo[0] in snapshot
      requires forall w | w in snapshot :: w in before && w in known
      requires PassState(before, pointed, snapshot, todo, answers, known, current)
      ensures
        var was := known[todo[0]];
        PassState(before, pointed, snapshot, todo[1..], answers, known[todo[0] := Visited(was, answers(todo[0]))],
                  if CheckExit(was).1.Some? && current == todo[0] then null else current)
    {
      assert todo == [todo[0]] + todo[1..];
    }

    /** `ProcessSupervisor.stop`: the pointer is cleared, every registered worker ends
        STOPPED on purpose, and only those that outlive SIGKILL stay alive. */
    method Stop(code: int, dies: WorkerProcess -> bool, ghost t: nat)
      requires Valid() && t !in trace.view.threads
      modifies this`active, allWorkers, trace
      ensures Valid() && old(trace.steps) <= trace.steps && At(t, Finished(AllStopped))
      ensures active == null && allWorkers == old(allWorkers)
      ensures forall w | w in allWorkers :: w.state == Stopped && w.intentionalShutdown
                && (dies(w) ==> !w.process.Alive?)
    {
      BeginStop(t);
      StopEach(allWorkers, code, dies, t);
      EndStop(t);
    }

    method BeginStop(ghost t: nat)
      requires Valid() && t !in trace.view.threads
      modifies this`active, trace
      ensures Valid() && old(trace.steps) <= trace.steps && At(t, StoppingAll(allWorkers)) && active == null
      ensures forall w | w in allWorkers :: w in trace.view.workers
    {
      Guarantees();
      trace.Take(StopAllBegin(t));
      active := null;
    }

    method EndStop(ghost t: nat)
      requires Valid() && At(t, StoppingAll([]))
      modifies trace
      ensures Valid() && old(trace.steps) <= trace.steps && At(t, Finished(AllStopped))
                && trace.view.workers == old(trace.view.workers)
    {
      trace.Take(StopAllEnd(t));
    }

    method StopOne(worker: WorkerProcess, code: int, dies: bool, ghost t: nat, ghost todo: seq<WorkerProcess>)
      requires Valid() && worker in trace.view.workers && todo != [] && todo[0] == worker && At(t, StoppingAll(todo))
      modifies worker, trace
      ensures Valid() && old(trace.steps) <= trace.steps
                && trace.view.workers == old(trace.view.workers)[worker := worker.Value()]
      ensures At(t, StoppingAll(todo[1..])) && Down(worker.Value(), dies)
    {
      trace.Take(StopAllNext(t));
      var _ := worker.Stop(code, dies, trace, t, ContinueStopAll(todo[1..]));
    }

    /** How far the stop of all workers has come. */
    ghost predicate DownUpTo(snapshot: seq<WorkerProcess>, todo: seq<WorkerProcess>, dies: WorkerProcess -> bool,
                             t: nat)
      reads this, trace, trace.view.workers.Keys
    {
      && Valid() && At(t, StoppingAll(todo)) && (forall w | w in todo :: w in snapshot)
      && forall w | w in snapshot :: w in trace.view.workers && (w in todo || Down(trace.view.workers[w], dies(w)))
    }

    method StopEach(snapshot: seq<WorkerProcess>, code: int, dies: WorkerProcess -> bool, ghost t: nat)
      requires Valid() && At(t, StoppingAll(snapshot)) && forall w | w in snapshot :: w in trace.view.workers
      modifies snapshot, trace
      ensures DownUpTo(snapshot, [], dies, t) && old(trace.steps) <= trace.steps
    {
      var todo := snapshot;
      while todo != []
        invariant DownUpTo(snapshot, todo, dies, t) && old(trace.steps) <= trace.steps
        decreases |todo|
      {
        assert todo[0] in todo;
        StopNext(snapshot, todo, code, dies, t);
        todo := todo[1..];
      }
    }

    method StopNext(ghost snapshot: seq<WorkerProcess>, todo: seq<WorkerProcess>, code: int,
                    dies: WorkerProcess -> bool, ghost t: nat)
      requires DownUpTo(snapshot, todo, dies, t) && todo != []
      modifies todo[0], trace
      ensures DownUpTo(snapshot, todo[1..], dies, t) && old(trace.steps) <= trace.steps
    {
      assert todo[0] in todo && todo == [todo[0]] + todo[1..];
      ghost var known := trace.view.workers;
      StopOne(todo[0], code, dies(todo[0]), t, todo);
      SweepGoesOn(known, trace.view.workers, snapshot, todo, dies);
    }

    static lemma SweepGoesOn(known: map<WorkerProcess, Worker>, next: map<WorkerProcess, Worker>,
                             snapshot: seq<WorkerProcess>, todo: seq<WorkerProcess>, dies: WorkerProcess -> bool)
      requires todo != [] && todo[0] in known && todo[0] in next && next == known[todo[0] := next[todo[0]]]
      requires forall w | w in snapshot :: w in known && (w in todo || Down(known[w], dies(w)))
      requires Down(next[todo[0]], dies(todo[0]))
      ensures forall w | w in snapshot :: w in next && (w in todo[1..] || Down(next[w], dies(w)))
    {
      assert todo == [todo[0]] + todo[1..];
    }

    static predicate Down(w: Worker, dies: bool) {
      w.state == Stopped && w.intentionalShutdown && (dies ==> !w.process.Alive?)
    }
  }
}
