/** The process supervisor as a transition system. Every block that runs under
    one lock is one step, every gap between two such blocks is a step boundary,
    and any number of callers, watchdog passes, drains and stops interleave.
    `W` is the identity of a worker object. */
module SupervisorProtocol {
  import opened Wrappers
  import opened WorkerStates

  datatype Caller = Launch | Swap

  /** Where control goes when `WorkerProcess.stop` returns. */
  datatype After<W> = RollBack | RetireDrained | ContinueStopAll(todo: seq<W>)

  /** `Raising` is the exit of `stop` through an uncaught wait timeout. */
  datatype StopPhase = Entering | Signalling | Finishing | Raising

  datatype Outcome<W> =
    | SpawnFailed(w: W) | Activated(w: W) | RolledBack(w: W) | StopRaised(w: W)
    | Retired(w: W) | PassDone | AllStopped

  /** Program counter of one thread. */
  datatype Pc<W> =
    // launch_initial_worker and hot_swap, up to the pointer switch
    | Spawned(w: W, caller: Caller)
    | Polling(w: W, caller: Caller)
    | Probing(w: W, caller: Caller)
    | MarkingHealthy(w: W, caller: Caller)
    | Ready(w: W, caller: Caller)
    // hot_swap after the switch
    | Switched(w: W, previous: Option<W>)
    // WorkerProcess.stop, on behalf of whoever called it
    | InStop(w: W, phase: StopPhase, after: After<W>)
    | Unregistering(w: W)
    // _drain_and_stop_worker
    | ToDrain(w: W)
    | Cleaning(w: W)
    // one watchdog pass
    | Passing(todo: seq<W>)
    | Reporting(w: W, todo: seq<W>)
    | Reading(w: W, todo: seq<W>)
    | Rereading(w: W, todo: seq<W>)
    | ProbingHealthy(w: W, todo: seq<W>)
    | ProbingDegraded(w: W, todo: seq<W>)
    | Writing(w: W, value: WorkerState, todo: seq<W>)
    // ProcessSupervisor.stop
    | StoppingAll(todo: seq<W>)
    | Finished(outcome: Outcome<W>)

  /** `activations`, `displaced` and `handed` are history: every worker the
      active pointer was set to, every worker `hot_swap` pushed out of it, and
      every worker `hot_swap` gave to drain and stop, in order. */
  datatype Sys<W(==)> = Sys(
    workers: map<W, Worker>,
    registered: seq<W>,
    active: Option<W>,
    threads: map<nat, Pc<W>>,
    activations: seq<W>,
    displaced: seq<W>,
    handed: seq<W>)

  datatype Step<W> =
    | Begin(t: nat, w: W, caller: Caller)
    | StartOk(t: nat)
    | StartFails(t: nat)
    | Poll(t: nat)
    | GiveUp(t: nat)
    | Probe(t: nat, ok: bool)
    | MarkHealthy(t: nat)
    | Activate(t: nat)
    | HandOff(t: nat, drainer: nat)
    | Drain(t: nat)
    | StopEnter(t: nat)
    | StopSignal(t: nat, code: int)
    | StopTimesOut(t: nat)
    | StopFinish(t: nat)
    | Unregister(t: nat)
    | Clean(t: nat)
    | PassBegin(t: nat)
    | PassCheck(t: nat)
    | PassReport(t: nat)
    | PassRead(t: nat)
    | PassReread(t: nat)
    | PassProbe(t: nat, ok: bool)
    | PassWrite(t: nat)
    | PassEnd(t: nat)
    | StopAllBegin(t: nat)
    | StopAllNext(t: nat)
    | StopAllEnd(t: nat)
    | ProcessExits(victim: W, code: int)

  function Initial<W>(): Sys<W> {
    Sys(map[], [], None, map[], [], [], [])
  }

  predicate At<W>(s: Sys<W>, t: nat) {
    t in s.threads
  }

  predicate Runs<W>(s: Sys<W>, w: W) {
    w in s.workers && s.workers[w].process.Alive?
  }

  predicate Enabled<W>(s: Sys<W>, step: Step<W>) {
    match step
    case Begin(t, w, _) => t !in s.threads && w !in s.workers
    case StartOk(t) => At(s, t) && s.threads[t].Spawned? && s.threads[t].w in s.workers
    case StartFails(t) => At(s, t) && s.threads[t].Spawned? && s.threads[t].w in s.workers
    case Poll(t) => At(s, t) && s.threads[t].Polling? && s.threads[t].w in s.workers
    case GiveUp(t) => At(s, t) && s.threads[t].Polling?
    case Probe(t, ok) => At(s, t) && s.threads[t].Probing? && (ok ==> Runs(s, s.threads[t].w))
    case MarkHealthy(t) => At(s, t) && s.threads[t].MarkingHealthy? && s.threads[t].w in s.workers
    case Activate(t) => At(s, t) && s.threads[t].Ready?
    case HandOff(t, drainer) =>
      At(s, t) && s.threads[t].Switched? && (drainer == t || drainer !in s.threads)
    case Drain(t) => At(s, t) && s.threads[t].ToDrain? && s.threads[t].w in s.workers
    case StopEnter(t) => InPhase(s, t, Entering)
    case StopSignal(t, _) => InPhase(s, t, Signalling)
    case StopTimesOut(t) => InPhase(s, t, Signalling)
    case StopFinish(t) => InPhase(s, t, Finishing) || InPhase(s, t, Raising)
    case Unregister(t) => At(s, t) && s.threads[t].Unregistering?
    case Clean(t) => At(s, t) && s.threads[t].Cleaning?
    case PassBegin(t) => t !in s.threads
    case PassCheck(t) =>
      At(s, t) && s.threads[t].Passing? && s.threads[t].todo != [] && s.threads[t].todo[0] in s.workers
    case PassReport(t) => At(s, t) && s.threads[t].Reporting?
    case PassRead(t) => At(s, t) && s.threads[t].Reading? && s.threads[t].w in s.workers
    case PassReread(t) => At(s, t) && s.threads[t].Rereading? && s.threads[t].w in s.workers
    case PassProbe(t, ok) =>
      At(s, t) && (s.threads[t].ProbingHealthy? || s.threads[t].ProbingDegraded?) && (ok ==> Runs(s, s.threads[t].w))
    case PassWrite(t) => At(s, t) && s.threads[t].Writing? && s.threads[t].w in s.workers
    case PassEnd(t) => At(s, t) && s.threads[t] == Passing([])
    case StopAllBegin(t) => t !in s.threads
    case StopAllNext(t) => At(s, t) && s.threads[t].StoppingAll? && s.threads[t].todo != []
    case StopAllEnd(t) => At(s, t) && s.threads[t] == StoppingAll([])
    case ProcessExits(victim, _) => Runs(s, victim)
  }

  predicate InPhase<W>(s: Sys<W>, t: nat, phase: StopPhase) {
    At(s, t) && s.threads[t].InStop? && s.threads[t].phase == phase && s.threads[t].w in s.workers
  }

  function Goto<W>(s: Sys<W>, t: nat, pc: Pc<W>): Sys<W> {
    s.(threads := s.threads[t := pc])
  }

  function Put<W>(s: Sys<W>, w: W, value: Worker): Sys<W> {
    s.(workers := s.workers[w := value])
  }

  function Returning<W>(w: W, after: After<W>): Pc<W> {
    match after
    case RollBack => Unregistering(w)
    case RetireDrained => Cleaning(w)
    case ContinueStopAll(todo) => StoppingAll(todo)
  }

  /** Both `_drain_and_stop_worker` and `ProcessSupervisor.stop` catch the
      exception; a roll back lets it escape before unregistering. */
  function RaisingTo<W>(w: W, after: After<W>): Pc<W> {
    match after
    case RollBack => Finished(StopRaised(w))
    case RetireDrained => Cleaning(w)
    case ContinueStopAll(todo) => StoppingAll(todo)
  }

  function BeginStep<W>(s: Sys<W>, t: nat, w: W, caller: Caller): Sys<W>
    requires Enabled(s, Begin(t, w, caller))
  {
    Goto(Put(s, w, Created()), t, Spawned(w, caller)).(registered := s.registered + [w])
  }

  function StartOkStep<W>(s: Sys<W>, t: nat): Sys<W>
    requires Enabled(s, StartOk(t))
  {
    var Spawned(w, caller) := s.threads[t];
    Goto(Put(s, w, Launched(s.workers[w])), t, Polling(w, caller))
  }

  function StartFailsStep<W>(s: Sys<W>, t: nat): Sys<W>
    requires Enabled(s, StartFails(t))
  {
    var w := s.threads[t].w;
    Goto(Put(s, w, LaunchRaised(s.workers[w])), t, Finished(SpawnFailed(w)))
  }

  function PollStep<W>(s: Sys<W>, t: nat): Sys<W>
    requires Enabled(s, Poll(t))
  {
    var Polling(w, caller) := s.threads[t];
    if s.workers[w].process.Exited?
    then Goto(Put(s, w, RecordExit(s.workers[w], ExitDuringStartup)), t, InStop(w, Entering, RollBack))
    else Goto(s, t, Probing(w, caller))
  }

  function GiveUpStep<W>(s: Sys<W>, t: nat): Sys<W>
    requires Enabled(s, GiveUp(t))
  {
    Goto(s, t, InStop(s.threads[t].w, Entering, RollBack))
  }

  function ProbeStep<W>(s: Sys<W>, t: nat, ok: bool): Sys<W>
    requires Enabled(s, Probe(t, ok))
  {
    var Probing(w, caller) := s.threads[t];
    Goto(s, t, if ok then MarkingHealthy(w, caller) else Polling(w, caller))
  }

  function MarkHealthyStep<W>(s: Sys<W>, t: nat): Sys<W>
    requires Enabled(s, MarkHealthy(t))
  {
    var MarkingHealthy(w, caller) := s.threads[t];
    Goto(Put(s, w, s.workers[w].(state := Healthy)), t, Ready(w, caller))
  }

  function ActivateStep<W>(s: Sys<W>, t: nat): Sys<W>
    requires Enabled(s, Activate(t))
  {
    var Ready(w, caller) := s.threads[t];
    var pointed := s.(active := Some(w), activations := s.activations + [w]);
    (match caller
     case Launch => Goto(pointed, t, Finished(Activated(w)))
     case Swap =>
       Goto(pointed, t, Switched(w, s.active)).(
       displaced := if s.active.Some? then s.displaced + [s.active.value] else s.displaced))
  }

  function HandOffStep<W>(s: Sys<W>, t: nat, drainer: nat): Sys<W>
    requires Enabled(s, HandOff(t, drainer))
  {
    var Switched(w, previous) := s.threads[t];
    var done := Goto(s, t, Finished(Activated(w)));
    if previous.Some? && Runs(s, previous.value)
    then Goto(done, drainer, ToDrain(previous.value)).(handed := s.handed + [previous.value])
    else done
  }

  function DrainStep<W>(s: Sys<W>, t: nat): Sys<W>
    requires Enabled(s, Drain(t))
  {
    var w := s.threads[t].w;
    Goto(Put(s, w, Drained(s.workers[w])), t, InStop(w, Entering, RetireDrained))
  }

  function StopEnterStep<W>(s: Sys<W>, t: nat): Sys<W>
    requires Enabled(s, StopEnter(t))
  {
    var InStop(w, _, after) := s.threads[t];
    Goto(Put(s, w, StopEntered(s.workers[w])), t,
         if s.workers[w].process.Alive? then InStop(w, Signalling, after) else Returning(w, after))
  }

  function StopSignalStep<W>(s: Sys<W>, t: nat, code: int): Sys<W>
    requires Enabled(s, StopSignal(t, code))
  {
    var InStop(w, _, after) := s.threads[t];
    Goto(Put(s, w, Ended(s.workers[w], code)), t, InStop(w, Finishing, after))
  }

  function StopTimesOutStep<W>(s: Sys<W>, t: nat): Sys<W>
    requires Enabled(s, StopTimesOut(t))
  {
    Goto(s, t, InStop(s.threads[t].w, Raising, s.threads[t].after))
  }

  function StopFinishStep<W>(s: Sys<W>, t: nat): Sys<W>
    requires Enabled(s, StopFinish(t))
  {
    var InStop(w, phase, after) := s.threads[t];
    Goto(Put(s, w, s.workers[w].(state := Stopped)), t,
         if phase == Finishing then Returning(w, after) else RaisingTo(w, after))
  }

  function UnregisterStep<W>(s: Sys<W>, t: nat): Sys<W>
    requires Enabled(s, Unregister(t))
  {
    var w := s.threads[t].w;
    Goto(s, t, Finished(RolledBack(w))).(registered := Remove(s.registered, w))
  }

  function CleanStep<W>(s: Sys<W>, t: nat): Sys<W>
    requires Enabled(s, Clean(t))
  {
    var w := s.threads[t].w;
    Goto(s, t, Finished(Retired(w))).(
    registered := if Runs(s, w) then s.registered else Remove(s.registered, w))
  }

  function PassBeginStep<W>(s: Sys<W>, t: nat): Sys<W>
    requires Enabled(s, PassBegin(t))
  {
    Goto(s, t, Passing(s.registered))
  }

  function PassCheckStep<W>(s: Sys<W>, t: nat): Sys<W>
    requires Enabled(s, PassCheck(t))
  {
    var todo := s.threads[t].todo;
    var (checked, crash) := CheckExit(s.workers[todo[0]]);
    Goto(Put(s, todo[0], checked), t, if crash.Some? then Reporting(todo[0], todo[1..])
      else Reading(todo[0], todo[1..]))
  }

  function PassReportStep<W>(s: Sys<W>, t: nat): Sys<W>
    requires Enabled(s, PassReport(t))
  {
    var Reporting(w, todo) := s.threads[t];
    Goto(s, t, Passing(todo)).(active := if s.active == Some(w) then None else s.active)
  }

  function PassReadStep<W>(s: Sys<W>, t: nat): Sys<W>
    requires Enabled(s, PassRead(t))
  {
    var Reading(w, todo) := s.threads[t];
    Goto(s, t, if s.workers[w].state == Healthy then ProbingHealthy(w, todo) else Rereading(w, todo))
  }

  function PassRereadStep<W>(s: Sys<W>, t: nat): Sys<W>
    requires Enabled(s, PassReread(t))
  {
    var Rereading(w, todo) := s.threads[t];
    Goto(s, t, if s.workers[w].state == Degraded then ProbingDegraded(w, todo) else Passing(todo))
  }

  function PassProbeStep<W>(s: Sys<W>, t: nat, ok: bool): Sys<W>
    requires Enabled(s, PassProbe(t, ok))
  {
    var w, todo := s.threads[t].w, s.threads[t].todo;
    Goto(s, t, if ok == s.threads[t].ProbingHealthy? then Passing(todo)
               else Writing(w, if ok then Healthy else Degraded, todo))
  }

  function PassWriteStep<W>(s: Sys<W>, t: nat): Sys<W>
    requires Enabled(s, PassWrite(t))
  {
    var Writing(w, value, todo) := s.threads[t];
    Goto(Put(s, w, s.workers[w].(state := value)), t, Passing(todo))
  }

  function PassEndStep<W>(s: Sys<W>, t: nat): Sys<W>
    requires Enabled(s, PassEnd(t))
  {
    Goto(s, t, Finished(PassDone))
  }

  function StopAllBeginStep<W>(s: Sys<W>, t: nat): Sys<W>
    requires Enabled(s, StopAllBegin(t))
  {
    Goto(s, t, StoppingAll(s.registered)).(active := None)
  }

  function StopAllNextStep<W>(s: Sys<W>, t: nat): Sys<W>
    requires Enabled(s, StopAllNext(t))
  {
    var todo := s.threads[t].todo;
    Goto(s, t, InStop(todo[0], Entering, ContinueStopAll(todo[1..])))
  }

  function StopAllEndStep<W>(s: Sys<W>, t: nat): Sys<W>
    requires Enabled(s, StopAllEnd(t))
  {
    Goto(s, t, Finished(AllStopped))
  }

  function ProcessExitsStep<W>(s: Sys<W>, victim: W, code: int): Sys<W>
    requires Enabled(s, ProcessExits(victim, code))
  {
    Put(s, victim, Ended(s.workers[victim], code))
  }

  function Apply<W>(s: Sys<W>, step: Step<W>): Sys<W>
    requires Enabled(s, step)
  {
    match step
    case Begin(t, w, caller) => BeginStep(s, t, w, caller)
    case StartOk(t) => StartOkStep(s, t)
    case StartFails(t) => StartFailsStep(s, t)
    case Poll(t) => PollStep(s, t)
    case GiveUp(t) => GiveUpStep(s, t)
    case Probe(t, ok) => ProbeStep(s, t, ok)
    case MarkHealthy(t) => MarkHealthyStep(s, t)
    case Activate(t) => ActivateStep(s, t)
    case HandOff(t, drainer) => HandOffStep(s, t, drainer)
    case Drain(t) => DrainStep(s, t)
    case StopEnter(t) => StopEnterStep(s, t)
    case StopSignal(t, code) => StopSignalStep(s, t, code)
    case StopTimesOut(t) => StopTimesOutStep(s, t)
    case StopFinish(t) => StopFinishStep(s, t)
    case Unregister(t) => UnregisterStep(s, t)
    case Clean(t) => CleanStep(s, t)
    case PassBegin(t) => PassBeginStep(s, t)
    case PassCheck(t) => PassCheckStep(s, t)
    case PassReport(t) => PassReportStep(s, t)
    case PassRead(t) => PassReadStep(s, t)
    case PassReread(t) => PassRereadStep(s, t)
    case PassProbe(t, ok) => PassProbeStep(s, t, ok)
    case PassWrite(t) => PassWriteStep(s, t)
    case PassEnd(t) => PassEndStep(s, t)
    case StopAllBegin(t) => StopAllBeginStep(s, t)
    case StopAllNext(t) => StopAllNextStep(s, t)
    case StopAllEnd(t) => StopAllEndStep(s, t)
    case ProcessExits(victim, code) => ProcessExitsStep(s, victim, code)
  }

  /** `steps`, taken in order from `s`, are all enabled. */
  predicate IsRun<W>(s: Sys<W>, steps: seq<Step<W>>)
    decreases |steps|, 0
  {
    steps == [] ||
    (IsRun(s, steps[..|steps| - 1]) && Enabled(Reached(s, steps[..|steps| - 1]), steps[|steps| - 1]))
  }

  function Reached<W>(s: Sys<W>, steps: seq<Step<W>>): Sys<W>
    requires IsRun(s, steps)
    decreases |steps|, 1
  {
    if steps == [] then s
    else Apply(Reached(s, steps[..|steps| - 1]), steps[|steps| - 1])
  }
}
