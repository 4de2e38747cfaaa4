/** Two runs that mark the edge of what the supervisor guarantees. */
module SupervisorFindings {
  import opened Wrappers
  import opened WorkerStates
  import opened SupervisorProtocol

  lemma Take(before: seq<Step<nat>>, s: Sys<nat>, step: Step<nat>) returns (steps: seq<Step<nat>>, s': Sys<nat>)
    requires IsRun(Initial<nat>(), before) && Reached(Initial<nat>(), before) == s && Enabled(s, step)
    ensures IsRun(Initial<nat>(), steps) && Reached(Initial<nat>(), steps) == s' && s' == Apply(s, step)
  {
    steps, s' := before + [step], Apply(s, step);
    assert steps[..|steps| - 1] == before;
  }

  const Booting: Worker := Worker(Starting, Alive, false, None)
  const Up: Worker := Worker(Healthy, Alive, false, None)
  const StoppedOnPurpose: Worker := Worker(Stopped, Exited(-15), true, None)
  const FalseCrash: Worker := Worker(Crashed, Exited(-15), true, Some(CrashReport(-15, NonZeroExit(-15))))

  function LaunchBooting(): Sys<nat> {
    Sys(map[0 := Booting], [0], None, map[0 := Probing(0, Launch)], [], [], [])
  }

  function LaunchReady(): Sys<nat> {
    Sys(map[0 := Up], [0], None, map[0 := Ready(0, Launch)], [], [], [])
  }

  lemma LaunchBoots() returns (steps: seq<Step<nat>>)
    ensures IsRun(Initial<nat>(), steps) && Reached(Initial<nat>(), steps) == LaunchBooting()
  {
    steps := [];
    var s := Initial<nat>();
    steps, s := Take(steps, s, Begin(0, 0, Launch));
    steps, s := Take(steps, s, StartOk(0));
    steps, s := Take(steps, s, Poll(0));
    assert s == LaunchBooting();
  }

  lemma LaunchBecomesReady(before: seq<Step<nat>>) returns (steps: seq<Step<nat>>)
    requires IsRun(Initial<nat>(), before) && Reached(Initial<nat>(), before) == LaunchBooting()
    ensures IsRun(Initial<nat>(), steps) && Reached(Initial<nat>(), steps) == LaunchReady()
  {
    steps := before;
    var s := LaunchBooting();
    steps, s := Take(steps, s, Probe(0, true));
    steps, s := Take(steps, s, MarkHealthy(0));
    assert s == LaunchReady();
  }

  // ---- A stop that overlaps a launch ------------------------------------

  function StopEnters(): Sys<nat> {
    Sys(map[0 := Up], [0], None,
        map[0 := Ready(0, Launch), 1 := InStop(0, Entering, ContinueStopAll([]))], [], [], [])
  }

  function StopSignals(): Sys<nat> {
    Sys(map[0 := Worker(Stopping, Alive, true, None)], [0], None,
        map[0 := Ready(0, Launch), 1 := InStop(0, Signalling, ContinueStopAll([]))], [], [], [])
  }

  function StoppedBeforeActivation(): Sys<nat> {
    Sys(map[0 := StoppedOnPurpose], [0], None, map[0 := Ready(0, Launch), 1 := StoppingAll([])], [], [], [])
  }

  function ActiveButStopped(): Sys<nat> {
    Sys(map[0 := StoppedOnPurpose], [0], Some(0),
        map[0 := Finished(Activated(0)), 1 := Finished(AllStopped)], [0], [], [])
  }

  function PassAt(pc: Pc<nat>): Sys<nat> {
    ActiveButStopped().(threads := ActiveButStopped().threads[2 := pc])
  }

  lemma StopOvertakesLaunch(before: seq<Step<nat>>) returns (steps: seq<Step<nat>>)
    requires IsRun(Initial<nat>(), before) && Reached(Initial<nat>(), before) == LaunchReady()
    ensures IsRun(Initial<nat>(), steps) && Reached(Initial<nat>(), steps) == StopSignals()
  {
    steps := before;
    var s := LaunchReady();
    assert [0][1..] == [];
    steps, s := Take(steps, s, StopAllBegin(1));
    steps, s := Take(steps, s, StopAllNext(1));
    assert s == StopEnters();
    steps, s := Take(steps, s, StopEnter(1));
    assert s == StopSignals();
  }

  lemma StopCompletes(before: seq<Step<nat>>) returns (steps: seq<Step<nat>>)
    requires IsRun(Initial<nat>(), before) && Reached(Initial<nat>(), before) == StopSignals()
    ensures IsRun(Initial<nat>(), steps) && Reached(Initial<nat>(), steps) == StoppedBeforeActivation()
  {
    steps := before;
    var s := StopSignals();
    steps, s := Take(steps, s, StopSignal(1, -15));
    steps, s := Take(steps, s, StopFinish(1));
    assert s == StoppedBeforeActivation();
  }

  lemma LaunchThenActivates(before: seq<Step<nat>>) returns (steps: seq<Step<nat>>)
    requires IsRun(Initial<nat>(), before) && Reached(Initial<nat>(), before) == StoppedBeforeActivation()
    ensures IsRun(Initial<nat>(), steps) && Reached(Initial<nat>(), steps) == ActiveButStopped()
  {
    steps := before;
    var s := StoppedBeforeActivation();
    steps, s := Take(steps, s, StopAllEnd(1));
    steps, s := Take(steps, s, Activate(0));
    assert s == ActiveButStopped();
  }

  lemma PassChecks(before: seq<Step<nat>>) returns (steps: seq<Step<nat>>)
    requires IsRun(Initial<nat>(), before) && Reached(Initial<nat>(), before) == ActiveButStopped()
    ensures IsRun(Initial<nat>(), steps) && Reached(Initial<nat>(), steps) == PassAt(Reading(0, []))
  {
    steps := before;
    var s := ActiveButStopped();
    assert [0][1..] == [];
    steps, s := Take(steps, s, PassBegin(2));
    steps, s := Take(steps, s, PassCheck(2));
    assert s == PassAt(Reading(0, []));
  }

  lemma PassFindsNothing(before: seq<Step<nat>>) returns (steps: seq<Step<nat>>)
    requires IsRun(Initial<nat>(), before) && Reached(Initial<nat>(), before) == PassAt(Reading(0, []))
    ensures IsRun(Initial<nat>(), steps) && Reached(Initial<nat>(), steps) == PassAt(Finished(PassDone))
  {
    steps := before;
    var s := PassAt(Reading(0, []));
    steps, s := Take(steps, s, PassRead(2));
    steps, s := Take(steps, s, PassReread(2));
    steps, s := Take(steps, s, PassEnd(2));
    assert s == PassAt(Finished(PassDone));
  }

  /** Without the discipline, crash convergence fails: a stop that overlaps a
      launch leaves the pointer on a dead worker, and a complete watchdog pass
      begun after that does not clear it. */
  lemma OverlappingStopDefeatsConvergence() returns (before: seq<Step<nat>>, steps: seq<Step<nat>>)
    ensures IsRun(Initial<nat>(), before) && IsRun(Initial<nat>(), steps)
    ensures
      var s, s' := Reached(Initial<nat>(), before), Reached(Initial<nat>(), steps);
      && s.active == Some(0) && 0 in s.workers && s.workers[0].process.Exited? && 2 !in s.threads
      && 2 in s'.threads && s'.threads[2] == Finished(PassDone) && s'.active == Some(0)
  {
    steps := LaunchBoots();
    steps := LaunchBecomesReady(steps);
    steps := StopOvertakesLaunch(steps);
    steps := StopCompletes(steps);
    before := LaunchThenActivates(steps);
    steps := PassChecks(before);
    steps := PassFindsNothing(steps);
  }

  // ---- A stale watchdog write after a drain ------------------------------

  /** Worker 0 serves; a watchdog pass is at `pc`. */
  function Watched(pc: Pc<nat>): Sys<nat> {
    Sys(map[0 := Up], [0], Some(0), map[0 := Finished(Activated(0)), 9 := pc], [0], [], [])
  }

  function Swapping(replacement: Worker, pc: Pc<nat>): Sys<nat> {
    Sys(map[0 := Up, 1 := replacement], [0, 1], Some(0),
        map[0 := Finished(Activated(0)), 9 := ProbingHealthy(0, []), 1 := pc], [0], [], [])
  }

  function Swapped(retired: Worker, pc9: Pc<nat>, pc2: Pc<nat>): Sys<nat> {
    Sys(map[0 := retired, 1 := Up], [0, 1], Some(1),
        map[0 := Finished(Activated(0)), 9 := pc9, 1 := Finished(Activated(1)), 2 := pc2],
        [0, 1], [0], [0])
  }

  lemma PassBegins(before: seq<Step<nat>>) returns (steps: seq<Step<nat>>)
    requires IsRun(Initial<nat>(), before) && Reached(Initial<nat>(), before) == LaunchReady()
    ensures IsRun(Initial<nat>(), steps) && Reached(Initial<nat>(), steps) == Watched(Passing([0]))
  {
    steps := before;
    var s := LaunchReady();
    steps, s := Take(steps, s, Activate(0));
    steps, s := Take(steps, s, PassBegin(9));
    assert s == Watched(Passing([0]));
  }

  lemma PassReadsHealthy(before: seq<Step<nat>>) returns (steps: seq<Step<nat>>)
    requires IsRun(Initial<nat>(), before) && Reached(Initial<nat>(), before) == Watched(Passing([0]))
    ensures IsRun(Initial<nat>(), steps) && Reached(Initial<nat>(), steps) == Watched(ProbingHealthy(0, []))
  {
    steps := before;
    var s := Watched(Passing([0]));
    assert [0][1..] == [];
    steps, s := Take(steps, s, PassCheck(9));
    steps, s := Take(steps, s, PassRead(9));
    assert s == Watched(ProbingHealthy(0, []));
  }

  lemma ReplacementRegisters(before: seq<Step<nat>>) returns (steps: seq<Step<nat>>)
    requires IsRun(Initial<nat>(), before) && Reached(Initial<nat>(), before) == Watched(ProbingHealthy(0, []))
    ensures IsRun(Initial<nat>(), steps) && Reached(Initial<nat>(), steps) == Swapping(Created(), Spawned(1, Swap))
  {
    steps := before;
    var s := Watched(ProbingHealthy(0, []));
    steps, s := Take(steps, s, Begin(1, 1, Swap));
    assert s == Swapping(Created(), Spawned(1, Swap));
  }

  lemma ReplacementBoots(before: seq<Step<nat>>) returns (steps: seq<Step<nat>>)
    requires IsRun(Initial<nat>(), before) && Reached(Initial<nat>(), before) == Swapping(Created(), Spawned(1, Swap))
    ensures IsRun(Initial<nat>(), steps) && Reached(Initial<nat>(), steps) == Swapping(Booting, Polling(1, Swap))
  {
    steps := before;
    var s := Swapping(Created(), Spawned(1, Swap));
    steps, s := Take(steps, s, StartOk(1));
    assert s == Swapping(Booting, Polling(1, Swap));
  }

  lemma ReplacementBecomesReady(before: seq<Step<nat>>) returns (steps: seq<Step<nat>>)
    requires IsRun(Initial<nat>(), before) && Reached(Initial<nat>(), before) == Swapping(Booting, Polling(1, Swap))
    ensures IsRun(Initial<nat>(), steps) && Reached(Initial<nat>(), steps) == Swapping(Up, Ready(1, Swap))
  {
    steps := before;
    var s := Swapping(Booting, Polling(1, Swap));
    steps, s := Take(steps, s, Poll(1));
    steps, s := Take(steps, s, Probe(1, true));
    steps, s := Take(steps, s, MarkHealthy(1));
    assert s == Swapping(Up, Ready(1, Swap));
  }

  lemma SwapHandsOff(before: seq<Step<nat>>) returns (steps: seq<Step<nat>>)
    requires IsRun(Initial<nat>(), before) && Reached(Initial<nat>(), before) == Swapping(Up, Ready(1, Swap))
    ensures IsRun(Initial<nat>(), steps) && Reached(Initial<nat>(), steps) ==
              Swapped(Up, ProbingHealthy(0, []), ToDrain(0))
  {
    steps := before;
    var s := Swapping(Up, Ready(1, Swap));
    steps, s := Take(steps, s, Activate(1));
    steps, s := Take(steps, s, HandOff(1, 2));
    assert s == Swapped(Up, ProbingHealthy(0, []), ToDrain(0));
  }

  lemma OldWorkerDrains(before: seq<Step<nat>>) returns (steps: seq<Step<nat>>)
    requires IsRun(Initial<nat>(), before) && Reached(Initial<nat>(), before) ==
               Swapped(Up, ProbingHealthy(0, []), ToDrain(0))
    ensures IsRun(Initial<nat>(), steps) && Reached(Initial<nat>(), steps) ==
              Swapped(Worker(Stopping, Alive, true, None), ProbingHealthy(0, []), InStop(0, Signalling, RetireDrained))
  {
    steps := before;
    var s := Swapped(Up, ProbingHealthy(0, []), ToDrain(0));
    steps, s := Take(steps, s, Drain(2));
    steps, s := Take(steps, s, StopEnter(2));
    assert s == Swapped(Worker(Stopping, Alive, true, None), ProbingHealthy(0, []),
      InStop(0, Signalling, RetireDrained));
  }

  lemma OldWorkerStops(before: seq<Step<nat>>) returns (steps: seq<Step<nat>>)
    requires IsRun(Initial<nat>(), before) && Reached(Initial<nat>(), before) ==
               Swapped(Worker(Stopping, Alive, true, None), ProbingHealthy(0, []), InStop(0, Signalling, RetireDrained))
    ensures IsRun(Initial<nat>(), steps) && Reached(Initial<nat>(), steps) ==
              Swapped(StoppedOnPurpose, ProbingHealthy(0, []), Cleaning(0))
  {
    steps := before;
    var s := Swapped(Worker(Stopping, Alive, true, None), ProbingHealthy(0, []), InStop(0, Signalling, RetireDrained));
    steps, s := Take(steps, s, StopSignal(2, -15));
    steps, s := Take(steps, s, StopFinish(2));
    assert s == Swapped(StoppedOnPurpose, ProbingHealthy(0, []), Cleaning(0));
  }

  lemma StaleProbe(before: seq<Step<nat>>) returns (steps: seq<Step<nat>>)
    requires IsRun(Initial<nat>(), before) && Reached(Initial<nat>(), before) ==
               Swapped(StoppedOnPurpose, ProbingHealthy(0, []), Cleaning(0))
    ensures IsRun(Initial<nat>(), steps) && Reached(Initial<nat>(), steps) ==
              Swapped(StoppedOnPurpose, Writing(0, Degraded, []), Cleaning(0))
  {
    steps := before;
    var s := Swapped(StoppedOnPurpose, ProbingHealthy(0, []), Cleaning(0));
    steps, s := Take(steps, s, PassProbe(9, false));
    assert s == Swapped(StoppedOnPurpose, Writing(0, Degraded, []), Cleaning(0));
  }

  lemma StaleWrite(before: seq<Step<nat>>) returns (steps: seq<Step<nat>>)
    requires IsRun(Initial<nat>(), before) && Reached(Initial<nat>(), before) ==
               Swapped(StoppedOnPurpose, Writing(0, Degraded, []), Cleaning(0))
    ensures IsRun(Initial<nat>(), steps) && Reached(Initial<nat>(), steps) ==
              Swapped(StoppedOnPurpose.(state := Degraded), Finished(PassDone), Cleaning(0))
  {
    steps := before;
    var s := Swapped(StoppedOnPurpose, Writing(0, Degraded, []), Cleaning(0));
    steps, s := Take(steps, s, PassWrite(9));
    assert s == Swapped(StoppedOnPurpose.(state := Degraded), Passing([]), Cleaning(0));
    steps := StalePassEnds(steps);
  }

  lemma StalePassEnds(before: seq<Step<nat>>) returns (steps: seq<Step<nat>>)
    requires IsRun(Initial<nat>(), before) && Reached(Initial<nat>(), before) ==
               Swapped(StoppedOnPurpose.(state := Degraded), Passing([]), Cleaning(0))
    ensures IsRun(Initial<nat>(), steps) && Reached(Initial<nat>(), steps) ==
              Swapped(StoppedOnPurpose.(state := Degraded), Finished(PassDone), Cleaning(0))
  {
    steps := before;
    var s := Swapped(StoppedOnPurpose.(state := Degraded), Passing([]), Cleaning(0));
    steps, s := Take(steps, s, PassEnd(9));
    assert s == Swapped(StoppedOnPurpose.(state := Degraded), Finished(PassDone), Cleaning(0));
  }

  function NextPassReports(): Sys<nat> {
    var s := Swapped(FalseCrash, Finished(PassDone), Cleaning(0));
    s.(threads := s.threads[10 := Reporting(0, [1])])
  }

  lemma NextPassRecordsCrash(before: seq<Step<nat>>) returns (steps: seq<Step<nat>>)
    requires IsRun(Initial<nat>(), before) && Reached(Initial<nat>(), before) ==
               Swapped(StoppedOnPurpose.(state := Degraded), Finished(PassDone), Cleaning(0))
    ensures IsRun(Initial<nat>(), steps) && Reached(Initial<nat>(), steps) == NextPassReports()
  {
    steps := before;
    var s := Swapped(StoppedOnPurpose.(state := Degraded), Finished(PassDone), Cleaning(0));
    assert [0, 1][1..] == [1];
    steps, s := Take(steps, s, PassBegin(10));
    steps, s := Take(steps, s, PassCheck(10));
    assert s == NextPassReports();
  }

  /** Because the watchdog writes a state it read before the drain, a worker that
      was drained and stopped on purpose can be recorded and reported as CRASHED. */
  lemma DrainedWorkerCanBeReportedAsCrash() returns (steps: seq<Step<nat>>)
    ensures IsRun(Initial<nat>(), steps)
    ensures
      var s := Reached(Initial<nat>(), steps);
      && 0 in s.handed && 0 in s.workers && s.workers[0].intentionalShutdown
      && s.workers[0].state == Crashed && s.workers[0].latestCrash.Some?
      && 10 in s.threads && s.threads[10] == Reporting(0, [1])
  {
    steps := LaunchBoots();
    steps := LaunchBecomesReady(steps);
    steps := PassBegins(steps);
    steps := PassReadsHealthy(steps);
    steps := ReplacementRegisters(steps);
    steps := ReplacementBoots(steps);
    steps := ReplacementBecomesReady(steps);
    steps := SwapHandsOff(steps);
    steps := OldWorkerDrains(steps);
    steps := OldWorkerStops(steps);
    steps := StaleProbe(steps);
    steps := StaleWrite(steps);
    steps := NextPassRecordsCrash(steps);
  }
}
