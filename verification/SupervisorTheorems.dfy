/** What the supervisor promises over whole runs. */
module SupervisorTheorems {
  import opened Wrappers
  import opened WorkerStates
  import opened SupervisorProtocol
  import opened SupervisorInvariants

  // ---- What holds in every reachable state ------------------------------

  lemma ReachableInv<W>(steps: seq<Step<W>>)
    requires IsRun(Initial<W>(), steps)
    ensures Inv(Reached(Initial<W>(), steps))
  {
    RunKeepsInv(Initial<W>(), steps);
  }

  /** Each worker becomes active at most once; each worker a swap displaced is
      given to drain and stop by at most one swap, and is not active any more. */
  lemma ActiveAtMostOnce<W>(steps: seq<Step<W>>)
    requires IsRun(Initial<W>(), steps)
    ensures
      var s := Reached(Initial<W>(), steps);
      && NoDuplicates(s.activations) && NoDuplicates(s.displaced) && NoDuplicates(s.handed)
      && (forall w | w in s.handed :: w in s.displaced)
      && (forall w | w in s.displaced :: w in s.activations && s.active != Some(w))
  {
    ReachableInv(steps);
  }

  /** Each live process belongs to a registered worker. */
  lemma NoOrphanProcess<W>(steps: seq<Step<W>>, w: W)
    requires IsRun(Initial<W>(), steps) && Runs(Reached(Initial<W>(), steps), w)
    ensures w in Reached(Initial<W>(), steps).registered
  {
    ReachableInv(steps);
  }

  /** A launch or swap that fails readiness never wrote the active pointer and
      leaves its worker dead and unregistered. */
  lemma FailedSwapLeavesNothing<W>(steps: seq<Step<W>>, t: nat, w: W)
    requires IsRun(Initial<W>(), steps)
    requires var s := Reached(Initial<W>(), steps); t in s.threads && s.threads[t] == Finished(RolledBack(w))
    ensures
      var s := Reached(Initial<W>(), steps);
      w !in s.activations && s.active != Some(w) && w !in s.registered && !Runs(s, w)
  {
    ReachableInv(steps);
    var s := Reached(Initial<W>(), steps);
    assert ThreadOk(s, s.threads[t]);
  }

  /** CRASHED is never shown without a stored report, and a stored report
      carries the exit code of the worker's own process. */
  lemma CrashedMeansReported<W>(steps: seq<Step<W>>, w: W)
    requires IsRun(Initial<W>(), steps) && w in Reached(Initial<W>(), steps).workers
    ensures
      var worker := Reached(Initial<W>(), steps).workers[w];
      && (worker.state == Crashed ==> worker.latestCrash.Some?)
      && (worker.latestCrash.Some? ==> worker.process == Exited(worker.latestCrash.value.exitCode))
  {
    ReachableInv(steps);
  }

  lemma SubjectIsKnown<W>(s: Sys<W>, step: Step<W>)
    requires Inv(s) && Enabled(s, step) && IsLocal(step)
    ensures ThreadOk(s, s.threads[step.t]) && Subject(s, step) in s.workers
    ensures CrashIsReported(s.workers[Subject(s, step)])
  {
  }

  // ---- The pointer never comes back to a worker it left ------------------

  lemma StepNeverReactivates<W>(s: Sys<W>, step: Step<W>, w: W)
    requires Inv(s) && Enabled(s, step) && w in s.activations && s.active != Some(w)
    ensures w in Apply(s, step).activations && Apply(s, step).active != Some(w)
  {
    if IsLocal(step) {
      SubjectIsKnown(s, step);
      LocalStepMovesOneThread(s, step);
    } else if step.Activate? {
      assert ThreadOk(s, s.threads[step.t]);
    }
  }

  lemma {:induction false} NeverReactivated<W>(s: Sys<W>, steps: seq<Step<W>>, w: W)
    requires Inv(s) && IsRun(s, steps) && w in s.activations && s.active != Some(w)
    ensures w in Reached(s, steps).activations && Reached(s, steps).active != Some(w)
  {
    if steps != [] {
      var before := steps[..|steps| - 1];
      NeverReactivated(s, before, w);
      RunKeepsInv(s, before);
      StepNeverReactivates(Reached(s, before), steps[|steps| - 1], w);
    }
  }

  lemma OthersDoNotMove<W>(s: Sys<W>, step: Step<W>, u: nat)
    requires Inv(s) && Enabled(s, step) && u in s.threads && (step.ProcessExits? || u != step.t)
    ensures u in Apply(s, step).threads && Apply(s, step).threads[u] == s.threads[u]
  {
    if IsLocal(step) {
      SubjectIsKnown(s, step);
      LocalStepMovesOneThread(s, step);
    }
  }

  // ---- Zero downtime -----------------------------------------------------

  /** No process exits on its own and nobody calls `ProcessSupervisor.stop`. */
  predicate Quiet<W>(step: Step<W>) {
    !step.ProcessExits? && !step.StopAllBegin?
  }

  predicate Serving(w: Worker) {
    w.process.Alive? && (w.state == Healthy || w.state == Degraded)
  }

  ghost predicate QuietThread<W>(s: Sys<W>, pc: Pc<W>) {
    && (pc.Polling? || pc.Probing? || pc.MarkingHealthy? || pc.Ready? ==> Runs(s, pc.w))
    && (pc.Ready? ==> Serving(s.workers[pc.w]))
    && !pc.StoppingAll? && !(pc.InStop? && pc.after.ContinueStopAll?)
  }

  ghost predicate QuietInv<W>(s: Sys<W>) {
    && (s.active.Some? ==> s.active.value in s.workers && Serving(s.workers[s.active.value]))
    && (forall t | t in s.threads :: QuietThread(s, s.threads[t]))
  }

  /** A worker that `pc` neither conducts nor retires keeps running and serving. */
  ghost predicate Spared<W>(s: Sys<W>, s': Sys<W>, v: W) {
    v in s.workers && s.workers[v].process.Alive? ==>
      && v in s'.workers && s'.workers[v].process.Alive?
      && (Serving(s.workers[v]) ==> Serving(s'.workers[v]))
  }

  lemma QuietLocalStepSpares<W>(s: Sys<W>, step: Step<W>, v: W)
    requires Enabled(s, step) && IsLocal(step) && ThreadOk(s, s.threads[step.t]) && QuietThread(s, s.threads[step.t])
    ensures Conducts(s.threads[step.t]) == Some(v) || Retires(s.threads[step.t]) == Some(v)
              || Spared(s, Apply(s, step), v)
  {
    if IsWatchLocal(step) {
      QuietWatchdogStepSpares(s, step, v);
    }
  }

  lemma QuietWatchdogStepSpares<W>(s: Sys<W>, step: Step<W>, v: W)
    requires Enabled(s, step) && IsWatchLocal(step) && ThreadOk(s, s.threads[step.t])
    ensures Spared(s, Apply(s, step), v)
  {
  }

  lemma QuietStepSpares<W>(s: Sys<W>, step: Step<W>, v: W)
    requires Inv(s) && QuietInv(s) && Enabled(s, step) && Quiet(step)
    requires step.t in s.threads ==> Conducts(s.threads[step.t]) != Some(v) && Retires(s.threads[step.t]) != Some(v)
    ensures Spared(s, Apply(s, step), v)
  {
    if IsLocal(step) {
      assert ThreadOk(s, s.threads[step.t]) && QuietThread(s, s.threads[step.t]);
      QuietLocalStepSpares(s, step, v);
    }
  }

  lemma QuietLaunchThread<W>(s: Sys<W>, step: Step<W>)
    requires Enabled(s, step) && (IsLaunchLocal(step) || step.StartOk?) && QuietThread(s, s.threads[step.t])
    ensures QuietThread(Apply(s, step), Apply(s, step).threads[step.t])
  {
  }

  lemma QuietStepKeepsThread<W>(s: Sys<W>, step: Step<W>, u: nat)
    requires Inv(s) && QuietInv(s) && Enabled(s, step) && Quiet(step) && u in Apply(s, step).threads
    ensures QuietThread(Apply(s, step), Apply(s, step).threads[u])
  {
    if step.t in s.threads {
      assert ThreadOk(s, s.threads[step.t]) && QuietThread(s, s.threads[step.t]);
    }
    if u in s.threads && u != step.t {
      OthersDoNotMove(s, step, u);
      var pc := s.threads[u];
      assert ThreadOk(s, pc) && QuietThread(s, pc);
      if Conducts(pc).Some? {
        assert step.t in s.threads ==> Apart(pc, s.threads[step.t]);
        QuietStepSpares(s, step, pc.w);
      }
    } else {
      MovedThreadPhase(s, step, u);
      if IsLaunchLocal(step) || step.StartOk? {
        QuietLaunchThread(s, step);
        OnlyMovesItself(s, step);
      }
    }
  }

  lemma QuietStepKeepsActive<W>(s: Sys<W>, step: Step<W>)
    requires Inv(s) && QuietInv(s) && Enabled(s, step) && Quiet(step)
    ensures
      var s' := Apply(s, step);
      && (s.active.Some? ==> s'.active.Some?)
      && (s'.active.Some? ==> s'.active.value in s'.workers && Serving(s'.workers[s'.active.value]))
  {
    if step.t in s.threads {
      assert ThreadOk(s, s.threads[step.t]) && QuietThread(s, s.threads[step.t]);
    }
    if s.active.Some? {
      QuietStepSpares(s, step, s.active.value);
    }
  }

  lemma QuietStepKeepsQuietInv<W>(s: Sys<W>, step: Step<W>)
    requires Inv(s) && QuietInv(s) && Enabled(s, step) && Quiet(step)
    ensures QuietInv(Apply(s, step))
  {
    QuietStepKeepsActive(s, step);
    forall u | u in Apply(s, step).threads ensures QuietThread(Apply(s, step), Apply(s, step).threads[u]) {
      QuietStepKeepsThread(s, step, u);
    }
  }

  lemma {:induction false} QuietRun<W>(s: Sys<W>, steps: seq<Step<W>>)
    requires Inv(s) && QuietInv(s) && IsRun(s, steps)
    requires forall i | 0 <= i < |steps| :: Quiet(steps[i])
    ensures QuietInv(Reached(s, steps))
    ensures s.active.Some? ==> Reached(s, steps).active.Some?
  {
    if steps != [] {
      var before := steps[..|steps| - 1];
      QuietRun(s, before);
      RunKeepsInv(s, before);
      QuietStepKeepsActive(Reached(s, before), steps[|steps| - 1]);
      QuietStepKeepsQuietInv(Reached(s, before), steps[|steps| - 1]);
    }
  }

  /** Zero downtime: in every interleaving of launches, overlapping swaps,
      watchdog passes and drains, from the first activation on there is an active
      worker, its process is alive, and it is HEALTHY or DEGRADED. */
  lemma {:induction false} ZeroDowntime<W>(steps: seq<Step<W>>, k: nat)
    requires IsRun(Initial<W>(), steps) && k <= |steps|
    requires forall i | 0 <= i < |steps| :: Quiet(steps[i])
    requires IsRun(Initial<W>(), steps[..k]) && Reached(Initial<W>(), steps[..k]).active.Some?
    ensures
      var s := Reached(Initial<W>(), steps);
      s.active.Some? && s.active.value in s.workers && Serving(s.workers[s.active.value])
    decreases |steps|
  {
    if k == |steps| {
      assert steps[..k] == steps;
      QuietRun(Initial<W>(), steps);
    } else {
      var before := steps[..|steps| - 1];
      assert before[..k] == steps[..k];
      ZeroDowntime(before, k);
      QuietRun(Initial<W>(), before);
      RunKeepsInv(Initial<W>(), before);
      QuietStepKeepsActive(Reached(Initial<W>(), before), steps[|steps| - 1]);
    }
  }

  // ---- Crash convergence -------------------------------------------------

  predicate Launching<W>(pc: Pc<W>) {
    pc.Spawned? || pc.Polling? || pc.Probing? || pc.MarkingHealthy? || pc.Ready?
  }

  predicate StopsAll<W>(pc: Pc<W>) {
    pc.StoppingAll? || (pc.InStop? && pc.after.ContinueStopAll?)
  }

  /** `ProcessSupervisor.stop` does not overlap a launch or a swap. */
  ghost predicate Disciplined<W>(s: Sys<W>, step: Step<W>) {
    && (step.StopAllBegin? ==> forall u | u in s.threads :: !Launching(s.threads[u]))
    && (step.Begin? ==> forall u | u in s.threads :: !StopsAll(s.threads[u]))
  }

  ghost predicate IsDisciplinedRun<W>(s: Sys<W>, steps: seq<Step<W>>) {
    && IsRun(s, steps)
    && forall i | 0 <= i < |steps| ::
         IsRun(s, steps[..i]) && Disciplined(Reached(s, steps[..i]), steps[i])
  }

  predicate Intended<W>(s: Sys<W>, w: W) {
    w in s.workers && s.workers[w].intentionalShutdown
  }

  ghost predicate DisciplineInv<W>(s: Sys<W>) {
    && (s.active.Some? ==> !Intended(s, s.active.value))
    && (forall t | t in s.threads && Launching(s.threads[t]) :: !Intended(s, s.threads[t].w))
    && (forall t, u | t in s.threads && u in s.threads && StopsAll(s.threads[t]) ::
          s.active == None && !Launching(s.threads[u]))
  }

  /** Only the first block of `stop` marks a shutdown as intended. */
  lemma OnlyStopIntends<W>(s: Sys<W>, step: Step<W>, v: W)
    requires Enabled(s, step) && Intended(Apply(s, step), v)
    ensures Intended(s, v) || (step.StopEnter? && s.threads[step.t].w == v)
  {
  }

  ghost predicate PhaseExplained<W>(s: Sys<W>, step: Step<W>, pc: Pc<W>, u: nat) {
    && PhaseKept(s, step, pc, u)
    && (Launching(pc) ==> step.Begin? || step.StartOk? || IsLaunchLocal(step))
    && (step.Begin? ==> pc.Spawned?)
  }

  lemma LocalThreadPhase<W>(s: Sys<W>, step: Step<W>)
    requires Enabled(s, step) && IsLocal(step)
    ensures PhaseExplained(s, step, Apply(s, step).threads[step.t], step.t)
  {
    if IsLaunchLocal(step) {
      LaunchThreadPhase(s, step);
    } else if IsStopLocal(step) {
      StopThreadPhase(s, step);
    } else {
      WatchdogThreadPhase(s, step);
    }
  }

  lemma LaunchThreadPhase<W>(s: Sys<W>, step: Step<W>)
    requires Enabled(s, step) && IsLaunchLocal(step)
    ensures PhaseExplained(s, step, Apply(s, step).threads[step.t], step.t)
  {
  }

  lemma StopThreadPhase<W>(s: Sys<W>, step: Step<W>)
    requires Enabled(s, step) && IsStopLocal(step)
    ensures PhaseExplained(s, step, Apply(s, step).threads[step.t], step.t)
  {
  }

  lemma WatchdogThreadPhase<W>(s: Sys<W>, step: Step<W>)
    requires Enabled(s, step) && IsWatchLocal(step)
    ensures PhaseExplained(s, step, Apply(s, step).threads[step.t], step.t)
  {
  }

  lemma OtherThreadPhase<W>(s: Sys<W>, step: Step<W>, u: nat)
    requires Enabled(s, step) && !IsLocal(step)
    requires u in Apply(s, step).threads && (u in s.threads ==> !step.ProcessExits? && u == step.t)
    ensures PhaseExplained(s, step, Apply(s, step).threads[u], u)
  {
  }

  lemma MovedThreadPhase<W>(s: Sys<W>, step: Step<W>, u: nat)
    requires Inv(s) && Enabled(s, step)
    requires u in Apply(s, step).threads && (u in s.threads ==> !step.ProcessExits? && u == step.t)
    ensures PhaseExplained(s, step, Apply(s, step).threads[u], u)
  {
    if IsLocal(step) {
      SubjectIsKnown(s, step);
      LocalStepMovesOneThread(s, step);
      LocalThreadPhase(s, step);
    } else {
      OtherThreadPhase(s, step, u);
    }
  }

  lemma OnlyMovesItself<W>(s: Sys<W>, step: Step<W>)
    requires Enabled(s, step) && (IsLaunchLocal(step) || step.StartOk?)
    ensures Apply(s, step).threads.Keys == s.threads.Keys
  {
  }

  /** Where a thread that launches a worker, or stops the supervisor, comes from. */
  ghost predicate PhaseKept<W>(s: Sys<W>, step: Step<W>, pc: Pc<W>, u: nat) {
    && (Launching(pc) ==> step.Begin? || (u in s.threads && Launching(s.threads[u]) && s.threads[u].w == pc.w))
    && (StopsAll(pc) ==> step.StopAllBegin? || (u in s.threads && StopsAll(s.threads[u])))
  }

  lemma PhasesKept<W>(s: Sys<W>, step: Step<W>, u: nat)
    requires Inv(s) && Enabled(s, step) && u in Apply(s, step).threads
    ensures PhaseKept(s, step, Apply(s, step).threads[u], u)
  {
    if u in s.threads && (step.ProcessExits? || u != step.t) {
      OthersDoNotMove(s, step, u);
    } else {
      MovedThreadPhase(s, step, u);
    }
  }

  lemma PointerStaysClear<W>(s: Sys<W>, step: Step<W>)
    requires Enabled(s, step) && (step.StopAllBegin? || (s.active == None && !step.Activate?))
    ensures Apply(s, step).active == None
  {
  }

  lemma DisciplineKeepsPhases<W>(s: Sys<W>, step: Step<W>, s': Sys<W>, t: nat, u: nat)
    requires DisciplineInv(s) && Enabled(s, step) && Disciplined(s, step)
    requires t in s'.threads && u in s'.threads && StopsAll(s'.threads[t])
    requires PhaseKept(s, step, s'.threads[t], t) && PhaseKept(s, step, s'.threads[u], u)
    ensures step.StopAllBegin? || (s.active == None && !step.Activate?)
    ensures !Launching(s'.threads[u])
  {
    if !step.StopAllBegin? {
      assert t in s.threads && StopsAll(s.threads[t]);
      assert s.active == None;
      assert !step.ProcessExits? && step.t in s.threads ==> !Launching(s.threads[step.t]);
    }
  }

  /** Nobody stops an active worker, or one whose launch somebody else conducts,
      while the supervisor itself is not being stopped. */
  lemma StopSparesLaunchesAndActive<W>(s: Sys<W>, t: nat, v: W)
    requires Inv(s) && DisciplineInv(s) && Enabled(s, StopEnter(t)) && s.threads[t].w == v
    ensures s.active != Some(v)
    ensures forall u | u in s.threads && Launching(s.threads[u]) :: s.threads[u].w != v
  {
    assert ThreadOk(s, s.threads[t]);
    forall u | u in s.threads && Launching(s.threads[u]) ensures s.threads[u].w != v {
      assert ThreadOk(s, s.threads[u]);
      assert u != t && Apart(s.threads[u], s.threads[t]);
      assert !StopsAll(s.threads[t]);
    }
  }

  lemma DisciplineKeepsActiveUnintended<W>(s: Sys<W>, step: Step<W>)
    requires Inv(s) && DisciplineInv(s) && Enabled(s, step)
    ensures Apply(s, step).active.Some? ==> !Intended(Apply(s, step), Apply(s, step).active.value)
  {
    var s' := Apply(s, step);
    if step.Activate? {
      assert Launching(s.threads[step.t]);
    } else if step.StopEnter? {
      StopSparesLaunchesAndActive(s, step.t, s.threads[step.t].w);
    }
    if s'.active.Some? && Intended(s', s'.active.value) {
      OnlyStopIntends(s, step, s'.active.value);
      assert false;
    }
  }

  lemma DisciplineKeepsLaunchUnintended<W>(s: Sys<W>, step: Step<W>, u: nat)
    requires Inv(s) && DisciplineInv(s) && Enabled(s, step)
    requires u in Apply(s, step).threads && Launching(Apply(s, step).threads[u])
    ensures !Intended(Apply(s, step), Apply(s, step).threads[u].w)
  {
    var s' := Apply(s, step);
    var v := s'.threads[u].w;
    PhasesKept(s, step, u);
    if step.StopEnter? {
      StopSparesLaunchesAndActive(s, step.t, s.threads[step.t].w);
    }
    if Intended(s', v) {
      OnlyStopIntends(s, step, v);
      assert false;
    }
  }

  lemma StepKeepsDisciplineInv<W>(s: Sys<W>, step: Step<W>)
    requires Inv(s) && DisciplineInv(s) && Enabled(s, step) && Disciplined(s, step)
    ensures DisciplineInv(Apply(s, step))
  {
    var s' := Apply(s, step);
    DisciplineKeepsActiveUnintended(s, step);
    forall t | t in s'.threads && Launching(s'.threads[t]) ensures !Intended(s', s'.threads[t].w) {
      DisciplineKeepsLaunchUnintended(s, step, t);
    }
    forall t, u | t in s'.threads && u in s'.threads && StopsAll(s'.threads[t])
      ensures s'.active == None && !Launching(s'.threads[u])
    {
      PhasesKept(s, step, t);
      PhasesKept(s, step, u);
      DisciplineKeepsPhases(s, step, s', t, u);
      PointerStaysClear(s, step);
    }
  }

  predicate IsPass<W>(pc: Pc<W>) {
    || pc.Passing? || pc.Reporting? || pc.Reading? || pc.Rereading?
    || pc.ProbingHealthy? || pc.ProbingDegraded? || pc.Writing? || pc == Finished(PassDone)
  }

  lemma DeadStaysDead<W>(s: Sys<W>, step: Step<W>, w: W)
    requires Inv(s) && Enabled(s, step) && w in s.activations && w in s.workers && s.workers[w].process.Exited?
    ensures
      var s' := Apply(s, step);
      w in s'.activations && w in s'.workers && s'.workers[w].process.Exited?
  {
    if IsLocal(step) {
      SubjectIsKnown(s, step);
      LocalStepMovesOneThread(s, step);
      LocalStepUpdatesOneWorker(s, step);
    } else if step.StartOk? {
      assert ThreadOk(s, s.threads[step.t]);
    }
  }

  lemma DisciplinedPrefix<W>(steps: seq<Step<W>>)
    requires IsDisciplinedRun(Initial<W>(), steps) && steps != []
    ensures IsDisciplinedRun(Initial<W>(), steps[..|steps| - 1])
  {
    var before := steps[..|steps| - 1];
    forall i | 0 <= i < |before|
      ensures IsRun(Initial<W>(), before[..i]) && Disciplined(Reached(Initial<W>(), before[..i]), before[i])
    {
      assert before[..i] == steps[..i];
    }
  }

  /** Every state of a disciplined run satisfies both invariants. */
  lemma {:induction false} DisciplinedRun<W>(steps: seq<Step<W>>)
    requires IsDisciplinedRun(Initial<W>(), steps)
    ensures Inv(Reached(Initial<W>(), steps)) && DisciplineInv(Reached(Initial<W>(), steps))
  {
    RunKeepsInv(Initial<W>(), steps);
    if steps != [] {
      var before := steps[..|steps| - 1];
      DisciplinedPrefix(steps);
      DisciplinedRun(before);
      StepKeepsDisciplineInv(Reached(Initial<W>(), before), steps[|steps| - 1]);
    }
  }

  // ---- Stopping the supervisor -------------------------------------------

  /** Nothing is about to be spawned, and every live process is still ahead of
      the stopping thread `t`. */
  ghost predicate StopSweeps<W>(s: Sys<W>, t: nat) {
    && NoneSpawned(s)
    && t in s.threads && (StopsAll(s.threads[t]) || s.threads[t].Finished?)
    && (forall w | w in s.workers && s.workers[w].process.Alive? ::
          || w in Todo(s.threads[t])
          || (s.threads[t].InStop? && s.threads[t].w == w && s.threads[t].phase in {Entering, Signalling}))
    && (s.threads[t].InStop? ==> s.threads[t].phase != Raising)
  }

  ghost predicate NoneSpawned<W>(s: Sys<W>) {
    forall u | u in s.threads :: !s.threads[u].Spawned?
  }

  lemma LocalStepSpawnsNothing<W>(s: Sys<W>, step: Step<W>)
    requires Enabled(s, step) && IsLocal(step)
    ensures !Apply(s, step).threads[step.t].Spawned?
  {
  }

  lemma NothingSpawns<W>(s: Sys<W>, step: Step<W>)
    requires Inv(s) && Enabled(s, step) && !step.Begin? && NoneSpawned(s)
    ensures NoneSpawned(Apply(s, step))
    ensures Apply(s, step).workers.Keys == s.workers.Keys
    ensures forall w | w in s.workers :: Apply(s, step).workers[w].process.Alive? ==> s.workers[w].process.Alive?
  {
    if IsLocal(step) {
      SubjectIsKnown(s, step);
      LocalStepMovesOneThread(s, step);
      LocalStepUpdatesOneWorker(s, step);
      LocalStepSpawnsNothing(s, step);
    } else {
      OtherStepSpawnsNothing(s, step);
    }
  }

  lemma OtherStepSpawnsNothing<W>(s: Sys<W>, step: Step<W>)
    requires Enabled(s, step) && !IsLocal(step) && !step.Begin? && NoneSpawned(s)
    ensures NoneSpawned(Apply(s, step))
    ensures Apply(s, step).workers.Keys == s.workers.Keys
    ensures forall w | w in s.workers :: Apply(s, step).workers[w].process.Alive? ==> s.workers[w].process.Alive?
  {
  }

  lemma SweepMoves<W>(s: Sys<W>, step: Step<W>, t: nat, w: W)
    requires StopSweeps(s, t) && Enabled(s, step) && !step.ProcessExits? && step.t == t && !step.StopTimesOut?
    requires t in Apply(s, step).threads && w in s.workers && s.workers[w].process.Alive?
    ensures
      var pc := Apply(s, step).threads[t];
      && (StopsAll(pc) || pc.Finished?) && (pc.InStop? ==> pc.phase != Raising)
      && (w in Apply(s, step).workers && Apply(s, step).workers[w].process.Alive? ==>
          w in Todo(pc) || (pc.InStop? && pc.w == w && pc.phase in {Entering, Signalling}))
  {
    if step.StopAllNext? {
      var todo := s.threads[t].todo;
      assert todo == [todo[0]] + todo[1..];
    }
  }

  lemma SweepPhase<W>(s: Sys<W>, step: Step<W>, t: nat)
    requires StopSweeps(s, t) && Enabled(s, step) && !step.ProcessExits? && step.t == t && !step.StopTimesOut?
    ensures
      t in Apply(s, step).threads &&
      var pc := Apply(s, step).threads[t];
      (StopsAll(pc) || pc.Finished?) && (pc.InStop? ==> pc.phase != Raising)
  {
  }

  lemma StepKeepsSweep<W>(s: Sys<W>, step: Step<W>, t: nat)
    requires Inv(s) && StopSweeps(s, t) && Enabled(s, step)
    requires !step.Begin? && !(step.StopTimesOut? && step.t == t)
    ensures StopSweeps(Apply(s, step), t)
  {
    NothingSpawns(s, step);
    if step.ProcessExits? || step.t != t {
      OthersDoNotMove(s, step, t);
    } else {
      SweepPhase(s, step, t);
      forall w | w in s.workers && s.workers[w].process.Alive? ensures
        var pc := Apply(s, step).threads[t];
        (w in Apply(s, step).workers && Apply(s, step).workers[w].process.Alive? ==>
         w in Todo(pc) || (pc.InStop? && pc.w == w && pc.phase in {Entering, Signalling}))
      {
        SweepMoves(s, step, t, w);
      }
    }
  }

  lemma {:induction false} SweepRun<W>(s: Sys<W>, steps: seq<Step<W>>, t: nat)
    requires Inv(s) && StopSweeps(s, t) && IsRun(s, steps)
    requires forall i | 0 <= i < |steps| :: !steps[i].Begin? && !(steps[i].StopTimesOut? && steps[i].t == t)
    ensures StopSweeps(Reached(s, steps), t)
  {
    if steps != [] {
      var before := steps[..|steps| - 1];
      SweepRun(s, before, t);
      RunKeepsInv(s, before);
      StepKeepsSweep(Reached(s, before), steps[|steps| - 1], t);
    }
  }

  /** `ProcessSupervisor.stop`, called when no worker is waiting to be spawned,
      leaves no process alive once it returns, whatever watchdog passes and
      drains do meanwhile, provided SIGKILL ends each process it stops. */
  lemma StopLeavesNothingAlive<W>(s: Sys<W>, t: nat, steps: seq<Step<W>>)
    requires Inv(s) && Enabled(s, StopAllBegin(t)) && NoneSpawned(s)
    requires IsRun(Apply(s, StopAllBegin(t)), steps)
    requires forall i | 0 <= i < |steps| :: !steps[i].Begin? && !(steps[i].StopTimesOut? && steps[i].t == t)
    requires
      var final := Reached(Apply(s, StopAllBegin(t)), steps);
      t in final.threads && final.threads[t].Finished?
    ensures
      var final := Reached(Apply(s, StopAllBegin(t)), steps);
      forall w | w in final.workers :: !final.workers[w].process.Alive?
  {
    StepKeepsInv(s, StopAllBegin(t));
    SweepRun(Apply(s, StopAllBegin(t)), steps, t);
  }
}
