/** When a watchdog pass clears the pointer of a dead worker, and when a worker that
    was stopped on purpose is reported as crashed: exact conditions over all runs. */
module SupervisorConvergence {
  import opened Wrappers
  import opened WorkerStates
  import opened SupervisorProtocol
  import opened SupervisorInvariants
  import opened SupervisorTheorems

  // ---- Runs with their states --------------------------------------------

  /** A run from the start, with every state it goes through. */
  ghost predicate IsExecution<W>(states: seq<Sys<W>>, steps: seq<Step<W>>) {
    && |states| == |steps| + 1 && states[0] == Initial<W>()
    && forall i {:trigger steps[i]} | 0 <= i < |steps| ::
      Enabled(states[i], steps[i]) && states[i + 1] == Apply(states[i], steps[i])
  }

  /** Every run is an execution: nothing below depends on how runs are written. */
  lemma {:induction false} RunIsExecution<W>(steps: seq<Step<W>>) returns (states: seq<Sys<W>>)
    requires IsRun(Initial<W>(), steps)
    ensures IsExecution(states, steps) && states[|steps|] == Reached(Initial<W>(), steps)
  {
    if steps == [] {
      states := [Initial<W>()];
    } else {
      var before := steps[..|steps| - 1];
      var visited := RunIsExecution(before);
      states := visited + [Apply(visited[|before|], steps[|before|])];
      ExecutionExtends(visited, before, steps[|before|]);
      assert before + [steps[|before|]] == steps;
    }
  }

  lemma {:induction false} ExecutionExtends<W>(states: seq<Sys<W>>, steps: seq<Step<W>>, step: Step<W>)
    requires IsExecution(states, steps) && Enabled(states[|steps|], step)
    ensures IsExecution(states + [Apply(states[|steps|], step)], steps + [step])
  {
  }

  lemma {:induction false} ExecutionIsRun<W>(states: seq<Sys<W>>, steps: seq<Step<W>>, n: nat)
    requires IsExecution(states, steps) && n <= |steps|
    ensures IsRun(Initial<W>(), steps[..n]) && Reached(Initial<W>(), steps[..n]) == states[n]
  {
    if n > 0 {
      ExecutionIsRun(states, steps, n - 1);
      assert steps[..n][..n - 1] == steps[..n - 1] && steps[..n][n - 1] == steps[n - 1];
    }
  }

  lemma {:induction false} ExecutionKeepsInv<W>(states: seq<Sys<W>>, steps: seq<Step<W>>, n: nat)
    requires IsExecution(states, steps) && n <= |steps|
    ensures Inv(states[n])
  {
    ExecutionIsRun(states, steps, n);
    RunKeepsInv(Initial<W>(), steps[..n]);
  }

  // ---- Crash convergence -------------------------------------------------

  /** The branch of `check_and_handle_exit` that takes an exit for a normal one. */
  predicate Excused(w: Worker) {
    (w.state == Stopped || w.state == Stopping) && w.intentionalShutdown
  }

  predicate Checks<W>(s: Sys<W>, step: Step<W>, w: W) {
    step.PassCheck? && At(s, step.t) && s.threads[step.t].Passing? && s.threads[step.t].todo != []
      && s.threads[step.t].todo[0] == w
  }

  /** Pass `p`, begun at step `k`, has checked `w` before step `n` and excused it. */
  ghost predicate ExcusedBy<W>(states: seq<Sys<W>>, steps: seq<Step<W>>, k: nat, n: nat, p: nat, w: W)
    requires k <= n <= |steps| < |states|
  {
    exists j {:trigger steps[j]} | k < j < n ::
      steps[j].PassCheck? && steps[j].t == p && Checks(states[j], steps[j], w)
      && w in states[j].workers && Excused(states[j].workers[w])
  }

  predicate By<W>(step: Step<W>, p: nat) {
    !step.ProcessExits? && step.t == p
  }

  /** Between steps `k` and `n` nobody but pass `p` moves the pointer off `w`. */
  ghost predicate LeftToPass<W>(states: seq<Sys<W>>, steps: seq<Step<W>>, k: nat, n: nat, p: nat, w: W)
    requires k <= n <= |steps| < |states|
  {
    forall i {:trigger steps[i]} | k < i < n && !By(steps[i], p) && states[i].active == Some(w) ::
      states[i + 1].active == Some(w)
  }

  /** A pass in progress has no worker twice ahead of it. */
  ghost predicate PassOf<W>(s: Sys<W>, p: nat) {
    && p in s.threads && IsPass(s.threads[p]) && NoDuplicates(Todo(s.threads[p]))
    && (Visits(s.threads[p]).Some? ==> Visits(s.threads[p]).value !in Todo(s.threads[p]))
  }

  predicate Ahead<W>(s: Sys<W>, p: nat, w: W) {
    p in s.threads && (w in Todo(s.threads[p]) || (s.threads[p].Reporting? && s.threads[p].w == w))
  }

  ghost predicate IsDead<W>(s: Sys<W>, w: W) {
    w in s.activations && w in s.workers && s.workers[w].process.Exited?
  }

  /** While the pass runs, a dead worker is still active if and only if it is ahead of
      the pass or was excused by it, and nobody else has moved the pointer. */
  ghost predicate Tracks<W>(states: seq<Sys<W>>, steps: seq<Step<W>>, k: nat, n: nat, p: nat, w: W)
    requires k <= n <= |steps| < |states|
  {
    var s := states[n];
    && IsDead(s, w) && PassOf(s, p)
    && (s.active == Some(w) ==> LeftToPass(states, steps, k, n, p, w))
    && (s.active == Some(w) ==> Ahead(s, p, w) || ExcusedBy(states, steps, k, n, p, w))
    && (ExcusedBy(states, steps, k, n, p, w) ==> !Ahead(s, p, w))
    && (LeftToPass(states, steps, k, n, p, w) && (Ahead(s, p, w) || ExcusedBy(states, steps, k, n, p, w)) ==>
          s.active == Some(w))
  }

  lemma {:induction false} TailOfDistinct<W>(todo: seq<W>)
    requires NoDuplicates(todo) && todo != []
    ensures NoDuplicates(todo[1..]) && todo[0] !in todo[1..]
    ensures forall w | w in todo :: w == todo[0] || w in todo[1..]
  {
  }

  lemma {:induction false} CheckMovesOn<W>(s: Sys<W>, p: nat, w: W)
    requires Enabled(s, PassCheck(p)) && PassOf(s, p) && IsDead(s, w) && CrashIsReported(s.workers[w])
    ensures
      var s' := Apply(s, PassCheck(p));
      && s'.active == s.active && PassOf(s', p)
      && (Ahead(s', p, w) <==> Ahead(s, p, w) && !(Checks(s, PassCheck(p), w) && Excused(s.workers[w])))
  {
    TailOfDistinct(s.threads[p].todo);
  }

  lemma {:induction false} PassStepMovesOn<W>(s: Sys<W>, step: Step<W>, p: nat, w: W)
    requires Enabled(s, step) && By(step, p) && PassOf(s, p) && !step.PassCheck?
    ensures
      var s' := Apply(s, step);
      && PassOf(s', p) && !Checks(s, step, w)
      && (s.active == Some(w) ==> if step.PassReport? && s.threads[p].w == w then s'.active == None
            else s'.active == Some(w))
      && (Ahead(s', p, w) <==> Ahead(s, p, w) && !(step.PassReport? && s.threads[p].w == w))
      && (step.PassReport? && s.threads[p].w == w ==> Ahead(s, p, w))
  {
  }

  /** One more step, with the two histories it extends. */
  lemma {:induction false} HistoriesGrow<W>(states: seq<Sys<W>>, steps: seq<Step<W>>, k: nat, n: nat, p: nat, w: W)
    requires IsExecution(states, steps) && k < n < |steps|
    ensures ExcusedBy(states, steps, k, n + 1, p, w) <==>
              || ExcusedBy(states, steps, k, n, p, w)
              || (By(steps[n], p) && Checks(states[n], steps[n], w) && w in states[n].workers
                && Excused(states[n].workers[w]))
    ensures LeftToPass(states, steps, k, n + 1, p, w) <==>
              && LeftToPass(states, steps, k, n, p, w)
              && (!By(steps[n], p) && states[n].active == Some(w) ==> states[n + 1].active == Some(w))
  {
  }

  lemma {:induction false} OthersLeaveThePass<W>(s: Sys<W>, step: Step<W>, p: nat, w: W)
    requires Inv(s) && Enabled(s, step) && !By(step, p) && PassOf(s, p)
    ensures PassOf(Apply(s, step), p) && (Ahead(Apply(s, step), p, w) <==> Ahead(s, p, w))
  {
    OthersDoNotMove(s, step, p);
  }

  lemma {:induction false} StepTracks<W>(states: seq<Sys<W>>, steps: seq<Step<W>>, k: nat, n: nat, p: nat, w: W)
    requires IsExecution(states, steps) && k < n < |steps| && Tracks(states, steps, k, n, p, w)
    ensures Tracks(states, steps, k, n + 1, p, w)
  {
    var s, step := states[n], steps[n];
    ExecutionKeepsInv(states, steps, n);
    HistoriesGrow(states, steps, k, n, p, w);
    DeadStaysDead(s, step, w);
    if s.active != Some(w) {
      StepNeverReactivates(s, step, w);
    }
    if !By(step, p) {
      OthersLeaveThePass(s, step, p, w);
    } else if step.PassCheck? {
      CheckMovesOn(s, p, w);
    } else {
      PassStepMovesOn(s, step, p, w);
    }
  }

  lemma {:induction false} PassBeginTracks<W>(states: seq<Sys<W>>, steps: seq<Step<W>>, k: nat, p: nat, w: W)
    requires IsExecution(states, steps) && k < |steps| && steps[k] == PassBegin(p)
    requires states[k].active == Some(w) && w in states[k].workers && states[k].workers[w].process.Exited?
    ensures Tracks(states, steps, k, k + 1, p, w)
  {
    ExecutionKeepsInv(states, steps, k);
    assert w in states[k].registered;
  }

  lemma {:induction false} PassTracks<W>(states: seq<Sys<W>>, steps: seq<Step<W>>, k: nat, n: nat, p: nat, w: W)
    requires IsExecution(states, steps) && k < n <= |steps| && steps[k] == PassBegin(p)
    requires states[k].active == Some(w) && w in states[k].workers && states[k].workers[w].process.Exited?
    ensures Tracks(states, steps, k, n, p, w)
    decreases n
  {
    if n == k + 1 {
      PassBeginTracks(states, steps, k, p, w);
    } else {
      PassTracks(states, steps, k, n - 1, p, w);
      StepTracks(states, steps, k, n - 1, p, w);
    }
  }

  /** In every run: a pass that begins when the process of the active worker has
      exited, and finishes, leaves the pointer on that worker if and only if its
      check found the worker STOPPED or STOPPING with the shutdown marked as intended
      and nobody else moved the pointer meanwhile. */
  lemma {:induction false} PassLeavesPointerExactly<W>(states: seq<Sys<W>>, steps: seq<Step<W>>, k: nat, n: nat, p: nat,
                                                       w: W)
    requires IsExecution(states, steps) && k < n <= |steps| && steps[k] == PassBegin(p)
    requires states[k].active == Some(w) && w in states[k].workers && states[k].workers[w].process.Exited?
    requires p in states[n].threads && states[n].threads[p].Finished?
    ensures states[n].active == Some(w) <==>
              ExcusedBy(states, steps, k, n, p, w) && LeftToPass(states, steps, k, n, p, w)
  {
    PassTracks(states, steps, k, n, p, w);
  }

  /** `ProcessSupervisor.stop` never overlaps a launch or a swap. */
  ghost predicate DisciplinedExecution<W>(states: seq<Sys<W>>, steps: seq<Step<W>>) {
    IsExecution(states, steps) && forall i {:trigger steps[i]} | 0 <= i < |steps| :: Disciplined(states[i], steps[i])
  }

  lemma {:induction false} DisciplineHolds<W>(states: seq<Sys<W>>, steps: seq<Step<W>>, n: nat)
    requires DisciplinedExecution(states, steps) && n <= |steps|
    ensures DisciplineInv(states[n])
  {
    if n > 0 {
      DisciplineHolds(states, steps, n - 1);
      ExecutionKeepsInv(states, steps, n - 1);
      StepKeepsDisciplineInv(states[n - 1], steps[n - 1]);
    }
  }

  lemma {:induction false} LostForGood<W>(states: seq<Sys<W>>, steps: seq<Step<W>>, j: nat, n: nat, w: W)
    requires IsExecution(states, steps) && j <= n <= |steps| && w in states[j].activations
               && states[j].active != Some(w)
    ensures w in states[n].activations && states[n].active != Some(w)
    decreases n
  {
    if j < n {
      LostForGood(states, steps, j, n - 1, w);
      ExecutionKeepsInv(states, steps, n - 1);
      StepNeverReactivates(states[n - 1], steps[n - 1], w);
    }
  }

  /** Crash convergence: while stop does not overlap a launch or swap, such a pass
      always ends with the pointer off the dead worker. */
  lemma {:induction false} CrashConvergence<W>(states: seq<Sys<W>>, steps: seq<Step<W>>, k: nat, n: nat, p: nat, w: W)
    requires DisciplinedExecution(states, steps) && k < n <= |steps| && steps[k] == PassBegin(p)
    requires states[k].active == Some(w) && w in states[k].workers && states[k].workers[w].process.Exited?
    requires p in states[n].threads && states[n].threads[p].Finished?
    ensures states[n].active != Some(w)
  {
    PassLeavesPointerExactly(states, steps, k, n, p, w);
    if ExcusedBy(states, steps, k, n, p, w) {
      var j :| k < j < n && steps[j].PassCheck? && steps[j].t == p && Checks(states[j], steps[j], w)
        && w in states[j].workers && Excused(states[j].workers[w]);
      PassTracks(states, steps, k, j, p, w);
      DisciplineHolds(states, steps, j);
      LostForGood(states, steps, j, n, w);
    }
  }

  // ---- Workers stopped on purpose ----------------------------------------

  /** A worker that was active, whose process is gone and whose stop was meant. */
  ghost predicate Retired<W>(s: Sys<W>, w: W) {
    w in s.activations && w in s.workers && s.workers[w].process.Exited? && s.workers[w].intentionalShutdown
  }

  ghost predicate Settled<W>(s: Sys<W>, w: W) {
    Retired(s, w) && (s.workers[w].state == Stopped || s.workers[w].state == Stopping)
  }

  /** A watchdog write decided before the worker was stopped. */
  predicate WritesStale<W>(s: Sys<W>, step: Step<W>, w: W) {
    step.PassWrite? && At(s, step.t) && s.threads[step.t].Writing? && s.threads[step.t].w == w
  }

  /** A block of `stop` on the worker writes its state again. */
  predicate StopsAgain<W>(s: Sys<W>, step: Step<W>, w: W) {
    (step.StopEnter? || step.StopFinish?) && At(s, step.t) && s.threads[step.t].InStop? && s.threads[step.t].w == w
  }

  lemma {:induction false} RetiredStaysLocal<W>(s: Sys<W>, step: Step<W>, w: W)
    requires Inv(s) && Retired(s, w) && Enabled(s, step) && IsLocal(step)
    ensures Retired(Apply(s, step), w)
    ensures Settled(Apply(s, step), w) <==> StopsAgain(s, step, w) || (Settled(s, w) && !WritesStale(s, step, w))
  {
    SubjectIsKnown(s, step);
    LocalStepMovesOneThread(s, step);
    if Subject(s, step) == w {
      if IsLaunchLocal(step) {
        LaunchIsNotOfRetired(s, step, w);
      } else if IsStopLocal(step) {
        StopOfRetired(s, step, w);
      } else {
        WatchdogOfRetired(s, step, w);
      }
    }
  }

  lemma {:induction false} LaunchIsNotOfRetired<W>(s: Sys<W>, step: Step<W>, w: W)
    requires Inv(s) && Retired(s, w) && Enabled(s, step) && IsLaunchLocal(step)
    ensures Subject(s, step) != w
  {
    assert ThreadOk(s, s.threads[step.t]);
  }

  lemma {:induction false} StopOfRetired<W>(s: Sys<W>, step: Step<W>, w: W)
    requires Retired(s, w) && Enabled(s, step) && IsStopLocal(step) && Subject(s, step) == w
    ensures Retired(Apply(s, step), w)
    ensures Settled(Apply(s, step), w) <==> StopsAgain(s, step, w) || Settled(s, w)
  {
  }

  lemma {:induction false} WatchdogOfRetired<W>(s: Sys<W>, step: Step<W>, w: W)
    requires Retired(s, w) && Enabled(s, step) && IsWatchLocal(step) && Subject(s, step) == w
    requires ThreadOk(s, s.threads[step.t])
    ensures Retired(Apply(s, step), w)
    ensures Settled(Apply(s, step), w) <==> Settled(s, w) && !WritesStale(s, step, w)
  {
  }

  lemma {:induction false} RetiredStaysElsewhere<W>(s: Sys<W>, step: Step<W>, w: W)
    requires Inv(s) && Retired(s, w) && Enabled(s, step) && !IsLocal(step)
    ensures Retired(Apply(s, step), w) && (Settled(Apply(s, step), w) <==> Settled(s, w))
  {
    if step.StartOk? {
      assert ThreadOk(s, s.threads[step.t]);
    }
  }

  /** In every reachable state: the worker is settled after a step if and only if a
      block of stop has just settled it, or it was settled and the step is not a
      watchdog write on it. */
  lemma {:induction false} SettledExactly<W>(s: Sys<W>, step: Step<W>, w: W)
    requires Inv(s) && Retired(s, w) && Enabled(s, step)
    ensures Retired(Apply(s, step), w)
    ensures Settled(Apply(s, step), w) <==> StopsAgain(s, step, w) || (Settled(s, w) && !WritesStale(s, step, w))
  {
    if IsLocal(step) {
      RetiredStaysLocal(s, step, w);
    } else {
      RetiredStaysElsewhere(s, step, w);
    }
  }

  /** Between steps `m` and `n` a stale write lands on the worker and no later block
      of stop writes over it. */
  ghost predicate StaleSince<W>(states: seq<Sys<W>>, steps: seq<Step<W>>, m: nat, n: nat, w: W)
    requires m <= n <= |steps| < |states|
  {
    exists a {:trigger steps[a]} | m <= a < n ::
      WritesStale(states[a], steps[a], w) && !SettledAgain(states, steps, a, n, w)
  }

  ghost predicate SettledAgain<W>(states: seq<Sys<W>>, steps: seq<Step<W>>, a: nat, n: nat, w: W)
    requires a <= n <= |steps| < |states|
  {
    exists c {:trigger steps[c]} | a < c < n :: StopsAgain(states[c], steps[c], w)
  }

  lemma {:induction false} StaleStays<W>(states: seq<Sys<W>>, steps: seq<Step<W>>, m: nat, n: nat, w: W)
    requires |states| == |steps| + 1 && m <= n < |steps| && StaleSince(states, steps, m, n, w)
    requires !StopsAgain(states[n], steps[n], w)
    ensures StaleSince(states, steps, m, n + 1, w)
  {
    var a :| m <= a < n && WritesStale(states[a], steps[a], w) && !SettledAgain(states, steps, a, n, w);
    assert !SettledAgain(states, steps, a, n + 1, w);
  }

  lemma {:induction false} StaleBegins<W>(states: seq<Sys<W>>, steps: seq<Step<W>>, m: nat, n: nat, w: W)
    requires |states| == |steps| + 1 && m <= n < |steps| && WritesStale(states[n], steps[n], w)
    ensures StaleSince(states, steps, m, n + 1, w)
  {
    assert !SettledAgain(states, steps, n, n + 1, w);
  }

  lemma {:induction false} StaleOnlyThen<W>(states: seq<Sys<W>>, steps: seq<Step<W>>, m: nat, n: nat, w: W)
    requires |states| == |steps| + 1 && m <= n < |steps|
    requires StaleSince(states, steps, m, n + 1, w) && !WritesStale(states[n], steps[n], w)
    ensures StaleSince(states, steps, m, n, w) && !StopsAgain(states[n], steps[n], w)
  {
    var a :| m <= a < n + 1 && WritesStale(states[a], steps[a], w) && !SettledAgain(states, steps, a, n + 1, w);
    assert !SettledAgain(states, steps, a, n, w);
  }

  lemma {:induction false} StaleGrows<W>(states: seq<Sys<W>>, steps: seq<Step<W>>, m: nat, n: nat, w: W)
    requires |states| == |steps| + 1 && m <= n < |steps|
    ensures StaleSince(states, steps, m, n + 1, w) <==>
              WritesStale(states[n], steps[n], w)
                || (StaleSince(states, steps, m, n, w) && !StopsAgain(states[n], steps[n], w))
  {
    if WritesStale(states[n], steps[n], w) {
      StaleBegins(states, steps, m, n, w);
    } else if StaleSince(states, steps, m, n, w) && !StopsAgain(states[n], steps[n], w) {
      StaleStays(states, steps, m, n, w);
    } else if StaleSince(states, steps, m, n + 1, w) {
      StaleOnlyThen(states, steps, m, n, w);
    }
  }

  lemma {:induction false} SettledUntilStale<W>(states: seq<Sys<W>>, steps: seq<Step<W>>, m: nat, n: nat, w: W)
    requires IsExecution(states, steps) && m <= n <= |steps| && Settled(states[m], w)
    ensures Retired(states[n], w) && (Settled(states[n], w) <==> !StaleSince(states, steps, m, n, w))
    decreases n
  {
    if m < n {
      SettledUntilStale(states, steps, m, n - 1, w);
      ExecutionKeepsInv(states, steps, n - 1);
      SettledExactly(states[n - 1], steps[n - 1], w);
      StaleGrows(states, steps, m, n - 1, w);
    }
  }

  /** In every run: a watchdog check of a once active worker that was stopped on
      purpose reports it as crashed, and records CRASHED, if and only if a stale
      watchdog write has landed on it since and no later block of stop wrote over it. */
  lemma {:induction false} StoppedWorkerIsReportedExactly<W>(states: seq<Sys<W>>, steps: seq<Step<W>>, m: nat, b: nat,
                                                             w: W)
    requires IsExecution(states, steps) && m <= b < |steps| && Settled(states[m], w) && Checks(states[b], steps[b], w)
    ensures w in states[b].workers && w in states[b + 1].workers
    ensures CheckExit(states[b].workers[w]).1.Some? <==> StaleSince(states, steps, m, b, w)
    ensures states[b + 1].workers[w].state == Crashed <==> StaleSince(states, steps, m, b, w)
    ensures StaleSince(states, steps, m, b, w) ==>
              states[b + 1].threads[steps[b].t] == Reporting(w, states[b].threads[steps[b].t].todo[1..])
  {
    SettledUntilStale(states, steps, m, b, w);
    ExecutionKeepsInv(states, steps, b);
    assert CrashIsReported(states[b].workers[w]);
  }
}
