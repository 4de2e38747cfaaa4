/** What launches and swaps leave behind: the workers that failed to come up, and the
    predecessors that were displaced. */
module SupervisorSwaps {
  import opened Wrappers
  import opened WorkerStates
  import opened SupervisorProtocol
  import opened SupervisorInvariants
  import opened SupervisorTheorems

  // ---- Failed launches ---------------------------------------------------

  /** The call raised after it had registered the worker. */
  predicate Failed<W>(pc: Pc<W>) {
    pc.Finished? && (pc.outcome.SpawnFailed? || pc.outcome.StopRaised? || pc.outcome.RolledBack?)
  }

  /** The worker stays on the list, was never active and is nobody's launch. */
  ghost predicate Stranded<W>(s: Sys<W>, w: W) {
    && w in s.workers && w in s.registered && w !in s.activations
    && forall u | u in s.threads :: Conducts(s.threads[u]) != Some(w)
  }

  ghost predicate FailureOk<W>(s: Sys<W>, pc: Pc<W>) {
    pc.Finished? && (pc.outcome.SpawnFailed? || pc.outcome.StopRaised?) ==>
      Stranded(s, pc.outcome.w) && (pc.outcome.SpawnFailed? ==> s.workers[pc.outcome.w].process.NoProcess?)
  }

  ghost predicate FailuresOk<W>(s: Sys<W>) {
    forall t | t in s.threads :: FailureOk(s, s.threads[t])
  }

  lemma {:induction false} NobodyNewConducts<W>(s: Sys<W>, step: Step<W>, u: nat, w: W)
    requires Inv(s) && Enabled(s, step) && w in s.workers && u in Apply(s, step).threads
    requires Conducts(Apply(s, step).threads[u]) == Some(w)
    ensures u in s.threads && Conducts(s.threads[u]) == Some(w)
  {
    if u in s.threads && (step.ProcessExits? || u != step.t) {
      OthersDoNotMove(s, step, u);
    } else if IsLocal(step) {
      SubjectIsKnown(s, step);
      LocalStepMovesOneThread(s, step);
      LocalStepIsOk(s, step);
    } else {
      OtherStepConducts(s, step, u, w);
    }
  }

  lemma {:induction false} OtherStepConducts<W>(s: Sys<W>, step: Step<W>, u: nat, w: W)
    requires Enabled(s, step) && !IsLocal(step) && w in s.workers && u in Apply(s, step).threads
    requires u in s.threads ==> !step.ProcessExits? && u == step.t
    requires Conducts(Apply(s, step).threads[u]) == Some(w)
    ensures u in s.threads && Conducts(s.threads[u]) == Some(w)
  {
  }

  lemma {:induction false} StrandedStays<W>(s: Sys<W>, step: Step<W>, w: W)
    requires Inv(s) && Enabled(s, step) && Stranded(s, w)
    ensures Stranded(Apply(s, step), w)
    ensures s.workers[w].process.NoProcess? ==> Apply(s, step).workers[w].process.NoProcess?
  {
    var s' := Apply(s, step);
    forall u | u in s'.threads ensures Conducts(s'.threads[u]) != Some(w) {
      if Conducts(s'.threads[u]) == Some(w) {
        NobodyNewConducts(s, step, u, w);
      }
    }
    if IsLocal(step) {
      SubjectIsKnown(s, step);
      LocalStepMovesOneThread(s, step);
      LocalStepUpdatesOneWorker(s, step);
    } else {
      OtherStepLeaves(s, step, w);
    }
  }

  lemma {:induction false} OtherStepLeaves<W>(s: Sys<W>, step: Step<W>, w: W)
    requires Inv(s) && Enabled(s, step) && !IsLocal(step) && Stranded(s, w)
    ensures
      var s' := Apply(s, step);
      && w in s'.workers && w in s'.registered && w !in s'.activations
      && (s.workers[w].process.NoProcess? ==> s'.workers[w].process.NoProcess?)
  {
    if !step.ProcessExits? && step.t in s.threads {
      assert ThreadOk(s, s.threads[step.t]);
    }
    RemoveFromDistinct(s.registered, w);
  }

  lemma {:induction false} NewFailureIsOk<W>(s: Sys<W>, step: Step<W>)
    requires Inv(s) && Enabled(s, step) && !step.ProcessExits? && step.t in Apply(s, step).threads
    requires step.t in s.threads
    ensures FailureOk(Apply(s, step), Apply(s, step).threads[step.t])
  {
    var s' := Apply(s, step);
    assert ThreadOk(s, s.threads[step.t]);
    if (step.StartFails? || step.StopFinish?) && Conducts(s.threads[step.t]).Some? {
      LocalStepMovesOneThread(s, step);
      forall u | u in s.threads && u != step.t ensures s'.threads[u] == s.threads[u] {
        OthersDoNotMove(s, step, u);
      }
      NobodyElseConducts(s, step.t);
    } else {
      NothingFails(s, step);
    }
  }

  lemma {:induction false} NobodyElseConducts<W>(s: Sys<W>, t: nat)
    requires Exclusive(s) && t in s.threads && Conducts(s.threads[t]).Some?
    ensures forall u | u in s.threads && u != t :: Conducts(s.threads[u]) != Conducts(s.threads[t])
  {
    forall u | u in s.threads && u != t ensures Conducts(s.threads[u]) != Conducts(s.threads[t]) {
      assert Apart(s.threads[t], s.threads[u]);
    }
  }

  /** Only a spawn that raises and a stop that returns end a failed launch. */
  lemma {:induction false} NothingFails<W>(s: Sys<W>, step: Step<W>)
    requires Enabled(s, step) && !step.ProcessExits? && step.t in s.threads && step.t in Apply(s, step).threads
    requires step.StartFails? || step.StopFinish? ==> Conducts(s.threads[step.t]) == None
    ensures
      var pc := Apply(s, step).threads[step.t];
      pc.Finished? ==> !pc.outcome.SpawnFailed? && !pc.outcome.StopRaised?
  {
  }

  lemma {:induction false} StepKeepsFailures<W>(s: Sys<W>, step: Step<W>)
    requires Inv(s) && FailuresOk(s) && Enabled(s, step)
    ensures FailuresOk(Apply(s, step))
  {
    var s' := Apply(s, step);
    forall u | u in s'.threads ensures FailureOk(s', s'.threads[u]) {
      if u in s.threads && (step.ProcessExits? || u != step.t) {
        OthersDoNotMove(s, step, u);
        OldFailureStaysOk(s, step, s.threads[u]);
      } else if u in s.threads {
        NewFailureIsOk(s, step);
      } else {
        NewThreadHasNotFailed(s, step, u);
      }
    }
  }

  lemma {:induction false} OldFailureStaysOk<W>(s: Sys<W>, step: Step<W>, pc: Pc<W>)
    requires Inv(s) && Enabled(s, step) && FailureOk(s, pc)
    ensures FailureOk(Apply(s, step), pc)
  {
    if pc.Finished? && (pc.outcome.SpawnFailed? || pc.outcome.StopRaised?) {
      StrandedStays(s, step, pc.outcome.w);
    }
  }

  lemma {:induction false} NewThreadHasNotFailed<W>(s: Sys<W>, step: Step<W>, u: nat)
    requires Enabled(s, step) && u in Apply(s, step).threads && u !in s.threads
    ensures !Apply(s, step).threads[u].Finished?
  {
  }

  lemma {:induction false} FailuresRun<W>(steps: seq<Step<W>>)
    requires IsRun(Initial<W>(), steps)
    ensures FailuresOk(Reached(Initial<W>(), steps))
  {
    if steps != [] {
      var before := steps[..|steps| - 1];
      FailuresRun(before);
      RunKeepsInv(Initial<W>(), before);
      StepKeepsFailures(Reached(Initial<W>(), before), steps[|steps| - 1]);
    }
  }

  /** In every run: a launch or swap that raised before it set the pointer leaves a
      worker that was never active, and that worker is off the list if and only if it
      was rolled back; it stays listed when the spawn raised or the second wait of its
      stop ran out. Only in that last case can its process run on. */
  lemma {:induction false} FailedLaunchExactly<W>(steps: seq<Step<W>>, t: nat)
    requires IsRun(Initial<W>(), steps)
    requires var s := Reached(Initial<W>(), steps); t in s.threads && Failed(s.threads[t])
    ensures
      var s := Reached(Initial<W>(), steps);
      var outcome := s.threads[t].outcome;
      && outcome.w !in s.activations && s.active != Some(outcome.w)
      && (outcome.w !in s.registered <==> outcome.RolledBack?)
      && (Runs(s, outcome.w) ==> outcome.StopRaised?)
      && (outcome.SpawnFailed? ==> outcome.w in s.workers && s.workers[outcome.w].process.NoProcess?)
  {
    FailuresRun(steps);
    ReachableInv(steps);
    var s := Reached(Initial<W>(), steps);
    assert ThreadOk(s, s.threads[t]) && FailureOk(s, s.threads[t]);
  }

  // ---- Displaced predecessors --------------------------------------------

  /** A swap is about to hand `w` over, a drain is retiring it, or has done so. */
  ghost predicate Handles<W>(pc: Pc<W>, w: W) {
    Disposes(pc) == Some(w) || Retires(pc) == Some(w) || pc == Finished(Retired(w))
  }

  ghost predicate Handled<W>(s: Sys<W>, w: W) {
    exists t :: t in s.threads && Handles(s.threads[t], w)
  }

  /** Every displaced worker whose process still runs is being dealt with. */
  ghost predicate NoneLeaked<W>(s: Sys<W>) {
    forall w | w in s.displaced && Runs(s, w) :: Handled(s, w)
  }

  lemma {:induction false} NewlyDisplaced<W>(s: Sys<W>, step: Step<W>, w: W)
    requires Enabled(s, step) && w in Apply(s, step).displaced && w !in s.displaced
    ensures Handled(Apply(s, step), w)
  {
    assert step.Activate? && Handles(Apply(s, step).threads[step.t], w);
  }

  lemma {:induction false} StillDisplaced<W>(s: Sys<W>, step: Step<W>, w: W)
    requires Inv(s) && Enabled(s, step) && w in s.displaced && Runs(Apply(s, step), w)
    ensures Runs(s, w)
  {
    if IsLocal(step) {
      SubjectIsKnown(s, step);
      LocalStepMovesOneThread(s, step);
      LocalStepUpdatesOneWorker(s, step);
    } else if !step.ProcessExits? && step.t in s.threads {
      assert ThreadOk(s, s.threads[step.t]);
    }
  }

  lemma {:induction false} HandlerMovesOn<W>(s: Sys<W>, step: Step<W>, w: W)
    requires Inv(s) && Enabled(s, step) && !step.ProcessExits? && step.t in s.threads && Handles(s.threads[step.t], w)
    requires Runs(s, w)
    ensures Handled(Apply(s, step), w)
  {
    var s' := Apply(s, step);
    if step.HandOff? {
      assert Handles(s'.threads[step.drainer], w);
    } else {
      assert Handles(s'.threads[step.t], w);
    }
  }

  lemma {:induction false} StepLeaksNobody<W>(s: Sys<W>, step: Step<W>)
    requires Inv(s) && NoneLeaked(s) && Enabled(s, step)
    ensures NoneLeaked(Apply(s, step))
  {
    var s' := Apply(s, step);
    forall w | w in s'.displaced && Runs(s', w) ensures Handled(s', w) {
      if w !in s.displaced {
        NewlyDisplaced(s, step, w);
      } else {
        StillDisplaced(s, step, w);
        var t :| t in s.threads && Handles(s.threads[t], w);
        if step.ProcessExits? || t != step.t {
          OthersDoNotMove(s, step, t);
        } else {
          HandlerMovesOn(s, step, w);
        }
      }
    }
  }

  /** In every run: a swap never leaks its predecessor. A displaced worker whose process
      still runs is about to be handed over, is being drained and stopped, or outlived
      the stop of its drain. */
  lemma {:induction false} NoPredecessorIsLeaked<W>(steps: seq<Step<W>>)
    requires IsRun(Initial<W>(), steps)
    ensures NoneLeaked(Reached(Initial<W>(), steps))
  {
    if steps != [] {
      var before := steps[..|steps| - 1];
      NoPredecessorIsLeaked(before);
      RunKeepsInv(Initial<W>(), before);
      StepLeaksNobody(Reached(Initial<W>(), before), steps[|steps| - 1]);
    }
  }
}
