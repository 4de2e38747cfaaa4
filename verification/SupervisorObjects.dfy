/** The worker and supervisor objects. Their methods update fields one locked
    block at a time; a ghost trace records each block as a protocol step, so that
    what a method leaves behind is the end of a run of the protocol. What the
    operating system answers (whether a spawn works, a probe succeeds, a process
    exits) is a parameter. */
module SupervisorObjects {
  import opened Wrappers
  import opened WorkerStates
  import opened SupervisorProtocol
  import opened SupervisorInvariants

  type View = Sys<WorkerProcess>

  /** The protocol run taken so far: `views` holds the state before each step
      and the present one. */
  class Trace {
    ghost const start: View
    ghost var steps: seq<Step<WorkerProcess>>
    ghost var views: seq<View>
    ghost var view: View

    ghost predicate Valid()
      reads this
    {
      && |views| == |steps| + 1 && views[0] == start && views[|steps|] == view
      && forall i {:trigger steps[i]} | 0 <= i < |steps| ::
           Enabled(views[i], steps[i]) && views[i + 1] == Apply(views[i], steps[i])
    }

    ghost constructor (start: View)
      ensures Valid() && this.start == start && view == start && steps == []
    {
      this.start := start;
      steps := [];
      views := [start];
      view := start;
    }

    ghost method Take(step: Step<WorkerProcess>)
      requires Valid() && Enabled(view, step)
      modifies this
      ensures Valid() && view == Apply(old(view), step) && steps == old(steps) + [step]
    {
      steps := steps + [step];
      view := Apply(view, step);
      views := views + [view];
    }

    lemma {:induction false} IsProtocolRun(k: nat)
      requires Valid() && k <= |steps|
      ensures IsRun(start, steps[..k]) && Reached(start, steps[..k]) == views[k]
    {
      if k > 0 {
        IsProtocolRun(k - 1);
        assert steps[..k][..k - 1] == steps[..k - 1] && steps[..k][k - 1] == steps[k - 1];
      }
    }

    /** A step of thread `t` on worker `w` alone, which leaves them at `pc` and `value`. */
    ghost method Move(step: Step<WorkerProcess>, t: nat, w: WorkerProcess, pc: Pc<WorkerProcess>, value: Worker)
      requires Valid() && Enabled(view, step) && IsLocal(step) && step.t == t
      requires Subject(view, step) == w && w in view.workers
      requires MovesTo(view, step, w, pc, value)
      modifies this
      ensures Valid() && Local(old(view), view, t, w) && view.threads[t] == pc && view.workers[w] == value
      ensures old(steps) <= steps
    {
      LocalStepMovesOneThread(view, step);
      Take(step);
    }
  }

  ghost predicate MovesTo(s: View, step: Step<WorkerProcess>, w: WorkerProcess, pc: Pc<WorkerProcess>, value: Worker)
    requires Enabled(s, step) && IsLocal(step)
  {
    var s' := Apply(s, step);
    step.t in s'.threads && s'.threads[step.t] == pc && w in s'.workers && s'.workers[w] == value
  }

  /** One iteration of the readiness loop: the process may exit before the poll,
      and the probe of a running process answers. */
  datatype Tick = Tick(exit: Option<int>, answer: bool)

  /** Up to tick `i` the process has not exited and no probe has succeeded. */
  ghost predicate Undecided(ticks: seq<Tick>, i: nat)
    requires i <= |ticks|
  {
    forall j | 0 <= j < i :: ticks[j].exit == None && !ticks[j].answer
  }

  /** A probe succeeds before the deadline, and before the process exits. */
  ghost predicate ComesUp(ticks: seq<Tick>) {
    exists i | 0 <= i < |ticks| :: ticks[i].exit == None && ticks[i].answer && Undecided(ticks, i)
  }

  /** The process exits with `code` before the deadline, and before a probe succeeds. */
  ghost predicate ExitsWith(ticks: seq<Tick>, code: int) {
    exists i | 0 <= i < |ticks| :: ticks[i].exit == Some(code) && Undecided(ticks, i)
  }

  ghost predicate ExitsFirst(ticks: seq<Tick>) {
    exists i | 0 <= i < |ticks| :: ticks[i].exit.Some? && Undecided(ticks, i)
  }

  lemma {:induction false} DecidedAt(ticks: seq<Tick>, i: nat)
    requires i < |ticks| && Undecided(ticks, i) && (ticks[i].exit.Some? || ticks[i].answer)
    ensures ComesUp(ticks) <==> ticks[i].exit == None
    ensures ExitsFirst(ticks) <==> ticks[i].exit.Some?
    ensures forall code :: ExitsWith(ticks, code) <==> ticks[i].exit == Some(code)
  {
    assert forall j: nat | j < |ticks| && Undecided(ticks, j) :: j <= i;
  }

  lemma {:induction false} NeverDecided(ticks: seq<Tick>)
    requires Undecided(ticks, |ticks|)
    ensures !ComesUp(ticks) && !ExitsFirst(ticks) && forall code :: !ExitsWith(ticks, code)
  {
  }

  /** The reason that is given for an exit code, negative for a signal as `Popen` reports
      it or above 128 as a shell does. */
  predicate Explains(reason: Fault, code: int) {
    && (reason == SegmentationFault <==> code == -11 || code == 128 + 11)
    && (reason == KilledBySystem <==> code == -9 || code == 128 + 9)
    && (reason == Aborted <==> code == -6 || code == 128 + 6)
    && (reason == CleanExit <==> code == 0)
    && (reason.NonZeroExit? ==> reason.code == code)
    && reason != ExitDuringStartup
  }

  /** The state after a periodic probe. */
  function ProbedState(state: WorkerState, healthy: bool): WorkerState {
    if state == Healthy && !healthy then Degraded
    else if state == Degraded && healthy then Healthy
    else state
  }

  class WorkerProcess {
    var state: WorkerState
    var process: Process
    var intentionalShutdown: bool
    var latestCrash: Option<CrashReport>

    ghost function Value(): Worker
      reads this
    {
      Worker(state, process, intentionalShutdown, latestCrash)
    }

    constructor ()
      ensures Value() == Created()
    {
      state, process, intentionalShutdown, latestCrash := Stopped, NoProcess, false, None;
    }

    method Start(spawns: bool) returns (raised: bool)
      modifies this
      ensures Value() == if spawns then Launched(old(Value())) else LaunchRaised(old(Value()))
      ensures raised <==> !spawns && !old(process.Alive?)
      ensures !raised ==> process.Alive?
      ensures raised ==> state == Stopped && process == old(process)
      ensures !old(process.Alive?) ==> latestCrash == None && !intentionalShutdown && (spawns ==> state == Starting)
      ensures old(process.Alive?) ==> Value() == old(Value())
    {
      if process.Alive? {
        return false;
      }
      intentionalShutdown, latestCrash, state := false, None, Starting;
      if spawns {
        process := Alive;
        return false;
      }
      state := Stopped;
      return true;
    }

    method ProbeHealth(answer: bool) returns (ok: bool)
      ensures ok == (process.Alive? && answer)
    {
      ok := process.Alive? && answer;
    }

    method RecordCrashOrExit(reason: Fault) returns (report: CrashReport)
      requires process.Exited?
      modifies this
      ensures Value() == RecordExit(old(Value()), reason) && latestCrash == Some(report)
      ensures state == Crashed && process == Exited(report.exitCode) && report.reason == reason
      ensures process == old(process) && intentionalShutdown == old(intentionalShutdown)
    {
      report := CrashReport(process.code, reason);
      latestCrash, state := Some(report), Crashed;
    }

    method CheckAndHandleExit() returns (crash: Option<CrashReport>)
      modifies this
      ensures (Value(), crash) == CheckExit(old(Value()))
      ensures crash == None ==> Value() == old(Value())
      ensures crash == None <==>
                !process.Exited? || (old(state == Stopped || state == Stopping) && intentionalShutdown)
      ensures crash.Some? ==> state == Crashed && latestCrash == crash
      ensures crash.Some? && old(CrashIsReported(Value())) ==> process == Exited(crash.value.exitCode)
      ensures process == old(process) && intentionalShutdown == old(intentionalShutdown)
      ensures crash.Some? && old(state == Crashed && latestCrash.Some?) ==> crash == old(latestCrash)
      ensures crash.Some? && !old(state == Crashed && latestCrash.Some?) ==>
                Explains(crash.value.reason, process.code) && process == Exited(crash.value.exitCode)
    {
      if !process.Exited? {
        return None;
      }
      if (state == Stopped || state == Stopping) && intentionalShutdown {
        return None;
      }
      if state == Crashed && latestCrash.Some? {
        return latestCrash;
      }
      var report := RecordCrashOrExit(Classify(process.code));
      return Some(report);
    }

    method Drain()
      modifies this
      ensures Value() == Drained(old(Value()))
      ensures state == if old(state) == Healthy || old(state) == Degraded then Draining else old(state)
    {
      if state == Healthy || state == Degraded {
        state := Draining;
      }
    }

    /** Thread `t` of the trace is at `pc`, and the trace knows this worker. */
    ghost predicate Follows(trace: Trace, t: nat, pc: Pc<WorkerProcess>)
      reads this, trace
    {
      && trace.Valid()
      && this in trace.view.workers && trace.view.workers[this] == Value()
      && t in trace.view.threads && trace.view.threads[t] == pc
    }

    /** One locked block that writes at most the state: the field and the trace move together. */
    method Advance(value: WorkerState, ghost step: Step<WorkerProcess>, ghost pc: Pc<WorkerProcess>, ghost trace: Trace,
                   ghost t: nat)
      requires trace.Valid() && this in trace.view.workers && trace.view.workers[this] == Value()
      requires Enabled(trace.view, step) && IsLocal(step) && step.t == t && Subject(trace.view, step) == this
      requires MovesTo(trace.view, step, this, pc, Value().(state := value))
      modifies this`state, trace
      ensures Follows(trace, t, pc) && Local(old(trace.view), trace.view, t, this)
      ensures old(trace.steps) <= trace.steps && state == value
    {
      trace.Move(step, t, this, pc, Value().(state := value));
      state := value;
    }

    /** The environment ends the process. */
    method Exit(code: int, ghost trace: Trace, ghost t: nat, ghost pc: Pc<WorkerProcess>)
      requires Follows(trace, t, pc)
      modifies this`process, trace
      ensures Follows(trace, t, pc) && Local(old(trace.view), trace.view, t, this)
      ensures Value() == Ended(old(Value()), code)
      ensures old(trace.steps) <= trace.steps
    {
      if process.Alive? {
        trace.Take(ProcessExits(this, code));
        process := Exited(code);
      }
    }

    /** First locked block of a readiness iteration. */
    method PollOnce(ghost trace: Trace, ghost t: nat, ghost caller: Caller) returns (exited: bool)
      requires Follows(trace, t, Polling(this, caller))
      modifies this, trace
      ensures Local(old(trace.view), trace.view, t, this) && old(trace.steps) <= trace.steps
      ensures Follows(trace, t, if exited then InStop(this, Entering, RollBack) else Probing(this, caller))
      ensures exited == old(process.Exited?)
      ensures process == old(process) && intentionalShutdown == old(intentionalShutdown)
      ensures if exited then state == Crashed && latestCrash == Some(CrashReport(process.code, ExitDuringStartup))
              else state == old(state) && latestCrash == old(latestCrash)
    {
      if process.Exited? {
        trace.Move(Poll(t), t, this, InStop(this, Entering, RollBack), RecordExit(Value(), ExitDuringStartup));
        var _ := RecordCrashOrExit(ExitDuringStartup);
        return true;
      }
      trace.Move(Poll(t), t, this, Probing(this, caller), Value());
      return false;
    }

    /** The probe, and the block that marks the worker HEALTHY when it succeeds. */
    method ProbeOnce(answer: bool, ghost trace: Trace, ghost t: nat, ghost caller: Caller) returns (ok: bool)
      requires Follows(trace, t, Probing(this, caller))
      modifies this`state, trace
      ensures Local(old(trace.view), trace.view, t, this) && old(trace.steps) <= trace.steps
      ensures Follows(trace, t, if ok then Ready(this, caller) else Polling(this, caller))
      ensures ok == (old(process.Alive?) && answer) && state == if ok then Healthy else old(state)
    {
      ok := ProbeHealth(answer);
      if !ok {
        Advance(state, Probe(t, false), Polling(this, caller), trace, t);
        return;
      }
      Advance(state, Probe(t, true), MarkingHealthy(this, caller), trace, t);
      Advance(Healthy, MarkHealthy(t), Ready(this, caller), trace, t);
    }

    /** One readiness iteration: None to go on polling, otherwise the verdict. */
    method ReadinessTick(tick: Tick, ghost trace: Trace, ghost t: nat, ghost caller: Caller)
      returns (verdict: Option<bool>)
      requires Follows(trace, t, Polling(this, caller))
      modifies this, trace
      ensures Local(old(trace.view), trace.view, t, this) && old(trace.steps) <= trace.steps
      ensures Follows(trace, t,
        if verdict == None then Polling(this, caller)
        else if verdict.value then Ready(this, caller)
        else InStop(this, Entering, RollBack))
      ensures verdict == Some(true) ==> state == Healthy
      ensures old(process.Alive?) ==>
                verdict == (if tick.exit.Some? then Some(false) else if tick.answer then Some(true) else None)
      ensures intentionalShutdown == old(intentionalShutdown)
      ensures old(process.Alive?) && tick.exit.Some? ==>
                process == Exited(tick.exit.value) && state == Crashed
                && latestCrash == Some(CrashReport(tick.exit.value, ExitDuringStartup))
      ensures old(process.Alive?) && tick.exit == None ==>
                process.Alive? && latestCrash == old(latestCrash) && state == if tick.answer then Healthy
                  else old(state)
    {
      if tick.exit.Some? {
        Exit(tick.exit.value, trace, t, Polling(this, caller));
      }
      var exited := PollOnce(trace, t, caller);
      if exited {
        return Some(false);
      }
      var ok := ProbeOnce(tick.answer, trace, t, caller);
      return if ok then Some(true) else None;
    }

    /** `wait_until_healthy`, over the ticks that fit before the deadline: a running
        worker is ready exactly when a probe succeeds in time, CRASHED with the code of
        its process exactly when that exits first, and otherwise left as it was. */
    method WaitUntilHealthy(ticks: seq<Tick>, ghost trace: Trace, ghost t: nat, ghost caller: Caller)
      returns (ready: bool)
      requires Follows(trace, t, Polling(this, caller))
      modifies this, trace
      ensures Local(old(trace.view), trace.view, t, this) && old(trace.steps) <= trace.steps
      ensures Follows(trace, t, if ready then Ready(this, caller) else InStop(this, Entering, RollBack))
      ensures ready ==> state == Healthy
      ensures old(process.Alive?) ==> (ready <==> ComesUp(ticks)) && (process.Alive? <==> !ExitsFirst(ticks))
      ensures old(process.Alive?) ==>
                forall code :: ExitsWith(ticks, code) <==>
                  process == Exited(code) && state == Crashed
                  && latestCrash == Some(CrashReport(code, ExitDuringStartup))
      ensures old(process.Alive?) && process.Alive? ==>
                state == (if ready then Healthy else old(state)) && latestCrash == old(latestCrash)
      ensures intentionalShutdown == old(intentionalShutdown)
    {
      for i := 0 to |ticks|
        invariant Follows(trace, t, Polling(this, caller))
        invariant Local(old(trace.view), trace.view, t, this) && old(trace.steps) <= trace.steps
        invariant old(process.Alive?) ==> Undecided(ticks, i) && Value() == old(Value())
        invariant intentionalShutdown == old(intentionalShutdown)
      {
        var verdict := ReadinessTick(ticks[i], trace, t, caller);
        if verdict.Some? {
          if old(process.Alive?) {
            DecidedAt(ticks, i);
          }
          return verdict.value;
        }
      }
      if old(process.Alive?) {
        NeverDecided(ticks);
      }
      trace.Move(GiveUp(t), t, this, InStop(this, Entering, RollBack), Value());
      return false;
    }

    /** The probe's answer differs from the state: the block that writes it. */
    method MarkAs(ok: bool, ghost trace: Trace, ghost t: nat, ghost todo: seq<WorkerProcess>)
      requires Follows(trace, t, if ok then ProbingDegraded(this, todo) else ProbingHealthy(this, todo))
      requires ok ==> process.Alive?
      modifies this`state, trace
      ensures Local(old(trace.view), trace.view, t, this) && old(trace.steps) <= trace.steps
      ensures Follows(trace, t, Passing(todo)) && state == if ok then Healthy else Degraded
    {
      var value := if ok then Healthy else Degraded;
      Advance(state, PassProbe(t, ok), Writing(this, value, todo), trace, t);
      Advance(value, PassWrite(t), Passing(todo), trace, t);
    }

    /** A HEALTHY worker that fails its probe is marked DEGRADED. */
    method ProbeHealthy(answer: bool, ghost trace: Trace, ghost t: nat, ghost todo: seq<WorkerProcess>)
      requires Follows(trace, t, ProbingHealthy(this, todo))
      modifies this`state, trace
      ensures Local(old(trace.view), trace.view, t, this) && old(trace.steps) <= trace.steps
      ensures Follows(trace, t, Passing(todo)) && state == if process.Alive? && answer then old(state) else Degraded
    {
      var ok := ProbeHealth(answer);
      if ok {
        Advance(state, PassProbe(t, true), Passing(todo), trace, t);
      } else {
        MarkAs(false, trace, t, todo);
      }
    }

    /** A DEGRADED worker that passes its probe is marked HEALTHY. */
    method ProbeDegraded(answer: bool, ghost trace: Trace, ghost t: nat, ghost todo: seq<WorkerProcess>)
      requires Follows(trace, t, ProbingDegraded(this, todo))
      modifies this`state, trace
      ensures Local(old(trace.view), trace.view, t, this) && old(trace.steps) <= trace.steps
      ensures Follows(trace, t, Passing(todo)) && state == if process.Alive? && answer then Healthy else old(state)
    {
      var ok := ProbeHealth(answer);
      if ok {
        MarkAs(true, trace, t, todo);
      } else {
        Advance(state, PassProbe(t, false), Passing(todo), trace, t);
      }
    }

    method RereadHealth(answer: bool, ghost trace: Trace, ghost t: nat, ghost todo: seq<WorkerProcess>)
      requires Follows(trace, t, Rereading(this, todo))
      modifies this`state, trace
      ensures Local(old(trace.view), trace.view, t, this) && old(trace.steps) <= trace.steps
      ensures Follows(trace, t, Passing(todo))
      ensures state == if old(state) == Degraded && process.Alive? && answer then Healthy else old(state)
    {
      if state == Degraded {
        Advance(state, PassReread(t), ProbingDegraded(this, todo), trace, t);
        ProbeDegraded(answer, trace, t, todo);
      } else {
        Advance(state, PassReread(t), Passing(todo), trace, t);
      }
    }

    /** What a watchdog pass does with a worker that has not crashed. */
    method CheckHealth(answer: bool, ghost trace: Trace, ghost t: nat, ghost todo: seq<WorkerProcess>)
      requires Follows(trace, t, Reading(this, todo))
      modifies this`state, trace
      ensures Local(old(trace.view), trace.view, t, this) && old(trace.steps) <= trace.steps
      ensures Follows(trace, t, Passing(todo)) && state == ProbedState(old(state), process.Alive? && answer)
    {
      if state == Healthy {
        Advance(state, PassRead(t), ProbingHealthy(this, todo), trace, t);
        ProbeHealthy(answer, trace, t, todo);
      } else {
        Advance(state, PassRead(t), Rereading(this, todo), trace, t);
        RereadHealth(answer, trace, t, todo);
      }
    }

    /** `stop`: `code` is how the process ends when signalled; if it outlives
        SIGKILL, the second wait raises after the state has been written. */
    method Stop(code: int, dies: bool, ghost trace: Trace, ghost t: nat, ghost after: After<WorkerProcess>)
      returns (raised: bool)
      requires Follows(trace, t, InStop(this, Entering, after))
      modifies this, trace
      ensures Local(old(trace.view), trace.view, t, this) && old(trace.steps) <= trace.steps
      ensures Follows(trace, t, if raised then RaisingTo(this, after) else Returning(this, after))
      ensures state == Stopped && intentionalShutdown
      ensures raised <==> old(process.Alive?) && !dies
      ensures process == (if old(process.Alive?) && dies then Exited(code) else old(process))
      ensures latestCrash == old(latestCrash)
    {
      if !process.Alive? {
        trace.Move(StopEnter(t), t, this, Returning(this, after), StopEntered(Value()));
        intentionalShutdown, state := true, Stopped;
        return false;
      }
      trace.Move(StopEnter(t), t, this, InStop(this, Signalling, after), StopEntered(Value()));
      intentionalShutdown, state := true, Stopping;
      raised := Terminate(code, dies, trace, t, after);
    }

    /** The rest of `stop`, once the shutdown is recorded as intended. */
    method Terminate(code: int, dies: bool, ghost trace: Trace, ghost t: nat, ghost after: After<WorkerProcess>)
      returns (raised: bool)
      requires Follows(trace, t, InStop(this, Signalling, after)) && process.Alive?
      modifies this`state, this`process, trace
      ensures Local(old(trace.view), trace.view, t, this) && old(trace.steps) <= trace.steps
      ensures Follows(trace, t, if raised then RaisingTo(this, after) else Returning(this, after))
      ensures state == Stopped && raised == !dies && process == (if dies then Exited(code) else old(process))
    {
      if dies {
        trace.Move(StopSignal(t, code), t, this, InStop(this, Finishing, after), Ended(Value(), code));
        process := Exited(code);
        Advance(Stopped, StopFinish(t), Returning(this, after), trace, t);
      } else {
        WaitInVain(trace, t, after);
      }
      return !dies;
    }

    /** The second wait runs out, and the state is written all the same. */
    method WaitInVain(ghost trace: Trace, ghost t: nat, ghost after: After<WorkerProcess>)
      requires Follows(trace, t, InStop(this, Signalling, after))
      modifies this`state, trace
      ensures Local(old(trace.view), trace.view, t, this) && old(trace.steps) <= trace.steps
      ensures Follows(trace, t, RaisingTo(this, after)) && state == Stopped
    {
      Advance(state, StopTimesOut(t), InStop(this, Raising, after), trace, t);
      Advance(Stopped, StopFinish(t), RaisingTo(this, after), trace, t);
    }
  }
}
