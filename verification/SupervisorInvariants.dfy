/** What every step of the supervisor keeps, whatever the interleaving. */
module SupervisorInvariants {
  import opened Wrappers
  import opened WorkerStates
  import opened SupervisorProtocol

  /** The worker whose launch a thread is conducting, up to activation or roll back. */
  function Conducts<W>(pc: Pc<W>): Option<W> {
    if pc.Spawned? || pc.Polling? || pc.Probing? || pc.MarkingHealthy? || pc.Ready? || pc.Unregistering? then Some(pc.w)
    else if pc.InStop? && pc.after.RollBack? then Some(pc.w)
    else None
  }

  /** The worker a swap has pushed out of the pointer and not yet disposed of. */
  function Disposes<W>(pc: Pc<W>): Option<W> {
    if pc.Switched? then pc.previous else None
  }

  /** The worker a drain is retiring. */
  function Retires<W>(pc: Pc<W>): Option<W> {
    if pc.ToDrain? || pc.Cleaning? then Some(pc.w)
    else if pc.InStop? && pc.after.RetireDrained? then Some(pc.w)
    else None
  }

  /** The worker a watchdog pass or a supervisor stop is dealing with. */
  function Visits<W>(pc: Pc<W>): Option<W> {
    if pc.Reporting? || pc.Reading? || pc.Rereading? || pc.ProbingHealthy? || pc.ProbingDegraded? || pc.Writing?
      then Some(pc.w)
    else if pc.InStop? && pc.after.ContinueStopAll? then Some(pc.w)
    else None
  }

  /** The workers it has still to deal with. */
  function Todo<W>(pc: Pc<W>): seq<W> {
    if pc.InStop? && pc.after.ContinueStopAll? then pc.after.todo
    else if pc.Passing? || pc.StoppingAll? || (Visits(pc).Some? && !pc.InStop?) then pc.todo
    else []
  }

  ghost predicate Logs<W>(s: Sys<W>) {
    && NoDuplicates(s.registered)
    && NoDuplicates(s.activations)
    && NoDuplicates(s.displaced)
    && NoDuplicates(s.handed)
    && (forall w | w in s.registered :: w in s.workers)
    && (forall w | w in s.activations :: w in s.workers)
    && (forall w | w in s.displaced :: w in s.activations)
    && (forall w | w in s.handed :: w in s.displaced)
    && (forall w | w in s.activations :: w in s.handed || w in s.registered)
    && (s.active.Some? ==> s.active.value in s.activations && s.active.value !in s.displaced)
  }

  ghost predicate Workers<W>(s: Sys<W>) {
    forall w | w in s.workers ::
      CrashIsReported(s.workers[w]) && (s.workers[w].process.Alive? ==> w in s.registered)
  }

  ghost predicate Conducted<W>(s: Sys<W>, w: W, spawned: bool) {
    && w in s.workers && w in s.registered && w !in s.activations
    && (spawned <==> s.workers[w].process.NoProcess?)
  }

  ghost predicate Gone<W>(s: Sys<W>, w: W) {
    w in s.workers && w !in s.registered && w !in s.activations && !s.workers[w].process.Alive?
  }

  ghost predicate ThreadOk<W>(s: Sys<W>, pc: Pc<W>) {
    && (Conducts(pc).Some? ==> Conducted(s, Conducts(pc).value, pc.Spawned?))
    && (Disposes(pc).Some? ==> Disposes(pc).value in s.displaced && Disposes(pc).value !in s.handed)
    && (Retires(pc).Some? ==> Retires(pc).value in s.handed)
    && ((pc.InStop? && pc.phase == Finishing) || pc.Reporting? ==> pc.w in s.workers && s.workers[pc.w].process.Exited?)
    && (Visits(pc).Some? ==> Visits(pc).value in s.workers)
    && (forall w | w in Todo(pc) :: w in s.workers)
    && (pc.InStop? && pc.phase != Entering ==> pc.w in s.workers && !s.workers[pc.w].process.NoProcess?)
    && (pc.Unregistering? ==> pc.w in s.workers && !s.workers[pc.w].process.Alive?)
    && (pc.Writing? ==> pc.value == Healthy || pc.value == Degraded)
    && (pc.Finished? && pc.outcome.RolledBack? ==> Gone(s, pc.outcome.w))
  }

  ghost predicate Threads<W>(s: Sys<W>) {
    forall t | t in s.threads :: ThreadOk(s, s.threads[t])
  }

  ghost predicate Apart<W>(a: Pc<W>, b: Pc<W>) {
    && (Conducts(a).Some? ==> Conducts(a) != Conducts(b))
    && (Disposes(a).Some? ==> Disposes(a) != Disposes(b))
  }

  ghost predicate Exclusive<W>(s: Sys<W>) {
    forall t, u | t in s.threads && u in s.threads && t != u :: Apart(s.threads[t], s.threads[u])
  }

  ghost predicate Inv<W>(s: Sys<W>) {
    Logs(s) && Workers(s) && Threads(s) && Exclusive(s)
  }

  predicate Later(p: Process, q: Process) {
    p == q || p.NoProcess? || (p.Alive? && q.Exited?)
  }

  /** Nothing that any thread relies on is taken back. */
  ghost predicate Evolves<W>(s: Sys<W>, s': Sys<W>) {
    && (forall w | w in s.workers :: w in s'.workers && Later(s.workers[w].process, s'.workers[w].process))
    && (forall w | w in s.displaced :: w in s'.displaced)
    && (forall w | w in s.handed :: w in s'.handed)
    && (forall w | w in s.workers && w in s'.registered :: w in s.registered)
  }

  /** A step by another thread leaves this thread's own worker alone. */
  ghost predicate LeftAlone<W>(s: Sys<W>, s': Sys<W>, pc: Pc<W>) {
    && (Conducts(pc).Some? ==>
          var w := Conducts(pc).value;
          && w in s.workers && w in s'.workers
          && w in s'.registered && w !in s'.activations
          && (s.workers[w].process.NoProcess? <==> s'.workers[w].process.NoProcess?))
    && (Disposes(pc).Some? ==> Disposes(pc).value !in s'.handed)
    && (pc.Finished? && pc.outcome.RolledBack? ==> Gone(s', pc.outcome.w))
  }

  lemma ThreadStaysOk<W>(s: Sys<W>, s': Sys<W>, pc: Pc<W>)
    requires ThreadOk(s, pc) && Evolves(s, s') && LeftAlone(s, s', pc)
    ensures ThreadOk(s', pc)
  {
  }

  /** The thread-modular rule: the moved threads are accounted for one by one,
      every other thread is left alone. */
  lemma ThreadsStayOk<W>(s: Sys<W>, s': Sys<W>, moved: set<nat>)
    requires Threads(s) && Evolves(s, s')
    requires forall t | t in s'.threads && t !in moved ::
               t in s.threads && s'.threads[t] == s.threads[t] && LeftAlone(s, s', s.threads[t])
    requires forall t | t in s'.threads && t in moved :: ThreadOk(s', s'.threads[t])
    ensures Threads(s')
  {
    forall t | t in s'.threads ensures ThreadOk(s', s'.threads[t]) {
      if t !in moved {
        ThreadStaysOk(s, s', s.threads[t]);
      }
    }
  }

  /** Only thread `t` and worker `w` differ. */
  ghost predicate Local<W>(s: Sys<W>, s': Sys<W>, t: nat, w: W) {
    && s'.registered == s.registered && s'.active == s.active
    && s'.activations == s.activations && s'.displaced == s.displaced && s'.handed == s.handed
    && t in s.threads && w in s.workers
    && s'.threads.Keys == s.threads.Keys && s'.workers.Keys == s.workers.Keys
    && (forall u | u in s.threads && u != t :: s'.threads[u] == s.threads[u])
    && (forall v | v in s.workers && v != w :: s'.workers[v] == s.workers[v])
  }

  lemma LocalUpdatesOneWorker<W>(s: Sys<W>, s': Sys<W>, t: nat, w: W)
    requires Local(s, s', t, w)
    ensures s'.workers == s.workers[w := s'.workers[w]]
  {
  }

  lemma ExclusiveStays<W>(s: Sys<W>, s': Sys<W>, t: nat)
    requires Exclusive(s) && t in s.threads && s'.threads.Keys == s.threads.Keys
    requires forall u | u in s.threads && u != t :: s'.threads[u] == s.threads[u]
    requires Conducts(s'.threads[t]) == None || Conducts(s'.threads[t]) == Conducts(s.threads[t])
    requires Disposes(s'.threads[t]) == None
    ensures Exclusive(s')
  {
    forall u, v | u in s'.threads && v in s'.threads && u != v
      ensures Apart(s'.threads[u], s'.threads[v])
    {
      assert Apart(s.threads[u], s.threads[v]);
    }
  }

  /** A step that moves one thread and rewrites one worker, without reviving a
      process, keeps the invariant once the moved thread is accounted for. */
  lemma LocalStepKeepsInv<W>(s: Sys<W>, s': Sys<W>, t: nat, w: W)
    requires Inv(s) && Local(s, s', t, w)
    requires CrashIsReported(s'.workers[w])
    requires s'.workers[w].process == s.workers[w].process
               || (s.workers[w].process.Alive? && s'.workers[w].process.Exited?)
    requires Conducts(s'.threads[t]) == None || Conducts(s'.threads[t]) == Conducts(s.threads[t])
    requires Disposes(s'.threads[t]) == None
    requires ThreadOk(s', s'.threads[t])
    ensures Inv(s')
  {
    ExclusiveStays(s, s', t);
    assert Evolves(s, s');
    forall u | u in s.threads && u != t ensures LeftAlone(s, s', s.threads[u]) {
      assert ThreadOk(s, s.threads[u]);
    }
    ThreadsStayOk(s, s', {t});
  }

  predicate IsLaunchLocal<W>(step: Step<W>) {
    step.StartFails? || step.Poll? || step.GiveUp? || step.Probe? || step.MarkHealthy?
  }

  predicate IsStopLocal<W>(step: Step<W>) {
    step.Drain? || step.StopEnter? || step.StopSignal? || step.StopTimesOut? || step.StopFinish?
  }

  predicate IsWatchLocal<W>(step: Step<W>) {
    step.PassCheck? || step.PassRead? || step.PassReread? || step.PassProbe? || step.PassWrite?
  }

  /** The steps that move one thread and touch at most one worker. */
  predicate IsLocal<W>(step: Step<W>) {
    IsLaunchLocal(step) || IsStopLocal(step) || IsWatchLocal(step)
  }

  /** The worker such a step is about. */
  function Subject<W>(s: Sys<W>, step: Step<W>): W
    requires IsLocal(step) && Enabled(s, step)
  {
    if step.PassCheck? then s.threads[step.t].todo[0] else s.threads[step.t].w
  }

  lemma LaunchStepMovesOneThread<W>(s: Sys<W>, step: Step<W>)
    requires Enabled(s, step) && IsLaunchLocal(step) && Subject(s, step) in s.workers
    ensures Local(s, Apply(s, step), step.t, Subject(s, step))
  {
  }

  lemma StopStepMovesOneThread<W>(s: Sys<W>, step: Step<W>)
    requires Enabled(s, step) && IsStopLocal(step) && Subject(s, step) in s.workers
    ensures Local(s, Apply(s, step), step.t, Subject(s, step))
  {
  }

  lemma WatchdogStepMovesOneThread<W>(s: Sys<W>, step: Step<W>)
    requires Enabled(s, step) && IsWatchLocal(step) && Subject(s, step) in s.workers
    ensures Local(s, Apply(s, step), step.t, Subject(s, step))
  {
  }

  lemma LocalStepMovesOneThread<W>(s: Sys<W>, step: Step<W>)
    requires Enabled(s, step) && IsLocal(step) && Subject(s, step) in s.workers
    ensures Local(s, Apply(s, step), step.t, Subject(s, step))
  {
    if IsLaunchLocal(step) {
      LaunchStepMovesOneThread(s, step);
    } else if IsStopLocal(step) {
      StopStepMovesOneThread(s, step);
    } else {
      WatchdogStepMovesOneThread(s, step);
    }
  }

  ghost predicate UpdatedOk<W>(s: Sys<W>, s': Sys<W>, w: W) {
    && w in s.workers && w in s'.workers && CrashIsReported(s'.workers[w])
    && (s'.workers[w].process == s.workers[w].process || (s.workers[w].process.Alive? && s'.workers[w].process.Exited?))
  }

  lemma LocalStepUpdatesOneWorker<W>(s: Sys<W>, step: Step<W>)
    requires Enabled(s, step) && IsLocal(step) && Subject(s, step) in s.workers
    requires s.threads[step.t].Writing? ==> s.threads[step.t].value != Crashed
    requires CrashIsReported(s.workers[Subject(s, step)])
    ensures UpdatedOk(s, Apply(s, step), Subject(s, step))
  {
    if IsLaunchLocal(step) {
      LaunchStepUpdatesOneWorker(s, step);
    } else if IsStopLocal(step) {
      StopStepUpdatesOneWorker(s, step);
    } else {
      WatchdogStepUpdatesOneWorker(s, step);
    }
  }

  lemma LaunchStepUpdatesOneWorker<W>(s: Sys<W>, step: Step<W>)
    requires Enabled(s, step) && IsLaunchLocal(step) && Subject(s, step) in s.workers
    requires CrashIsReported(s.workers[Subject(s, step)])
    ensures UpdatedOk(s, Apply(s, step), Subject(s, step))
  {
  }

  lemma StopStepUpdatesOneWorker<W>(s: Sys<W>, step: Step<W>)
    requires Enabled(s, step) && IsStopLocal(step) && Subject(s, step) in s.workers
    requires CrashIsReported(s.workers[Subject(s, step)])
    ensures UpdatedOk(s, Apply(s, step), Subject(s, step))
  {
  }

  lemma WatchdogStepUpdatesOneWorker<W>(s: Sys<W>, step: Step<W>)
    requires Enabled(s, step) && IsWatchLocal(step) && Subject(s, step) in s.workers
    requires s.threads[step.t].Writing? ==> s.threads[step.t].value != Crashed
    requires CrashIsReported(s.workers[Subject(s, step)])
    ensures UpdatedOk(s, Apply(s, step), Subject(s, step))
  {
  }

  ghost predicate MovedOk<W>(s: Sys<W>, s': Sys<W>, t: nat)
    requires t in s.threads && t in s'.threads
  {
    && (Conducts(s'.threads[t]) == None || Conducts(s'.threads[t]) == Conducts(s.threads[t]))
    && Disposes(s'.threads[t]) == None
    && ThreadOk(s', s'.threads[t])
  }

  lemma PollIsOk<W>(s: Sys<W>, step: Step<W>)
    requires Enabled(s, step) && (step.Poll? || step.StartFails?) && ThreadOk(s, s.threads[step.t])
    ensures MovedOk(s, Apply(s, step), step.t)
  {
  }

  lemma LaunchStepIsOk<W>(s: Sys<W>, step: Step<W>)
    requires Enabled(s, step) && (step.GiveUp? || step.Probe? || step.MarkHealthy?) && ThreadOk(s, s.threads[step.t])
    ensures MovedOk(s, Apply(s, step), step.t)
  {
  }

  lemma StopEnterIsOk<W>(s: Sys<W>, t: nat)
    requires Enabled(s, StopEnter(t)) && ThreadOk(s, s.threads[t])
    ensures MovedOk(s, Apply(s, StopEnter(t)), t)
  {
  }

  lemma StopFinishIsOk<W>(s: Sys<W>, t: nat)
    requires Enabled(s, StopFinish(t)) && ThreadOk(s, s.threads[t])
    ensures MovedOk(s, Apply(s, StopFinish(t)), t)
  {
  }

  lemma StopStepIsOk<W>(s: Sys<W>, step: Step<W>)
    requires Enabled(s, step) && (step.Drain? || step.StopSignal? || step.StopTimesOut?)
    requires ThreadOk(s, s.threads[step.t])
    ensures MovedOk(s, Apply(s, step), step.t)
  {
  }

  lemma WatchdogCheckIsOk<W>(s: Sys<W>, t: nat)
    requires Enabled(s, PassCheck(t)) && ThreadOk(s, s.threads[t])
    ensures MovedOk(s, Apply(s, PassCheck(t)), t)
  {
    var todo := s.threads[t].todo;
    assert forall w | w in todo[1..] :: w in todo;
  }

  lemma WatchdogReadIsOk<W>(s: Sys<W>, step: Step<W>)
    requires Enabled(s, step) && (step.PassRead? || step.PassReread?) && ThreadOk(s, s.threads[step.t])
    ensures MovedOk(s, Apply(s, step), step.t)
  {
  }

  lemma WatchdogWriteIsOk<W>(s: Sys<W>, step: Step<W>)
    requires Enabled(s, step) && (step.PassProbe? || step.PassWrite?) && ThreadOk(s, s.threads[step.t])
    ensures MovedOk(s, Apply(s, step), step.t)
  {
  }

  lemma LocalStepIsOk<W>(s: Sys<W>, step: Step<W>)
    requires Enabled(s, step) && IsLocal(step) && ThreadOk(s, s.threads[step.t]) && Subject(s, step) in s.workers
    ensures MovedOk(s, Apply(s, step), step.t)
  {
    if IsLaunchLocal(step) {
      if step.Poll? || step.StartFails? {
        PollIsOk(s, step);
      } else {
        LaunchStepIsOk(s, step);
      }
    } else if IsStopLocal(step) {
      if step.StopEnter? {
        StopEnterIsOk(s, step.t);
      } else if step.StopFinish? {
        StopFinishIsOk(s, step.t);
      } else {
        StopStepIsOk(s, step);
      }
    } else {
      if step.PassCheck? {
        WatchdogCheckIsOk(s, step.t);
      } else if step.PassRead? || step.PassReread? {
        WatchdogReadIsOk(s, step);
      } else {
        WatchdogWriteIsOk(s, step);
      }
    }
  }

  lemma LocalKeepsInv<W>(s: Sys<W>, step: Step<W>)
    requires Inv(s) && Enabled(s, step) && IsLocal(step)
    ensures Inv(Apply(s, step))
  {
    assert ThreadOk(s, s.threads[step.t]);
    assert Subject(s, step) in s.workers;
    LocalStepMovesOneThread(s, step);
    LocalStepUpdatesOneWorker(s, step);
    LocalStepIsOk(s, step);
    LocalStepKeepsInv(s, Apply(s, step), step.t, Subject(s, step));
  }

  lemma BeginKeepsThreads<W>(s: Sys<W>, t: nat, w: W, caller: Caller)
    requires Logs(s) && Threads(s) && Enabled(s, Begin(t, w, caller))
    ensures Threads(Apply(s, Begin(t, w, caller)))
  {
    var s' := Apply(s, Begin(t, w, caller));
    forall u | u in s.threads ensures LeftAlone(s, s', s.threads[u]) {
      assert ThreadOk(s, s.threads[u]);
    }
    ThreadsStayOk(s, s', {t});
  }

  lemma BeginKeepsInv<W>(s: Sys<W>, t: nat, w: W, caller: Caller)
    requires Inv(s) && Enabled(s, Begin(t, w, caller))
    ensures Inv(Apply(s, Begin(t, w, caller)))
  {
    BeginKeepsThreads(s, t, w, caller);
    AppendToDistinct(s.registered, w);
    var s' := Apply(s, Begin(t, w, caller));
    forall u, v | u in s'.threads && v in s'.threads && u != v ensures Apart(s'.threads[u], s'.threads[v]) {
      assert u in s.threads ==> ThreadOk(s, s.threads[u]);
      assert v in s.threads ==> ThreadOk(s, s.threads[v]);
    }
  }

  lemma StartOkIsOk<W>(s: Sys<W>, t: nat)
    requires Enabled(s, StartOk(t)) && ThreadOk(s, s.threads[t])
    ensures MovedOk(s, Apply(s, StartOk(t)), t)
    ensures Local(s, Apply(s, StartOk(t)), t, s.threads[t].w)
  {
  }

  /** Starting is the one step that gives a worker its process; the worker is
      registered and nobody else conducts its launch. */
  lemma StartOkKeepsInv<W>(s: Sys<W>, t: nat)
    requires Inv(s) && Enabled(s, StartOk(t))
    ensures Inv(Apply(s, StartOk(t)))
  {
    var s' := Apply(s, StartOk(t));
    assert ThreadOk(s, s.threads[t]);
    StartOkIsOk(s, t);
    ExclusiveStays(s, s', t);
    assert Evolves(s, s');
    forall u | u in s.threads && u != t ensures LeftAlone(s, s', s.threads[u]) {
      assert ThreadOk(s, s.threads[u]) && Apart(s.threads[u], s.threads[t]);
    }
    ThreadsStayOk(s, s', {t});
  }

  lemma ActivateKeepsLogs<W>(s: Sys<W>, step: Step<W>)
    requires Logs(s) && Workers(s) && Enabled(s, step) && step.Activate? && ThreadOk(s, s.threads[step.t])
    ensures Logs(Apply(s, step)) && Workers(Apply(s, step))
  {
    AppendToDistinct(s.activations, s.threads[step.t].w);
    if s.active.Some? {
      AppendToDistinct(s.displaced, s.active.value);
    }
  }

  lemma ActivateMovesOneThread<W>(s: Sys<W>, t: nat)
    requires Enabled(s, Activate(t))
    ensures
      var s' := Apply(s, Activate(t));
      && Evolves(s, s') && s'.handed == s.handed && s'.registered == s.registered && s'.workers == s.workers
      && s'.activations == s.activations + [s.threads[t].w]
      && s'.threads.Keys == s.threads.Keys
      && (forall u | u in s.threads && u != t :: s'.threads[u] == s.threads[u])
  {
  }

  lemma ActivateIsOk<W>(s: Sys<W>, t: nat)
    requires Logs(s) && Enabled(s, Activate(t))
    ensures ThreadOk(Apply(s, Activate(t)), Apply(s, Activate(t)).threads[t])
  {
    assert s.active.Some? ==> s.active.value !in s.handed;
  }

  lemma ActivateKeepsThreads<W>(s: Sys<W>, t: nat)
    requires Inv(s) && Enabled(s, Activate(t))
    ensures Threads(Apply(s, Activate(t)))
  {
    var s' := Apply(s, Activate(t));
    assert ThreadOk(s, s.threads[t]);
    ActivateMovesOneThread(s, t);
    ActivateIsOk(s, t);
    forall u | u in s.threads && u != t ensures LeftAlone(s, s', s.threads[u]) {
      assert ThreadOk(s, s.threads[u]) && Apart(s.threads[u], s.threads[t]);
    }
    ThreadsStayOk(s, s', {t});
  }

  /** Two overlapping swaps never push the same worker out of the pointer. */
  lemma ActivateKeepsExclusive<W>(s: Sys<W>, step: Step<W>)
    requires Logs(s) && Threads(s) && Exclusive(s) && Enabled(s, step) && step.Activate?
    ensures Exclusive(Apply(s, step))
  {
    var s' := Apply(s, step);
    forall u, v | u in s'.threads && v in s'.threads && u != v ensures Apart(s'.threads[u], s'.threads[v]) {
      assert Apart(s.threads[u], s.threads[v]);
      assert ThreadOk(s, s.threads[u]) && ThreadOk(s, s.threads[v]);
    }
  }

  lemma HandOffKeepsLogs<W>(s: Sys<W>, t: nat, drainer: nat)
    requires Logs(s) && Workers(s) && Enabled(s, HandOff(t, drainer)) && ThreadOk(s, s.threads[t])
    ensures Logs(Apply(s, HandOff(t, drainer))) && Workers(Apply(s, HandOff(t, drainer)))
  {
    if s.threads[t].previous.Some? {
      AppendToDistinct(s.handed, s.threads[t].previous.value);
    }
  }

  lemma HandOffIsOk<W>(s: Sys<W>, t: nat, drainer: nat)
    requires Enabled(s, HandOff(t, drainer))
    ensures
      var s' := Apply(s, HandOff(t, drainer));
      && (forall u | u in s'.threads && u != t && u != drainer :: u in s.threads && s'.threads[u] == s.threads[u])
      && (forall u | u in s'.threads && (u == t || u == drainer) :: ThreadOk(s', s'.threads[u]))
  {
  }

  lemma HandOffEvolves<W>(s: Sys<W>, t: nat, drainer: nat)
    requires Enabled(s, HandOff(t, drainer))
    ensures
      var s' := Apply(s, HandOff(t, drainer));
      && Evolves(s, s') && s'.registered == s.registered && s'.workers == s.workers && s'.activations == s.activations
      && (forall w | w in s'.handed :: w in s.handed || Disposes(s.threads[t]) == Some(w))
  {
  }

  lemma HandOffKeepsThreads<W>(s: Sys<W>, t: nat, drainer: nat)
    requires Threads(s) && Exclusive(s) && Enabled(s, HandOff(t, drainer))
    ensures Threads(Apply(s, HandOff(t, drainer)))
  {
    var s' := Apply(s, HandOff(t, drainer));
    HandOffIsOk(s, t, drainer);
    HandOffEvolves(s, t, drainer);
    forall u | u in s.threads && u != t ensures LeftAlone(s, s', s.threads[u]) {
      assert ThreadOk(s, s.threads[u]) && Apart(s.threads[u], s.threads[t]);
    }
    ThreadsStayOk(s, s', {t, drainer});
  }

  lemma HandOffKeepsExclusive<W>(s: Sys<W>, t: nat, drainer: nat)
    requires Exclusive(s) && Enabled(s, HandOff(t, drainer))
    ensures Exclusive(Apply(s, HandOff(t, drainer)))
  {
    var s' := Apply(s, HandOff(t, drainer));
    forall u, v | u in s'.threads && v in s'.threads && u != v ensures Apart(s'.threads[u], s'.threads[v]) {
      if u in s.threads && v in s.threads { assert Apart(s.threads[u], s.threads[v]); }
    }
  }

  /** Thread `t` ends and worker `w` may leave the register: only the thread that
      conducts a launch, or the drain of a displaced worker, does this to `w`. */
  ghost predicate Deregisters<W>(s: Sys<W>, s': Sys<W>, t: nat, w: W) {
    && s'.workers == s.workers && s'.active == s.active && s'.activations == s.activations
    && s'.displaced == s.displaced && s'.handed == s.handed
    && t in s.threads && s'.threads.Keys == s.threads.Keys && s'.threads[t].Finished?
    && (forall u | u in s.threads && u != t :: s'.threads[u] == s.threads[u])
    && (s'.registered == s.registered || s'.registered == Remove(s.registered, w))
    && w in s.workers && (!s.workers[w].process.Alive? || s'.registered == s.registered)
    && (Conducts(s.threads[t]) == Some(w) || w in s.handed)
    && ThreadOk(s', s'.threads[t])
  }

  lemma DeregistrationKeepsInv<W>(s: Sys<W>, s': Sys<W>, t: nat, w: W)
    requires Inv(s) && Deregisters(s, s', t, w)
    ensures Inv(s')
  {
    RemoveFromDistinct(s.registered, w);
    forall u | u in s.threads && u != t ensures LeftAlone(s, s', s.threads[u]) {
      assert ThreadOk(s, s.threads[u]) && Apart(s.threads[u], s.threads[t]);
    }
    ThreadsStayOk(s, s', {t});
    ExclusiveStays(s, s', t);
  }

  lemma UnregisterDeregisters<W>(s: Sys<W>, t: nat)
    requires Logs(s) && Enabled(s, Unregister(t)) && ThreadOk(s, s.threads[t])
    ensures Deregisters(s, Apply(s, Unregister(t)), t, s.threads[t].w)
  {
    RemoveFromDistinct(s.registered, s.threads[t].w);
  }

  lemma CleanDeregisters<W>(s: Sys<W>, t: nat)
    requires Logs(s) && Enabled(s, Clean(t)) && ThreadOk(s, s.threads[t])
    ensures Deregisters(s, Apply(s, Clean(t)), t, s.threads[t].w)
  {
  }

  /** Only thread `t`, and possibly a cleared pointer, differ. */
  ghost predicate Bookkeeping<W>(s: Sys<W>, s': Sys<W>, t: nat) {
    && s'.workers == s.workers && s'.registered == s.registered && s'.activations == s.activations
    && s'.displaced == s.displaced && s'.handed == s.handed
    && (s'.active == None || s'.active == s.active)
    && s'.threads.Keys == s.threads.Keys + {t}
    && (forall u | u in s.threads && u != t :: s'.threads[u] == s.threads[u])
    && Conducts(s'.threads[t]) == None && Disposes(s'.threads[t]) == None
    && ThreadOk(s', s'.threads[t])
  }

  lemma BookkeepingKeepsInv<W>(s: Sys<W>, s': Sys<W>, t: nat)
    requires Inv(s) && Bookkeeping(s, s', t)
    ensures Inv(s')
  {
    forall u | u in s.threads && u != t ensures LeftAlone(s, s', s.threads[u]) {
      assert ThreadOk(s, s.threads[u]);
    }
    ThreadsStayOk(s, s', {t});
    forall u, v | u in s'.threads && v in s'.threads && u != v ensures Apart(s'.threads[u], s'.threads[v]) {
      if u in s.threads && v in s.threads { assert Apart(s.threads[u], s.threads[v]); }
    }
  }

  lemma PassStepIsBookkeeping<W>(s: Sys<W>, step: Step<W>)
    requires Logs(s) && Enabled(s, step)
    requires step.PassBegin? || step.StopAllBegin?
    ensures Bookkeeping(s, Apply(s, step), step.t)
  {
  }

  lemma StopAllNextIsBookkeeping<W>(s: Sys<W>, t: nat)
    requires Enabled(s, StopAllNext(t)) && ThreadOk(s, s.threads[t])
    ensures Bookkeeping(s, Apply(s, StopAllNext(t)), t)
  {
    assert forall w | w in s.threads[t].todo[1..] :: w in s.threads[t].todo;
  }

  lemma ReportIsBookkeeping<W>(s: Sys<W>, t: nat)
    requires Enabled(s, PassReport(t)) && ThreadOk(s, s.threads[t])
    ensures Bookkeeping(s, Apply(s, PassReport(t)), t)
  {
  }

  lemma EndStepIsBookkeeping<W>(s: Sys<W>, step: Step<W>)
    requires Enabled(s, step) && (step.PassEnd? || step.StopAllEnd?)
    ensures Bookkeeping(s, Apply(s, step), step.t)
  {
  }

  lemma BookkeepingStepKeepsInv<W>(s: Sys<W>, step: Step<W>)
    requires Inv(s) && Enabled(s, step)
    requires step.PassBegin? || step.StopAllBegin? || step.StopAllNext? || step.PassReport? || step.PassEnd?
               || step.StopAllEnd?
    ensures Inv(Apply(s, step))
  {
    if step.PassBegin? || step.StopAllBegin? {
      PassStepIsBookkeeping(s, step);
    } else {
      assert ThreadOk(s, s.threads[step.t]);
      if step.StopAllNext? {
        StopAllNextIsBookkeeping(s, step.t);
      } else if step.PassReport? {
        ReportIsBookkeeping(s, step.t);
      } else {
        EndStepIsBookkeeping(s, step);
      }
    }
    BookkeepingKeepsInv(s, Apply(s, step), step.t);
  }

  lemma ProcessExitKeepsInv<W>(s: Sys<W>, step: Step<W>)
    requires Inv(s) && Enabled(s, step) && step.ProcessExits?
    ensures Inv(Apply(s, step))
  {
    var s' := Apply(s, step);
    forall u | u in s.threads ensures LeftAlone(s, s', s.threads[u]) {
      assert ThreadOk(s, s.threads[u]);
    }
    ThreadsStayOk(s, s', {});
  }

  lemma SwitchStepKeepsInv<W>(s: Sys<W>, step: Step<W>)
    requires Inv(s) && Enabled(s, step)
    requires step.Activate? || step.HandOff? || step.Unregister? || step.Clean?
    ensures Inv(Apply(s, step))
  {
    assert ThreadOk(s, s.threads[step.t]);
    match step
    case Activate(_) =>
      ActivateKeepsLogs(s, step);
      ActivateKeepsThreads(s, step.t);
      ActivateKeepsExclusive(s, step);
    case HandOff(t, drainer) =>
      HandOffKeepsLogs(s, t, drainer);
      HandOffKeepsThreads(s, t, drainer);
      HandOffKeepsExclusive(s, t, drainer);
    case Unregister(t) =>
      UnregisterDeregisters(s, t);
      DeregistrationKeepsInv(s, Apply(s, Unregister(t)), t, s.threads[t].w);
    case Clean(t) =>
      CleanDeregisters(s, t);
      DeregistrationKeepsInv(s, Apply(s, Clean(t)), t, s.threads[t].w);
  }

  lemma StepKeepsInv<W>(s: Sys<W>, step: Step<W>)
    requires Inv(s) && Enabled(s, step)
    ensures Inv(Apply(s, step))
  {
    if IsLocal(step) {
      LocalKeepsInv(s, step);
    } else if step.Begin? {
      BeginKeepsInv(s, step.t, step.w, step.caller);
    } else if step.StartOk? {
      StartOkKeepsInv(s, step.t);
    } else if step.ProcessExits? {
      ProcessExitKeepsInv(s, step);
    } else if step.Activate? || step.HandOff? || step.Unregister? || step.Clean? {
      SwitchStepKeepsInv(s, step);
    } else {
      BookkeepingStepKeepsInv(s, step);
    }
  }

  /** Every state of every run satisfies the invariant. */
  lemma {:induction false} RunKeepsInv<W>(s: Sys<W>, steps: seq<Step<W>>)
    requires Inv(s) && IsRun(s, steps)
    ensures Inv(Reached(s, steps))
  {
    if steps != [] {
      var before := steps[..|steps| - 1];
      RunKeepsInv(s, before);
      StepKeepsInv(Reached(s, before), steps[|steps| - 1]);
    }
  }
}
