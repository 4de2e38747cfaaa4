/** The persisted life of a deployment: the steps of `start`, `stop` and `inspect`
    between which the runtime can die, and the host processes they launch and end.
    A process is named by its position among all launches, so no identity is reused. */
module DeploymentLifecycle {
  import opened Wrappers

  type Id = nat
  type Pid = nat

  datatype Phase = Starting | Ready | Failed | Released

  datatype Document = Document(phase: Phase, pid: Option<Pid>)

  datatype Error = NotFound | RequestInvalid | ArtifactUnavailable | NotReady | Unexpected

  datatype Reply = Status(id: Id, ready: bool, released: bool) | Refused(id: Id, error: Error)

  /** Where the holder of the runtime's lock stands. */
  datatype Pc =
    | Idle
    | Preparing(id: Id)
    | Launching(id: Id)
    | Recording(id: Id, pid: Pid)
    | Awaiting(id: Id, pid: Pid)
    | Failing(id: Id, pid: Pid)
    | Stopping(id: Id, pid: Pid)
    | Saving(id: Id, document: Document, error: Option<Error>)

  /** What the host knows of the launched processes: those that run, those that ended
      by themselves, the children of the runtime as it is now, and those it has
      waited for. */
  datatype Host = Host(alive: set<Pid>, exited: set<Pid>, children: set<Pid>, reaped: set<Pid>) {
    /** An own child that ended and was not waited for stays in the process table. */
    predicate Unreaped(p: Pid) {
      p in children && p in exited && p !in reaped
    }

    /** Signal 0 finds the process: it runs, or it is such a child. */
    predicate Answers(p: Pid) {
      p in alive || Unreaped(p)
    }
  }

  /** `documents` is on disk and `processes` in memory. The last three fields are
      history: the processes whose identity reached the disk, those whose last
      termination left them running, and the replies. */
  datatype Sys = Sys(documents: map<Id, Document>, processes: map<Id, Pid>, pc: Pc, launches: seq<Id>, host: Host,
                     recorded: set<Pid>, survived: set<Pid>, replies: seq<Reply>)

  datatype Preparation = Prepared | Declined | Raised

  /** How `_terminate` leaves: the process was gone, the signal was refused, the
      process ended, or it outlived both waits. */
  datatype Ending = Gone | Denied | Ended | Survived

  /** How `_await_ready` leaves: answered, with the process found gone (and so waited
      for), at the deadline, or through an exception that it does not catch. */
  datatype Waiting = CameUp | FoundGone | RanOut | Escaped

  /** `Reap` is the wait for a child whose process object was dropped. */
  datatype Step =
    | StartCall(id: Id, valid: bool, saves: bool)
    | Prepare(outcome: Preparation)
    | Launch(launches: bool)
    | Record(saves: bool)
    | Await(waiting: Waiting)
    | Terminate(ending: Ending)
    | Save(saves: bool)
    | StopCall(id: Id)
    | Inspect(id: Id)
    | Exit(pid: Pid)
    | Reap(pid: Pid)
    | Restart

  function Init(): Sys {
    Sys(map[], map[], Idle, [], Host({}, {}, {}, {}), {}, {}, [])
  }

  /** What `_public` takes for a ready deployment. */
  predicate ReadsReady(host: Host, document: Document) {
    document.phase == Ready && document.pid.Some? && host.Answers(document.pid.value)
  }

  /** `_public`. */
  function Public(host: Host, id: Id, document: Document): Reply {
    Status(id, ReadsReady(host, document), document.phase == Released)
  }

  function Answered(s: Sys, reply: Reply): Sys {
    s.(pc := Idle, replies := s.replies + [reply])
  }

  function Written(s: Sys, id: Id, document: Document): Sys {
    s.(documents := s.documents[id := document])
  }

  predicate Known(processes: map<Id, Pid>, id: Id, pid: Pid) {
    id in processes && processes[id] == pid
  }

  /** How a termination can leave. A child the runtime still holds is waited for, so
      once dead it ends; a child it no longer holds keeps answering when dead. */
  predicate CanEnd(host: Host, held: bool, pid: Pid, ending: Ending) {
    match ending
    case Gone => !host.Answers(pid)
    case Denied => host.Answers(pid)
    case Ended => host.Answers(pid) && (held || pid !in host.children)
    case Survived => host.Answers(pid) && !(held && host.Unreaped(pid))
  }

  predicate Enabled(s: Sys, step: Step) {
    match step
    case StartCall(_, _, _) => s.pc.Idle?
    case StopCall(_) => s.pc.Idle?
    case Inspect(_) => s.pc.Idle?
    case Prepare(_) => s.pc.Preparing?
    case Launch(_) => s.pc.Launching?
    case Record(_) => s.pc.Recording?
    case Await(outcome) => s.pc.Awaiting? && (outcome.FoundGone? ==> s.pc.pid !in s.host.alive)
    case Terminate(ending) =>
      (s.pc.Failing? || s.pc.Stopping?) && CanEnd(s.host, Known(s.processes, s.pc.id, s.pc.pid), s.pc.pid, ending)
    case Save(_) => s.pc.Saving?
    case Exit(pid) => pid in s.host.alive
    case Reap(pid) => s.host.Unreaped(pid) && pid !in s.processes.Values
    case Restart => true
  }

  function StartCallStep(s: Sys, id: Id, valid: bool, saves: bool): Sys {
    if id in s.documents then Answered(s, Public(s.host, id, s.documents[id]))
    else if !valid then Answered(s, Refused(id, RequestInvalid))
    else if !saves then Answered(s, Refused(id, Unexpected))
    else Written(s, id, Document(Starting, None)).(pc := Preparing(id))
  }

  function PrepareStep(s: Sys, outcome: Preparation): Sys
    requires s.pc.Preparing?
  {
    match outcome
    case Prepared => s.(pc := Launching(s.pc.id))
    case Declined => s.(pc := Saving(s.pc.id, Document(Failed, None), Some(ArtifactUnavailable)))
    case Raised => Answered(s, Refused(s.pc.id, Unexpected))
  }

  function Spawned(host: Host, pid: Pid): Host {
    host.(alive := host.alive + {pid}, children := host.children + {pid})
  }

  function Reaped(host: Host, pid: Pid): Host {
    host.(reaped := host.reaped + {pid})
  }

  function Killed(host: Host, pid: Pid): Host {
    host.(alive := host.alive - {pid}, reaped := host.reaped + {pid})
  }

  function Exited(host: Host, pid: Pid): Host {
    host.(alive := host.alive - {pid}, exited := host.exited + {pid})
  }

  /** The runtime dies: its children go to the init process, which waits for them. */
  function Orphaned(host: Host): Host {
    host.(children := {})
  }

  function LaunchStep(s: Sys, launches: bool): Sys
    requires s.pc.Launching?
  {
    if launches
    then s.(pc := Recording(s.pc.id, |s.launches|), launches := s.launches + [s.pc.id],
            host := Spawned(s.host, |s.launches|))
    else Answered(s, Refused(s.pc.id, Unexpected))
  }

  function RecordStep(s: Sys, saves: bool): Sys
    requires s.pc.Recording?
  {
    var known := s.(processes := s.processes[s.pc.id := s.pc.pid]);
    if saves
    then Written(known, s.pc.id, Document(Starting, Some(s.pc.pid))).(
           pc := Awaiting(s.pc.id, s.pc.pid), recorded := s.recorded + {s.pc.pid})
    else Answered(known, Refused(s.pc.id, Unexpected))
  }

  function AwaitStep(s: Sys, outcome: Waiting): Sys
    requires s.pc.Awaiting?
  {
    match outcome
    case CameUp => s.(pc := Saving(s.pc.id, Document(Ready, Some(s.pc.pid)), None))
    case FoundGone => s.(pc := Failing(s.pc.id, s.pc.pid), host := Reaped(s.host, s.pc.pid))
    case RanOut => s.(pc := Failing(s.pc.id, s.pc.pid))
    case Escaped => Answered(s, Refused(s.pc.id, Unexpected))
  }

  /** The effect of `_terminate` on memory and host. */
  function Terminated(s: Sys, id: Id, pid: Pid, ending: Ending): Sys {
    match ending
    case Gone => s.(processes := s.processes - {id})
    case Denied => s.(processes := s.processes - {id}, survived := s.survived + ({pid} * s.host.alive))
    case Ended => s.(processes := s.processes - {id}, host := Killed(s.host, pid), survived := s.survived - {pid})
    case Survived => s.(survived := s.survived + ({pid} * s.host.alive))
  }

  function TerminateStep(s: Sys, ending: Ending): Sys
    requires s.pc.Failing? || s.pc.Stopping?
  {
    var after := Terminated(s, s.pc.id, s.pc.pid, ending);
    if s.pc.Failing? then after.(pc := Saving(s.pc.id, Document(Failed, Some(s.pc.pid)), Some(NotReady)))
    else after.(pc := Saving(s.pc.id, Document(Released, None), None))
  }

  function SaveStep(s: Sys, saves: bool): Sys
    requires s.pc.Saving?
  {
    if !saves then Answered(s, Refused(s.pc.id, Unexpected))
    else
      var saved := Written(s, s.pc.id, s.pc.document);
      Answered(saved, if s.pc.error.Some? then Refused(s.pc.id, s.pc.error.value)
        else Public(saved.host, s.pc.id, s.pc.document))
  }

  function StopCallStep(s: Sys, id: Id): Sys {
    if id !in s.documents then Answered(s, Refused(id, NotFound))
    else if s.documents[id].phase == Released then Answered(s, Public(s.host, id, s.documents[id]))
    else if s.documents[id].pid.Some? then s.(pc := Stopping(id, s.documents[id].pid.value))
    else s.(pc := Saving(id, Document(Released, None), None))
  }

  function InspectStep(s: Sys, id: Id): Sys {
    if id !in s.documents then Answered(s, Refused(id, NotFound)) else Answered(s, Public(s.host, id, s.documents[id]))
  }

  function Apply(s: Sys, step: Step): Sys
    requires Enabled(s, step)
  {
    match step
    case StartCall(id, valid, saves) => StartCallStep(s, id, valid, saves)
    case Prepare(outcome) => PrepareStep(s, outcome)
    case Launch(launches) => LaunchStep(s, launches)
    case Record(saves) => RecordStep(s, saves)
    case Await(outcome) => AwaitStep(s, outcome)
    case Terminate(ending) => TerminateStep(s, ending)
    case Save(saves) => SaveStep(s, saves)
    case StopCall(id) => StopCallStep(s, id)
    case Inspect(id) => InspectStep(s, id)
    case Exit(pid) => s.(host := Exited(s.host, pid))
    case Reap(pid) => s.(host := Reaped(s.host, pid))
    case Restart => s.(pc := Idle, processes := map[], host := Orphaned(s.host))
  }

  /** Where the steps lead; a step that is not enabled is skipped. */
  function After(s: Sys, steps: seq<Step>): Sys {
    if steps == [] then s
    else
      var middle := After(s, steps[..|steps| - 1]);
      if Enabled(middle, steps[|steps| - 1]) then Apply(middle, steps[|steps| - 1]) else middle
  }

  /** A run from `s` to `t`: any calls, outcomes, exits and runtime deaths. */
  ghost predicate Run(s: Sys, steps: seq<Step>, t: Sys) {
    && t == After(s, steps)
    && forall i | 0 <= i < |steps| :: Enabled(After(s, steps[..i]), steps[i])
  }

  lemma {:induction false} LastStep(s: Sys, steps: seq<Step>, t: Sys) returns (middle: Sys)
    requires Run(s, steps, t) && steps != []
    ensures Run(s, steps[..|steps| - 1], middle)
    ensures Enabled(middle, steps[|steps| - 1]) && t == Apply(middle, steps[|steps| - 1])
  {
    var before := steps[..|steps| - 1];
    middle := After(s, before);
    assert forall i | 0 <= i < |before| :: before[..i] == steps[..i];
  }

  lemma {:induction false} ExtendRun(s: Sys, steps: seq<Step>, t: Sys, step: Step)
    requires Run(s, steps, t) && Enabled(t, step)
    ensures Run(s, steps + [step], Apply(t, step))
  {
    var longer := steps + [step];
    assert longer[..|steps|] == steps;
    assert forall i | 0 <= i < |steps| :: longer[..i] == steps[..i];
  }

  /** Some run leads from `s` to `t`. */
  ghost predicate Reaches(s: Sys, t: Sys) {
    exists steps: seq<Step> :: Run(s, steps, t)
  }

  lemma {:induction false} ReachesItself(s: Sys)
    ensures Reaches(s, s)
  {
    assert Run(s, [], s);
  }

  lemma {:induction false} ReachesByStep(s: Sys, t: Sys, step: Step)
    requires Reaches(s, t) && Enabled(t, step)
    ensures Reaches(s, Apply(t, step))
  {
    var steps: seq<Step> :| Run(s, steps, t);
    ExtendRun(s, steps, t, step);
  }

  lemma {:induction false} ReachesTransitively(a: Sys, b: Sys, c: Sys)
    requires Reaches(a, b) && Reaches(b, c)
    ensures Reaches(a, c)
  {
    var steps: seq<Step> :| Run(b, steps, c);
    ReachesAlong(a, b, steps, c);
  }

  lemma {:induction false} ReachesAlong(a: Sys, b: Sys, steps: seq<Step>, c: Sys)
    requires Reaches(a, b) && Run(b, steps, c)
    ensures Reaches(a, c)
  {
    if steps != [] {
      var middle := LastStep(b, steps, c);
      ReachesAlong(a, b, steps[..|steps| - 1], middle);
      ReachesByStep(a, middle, steps[|steps| - 1]);
    }
  }

  // ---- What every step keeps ---------------------------------------------

  ghost predicate Processes(s: Sys) {
    && (forall i, j | 0 <= i < j < |s.launches| :: s.launches[i] != s.launches[j])
    && (forall p | p in s.host.alive :: p < |s.launches|)
    && (forall p | p in s.recorded :: p < |s.launches|)
    && (forall p | p in s.survived :: p in s.recorded && (p in s.host.alive || p in s.host.exited))
    && (forall p | p in s.host.exited :: p < |s.launches| && p !in s.host.alive)
    && (forall p | p in s.host.reaped :: p < |s.launches| && p !in s.host.alive)
    && (forall p: nat | p < |s.launches| && p !in s.host.alive && p !in s.host.exited ::
          p in s.recorded && p !in s.survived)
  }

  ghost predicate Documents(s: Sys) {
    && (forall p: nat | p < |s.launches| :: s.launches[p] in s.documents)
    && (forall id | id in s.documents && s.documents[id].pid.Some? ::
          var p := s.documents[id].pid.value; p in s.recorded && p < |s.launches| && s.launches[p] == id)
    && (forall p | p in s.recorded && p < |s.launches| && s.launches[p] in s.documents ::
          var document := s.documents[s.launches[p]]; document.phase == Released || document.pid == Some(p))
    && (forall id | id in s.documents && s.documents[id].phase == Released :: s.documents[id].pid == None)
    && (forall p: nat | p < |s.launches| && s.launches[p] in s.documents
          && s.documents[s.launches[p]].phase == Released ::
          Ends(s, p))
  }

  /** A launched process is over: gone, or out of the runtime's reach. */
  ghost predicate Ends(s: Sys, p: Pid) {
    p in s.host.alive ==> p !in s.recorded || p in s.survived
  }

  ghost predicate Control(s: Sys) {
    match s.pc
    case Idle => true
    case Preparing(id) => id in s.documents && s.documents[id] == Document(Starting, None) && id !in s.launches
    case Launching(id) => id in s.documents && s.documents[id] == Document(Starting, None) && id !in s.launches
    case Recording(id, pid) =>
      && id in s.documents && s.documents[id] == Document(Starting, None)
      && pid < |s.launches| && s.launches[pid] == id && pid !in s.recorded
    case Awaiting(id, pid) => id in s.documents && s.documents[id] == Document(Starting, Some(pid))
    case Failing(id, pid) => id in s.documents && s.documents[id] == Document(Starting, Some(pid))
    case Stopping(id, pid) => id in s.documents && s.documents[id].phase != Released && s.documents[id].pid == Some(pid)
    case Saving(id, document, _) =>
      && id in s.documents && document.phase != Starting && s.documents[id].phase != Released
      && (document.phase != Released ==> s.documents[id] == Document(Starting, document.pid))
      && (document.phase == Released ==> document.pid == None)
      && (document.phase == Released ==> forall p: nat | p < |s.launches| && s.launches[p] == id :: Ends(s, p))
  }

  ghost predicate Inv(s: Sys) {
    Processes(s) && Documents(s) && Control(s)
  }

  lemma {:induction false} InitKeeps()
    ensures Inv(Init())
  {
  }

  lemma {:induction false} StartCallKeeps(s: Sys, id: Id, valid: bool, saves: bool)
    requires Inv(s) && s.pc.Idle?
    ensures Inv(StartCallStep(s, id, valid, saves))
  {
    var t := StartCallStep(s, id, valid, saves);
    if id !in s.documents && valid && saves {
      assert id !in s.launches;
      assert forall p: nat | p < |t.launches| :: t.documents[t.launches[p]] == s.documents[s.launches[p]];
    }
  }

  lemma {:induction false} LaunchKeeps(s: Sys, launches: bool)
    requires Inv(s) && s.pc.Launching?
    ensures Inv(LaunchStep(s, launches))
  {
    var t := LaunchStep(s, launches);
    if launches {
      assert forall p: nat | p < |s.launches| :: t.launches[p] == s.launches[p];
      assert |s.launches| !in s.recorded;
    }
  }

  lemma {:induction false} RecordKeeps(s: Sys, saves: bool)
    requires Inv(s) && s.pc.Recording?
    ensures Inv(RecordStep(s, saves))
  {
  }

  lemma {:induction false} TerminateKeeps(s: Sys, ending: Ending)
    requires Inv(s) && Enabled(s, Terminate(ending))
    ensures Inv(TerminateStep(s, ending))
  {
    var t := TerminateStep(s, ending);
    assert s.documents[s.pc.id].pid == Some(s.pc.pid);
  }

  lemma {:induction false} SaveKeeps(s: Sys, saves: bool)
    requires Inv(s) && s.pc.Saving?
    ensures Inv(SaveStep(s, saves))
  {
  }

  lemma {:induction false} StopCallKeeps(s: Sys, id: Id)
    requires Inv(s) && s.pc.Idle?
    ensures Inv(StopCallStep(s, id))
  {
  }

  lemma {:induction false} PrepareKeeps(s: Sys, outcome: Preparation)
    requires Inv(s) && s.pc.Preparing?
    ensures Inv(PrepareStep(s, outcome))
  {
  }

  lemma {:induction false} AwaitKeeps(s: Sys, outcome: Waiting)
    requires Inv(s) && Enabled(s, Await(outcome))
    ensures Inv(AwaitStep(s, outcome))
  {
  }

  lemma {:induction false} InspectKeeps(s: Sys, id: Id)
    requires Inv(s) && s.pc.Idle?
    ensures Inv(InspectStep(s, id))
  {
  }

  lemma {:induction false} HostKeeps(s: Sys, step: Step)
    requires Inv(s) && (step.Exit? || step.Reap? || step.Restart?) && Enabled(s, step)
    ensures Inv(Apply(s, step))
  {
  }

  lemma {:induction false} StepKeepsInv(s: Sys, step: Step)
    requires Inv(s) && Enabled(s, step)
    ensures Inv(Apply(s, step))
  {
    match step {
      case StartCall(id, valid, saves) => StartCallKeeps(s, id, valid, saves);
      case Launch(launches) => LaunchKeeps(s, launches);
      case Record(saves) => RecordKeeps(s, saves);
      case Terminate(ending) => TerminateKeeps(s, ending);
      case Save(saves) => SaveKeeps(s, saves);
      case StopCall(id) => StopCallKeeps(s, id);
      case Prepare(outcome) => PrepareKeeps(s, outcome);
      case Await(outcome) => AwaitKeeps(s, outcome);
      case Inspect(id) => InspectKeeps(s, id);
      case _ => HostKeeps(s, step);
    }
  }

  lemma {:induction false} RunKeepsInv(s: Sys, steps: seq<Step>, t: Sys)
    requires Run(s, steps, t) && Inv(s)
    ensures Inv(t)
  {
    if steps != [] {
      var middle := LastStep(s, steps, t);
      RunKeepsInv(s, steps[..|steps| - 1], middle);
      StepKeepsInv(middle, steps[|steps| - 1]);
    }
  }

  lemma {:induction false} ReachableKeepsInv(t: Sys)
    requires Reaches(Init(), t)
    ensures Inv(t)
  {
    var steps: seq<Step> :| Run(Init(), steps, t);
    InitKeeps();
    RunKeepsInv(Init(), steps, t);
  }

  // ---- Theorems over every run -------------------------------------------

  /** At most one process is ever launched for a deployment. */
  lemma {:induction false} AtMostOneLaunch(steps: seq<Step>, t: Sys, p: Pid, q: Pid)
    requires Run(Init(), steps, t)
    requires p < |t.launches| && q < |t.launches| && t.launches[p] == t.launches[q]
    ensures p == q
  {
    InitKeeps();
    RunKeepsInv(Init(), steps, t);
  }

  function Rank(phase: Phase): nat {
    match phase
    case Starting => 0
    case Ready => 1
    case Failed => 1
    case Released => 2
  }

  /** The order STARTING, then READY or FAILED, then RELEASED. */
  predicate Advances(a: Phase, b: Phase) {
    a == b || Rank(a) < Rank(b)
  }

  /** No reply from the `from`-th on says that `id` is ready. */
  ghost predicate NeverReady(t: Sys, from: nat, id: Id) {
    forall k | from <= k < |t.replies| && t.replies[k].Status? && t.replies[k].id == id :: !t.replies[k].ready
  }

  /** No launch from the `from`-th on is for `id`. */
  ghost predicate NeverLaunched(t: Sys, from: nat, id: Id) {
    forall k | from <= k < |t.launches| :: t.launches[k] != id
  }

  /** What any later state owes to an earlier one about one deployment. */
  ghost predicate Owes(s: Sys, t: Sys, id: Id) {
    && s.launches <= t.launches && s.replies <= t.replies
    && (id in s.documents ==> id in t.documents && Advances(s.documents[id].phase, t.documents[id].phase))
    && (id in s.documents && s.documents[id].phase == Released ==>
          NeverLaunched(t, |s.launches|, id) && NeverReady(t, |s.replies|, id))
  }

  lemma {:induction false} StepOwes(s: Sys, step: Step, id: Id)
    requires Inv(s) && Enabled(s, step)
    ensures Owes(s, Apply(s, step), id)
  {
    if step.StartCall? {
      StartCallOwes(s, step, id);
    } else if step.Save? {
      SaveOwes(s, step, id);
    }
  }

  lemma {:induction false} StartCallOwes(s: Sys, step: Step, id: Id)
    requires step.StartCall? && Enabled(s, step)
    ensures Owes(s, Apply(s, step), id)
  {
  }

  lemma {:induction false} SaveOwes(s: Sys, step: Step, id: Id)
    requires Control(s) && step.Save? && Enabled(s, step)
    ensures Owes(s, Apply(s, step), id)
  {
  }

  lemma {:induction false} OwesIsTransitive(a: Sys, b: Sys, c: Sys, id: Id)
    requires Owes(a, b, id) && Owes(b, c, id)
    ensures Owes(a, c, id)
  {
    if id in a.documents && a.documents[id].phase == Released {
      assert b.documents[id].phase == Released;
      forall k | |a.launches| <= k < |c.launches| ensures c.launches[k] != id {
        assert k < |b.launches| ==> c.launches[k] == b.launches[k];
      }
      forall k | |a.replies| <= k < |c.replies| && c.replies[k].Status? && c.replies[k].id == id
        ensures !c.replies[k].ready
      {
        assert k < |b.replies| ==> c.replies[k] == b.replies[k];
      }
    }
  }

  /** From any reachable state on: a saved deployment never disappears, its phase
      only moves up, and once it is released nothing is launched for it and no
      reply calls it ready, whatever the calls and restarts. */
  lemma {:induction false} LifecycleOnlyAdvances(past: seq<Step>, s: Sys, steps: seq<Step>, t: Sys, id: Id)
    requires Run(Init(), past, s) && Run(s, steps, t)
    ensures Owes(s, t, id)
  {
    InitKeeps();
    RunKeepsInv(Init(), past, s);
    RunOwes(s, steps, t, id);
  }

  lemma {:induction false} RunOwes(s: Sys, steps: seq<Step>, t: Sys, id: Id)
    requires Inv(s) && Run(s, steps, t)
    ensures Owes(s, t, id)
  {
    if steps != [] {
      var middle := LastStep(s, steps, t);
      RunOwes(s, steps[..|steps| - 1], middle, id);
      RunKeepsInv(s, steps[..|steps| - 1], middle);
      StepOwes(middle, steps[|steps| - 1], id);
      OwesIsTransitive(s, middle, t, id);
    }
  }

  /** The saved start is over, or broke off before it saved READY or FAILED. */
  ghost predicate Abandoned(s: Sys, id: Id) {
    && id in s.documents && s.documents[id].phase in {Starting, Released}
    && (s.pc.Idle? || s.pc.id != id || s.pc.Stopping? || (s.pc.Saving? && s.pc.document.phase == Released))
  }

  lemma {:induction false} StepKeepsAbandoned(s: Sys, step: Step, id: Id)
    requires Abandoned(s, id) && Enabled(s, step)
    ensures Abandoned(Apply(s, step), id)
  {
  }

  /** A start that broke off is never resumed: whatever is called afterwards, its
      deployment stays STARTING until it is stopped, and is never READY. */
  lemma {:induction false} BrokenStartIsNeverResumed(s: Sys, steps: seq<Step>, t: Sys, id: Id)
    requires s.pc.Idle? && id in s.documents && s.documents[id].phase == Starting && Run(s, steps, t)
    ensures id in t.documents && t.documents[id].phase in {Starting, Released}
  {
    AbandonedRun(s, steps, t, id);
  }

  lemma {:induction false} AbandonedRun(s: Sys, steps: seq<Step>, t: Sys, id: Id)
    requires Abandoned(s, id) && Run(s, steps, t)
    ensures Abandoned(t, id)
  {
    if steps != [] {
      var middle := LastStep(s, steps, t);
      AbandonedRun(s, steps[..|steps| - 1], middle, id);
      StepKeepsAbandoned(middle, steps[|steps| - 1], id);
    }
  }

  /** A released deployment's process is still running if and only if it did not
      exit by itself and either the runtime never got its identity to disk or the
      last termination failed to end it. */
  lemma {:induction false} ReleasedButRunning(steps: seq<Step>, t: Sys, p: Pid)
    requires Run(Init(), steps, t)
    requires p < |t.launches| && t.launches[p] in t.documents && t.documents[t.launches[p]].phase == Released
    ensures p in t.host.alive <==> p !in t.host.exited && (p !in t.recorded || p in t.survived)
  {
    InitKeeps();
    RunKeepsInv(Init(), steps, t);
    assert Ends(t, p);
  }

  /** The runtime dies between launching a process and saving its identity; the
      later stop reports the release while the process runs on. */
  lemma {:induction false} UnrecordedProcessOutlivesRelease(id: Id)
    ensures
      exists t: Sys ::
        && Run(Init(),
               [StartCall(id, true, true), Prepare(Prepared), Launch(true), Restart, StopCall(id), Save(true)], t)
        && id in t.documents && t.documents[id].phase == Released && t.replies == [Status(id, false, true)]
        && t.launches == [id] && 0 in t.host.alive
  {
    var starts := [StartCall(id, true, true), Prepare(Prepared), Launch(true)];
    var launched := LaunchedRun(id, starts);
    ExtendRun(Init(), starts, launched, Restart);
    var s4 := Apply(launched, Restart);
    ExtendRun(Init(), starts + [Restart], s4, StopCall(id));
    var s5 := Apply(s4, StopCall(id));
    ExtendRun(Init(), starts + [Restart] + [StopCall(id)], s5, Save(true));
    assert starts + [Restart] + [StopCall(id)] + [Save(true)]
        == [StartCall(id, true, true), Prepare(Prepared), Launch(true), Restart, StopCall(id), Save(true)];
    assert Apply(s5, Save(true)).replies == [Status(id, false, true)];
  }

  lemma {:induction false} LaunchedRun(id: Id, steps: seq<Step>) returns (t: Sys)
    requires steps == [StartCall(id, true, true), Prepare(Prepared), Launch(true)]
    ensures Run(Init(), steps, t) && t.pc == Recording(id, 0)
    ensures t == Sys(map[id := Document(Starting, None)], map[], Recording(id, 0), [id],
                     Host({0}, {}, {0}, {}), {}, {}, [])
  {
    var s1 := Apply(Init(), StartCall(id, true, true));
    ExtendRun(Init(), [], Init(), StartCall(id, true, true));
    ExtendRun(Init(), [] + [StartCall(id, true, true)], s1, Prepare(Prepared));
    var s2 := Apply(s1, Prepare(Prepared));
    ExtendRun(Init(), [] + [StartCall(id, true, true)] + [Prepare(Prepared)], s2, Launch(true));
    assert [] + [StartCall(id, true, true)] + [Prepare(Prepared)] + [Launch(true)] == steps;
    t := Apply(s2, Launch(true));
  }

  /** The deployment is up: its process is recorded and it is READY on disk. */
  lemma {:induction false} ReadyRun(id: Id) returns (steps: seq<Step>, t: Sys)
    ensures Run(Init(), steps, t)
    ensures t == Sys(map[id := Document(Ready, Some(0))], map[id := 0], Idle, [id], Host({0}, {}, {0}, {}), {0}, {},
                     [Status(id, true, false)])
  {
    steps := [StartCall(id, true, true), Prepare(Prepared), Launch(true)];
    t := LaunchedRun(id, steps);
    ExtendRun(Init(), steps, t, Record(true));
    steps, t := steps + [Record(true)], Apply(t, Record(true));
    ExtendRun(Init(), steps, t, Await(CameUp));
    steps, t := steps + [Await(CameUp)], Apply(t, Await(CameUp));
    ExtendRun(Init(), steps, t, Save(true));
    steps, t := steps + [Save(true)], Apply(t, Save(true));
    assert t.replies == [Status(id, true, false)];
  }

  /** A deployment is up, its process ends by itself, and an inspection still calls it
      ready, because nobody has waited for the child. */
  lemma {:induction false} DeadChildReadsReady(id: Id) returns (steps: seq<Step>, t: Sys)
    ensures Run(Init(), steps + [Exit(0)] + [Inspect(id)], t)
    ensures t.replies == [Status(id, true, false), Status(id, true, false)] && 0 !in t.host.alive
  {
    steps, t := ReadyRun(id);
    ExtendRun(Init(), steps, t, Exit(0));
    var dead := Apply(t, Exit(0));
    ExtendRun(Init(), steps + [Exit(0)], dead, Inspect(id));
    t := Apply(dead, Inspect(id));
  }

  /** A reply that says ready is read off a saved document whose process answers. */
  lemma {:induction false} ReplyIsReadOff(s: Sys, step: Step)
    requires Enabled(s, step) && |Apply(s, step).replies| > |s.replies|
    ensures
      var t := Apply(s, step);
      var reply := t.replies[|s.replies|];
      reply.Status? && reply.ready ==> reply.id in t.documents && ReadsReady(t.host, t.documents[reply.id])
  {
  }

  /** In every run: a reply that says ready names a READY deployment with its own
      recorded process, and that process runs if and only if it is not a child of
      this runtime that ended without being waited for. */
  lemma {:induction false} ReadyMeansServing(steps: seq<Step>, s: Sys, step: Step)
    requires Run(Init(), steps, s) && Enabled(s, step)
    requires |Apply(s, step).replies| > |s.replies|
    ensures
      var t := Apply(s, step);
      var reply := t.replies[|s.replies|];
      reply.Status? && reply.ready ==>
        && reply.id in t.documents && HasOwnProcess(t, reply.id)
        && (var p := t.documents[reply.id].pid.value;
            p in t.host.alive <==> !(p in t.host.children && p in t.host.exited && p !in t.host.reaped))
  {
    InitKeeps();
    RunKeepsInv(Init(), steps, s);
    StepKeepsInv(s, step);
    ReplyIsReadOff(s, step);
    var t := Apply(s, step);
    var reply := t.replies[|s.replies|];
    if reply.Status? && reply.ready {
      ReadyProcessIsOwn(t, reply.id);
    }
  }

  /** The document is READY and names a process launched for this deployment. */
  ghost predicate HasOwnProcess(t: Sys, id: Id)
    requires id in t.documents
  {
    var document := t.documents[id];
    && document.phase == Ready && document.pid.Some?
    && document.pid.value < |t.launches| && t.launches[document.pid.value] == id
  }

  lemma {:induction false} ReadyProcessIsOwn(t: Sys, id: Id)
    requires Inv(t) && id in t.documents && ReadsReady(t.host, t.documents[id])
    ensures HasOwnProcess(t, id)
    ensures var p := t.documents[id].pid.value; p in t.host.alive <==> !t.host.Unreaped(p)
  {
  }
}
