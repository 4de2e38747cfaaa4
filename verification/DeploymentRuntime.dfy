/** The runtime object: its calls change the saved documents, the process table and
    the host, and each call is a run of the lifecycle's steps. */
module DeploymentRuntime {
  import opened Wrappers
  import opened DeploymentLifecycle

  /** One turn of the readiness loop; `Broken` is an exception it does not catch. */
  datatype Poll = ProcessGone | Answered | NoAnswer | Broken

  /** The first poll that decides, before the deadline, is `poll`. */
  ghost predicate Decides(polls: seq<Poll>, poll: Poll) {
    exists i | 0 <= i < |polls| :: polls[i] == poll && forall j | 0 <= j < i :: polls[j] == NoAnswer
  }

  /** `_await_ready` over the polls that fit before the deadline. */
  method AwaitReady(polls: seq<Poll>) returns (outcome: Waiting)
    ensures outcome == CameUp <==> Decides(polls, Poll.Answered)
    ensures outcome == FoundGone <==> Decides(polls, ProcessGone)
    ensures outcome == Escaped <==> Decides(polls, Broken)
  {
    for i := 0 to |polls|
      invariant forall j | 0 <= j < i :: polls[j] == NoAnswer
    {
      if polls[i] == ProcessGone {
        return FoundGone;
      }
      if polls[i] == Poll.Answered {
        return CameUp;
      }
      if polls[i] == Broken {
        return Escaped;
      }
    }
    outcome := RanOut;
  }

  /** What the two signals of `_terminate` come to: the second is sent only if the
      process outlived the first. */
  function EndingOf(term: Ending, kill: Ending): Ending {
    if term == Survived then kill else term
  }

  /** The first of the two signals that is not outlived ends the process. */
  predicate EndsIt(term: Ending, kill: Ending) {
    term == Ended || (term == Survived && kill == Ended)
  }

  predicate OutlivesBoth(term: Ending, kill: Ending) {
    term == Survived && kill == Survived
  }

  /** How the world answers one start; `exits` says that the process ends by itself
      before the wait is over. */
  datatype Launching = Launching(valid: bool, saves: bool, preparation: Preparation, launches: bool, records: bool,
                                 exits: bool, polls: seq<Poll>, term: Ending, kill: Ending, finishes: bool)
  {
    /** The process is found gone only if it ended; then, and only then, the signals
        find nothing; and a process that ended does not outlive them. */
    ghost predicate Coherent() {
      && (Decides(polls, ProcessGone) ==> exits)
      && (EndingOf(term, kill).Gone? <==> Decides(polls, ProcessGone))
      && (EndingOf(term, kill).Survived? ==> !exits)
    }

    /** A process is launched for the deployment. */
    predicate Launched() {
      valid && saves && preparation == Prepared && launches
    }

    /** Its identity is saved, and the wait for readiness begins. */
    predicate Waits() {
      Launched() && records
    }

    /** The first poll that decides is an answer. */
    ghost predicate Answers() {
      Waits() && Decides(polls, Poll.Answered)
    }

    /** The process is found gone, or the deadline passes: it is signalled. */
    ghost predicate GivesUp() {
      Waits() && !Decides(polls, Poll.Answered) && !Decides(polls, Broken)
    }

    ghost predicate ComesUp() {
      Answers() && finishes
    }
  }

  class ServingRuntime {
    var documents: map<Id, Document>
    var processes: map<Id, Pid>
    var launches: seq<Id>
    var host: Host
    ghost var model: Sys
    /** The model when the call in progress began. */
    ghost var entry: Sys

    /** The fields are those of the model, which a run reaches. */
    ghost predicate Consistent()
      reads this
    {
      && model.documents == documents && model.processes == processes
      && model.launches == launches && model.host == host
      && Reaches(Init(), entry) && Reaches(entry, model)
    }

    ghost predicate Valid()
      reads this
    {
      Consistent() && model.pc == Idle
    }

    constructor ()
      ensures Valid() && model == Init()
    {
      documents, processes, launches, host := map[], map[], [], Host({}, {}, {}, {});
      model, entry := Init(), Init();
      ReachesItself(Init());
    }

    /** Records one step that the fields have already taken. */
    ghost method Take(step: Step)
      requires Reaches(Init(), entry) && Reaches(entry, model) && Enabled(model, step)
      requires
        var next := Apply(model, step);
        next.documents == documents && next.processes == processes && next.launches == launches && next.host == host
      modifies `model
      ensures model == Apply(old(model), step) && Consistent()
    {
      ReachesByStep(entry, model, step);
      model := Apply(model, step);
    }

    ghost method Begin()
      requires Valid()
      modifies `entry
      ensures Valid() && entry == model
    {
      ReachesTransitively(Init(), entry, model);
      ReachesItself(model);
      entry := model;
    }

    function Publish(id: Id, document: Document): Reply
      reads this
    {
      Status(id, document.phase == Ready && document.pid.Some? && host.Answers(document.pid.value),
             document.phase == Released)
    }

    /** The new process object on an existing home: memory is lost, disk and host stay. */
    method Restart()
      requires Consistent()
      modifies this
      ensures Valid() && model == Apply(old(model), Step.Restart)
    {
      processes, host := map[], Orphaned(host);
      Take(Step.Restart);
    }

    method ProcessExits(pid: Pid)
      requires Valid() && pid in host.alive
      modifies this
      ensures Valid() && model == Apply(old(model), Exit(pid))
    {
      host := Exited(host, pid);
      Take(Exit(pid));
    }

    /** `inspect`: ready is what a READY document and an answering process make it, and
        a child that ended without being waited for still answers. */
    method Inspect(id: Id) returns (reply: Reply)
      requires Valid()
      modifies this
      ensures Valid() && documents == old(documents) && launches == old(launches) && host == old(host)
      ensures model.replies == old(model.replies) + [reply]
      ensures if id in documents then reply == Publish(id, documents[id]) else reply == Refused(id, NotFound)
      ensures reply.Status? ==>
                (reply.ready <==> documents[id].phase == Ready && documents[id].pid.Some? &&
                                  (var p := documents[id].pid.value; p in host.alive || host.Unreaped(p)))
    {
      reply := if id in documents then Publish(id, documents[id]) else Refused(id, NotFound);
      Take(Step.Inspect(id));
    }

    /** `_terminate`: SIGTERM, then SIGKILL if the first wait runs out. */
    method SignalProcess(id: Id, pid: Pid, term: Ending, kill: Ending)
      requires Consistent() && (model.pc == Failing(id, pid) || model.pc == Stopping(id, pid))
      requires CanEnd(host, Known(processes, id, pid), pid, EndingOf(term, kill))
      modifies this
      ensures entry == old(entry) && Consistent() && model == Apply(old(model), Terminate(EndingOf(term, kill)))
      ensures documents == old(documents) && launches == old(launches)
      ensures host == if EndsIt(term, kill) then Killed(old(host), pid) else old(host)
      ensures processes == (if OutlivesBoth(term, kill) then old(processes) else old(processes) - {id})
      ensures term == Ended || (term == Survived && kill == Ended) ==> pid !in host.alive && id !in processes
      ensures term == Survived && kill == Survived ==> host == old(host) && processes == old(processes)
    {
      var signals := [term, kill];
      var i := 0;
      while i < 2 && signals[i] == Survived
        invariant 0 <= i <= 2 && (i >= 1 ==> term == Survived) && (i == 2 ==> kill == Survived)
        invariant Consistent() && model == old(model) && documents == old(documents) && host == old(host)
                    && processes == old(processes)
      {
        i := i + 1;
      }
      if i < 2 {
        processes := processes - {id};
        if signals[i] == Ended {
          host := Killed(host, pid);
        }
      }
      Take(Terminate(EndingOf(term, kill)));
    }

    /** The last save of a call and its reply. */
    method Finish(id: Id, document: Document, error: Option<Error>, saves: bool) returns (reply: Reply)
      requires Consistent() && model.pc == Saving(id, document, error)
      modifies this
      ensures entry == old(entry) && Valid() && model == Apply(old(model), Save(saves))
                && model.replies == old(model.replies) + [reply]
      ensures documents == (if saves then old(documents)[id := document] else old(documents))
      ensures launches == old(launches) && host == old(host) && processes == old(processes)
      ensures reply == if !saves then Refused(id, Unexpected)
                       else if error.Some? then Refused(id, error.value) else Publish(id, document)
    {
      if saves {
        documents := documents[id := document];
      }
      reply := if !saves then Refused(id, Unexpected)
               else if error.Some? then Refused(id, error.value) else Publish(id, document);
      Take(Save(saves));
    }

    /** What a valid start of a new deployment, whose first save works, comes to: the
        document, the reply and the processes that run, `running` being those before. */
    ghost predicate Started(id: Id, pid: Pid, world: Launching, reply: Reply, running: set<Pid>)
      reads this
    {
      && id in documents && documents[id].pid == (if world.Waits() then Some(pid) else None)
      && documents[id].phase == (if world.ComesUp() then Ready
                                 else if world.finishes && (world.preparation == Declined || world.GivesUp())
                                   then Failed
                                 else Starting)
      && reply == (if world.ComesUp() then Status(id, true, false)
                   else if world.finishes && world.preparation == Declined then Refused(id, ArtifactUnavailable)
                   else if world.finishes && world.GivesUp() then Refused(id, NotReady)
                   else Refused(id, Unexpected))
      && host.alive == (if !world.Launched() || (world.Waits() && world.exits) then running
                        else if world.GivesUp() && EndsIt(world.term, world.kill) then running
                        else running + {pid})
    }

    /** `start`: idempotent on a known deployment; otherwise it saves, prepares,
        launches, saves the process and waits, and a failed wait ends the process. The
        deployment comes up exactly when nothing stands in the way. */
    method Start(id: Id, world: Launching) returns (reply: Reply)
      requires Valid()
      requires world.Coherent()
      modifies this
      ensures Valid() && Reaches(old(model), model) && model.replies == old(model.replies) + [reply]
      ensures id in old(documents) ==>
                documents == old(documents) && launches == old(launches) && host == old(host) &&
                reply == Publish(id, documents[id])
      ensures launches == old(launches) || (id !in old(documents) && launches == old(launches) + [id])
      ensures id !in old(documents) ==>
                (reply.Status? <==> id in documents && documents[id].phase == Ready)
      ensures id !in old(documents) && (!world.valid || !world.saves) ==>
                documents == old(documents) && launches == old(launches) && host == old(host) &&
                reply == Refused(id, if world.valid then Unexpected else RequestInvalid)
      ensures id !in old(documents) && world.valid && world.saves ==>
                Started(id, |old(launches)|, world, reply, old(host.alive)) &&
                documents == old(documents)[id := documents[id]] &&
                launches == if world.Launched() then old(launches) + [id] else old(launches)
    {
      Begin();
      if id in documents {
        reply := Publish(id, documents[id]);
        Take(StartCall(id, world.valid, world.saves));
        return;
      }
      if !world.valid || !world.saves {
        reply := Refused(id, if world.valid then Unexpected else RequestInvalid);
        Take(StartCall(id, world.valid, world.saves));
        return;
      }
      documents := documents[id := Document(Starting, None)];
      Take(StartCall(id, true, true));
      reply := PrepareAndLaunch(id, world);
    }

    method PrepareAndLaunch(id: Id, world: Launching) returns (reply: Reply)
      requires Consistent() && model.pc == Preparing(id)
      requires id in documents && documents[id] == Document(Starting, None)
      requires world.Coherent() && world.valid && world.saves
      modifies this
      ensures Valid() && entry == old(entry) && model.replies == old(model.replies) + [reply]
      ensures launches == if world.Launched() then old(launches) + [id] else old(launches)
      ensures Started(id, |old(launches)|, world, reply, old(host.alive))
      ensures documents == old(documents)[id := documents[id]]
    {
      Take(Prepare(world.preparation));
      if world.preparation == Prepared {
        reply := LaunchProcess(id, world);
      } else if world.preparation == Declined {
        reply := Finish(id, Document(Failed, None), Some(ArtifactUnavailable), world.finishes);
      } else {
        reply := Refused(id, Unexpected);
      }
    }

    /** The next process has no past on the host. */
    lemma NextIsNew()
      requires Consistent()
      ensures |launches| !in host.alive && |launches| !in host.exited && |launches| !in host.reaped
    {
      ReachesTransitively(Init(), entry, model);
      ReachableKeepsInv(model);
    }

    method LaunchProcess(id: Id, world: Launching) returns (reply: Reply)
      requires Consistent() && model.pc == Pc.Launching(id)
      requires id in documents && documents[id] == Document(Starting, None)
      requires world.Coherent() && world.valid && world.saves && world.preparation == Prepared
      modifies this
      ensures Valid() && entry == old(entry) && model.replies == old(model.replies) + [reply]
      ensures launches == if world.Launched() then old(launches) + [id] else old(launches)
      ensures Started(id, |old(launches)|, world, reply, old(host.alive))
      ensures documents == old(documents)[id := documents[id]]
    {
      if !world.launches {
        reply := Refused(id, Unexpected);
        Take(Launch(false));
        return;
      }
      var pid := |launches|;
      NextIsNew();
      launches, host := launches + [id], Spawned(host, pid);
      Take(Launch(true));
      reply := RecordAndAwait(id, pid, world);
    }

    method RecordAndAwait(id: Id, pid: Pid, world: Launching) returns (reply: Reply)
      requires Consistent() && model.pc == Recording(id, pid)
      requires id in documents && documents[id] == Document(Starting, None)
      requires world.Coherent() && world.Launched() && pid in host.alive && pid in host.children && pid !in host.exited
                 && pid !in host.reaped
      modifies this
      ensures Valid() && entry == old(entry) && model.replies == old(model.replies) + [reply]
      ensures launches == old(launches) && Started(id, pid, world, reply, old(host.alive) - {pid})
      ensures documents == old(documents)[id := documents[id]]
    {
      processes := processes[id := pid];
      if world.records {
        documents := documents[id := Document(Starting, Some(pid))];
        Take(Step.Record(true));
        PerhapsExits(pid, world.exits);
        reply := Settle(id, pid, world);
      } else {
        reply := Refused(id, Unexpected);
        Take(Step.Record(false));
      }
    }

    method PerhapsExits(pid: Pid, exits: bool)
      requires Consistent() && pid in host.alive
      modifies this`host, `model
      ensures Consistent() && model.pc == old(model.pc) && model.replies == old(model.replies)
      ensures host == if exits then Exited(old(host), pid) else old(host)
    {
      if exits {
        host := Exited(host, pid);
        Take(Exit(pid));
      }
    }

    /** The wait for readiness and what it leads to. */
    method Settle(id: Id, pid: Pid, world: Launching) returns (reply: Reply)
      requires Consistent() && model.pc == Awaiting(id, pid)
      requires id in documents && documents[id] == Document(Starting, Some(pid)) && Known(processes, id, pid)
      requires world.Coherent() && world.Waits() && (if world.exits then host.Unreaped(pid) && pid !in host.alive
                 else pid in host.alive && pid !in host.exited)
      modifies this
      ensures Valid() && entry == old(entry) && model.replies == old(model.replies) + [reply]
      ensures launches == old(launches) && Started(id, pid, world, reply, old(host.alive) - {pid})
      ensures documents == old(documents)[id := documents[id]]
    {
      var outcome := AwaitReady(world.polls);
      if outcome == FoundGone {
        host := Reaped(host, pid);
      }
      Take(Await(outcome));
      if outcome == CameUp {
        reply := Finish(id, Document(Ready, Some(pid)), None, world.finishes);
      } else if outcome == Escaped {
        reply := Refused(id, Unexpected);
      } else {
        reply := Fail(id, pid, world);
      }
    }

    method Fail(id: Id, pid: Pid, world: Launching) returns (reply: Reply)
      requires Consistent() && model.pc == Failing(id, pid)
      requires id in documents && documents[id] == Document(Starting, Some(pid))
      requires CanEnd(host, Known(processes, id, pid), pid, EndingOf(world.term, world.kill))
      modifies this
      ensures Valid() && entry == old(entry) && model.replies == old(model.replies) + [reply]
      ensures launches == old(launches)
      ensures documents == old(documents)[id := Document(if world.finishes then Failed else Starting, Some(pid))]
      ensures reply == Refused(id, if world.finishes then NotReady else Unexpected)
      ensures host.alive == (if EndsIt(world.term, world.kill) then old(host.alive) - {pid} else old(host.alive))
    {
      SignalProcess(id, pid, world.term, world.kill);
      reply := Finish(id, Document(Failed, Some(pid)), Some(NotReady), world.finishes);
    }

    /** `stop`: once it replies with a release, the deployment is released on disk. */
    method Stop(id: Id, term: Ending, kill: Ending, saves: bool) returns (reply: Reply)
      requires Valid()
      requires id in documents && documents[id].pid.Some? ==>
                 (var p := documents[id].pid.value; CanEnd(host, Known(processes, id, p), p, EndingOf(term, kill)))
      modifies this
      ensures Valid() && Reaches(old(model), model) && model.replies == old(model.replies) + [reply]
      ensures launches == old(launches)
      ensures id !in old(documents) ==> reply == Refused(id, NotFound) && documents == old(documents)
      ensures id in old(documents) && saves ==>
                reply == Status(id, false, true) && id in documents && documents[id].phase == Released &&
                documents == old(documents)[id := documents[id]]
      ensures id in old(documents) && old(documents[id].phase) != Released && saves ==>
                documents[id] == Document(Released, None)
      ensures id in old(documents) && !saves ==>
                documents == old(documents) &&
                reply == if old(documents[id].phase) == Released then Status(id, false, true)
                  else Refused(id, Unexpected)
      ensures id !in old(documents) || old(documents[id].phase) == Released || old(documents[id].pid) == None ==>
                host == old(host) && processes == old(processes)
      ensures id in old(documents) && old(documents[id].phase) != Released && old(documents[id].pid).Some? ==>
                var pid := old(documents[id].pid).value;
                && (term == Ended || (term == Survived && kill == Ended) ==>
                      host.alive == old(host.alive) - {pid} && id !in processes)
                && (term != Ended && !(term == Survived && kill == Ended) ==> host == old(host))
                && (term == Survived && kill == Survived ==> processes == old(processes))
    {
      Begin();
      if id !in documents {
        reply := Refused(id, NotFound);
        Take(StopCall(id));
        return;
      }
      if documents[id].phase == Released {
        reply := Publish(id, documents[id]);
        Take(StopCall(id));
        return;
      }
      reply := Release(id, term, kill, saves);
    }

    /** `stop` of a deployment that is not released yet. */
    method Release(id: Id, term: Ending, kill: Ending, saves: bool) returns (reply: Reply)
      requires Valid() && id in documents && documents[id].phase != Released
      requires documents[id].pid.Some? ==>
                 (var p := documents[id].pid.value; CanEnd(host, Known(processes, id, p), p, EndingOf(term, kill)))
      modifies this
      ensures Valid() && entry == old(entry) && model.replies == old(model.replies) + [reply]
                && launches == old(launches)
      ensures saves ==> reply == Status(id, false, true) && documents == old(documents)[id := Document(Released, None)]
      ensures !saves ==> reply == Refused(id, Unexpected) && documents == old(documents)
      ensures old(documents[id].pid) == None ==> host == old(host) && processes == old(processes)
      ensures old(documents[id].pid).Some? ==>
                var pid := old(documents[id].pid).value;
                && host == (if EndsIt(term, kill) then Killed(old(host), pid) else old(host))
                && processes == (if OutlivesBoth(term, kill) then old(processes) else old(processes) - {id})
    {
      var pid := documents[id].pid;
      Take(StopCall(id));
      if pid.Some? {
        SignalProcess(id, pid.value, term, kill);
      }
      reply := Finish(id, Document(Released, None), None, saves);
    }
  }
}
