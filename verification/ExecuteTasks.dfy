/** Running the queue: the server offers buildable tasks to workers, skips them or
    completes them on the spot, and takes in the workers' replies in whatever order they
    come. Everything the executor knows is tied to the sequence of events it fires. */
module ExecuteTasks {
  import opened Graphs
  import opened Sequences
  import opened Tasks
  import opened ExecutionLog
  import TaskDepData
  import Schedulers
  import CoveredSet
  import Preparation
  import TaskHashes
  import Weights

  datatype Phase = Running | CleanUp | Failed | Complete

  class RunQueueStats {
    const total: nat
    var completed: int
    var skipped: int
    var failed: int
    var active: int

    constructor (total: nat)
      ensures this.total == total && completed == skipped == failed == active == 0
    {
      this.total := total;
      completed, skipped, failed, active := 0, 0, 0, 0;
    }

    method TaskFailed()
      modifies this`active, this`failed
      ensures active == old(active) - 1 && failed == old(failed) + 1
    {
      active, failed := active - 1, failed + 1;
    }

    method TaskCompleted(number: int)
      modifies this`active, this`completed
      ensures active == old(active) - number && completed == old(completed) + number
    {
      active, completed := active - number, completed + number;
    }

    method TaskSkipped(number: int)
      modifies this`active, this`skipped
      ensures active == old(active) + number && skipped == old(skipped) + number
    {
      active, skipped := active + number, skipped + number;
    }

    method TaskActive()
      modifies this`active
      ensures active == old(active) + 1
    {
      active := active + 1;
    }
  }

  /** The tasks whose dependencies are all in `complete`. */
  ghost function Buildable(g: Graph<Tid>, complete: set<Tid>): set<Tid> {
    set t | t in g && g[t] <= complete
  }

  /** Each live task holds its own stamp, and no two hold the same one. */
  ghost predicate StampsHeld(stamps: map<Tid, string>, live: set<Tid>, held: map<Tid, string>) {
    && held.Keys == live <= stamps.Keys
    && (forall t :: t in held ==> held[t] == stamps[t])
    && (forall t, u :: t in held && u in held && t != u ==> held[t] != held[u])
  }

  /** The executor's fields, apart from what it shares with the scheduler. */
  datatype View = View(events: seq<Event>, running: set<Tid>, complete: set<Tid>, failedTids: seq<Tid>,
                       held: map<Tid, string>, active: int, completed: int, failed: int)

  /** The fields say what the events say. */
  ghost predicate Tied(g: Graph<Tid>, stamps: map<Tid, string>, limit: nat, v: View) {
    && Legal(g, v.events)
    && v.running == Begun(v.events)
    && v.complete == ExecutionLog.Finished(v.events)
    && (forall t :: t in v.failedTids <==> t in FailedIn(v.events))
    && StampsHeld(stamps, Live(v.events), v.held)
    && v.active == |Live(v.events)| <= limit
    && v.completed == |ExecutionLog.Finished(v.events)|
    && v.failed == |FailedIn(v.events)|
  }

  lemma TiedEmpty(g: Graph<Tid>, stamps: map<Tid, string>, limit: nat)
    ensures Tied(g, stamps, limit, View([], {}, {}, [], map[], 0, 0, 0))
  {
  }

  lemma AddOne(a: set<Tid>, t: Tid)
    requires t !in a
    ensures |a + {t}| == |a| + 1
  {
  }

  lemma RemoveOne(a: set<Tid>, t: Tid)
    requires t in a
    ensures |a - {t}| == |a| - 1
  {
  }

  lemma HoldStamp(stamps: map<Tid, string>, live: set<Tid>, held: map<Tid, string>, t: Tid)
    requires StampsHeld(stamps, live, held) && t in stamps && stamps[t] !in held.Values
    ensures StampsHeld(stamps, live + {t}, held[t := stamps[t]])
  {
  }

  lemma ReleaseStamp(stamps: map<Tid, string>, live: set<Tid>, held: map<Tid, string>, t: Tid)
    requires StampsHeld(stamps, live, held)
    ensures held.Keys == live && StampsHeld(stamps, live - {t}, held - {t})
  {
  }

  lemma TiedSkip(g: Graph<Tid>, stamps: map<Tid, string>, limit: nat, v: View, t: Tid)
    requires Tied(g, stamps, limit, v) && t in Buildable(g, v.complete) && t !in v.running
    ensures Tied(g, stamps, limit, v.(events := v.events + [Event.Skipped(t)], running := v.running + {t},
                                      complete := v.complete + {t}, completed := v.completed + 1))
  {
    hide Begun, ExecutionLog.Finished, FailedIn, Legal, Live, StampsHeld;
    EffectSkipped(g, v.events, t);
    AddOne(ExecutionLog.Finished(v.events), t);
  }

  lemma TiedDispatch(g: Graph<Tid>, stamps: map<Tid, string>, limit: nat, v: View, t: Tid)
    requires Tied(g, stamps, limit, v) && t in Buildable(g, v.complete) && t !in v.running
    requires t in stamps && stamps[t] !in v.held.Values && v.active < limit
    ensures Tied(g, stamps, limit, v.(events := v.events + [Started(t, false)], running := v.running + {t},
                                      held := v.held[t := stamps[t]], active := v.active + 1))
  {
    hide Begun, ExecutionLog.Finished, FailedIn, Legal, Live, StampsHeld;
    EffectStarted(g, v.events, t, false);
    AddOne(Live(v.events), t);
    HoldStamp(stamps, Live(v.events), v.held, t);
  }

  lemma TiedNoExec(g: Graph<Tid>, stamps: map<Tid, string>, limit: nat, v: View, t: Tid)
    requires Tied(g, stamps, limit, v) && t in Buildable(g, v.complete) && t !in v.running
    ensures Tied(g, stamps, limit,
                 v.(events := v.events + [Started(t, true)] + [Completed(t)], running := v.running + {t},
                    complete := v.complete + {t}, completed := v.completed + 1))
  {
    hide Begun, ExecutionLog.Finished, FailedIn, Legal, Live, StampsHeld;
    var log := v.events + [Started(t, true)];
    EffectStarted(g, v.events, t, true);
    EffectCompleted(g, log, t);
    AddOne(ExecutionLog.Finished(v.events), t);
    assert Live(v.events) + {t} - {t} == Live(v.events);
  }

  lemma TiedLive(g: Graph<Tid>, stamps: map<Tid, string>, limit: nat, v: View, t: Tid)
    requires Tied(g, stamps, limit, v) && t in Live(v.events)
    ensures t in g && t in v.held && t in v.running && t !in v.complete
  {
    Kinds(g, v.events);
  }

  lemma TiedComplete(g: Graph<Tid>, stamps: map<Tid, string>, limit: nat, v: View, t: Tid)
    requires Tied(g, stamps, limit, v) && t in Live(v.events)
    ensures Tied(g, stamps, limit, v.(events := v.events + [Completed(t)], complete := v.complete + {t},
                                      held := v.held - {t}, active := v.active - 1, completed := v.completed + 1))
  {
    hide Begun, ExecutionLog.Finished, FailedIn, Legal, Live, StampsHeld;
    EffectCompleted(g, v.events, t);
    AddOne(ExecutionLog.Finished(v.events), t);
    RemoveOne(Live(v.events), t);
    ReleaseStamp(stamps, Live(v.events), v.held, t);
  }

  lemma TiedFail(g: Graph<Tid>, stamps: map<Tid, string>, limit: nat, v: View, t: Tid)
    requires Tied(g, stamps, limit, v) && t in Live(v.events)
    ensures Tied(g, stamps, limit, v.(events := v.events + [Event.Failed(t)], failedTids := v.failedTids + [t],
                                      held := v.held - {t}, active := v.active - 1, failed := v.failed + 1))
  {
    hide Begun, ExecutionLog.Finished, FailedIn, Legal, Live, StampsHeld;
    EffectFailed(g, v.events, t);
    AddOne(FailedIn(v.events), t);
    RemoveOne(Live(v.events), t);
    ReleaseStamp(stamps, Live(v.events), v.held, t);
  }

  /** Every task that has begun is counted exactly once. */
  lemma CountsAddUp(g: Graph<Tid>, stamps: map<Tid, string>, limit: nat, v: View)
    requires Tied(g, stamps, limit, v)
    ensures v.active + v.completed + v.failed == |v.running| && v.active <= limit
  {
    hide Begun, ExecutionLog.Finished, FailedIn, Legal, StampsHeld;
    Kinds(g, v.events);
    var done, lost := ExecutionLog.Finished(v.events), FailedIn(v.events);
    assert v.running == Live(v.events) + done + lost;
    assert |Live(v.events) + done| == |Live(v.events)| + |done|;
  }

  lemma MoreRunning(g: Graph<Tid>, depends: Graph<Tid>, running: set<Tid>, t: Tid)
    requires TaskDepData.SelfLoopsAdded(g, depends, running)
    ensures TaskDepData.SelfLoopsAdded(g, depends, running + {t})
  {
  }

  /** What one call of `Execute` did. */
  datatype Step =
    | Skip(tid: Tid)
    | NoExec(tid: Tid)
    | Dispatch(tid: Tid, depdata: map<Tid, set<Tid>>)
    | Waiting
    | Finished

  /** The events of one step. */
  function EventsOf(step: Step): seq<Event> {
    match step
    case Skip(t) => [Event.Skipped(t)]
    case NoExec(t) => [Started(t, true)] + [Completed(t)]
    case Dispatch(t, _) => [Started(t, false)]
    case Waiting => []
    case Finished => []
  }

  class RunQueueExecuteTasks {
    const rqdata: Preparation.RunQueueData
    const sched: Schedulers.Scheduler
    const stats: RunQueueStats
    const numberTasks: nat
    const abort: bool
    const covered: set<Tid>
    const noexec: set<Tid>
    var state: Phase
    var buildable: set<Tid>
    var running: set<Tid>
    var complete: set<Tid>
    var buildStamps: map<Tid, string>
    var failedTids: seq<Tid>
    var events: seq<Event>
    // the dependencies as they were when execution started
    ghost const g: Graph<Tid>

    /** What also holds in the middle of a step. */
    ghost predicate Core()
      reads this, rqdata, sched
    {
      && Inverse(g, rqdata.revdeps) && Acyclic(g)
      && TaskDepData.SelfLoopsAdded(g, rqdata.depends, running)
      && sched.Valid() && sched.stamps.Keys == g.Keys
      && buildable == Buildable(g, complete)
      && running <= buildable
      && (forall t :: t in sched.buildable ==> t in buildable)
      && (forall t :: t in buildable ==> t in running || t in sched.buildable)
    }

    ghost function State(): View
      reads this, stats
    {
      View(events, running, complete, failedTids, buildStamps, stats.active, stats.completed, stats.failed)
    }

    ghost predicate Valid()
      reads this, rqdata, sched, stats
    {
      && numberTasks > 0 && stats.total == |g.Keys|
      && Core()
      && Tied(g, sched.stamps, numberTasks, State())
    }

    /** Starts the queue over a prepared graph: tasks without dependencies are buildable. */
    constructor (rqdata: Preparation.RunQueueData, prioMap: seq<Tid>, stamps: map<Tid, string>,
                 numberTasks: nat, abort: bool, covered: set<Tid>, noexec: set<Tid>)
      requires Inverse(rqdata.depends, rqdata.revdeps) && Acyclic(rqdata.depends)
      requires stamps.Keys == rqdata.depends.Keys && numberTasks > 0
      requires Distinct(prioMap) && forall t :: t in prioMap <==> t in stamps
      ensures Valid() && fresh(sched) && fresh(stats) && this.rqdata == rqdata && g == rqdata.depends
      ensures events == [] && state == Running && sched.prioMap == prioMap && sched.stamps == stamps
      ensures this.numberTasks == numberTasks && this.abort == abort && this.covered == covered && this.noexec == noexec
    {
      hide Acyclic, Inverse, Closed, Tied, Buildable;
      this.rqdata, this.numberTasks, this.abort := rqdata, numberTasks, abort;
      this.covered, this.noexec, this.g := covered, noexec, rqdata.depends;
      state, running, complete, buildStamps, failedTids, events := Running, {}, {}, map[], [], [];
      var initial := InitiallyBuildable(rqdata.depends);
      buildable := set t | t in initial;
      sched := new Schedulers.Scheduler(prioMap, stamps, initial);
      stats := new RunQueueStats(|rqdata.depends.Keys|);
      new;
      InitialIsBuildable(g, initial, buildable);
      TiedEmpty(g, stamps, numberTasks);
    }

    method SetBuildable(task: Tid)
      requires sched.Valid() && task in sched.stamps
      modifies this`buildable, sched
      ensures sched.Valid() && buildable == old(buildable) + {task} && sched.buildable == old(sched.buildable) + [task]
    {
      buildable := buildable + {task};
      sched.NewBuildable(task);
    }

    /** Marks a task complete and announces every task that was waiting for it alone. */
    method TaskCompleteOutright(task: Tid)
      requires Core() && task in running
      modifies this`complete, this`buildable, sched
      ensures Core() && complete == old(complete) + {task}
    {
      hide Acyclic, Inverse, Closed, Buildable, TaskDepData.SelfLoopsAdded, Schedulers.Scheduler.Valid;
      ghost var done := complete;
      WaitingFor(g, rqdata.revdeps, rqdata.depends, running, buildable, done, task);
      complete := complete + {task};
      var todo := rqdata.revdeps[task];
      while todo != {}
        modifies this`buildable, sched
        invariant todo <= rqdata.revdeps[task]
        invariant sched.Valid()
        invariant Buildable(g, done) <= buildable <= Buildable(g, complete)
        invariant forall r :: r in rqdata.revdeps[task] && r !in todo && g[r] <= complete ==> r in buildable
        invariant forall t :: t in sched.buildable ==> t in buildable
        invariant forall t :: t in buildable ==> t in running || t in sched.buildable
      {
        var revdep :| revdep in todo;
        todo := todo - {revdep};
        if revdep !in running && revdep !in buildable {
          if rqdata.depends[revdep] <= complete {
            OneMoreBuildable(g, complete, buildable, revdep);
            SetBuildable(revdep);
          }
        }
      }
      AllAnnounced(g, rqdata.revdeps, done, task, buildable);
    }

    method TaskComplete(task: Tid)
      requires Core() && task in running
      modifies this`complete, this`buildable, this`events, sched, stats
      ensures Core() && complete == old(complete) + {task} && events == old(events) + [Completed(task)]
      ensures stats.active == old(stats.active) - 1 && stats.completed == old(stats.completed) + 1
      ensures stats.failed == old(stats.failed) && stats.skipped == old(stats.skipped)
    {
      stats.TaskCompleted(1);
      events := events + [Completed(task)];
      TaskCompleteOutright(task);
    }

    method TaskFail(task: Tid)
      requires Core()
      modifies this`failedTids, this`state, this`events, stats
      ensures Core() && failedTids == old(failedTids) + [task] && events == old(events) + [Event.Failed(task)]
      ensures stats.active == old(stats.active) - 1 && stats.failed == old(stats.failed) + 1
      ensures stats.completed == old(stats.completed) && stats.skipped == old(stats.skipped)
      ensures state == if abort then CleanUp else old(state)
    {
      stats.TaskFailed();
      failedTids := failedTids + [task];
      events := events + [Event.Failed(task)];
      if abort {
        state := CleanUp;
      }
    }

    method SetRunning(task: Tid)
      requires Core() && task in buildable && task in sched.stamps
      modifies this`running, this`buildable, sched
      ensures Core() && running == old(running) + {task} && buildable == old(buildable)
    {
      hide Acyclic, Inverse, Closed, Buildable, TaskDepData.SelfLoopsAdded, Schedulers.Scheduler.Valid;
      MoreRunning(g, rqdata.depends, running, task);
      running := running + {task};
      SetBuildable(task);
    }

    /** A task that need not run counts as complete at once. */
    method TaskSkip(task: Tid)
      requires Valid() && Offered(task)
      modifies this`running, this`complete, this`buildable, this`events, sched, stats
      ensures Valid() && events == old(events) + [Event.Skipped(task)] && running == old(running) + {task}
      ensures stats.skipped == old(stats.skipped) + 1
    {
      hide Acyclic, Inverse, Closed, Tied, Buildable, TaskDepData.SelfLoopsAdded, Schedulers.Scheduler.Valid;
      TiedSkip(g, sched.stamps, numberTasks, State(), task);
      SetRunning(task);
      events := events + [Event.Skipped(task)];
      TaskCompleteOutright(task);
      stats.TaskCompleted(1);
      stats.TaskSkipped(1);
    }

    /** A worker's reply for a task it was sent: the stamp is given back and the task
        has completed or failed. */
    method RunqueueProcessWaitpid(task: Tid, status: int)
      requires Valid() && task in Live(events)
      modifies this`complete, this`buildable, this`buildStamps, this`failedTids, this`state, this`events, sched, stats
      ensures Valid()
      ensures events == old(events) + [if status != 0 then Event.Failed(task) else Completed(task)]
      ensures state == if status != 0 && abort then CleanUp else old(state)
      ensures stats.skipped == old(stats.skipped)
    {
      hide Acyclic, Inverse, Closed, Tied;
      ghost var before := State();
      TiedLive(g, sched.stamps, numberTasks, before, task);
      if task in buildStamps {
        buildStamps := buildStamps - {task};
      }
      if status != 0 {
        TiedFail(g, sched.stamps, numberTasks, before, task);
        TaskFail(task);
      } else {
        TiedComplete(g, sched.stamps, numberTasks, before, task);
        TaskComplete(task);
      }
    }

    /** A task may be started next: announced, not begun, its stamp free, a slot free. */
    ghost predicate Offered(t: Tid)
      reads this, sched, stats
    {
      && t in buildable && t !in running && t in sched.stamps
      && sched.stamps[t] !in buildStamps.Values && stats.active < numberTasks
    }

    /** Of the offered tasks, the one the priority map lists first. */
    ghost predicate FirstOffered(t: Tid)
      reads this, sched, stats
    {
      && Offered(t) && t in sched.prioMap
      && forall u :: Offered(u) ==>
           u in sched.prioMap && Schedulers.IndexOf(sched.prioMap, t) <= Schedulers.IndexOf(sched.prioMap, u)
    }

    method Next() returns (task: Option<Tid>)
      requires Valid()
      modifies sched
      ensures Valid()
      ensures task.None? <==> forall t :: !Offered(t)
      ensures task.Some? ==> Offered(task.value) && FirstOffered(task.value) && old(FirstOffered(task.value))
      ensures forall t :: Offered(t) <==> old(Offered(t))
    {
      hide Acyclic, Inverse, Closed, Tied, Buildable, TaskDepData.SelfLoopsAdded;
      if stats.active < numberTasks {
        task := sched.NextBuildableTask(running, buildStamps.Values);
        forall t | Offered(t)
          ensures t in sched.buildable && t in sched.prioMap
        {
          assert t in old(sched.buildable);
        }
        if task.Some? {
          assert task.value in old(sched.buildable);
          assert Offered(task.value);
        }
      } else {
        task := None;
      }
    }

    /** The final checks: every task should have been buildable, run and completed. */
    method SanityErrors() returns (errors: set<Tid>)
      ensures errors == set t | t in rqdata.depends && (t !in buildable || t !in running || t !in complete)
    {
      errors := {};
      var todo := rqdata.depends.Keys;
      while todo != {}
        invariant todo <= rqdata.depends.Keys
        invariant errors == set t | t in rqdata.depends && t !in todo
          && (t !in buildable || t !in running || t !in complete)
      {
        var task :| task in todo;
        todo := todo - {task};
        if task !in buildable || task !in running || task !in complete {
          errors := errors + {task};
        }
      }
    }

    /** The task is completed on the spot, without a worker. */
    method RunNoExec(task: Tid)
      requires Valid() && Offered(task)
      modifies this`running, this`complete, this`buildable, this`events, sched, stats
      ensures Valid() && events == old(events) + [Started(task, true)] + [Completed(task)]
    {
      hide Acyclic, Inverse, Closed, Tied, Schedulers.Scheduler.Valid;
      TiedNoExec(g, sched.stamps, numberTasks, State(), task);
      events := events + [Started(task, true)];
      running := running + {task};
      stats.TaskActive();
      TaskComplete(task);
    }

    /** The task is sent to a worker, with the data of everything it depends on. */
    method SendToWorker(task: Tid) returns (depdata: map<Tid, set<Tid>>)
      requires Valid() && Offered(task)
      modifies this`running, this`buildStamps, this`events, rqdata, stats
      ensures Valid() && events == old(events) + [Started(task, false)]
      ensures forall d :: d in depdata <==> Reach(g, task, d)
      ensures forall d :: d in depdata ==> d in rqdata.depends && depdata[d] == rqdata.depends[d]
    {
      hide Acyclic, Inverse, Closed, Tied, Schedulers.Scheduler.Valid, TaskDepData.SelfLoopsAdded;
      TiedDispatch(g, sched.stamps, numberTasks, State(), task);
      LiveClosed(g, rqdata.revdeps, rqdata.depends, running, task);
      events := events + [Started(task, false)];
      ghost var before := rqdata.depends;
      var depends';
      depdata, depends' := TaskDepData.BuildTaskdepdata(rqdata.depends, task);
      forall d
        ensures d in depdata <==> Reach(g, task, d)
      {
        TaskDepData.ReachIgnoresSelfLoops(g, before, running, task, d);
      }
      rqdata.depends := depends';
      buildStamps := buildStamps[task := sched.stamps[task]];
      running := running + {task};
      stats.TaskActive();
    }

    /** Why a step was taken; what is sent to a worker covers all the task depends on. */
    ghost predicate Because(step: Step, stampCurrent: Tid -> bool) {
      match step
      case Skip(t) => t in covered || stampCurrent(t)
      case NoExec(t) => t !in covered && !stampCurrent(t) && t in noexec
      case Dispatch(t, depdata) =>
        t !in covered && !stampCurrent(t) && t !in noexec && forall d :: d in depdata <==> Reach(g, t, d)
      case Waiting => true
      case Finished => true
    }

    /** One call of the server's loop. */
    method Execute(stampCurrent: Tid -> bool) returns (step: Step, errors: set<Tid>)
      requires Valid()
      modifies this, rqdata, sched, stats
      ensures Valid() && events == old(events) + EventsOf(step) && failedTids == old(failedTids)
      ensures step.Skip? || step.NoExec? || step.Dispatch? ==> old(FirstOffered(step.tid))
      ensures Because(step, stampCurrent)
      ensures step.Waiting? ==> Live(events) != {} && forall t :: !old(Offered(t))
      ensures step.Finished? ==> Done()
      ensures !step.Finished? ==> state == if |g.Keys| == 0 then CleanUp else old(state)
      ensures errors == {}
    {
      hide Core, Tied, Legal, Offered, FirstOffered, Quiescent, DependsOnFailed, Begun, FailedIn, ExecutionLog.Finished;
      errors := {};
      if stats.total == 0 {
        SetState(CleanUp);
      }
      var next := Next();
      if next.None? {
        StillLive();
        if stats.active > 0 {
          return Waiting, errors;
        }
        errors := Finish();
        return Finished, errors;
      }
      var task := next.value;
      if task in covered || stampCurrent(task) {
        TaskSkip(task);
        return Skip(task), errors;
      }
      if task in noexec {
        RunNoExec(task);
        return NoExec(task), errors;
      }
      var depdata := SendToWorker(task);
      return Dispatch(task, depdata), errors;
    }

    /** When setscene enforcement finds a task that is about to run and should not, the
        whole queue is walked through without running anything. */
    method EnforceSetscene(unexpected: Tid -> bool) returns (stopped: bool)
      requires Valid()
      modifies this, sched, stats
      ensures Valid() && failedTids == old(failedTids)
      ensures stopped <==> exists t :: t in g && unexpected(t)
      ensures !stopped ==> events == old(events) && state == old(state)
      ensures stopped ==> state == CleanUp && forall t :: !Offered(t)
      ensures stopped && stats.active == 0 && failedTids == [] ==> complete == g.Keys
    {
      hide Core, Tied, Legal, Offered, FirstOffered;
      stopped := AnyUnexpected(unexpected);
      if stopped {
        SkipOffered();
        if stats.active == 0 {
          NothingOffered();
          Facts();
          AllQuiet(g, sched.stamps, numberTasks, State(), buildable);
        }
        SetState(CleanUp);
      }
    }

    /** Skips offered tasks until none is left. */
    method SkipOffered()
      requires Valid()
      modifies this`running, this`complete, this`buildable, this`events, sched, stats
      ensures Valid() && forall t :: !Offered(t)
    {
      hide Valid, Offered, FirstOffered;
      var task := Next();
      while task.Some?
        invariant Valid()
        invariant task.None? <==> forall t :: !Offered(t)
        invariant task.Some? ==> Offered(task.value)
        decreases |g.Keys - running|
      {
        ghost var before := running;
        OfferedExists(task.value);
        TaskSkip(task.value);
        SmallerSet(g.Keys - running, g.Keys - before);
        task := Next();
      }
    }

    lemma OfferedExists(t: Tid)
      requires Valid() && Offered(t)
      ensures t in g && t !in running
    {
      hide Tied, Acyclic, Inverse, Closed;
    }

    method AnyUnexpected(unexpected: Tid -> bool) returns (found: bool)
      requires Valid()
      ensures found <==> exists t :: t in g && unexpected(t)
    {
      hide Tied, Acyclic, Inverse, Closed;
      assert rqdata.depends.Keys == g.Keys;
      found := exists t :: t in rqdata.depends.Keys && unexpected(t);
    }

    method SetState(phase: Phase)
      requires Valid()
      modifies this`state
      ensures Valid() && state == phase
      ensures forall t :: Offered(t) <==> old(Offered(t))
      ensures forall t :: FirstOffered(t) <==> old(FirstOffered(t))
    {
      hide Acyclic, Inverse, Closed, Tied, Buildable, TaskDepData.SelfLoopsAdded, Schedulers.Scheduler.Valid;
      state := phase;
    }

    lemma StillLive()
      requires Valid()
      ensures Legal(g, events) && buildStamps.Keys == Live(events)
      ensures stats.active >= 0 && (stats.active > 0 ==> Live(events) != {})
    {
      hide Core, Legal;
    }

    /** What the queue promises when it stops. */
    ghost predicate Done()
      reads this
    {
      && Quiescent(g, events)
      && (forall t :: t in g ==> (t in complete <==> !DependsOnFailed(g, events, t)))
      && (failedTids == [] ==> complete == g.Keys)
      && state == if failedTids != [] then Phase.Failed else Complete
    }

    /** Nothing is active and nothing is offered: the failure report, or the checks. */
    method Finish() returns (errors: set<Tid>)
      requires Valid() && stats.active == 0 && forall t :: !Offered(t)
      modifies this`state
      ensures Valid() && errors == {} && Done()
    {
      hide Tied, Acyclic, Legal, Schedulers.Scheduler.Valid;
      NothingOffered();
      AllQuiet(g, sched.stamps, numberTasks, State(), buildable);
      errors := {};
      if |failedTids| != 0 {
        SetState(Phase.Failed);
        return;
      }
      errors := SanityErrors();
      SetState(Complete);
    }

    lemma NothingOffered()
      requires Valid() && stats.active == 0 && forall t :: !Offered(t)
      ensures buildable <= running
    {
      hide Acyclic, Inverse, Closed, Legal, Buildable;
      HoldsNothing(sched.stamps, Live(events), buildStamps);
      forall t | t in buildable
        ensures t in running
      {
        assert !Offered(t);
      }
    }

    lemma Facts()
      requires Valid()
      ensures Closed(g) && Acyclic(g) && Tied(g, sched.stamps, numberTasks, State())
      ensures buildable == Buildable(g, complete) && running <= buildable
    {
      hide Acyclic, Tied, Buildable;
    }
  }

  lemma HoldsNothing(stamps: map<Tid, string>, live: set<Tid>, held: map<Tid, string>)
    requires StampsHeld(stamps, live, held) && |live| == 0
    ensures held.Values == {}
  {
  }

  /** With nobody working and nothing left to start, the queue is quiescent. */
  lemma AllQuiet(g: Graph<Tid>, stamps: map<Tid, string>, limit: nat, v: View, buildable: set<Tid>)
    requires Closed(g) && Acyclic(g) && Tied(g, stamps, limit, v) && v.active == 0
    requires buildable == Buildable(g, v.complete) && v.running <= buildable <= v.running
    ensures Quiescent(g, v.events)
    ensures forall t :: t in g ==> (t in v.complete <==> !DependsOnFailed(g, v.events, t))
    ensures v.failedTids == [] ==> v.complete == v.running == buildable == g.Keys
  {
    hide Acyclic, Legal, Begun, ExecutionLog.Finished, FailedIn, Live, DependsOnFailed;
    assert Live(v.events) == {};
    assert forall t :: t in buildable <==> t in g && g[t] <= v.complete;
    QuiescenceExact(g, v.events);
    if v.failedTids == [] {
      assert FailedIn(v.events) == {};
      QuiescentWithoutFailure(g, v.events);
    }
  }

  /** What the dependants of `task` wait for is what the graph says, unless they run. */
  lemma WaitingFor(g: Graph<Tid>, revdeps: Graph<Tid>, live: Graph<Tid>, running: set<Tid>, buildable: set<Tid>,
                   done: set<Tid>, task: Tid)
    requires Inverse(g, revdeps) && TaskDepData.SelfLoopsAdded(g, live, running) && task in running
      && running <= buildable == Buildable(g, done)
    ensures task in g && task in revdeps && revdeps[task] <= g.Keys
    ensures forall r :: r in revdeps[task] ==> r in live && (r !in running ==> live[r] == g[r])
    ensures Buildable(g, done) <= Buildable(g, done + {task})
  {
  }

  lemma OneMoreBuildable(g: Graph<Tid>, complete: set<Tid>, buildable: set<Tid>, r: Tid)
    requires r in g && g[r] <= complete && buildable <= Buildable(g, complete)
    ensures buildable + {r} <= Buildable(g, complete)
  {
  }

  lemma AllAnnounced(g: Graph<Tid>, revdeps: Graph<Tid>, done: set<Tid>, task: Tid, buildable: set<Tid>)
    requires Inverse(g, revdeps) && task in g
    requires Buildable(g, done) <= buildable <= Buildable(g, done + {task})
    requires forall r :: r in revdeps[task] && g[r] <= done + {task} ==> r in buildable
    ensures buildable == Buildable(g, done + {task})
  {
  }

  lemma InitialIsBuildable(g: Graph<Tid>, initial: seq<Tid>, buildable: set<Tid>)
    requires forall t :: t in initial <==> t in g && g[t] == {}
    requires forall t :: t in buildable <==> t in initial
    ensures buildable == Buildable(g, {})
  {
  }

  lemma LiveClosed(g: Graph<Tid>, revdeps: Graph<Tid>, live: Graph<Tid>, looped: set<Tid>, t: Tid)
    requires Inverse(g, revdeps) && TaskDepData.SelfLoopsAdded(g, live, looped) && t in g
    ensures Closed(live) && t in live
    ensures TaskDepData.SelfLoopsAdded(g, live[t := live[t] + {t}], looped + {t})
  {
  }

  method InitiallyBuildable(depends: Graph<Tid>) returns (initial: seq<Tid>)
    ensures forall t :: t in initial <==> t in depends && depends[t] == {}
  {
    initial := [];
    var todo := depends.Keys;
    while todo != {}
      invariant todo <= depends.Keys
      invariant forall t {:trigger t in initial} :: t in initial <==> t in depends && t !in todo && depends[t] == {}
    {
      var tid :| tid in todo;
      todo := todo - {tid};
      if |depends[tid]| == 0 {
        initial := initial + [tid];
      }
    }
  }

  // ---- whole runs ----

  /** Starts the executor over what has been prepared, with the speed scheduler's priority
      map or the completion scheduler's. */
  method StartTasks(rqdata: Preparation.RunQueueData, ghost s: TaskHashes.Signing, tids: seq<Tid>, completion: bool,
                    stamps: map<Tid, string>, numberTasks: nat, abort: bool, covered: set<Tid>, noexec: set<Tid>)
    returns (q: RunQueueExecuteTasks)
    requires rqdata.Ready(s) && numberTasks > 0 && stamps.Keys == rqdata.depends.Keys
    requires Distinct(tids) && forall t :: t in tids <==> t in rqdata.depends
    ensures q.Valid() && fresh(q) && fresh(q.sched) && fresh(q.stats) && q.rqdata == rqdata && q.g == rqdata.depends
    ensures q.state == Running && q.events == [] && q.abort == abort && q.covered == covered
    ensures q.noexec == noexec && q.numberTasks == numberTasks && q.sched.stamps == stamps
    ensures MapFor(tids, rqdata.weight, completion, q.sched.prioMap)
    ensures !completion ==> DependenciesAhead(q.g, q.sched.prioMap)
  {
    hide Acyclic, Inverse, Weights.IsWeighting, RunQueueExecuteTasks.Valid, TaskHashes.Hashed, DependenciesAhead,
         MapFor;
    var prioMap := PriorityMap(rqdata.depends, rqdata.revdeps, rqdata.weight, tids, completion);
    q := new RunQueueExecuteTasks(rqdata, prioMap, stamps, numberTasks, abort, covered, noexec);
  }

  /** Every task stands after all it depends on. */
  ghost predicate DependenciesAhead(g: Graph<Tid>, prioMap: seq<Tid>) {
    forall t, d :: t in g && d in g[t]
      ==> t in prioMap && d in prioMap && Schedulers.IndexOf(prioMap, d) < Schedulers.IndexOf(prioMap, t)
  }

  /** By weight, and for the completion scheduler grouped by file. */
  ghost predicate MapFor(tids: seq<Tid>, weight: map<Tid, int>, completion: bool, prioMap: seq<Tid>) {
    exists speed ::
      (forall t :: t in tids ==> t in weight) && Schedulers.IsPriorityMap(tids, weight, speed)
      && prioMap == if completion then Schedulers.Grouped(speed) else speed
  }

  /** The speed scheduler's priority map or the completion scheduler's. */
  method PriorityMap(depends: Graph<Tid>, revdeps: Graph<Tid>, weight: map<Tid, int>, tids: seq<Tid>, completion: bool)
    returns (prioMap: seq<Tid>)
    requires Inverse(depends, revdeps) && Acyclic(depends) && Weights.IsWeighting(revdeps, weight)
    requires Distinct(tids) && forall t :: t in tids <==> t in depends
    ensures Distinct(prioMap) && forall t :: t in prioMap <==> t in depends
    ensures MapFor(tids, weight, completion, prioMap)
    ensures !completion ==> DependenciesAhead(depends, prioMap)
  {
    hide Acyclic, Inverse, Schedulers.IsPriorityMap, Schedulers.Grouped, Weights.IsWeighting;
    PreparedFacts(revdeps, weight, depends);
    var speed := Schedulers.SpeedPriorityMap(tids, weight);
    Schedulers.PriorityMapDistinct(tids, weight, speed);
    ListsAll(tids, weight, speed);
    if completion {
      prioMap := Schedulers.CompletionPriorityMap(speed);
      Schedulers.GroupedDistinct(speed);
      forall t
        ensures t in prioMap <==> t in speed
      {
        Schedulers.GroupedSameTasks(speed, t);
      }
    } else {
      prioMap := speed;
      forall t, d | t in depends && d in depends[t]
        ensures t in speed && d in speed && Schedulers.IndexOf(speed, d) < Schedulers.IndexOf(speed, t)
      {
        Schedulers.DependenciesFirst(depends, revdeps, tids, weight, speed, t, d);
      }
    }
  }

  lemma PreparedFacts(revdeps: Graph<Tid>, weight: map<Tid, int>, depends: Graph<Tid>)
    requires Inverse(depends, revdeps) && Weights.IsWeighting(revdeps, weight)
    ensures weight.Keys == depends.Keys
  {
  }

  lemma ListsAll(tids: seq<Tid>, weight: map<Tid, int>, prio: seq<Tid>)
    requires Schedulers.IsPriorityMap(tids, weight, prio)
    ensures forall t :: t in prio <==> t in tids
  {
  }

  lemma {:induction false} BegunGrows(log: seq<Event>, more: seq<Event>)
    ensures Begun(log) <= Begun(log + more)
    decreases |more|
  {
    if more == [] {
      assert log + more == log;
    } else {
      BegunGrows(log, Front(more));
      assert Front(log + more) == log + Front(more);
    }
  }

  lemma BeginningProgress(g: Graph<Tid>, log: seq<Event>, e: Event, rest: seq<Event>)
    requires Legal(g, log) && Legal(g, log + ([e] + rest)) && (e.Started? || e.Skipped?)
    ensures |g.Keys - Begun(log + ([e] + rest))| < |g.Keys - Begun(log)|
  {
    hide Legal, Begun, ExecutionLog.Finished, FailedIn;
    FirstAllowed(g, log, e, rest);
    LogSnoc(log, e);
    BegunGrows(log + [e], rest);
    ConcatAssoc(log, [e], rest);
    var before, after := Begun(log), Begun(log + ([e] + rest));
    assert e.tid in after && e.tid in g && e.tid !in before && before <= after;
    Shrinks(g.Keys, before, after, e.tid);
  }

  lemma StepProgress(g: Graph<Tid>, log: seq<Event>, step: Step)
    requires Legal(g, log) && Legal(g, log + EventsOf(step))
    ensures if step.Waiting? || step.Finished? then log + EventsOf(step) == log
            else |g.Keys - Begun(log + EventsOf(step))| < |g.Keys - Begun(log)|
  {
    hide Legal, Begun;
    match step
    case Skip(t) =>
      assert [Event.Skipped(t)] + [] == EventsOf(step);
      BeginningProgress(g, log, Event.Skipped(t), []);
    case NoExec(t) =>
      BeginningProgress(g, log, Started(t, true), [Completed(t)]);
    case Dispatch(t, _) =>
      assert [Started(t, false)] + [] == EventsOf(step);
      BeginningProgress(g, log, Started(t, false), []);
    case _ =>
  }

  lemma Shrinks(all: set<Tid>, before: set<Tid>, after: set<Tid>, t: Tid)
    requires before <= after && t in all && t in after && t !in before
    ensures |all - after| < |all - before|
  {
    SmallerSet(all - after, all - before);
  }

  lemma FirstAllowed(g: Graph<Tid>, log: seq<Event>, e: Event, rest: seq<Event>)
    requires Legal(g, log + ([e] + rest))
    ensures Allowed(g, log, e)
  {
    LegalAt(g, log + ([e] + rest), |log|);
    assert (log + ([e] + rest))[..|log|] == log;
  }

  lemma ReplyProgress(g: Graph<Tid>, log: seq<Event>, e: Event)
    requires Legal(g, log) && e.tid in Live(log) && (e.Completed? || e.Failed?)
    ensures Begun(log + [e]) == Begun(log) && |Live(log + [e])| < |Live(log)|
  {
    if e.Completed? {
      EffectCompleted(g, log, e.tid);
    } else {
      EffectFailed(g, log, e.tid);
    }
    RemoveOne(Live(log), e.tid);
  }

  lemma LegalEvents(q: RunQueueExecuteTasks)
    requires q.Valid()
    ensures Legal(q.g, q.events)
  {
    hide Legal;
  }

  /** Nothing that was to be skipped has been started. */
  ghost predicate StartsUncovered(covered: set<Tid>, log: seq<Event>) {
    forall i :: 0 <= i < |log| && log[i].Started? ==> log[i].tid !in covered
  }

  lemma CausedStarts(w: Inputs, busy: set<Tid>, log: seq<Event>)
    requires AllCaused(w, busy, log, 0)
    ensures StartsUncovered(w.covered, log)
  {
    forall i | 0 <= i < |log| && log[i].Started?
      ensures log[i].tid !in w.covered
    {
      assert Caused(w, busy, log[i]);
    }
  }

  /** Workers are only sent what they are to run. */
  ghost predicate SentToWork(noexec: set<Tid>, busy: set<Tid>, log: seq<Event>) {
    forall t :: t in Live(log) ==> t !in noexec || t in busy
  }

  /** The events of a step that was taken for its reason are caused by the inputs. */
  lemma StepCaused(q: RunQueueExecuteTasks, w: Inputs, busy: set<Tid>, log: seq<Event>, step: Step)
    requires w.covered == q.covered && w.noexec == q.noexec && q.Because(step, w.stampCurrent)
    requires Legal(q.g, log) && Legal(q.g, log + EventsOf(step)) && SentToWork(w.noexec, busy, log)
    requires forall t :: t in busy ==> t in Begun(log)
    ensures AllCaused(w, busy, EventsOf(step), 0) && SentToWork(w.noexec, busy, log + EventsOf(step))
  {
    hide Legal, Begun, ExecutionLog.Finished, FailedIn, Reach;
    match step
    case Skip(t) =>
      assert [Event.Skipped(t)] + [] == EventsOf(step);
      FirstAllowed(q.g, log, Event.Skipped(t), []);
      EffectSkipped(q.g, log, t);
    case NoExec(t) =>
      FirstAllowed(q.g, log, Started(t, true), [Completed(t)]);
      EffectStarted(q.g, log, t, true);
      EffectCompleted(q.g, log + [Started(t, true)], t);
      ConcatAssoc(log, [Started(t, true)], [Completed(t)]);
    case Dispatch(t, _) =>
      assert [Started(t, false)] + [] == EventsOf(step);
      FirstAllowed(q.g, log, Started(t, false), []);
      EffectStarted(q.g, log, t, false);
    case _ =>
      assert log + EventsOf(step) == log;
  }

  lemma ReplyCaused(g: Graph<Tid>, w: Inputs, busy: set<Tid>, log: seq<Event>, t: Tid)
    requires Legal(g, log) && SentToWork(w.noexec, busy, log) && t in Live(log)
    ensures var e := if w.reply(t) != 0 then Event.Failed(t) else Completed(t);
            AllCaused(w, busy, [e], 0) && SentToWork(w.noexec, busy, log + [e])
  {
    hide Legal, Begun, ExecutionLog.Finished, FailedIn;
    EffectCompleted(g, log, t);
    EffectFailed(g, log, t);
  }

  /** In the middle of a run that began with `start`: everything since was caused by the
      inputs, and the workers that are busy were busy then or are to run their tasks. */
  ghost predicate OnTheWay(q: RunQueueExecuteTasks, w: Inputs, start: seq<Event>)
    reads q
  {
    && w.covered == q.covered && w.noexec == q.noexec && start <= q.events
    && AllCaused(w, Live(start), q.events, |start|) && SentToWork(w.noexec, Live(start), q.events)
    && Begun(start) <= Begun(q.events)
  }

  /** One of the workers that are busy answers. */
  method TakeReply(q: RunQueueExecuteTasks, ghost w: Inputs, reply: Tid -> int, ghost start: seq<Event>)
    requires q.Valid() && !q.abort && Live(q.events) != {} && w.reply == reply && OnTheWay(q, w, start)
    modifies q, q.sched, q.stats
    ensures q.Valid() && q.state == old(q.state) && OnTheWay(q, w, start)
    ensures Begun(q.events) == old(Begun(q.events)) && |Live(q.events)| < old(|Live(q.events)|)
  {
    hide RunQueueExecuteTasks.Valid, Legal, Begun, Live, AllCaused, SentToWork;
    LegalEvents(q);
    var task := AnyLive(q);
    ghost var log, e := q.events, if reply(task) != 0 then Event.Failed(task) else Completed(task);
    q.RunqueueProcessWaitpid(task, reply(task));
    ReplyProgress(q.g, log, e);
    ReplyCaused(q.g, w, Live(start), log, task);
    CausedMore(w, Live(start), log, |start|, [e]);
  }

  /** Takes as many of the workers' answers as have come in, perhaps none. */
  method ReadWorkers(q: RunQueueExecuteTasks, ghost w: Inputs, reply: Tid -> int, ghost start: seq<Event>)
    requires q.Valid() && !q.abort && w.reply == reply && OnTheWay(q, w, start)
    modifies q, q.sched, q.stats
    ensures q.Valid() && q.state == old(q.state) && OnTheWay(q, w, start)
    ensures Begun(q.events) == old(Begun(q.events)) && |Live(q.events)| <= old(|Live(q.events)|)
  {
    hide RunQueueExecuteTasks.Valid, Begun, Live, OnTheWay;
    while Live(q.events) != {}
      invariant q.Valid() && q.state == old(q.state) && OnTheWay(q, w, start)
      invariant Begun(q.events) == old(Begun(q.events)) && |Live(q.events)| <= old(|Live(q.events)|)
      decreases |Live(q.events)|
    {
      var more: bool := *;
      if !more {
        break;
      }
      TakeReply(q, w, reply, start);
    }
  }

  lemma RunStarts(q: RunQueueExecuteTasks, w: Inputs)
    requires w.covered == q.covered && w.noexec == q.noexec
    ensures OnTheWay(q, w, q.events)
  {
  }

  /** One call of the server's loop, after as many answers as have come in. */
  method Serve(q: RunQueueExecuteTasks, ghost w: Inputs, stampCurrent: Tid -> bool, reply: Tid -> int,
               ghost start: seq<Event>)
    returns (step: Step)
    requires q.Valid() && !q.abort && w.stampCurrent == stampCurrent && w.reply == reply && OnTheWay(q, w, start)
    modifies q, q.rqdata, q.sched, q.stats
    ensures q.Valid() && OnTheWay(q, w, start) && (step.Finished? ==> q.Done())
    ensures step.Waiting? ==> Live(q.events) != {}
    ensures if step.Waiting? || step.Finished? then Begun(q.events) == old(Begun(q.events))
              && |Live(q.events)| <= old(|Live(q.events)|)
            else |q.g.Keys - Begun(q.events)| < old(|q.g.Keys - Begun(q.events)|)
  {
    hide RunQueueExecuteTasks.Valid, RunQueueExecuteTasks.Done, RunQueueExecuteTasks.FirstOffered,
         RunQueueExecuteTasks.Because, Legal, Begun, Live, EventsOf, AllCaused, SentToWork;
    ReadWorkers(q, w, reply, start);
    LegalEvents(q);
    ghost var log := q.events;
    var errors;
    step, errors := q.Execute(stampCurrent);
    LegalEvents(q);
    StepProgress(q.g, log, step);
    BusyBegan(start, log);
    StepCaused(q, w, Live(start), log, step);
    CausedMore(w, Live(start), log, |start|, EventsOf(step));
    BegunGrows(log, EventsOf(step));
  }

  lemma BusyBegan(start: seq<Event>, log: seq<Event>)
    requires Begun(start) <= Begun(log)
    ensures forall t :: t in Live(start) ==> t in Begun(log)
  {
  }

  /** Runs the queue to its end, not stopping at failures: `reply` is what each task's
      worker will answer. How many answers have come in before each step, and whose, is
      left open. Every run ends, and all that happens is caused by what the run is given. */
  method RunToCompletion(q: RunQueueExecuteTasks, stampCurrent: Tid -> bool, reply: Tid -> int)
    requires q.Valid() && !q.abort && q.state == Running
    modifies q, q.rqdata, q.sched, q.stats
    ensures q.Valid() && q.Done() && old(q.events) <= q.events
    ensures AllCaused(Inputs(q.covered, q.noexec, stampCurrent, reply), Live(old(q.events)), q.events, |old(q.events)|)
  {
    hide RunQueueExecuteTasks.Valid, RunQueueExecuteTasks.Done, Begun, Live, AllCaused, SentToWork;
    ghost var w, start := Inputs(q.covered, q.noexec, stampCurrent, reply), q.events;
    RunStarts(q, w);
    var finished := false;
    while !finished
      invariant q.Valid() && OnTheWay(q, w, start) && (finished ==> q.Done())
      decreases |q.g.Keys - Begun(q.events)|, |Live(q.events)|, !finished
    {
      var step := Serve(q, w, stampCurrent, reply, start);
      if step.Finished? {
        finished := true;
      } else if step.Waiting? {
        TakeReply(q, w, reply, start);
      }
    }
  }

  /** What a started task depends on has ended before, and where it was to be skipped, the
      setscene pass itself had covered it. */
  ghost predicate ReliesOnScene(g: Graph<Tid>, covered: set<Tid>, initial: set<Tid>, log: seq<Event>) {
    forall i, d :: 0 <= i < |log| && log[i].Started? && log[i].tid in g && d in g[log[i].tid] ==>
      (d in covered ==> d in initial) && EndedBefore(log, i, d)
  }

  ghost predicate EndedBefore(log: seq<Event>, i: nat, d: Tid)
    requires i <= |log|
  {
    exists j :: 0 <= j < i && Ends(log[j], d)
  }

  lemma StartsRely(g: Graph<Tid>, covered: set<Tid>, initial: set<Tid>, log: seq<Event>)
    requires Legal(g, log) && StartsUncovered(covered, log)
    requires forall u, d :: u in g && d in g[u] && u !in covered && d in covered ==> d in initial
    ensures ReliesOnScene(g, covered, initial, log)
  {
    hide Legal;
    forall i, d | 0 <= i < |log| && log[i].Started? && log[i].tid in g && d in g[log[i].tid]
      ensures (d in covered ==> d in initial) && EndedBefore(log, i, d)
    {
      var j := DependenciesEndFirst(g, log, i, log[i].tid, d);
      assert Ends(log[j], d);
    }
  }

  /** The build after the setscene pass: works out what to skip, starts the executor and
      runs it. A task that is started relies on no task that was only inferred to be
      covered. */
  method RunAfterSetscene(rqdata: Preparation.RunQueueData, ghost s: TaskHashes.Signing, tids: seq<Tid>,
                          completion: bool, stamps: map<Tid, string>, numberTasks: nat, initial: set<Tid>,
                          notcovered: set<Tid>, ask: set<Tid> -> seq<Tid>, noexec: set<Tid>, stampCurrent: Tid -> bool,
                          reply: Tid -> int)
    returns (q: RunQueueExecuteTasks)
    requires rqdata.Ready(s) && numberTasks > 0 && stamps.Keys == rqdata.depends.Keys
    requires Distinct(tids) && forall t :: t in tids <==> t in rqdata.depends
    requires initial <= rqdata.depends.Keys
    // the hook answers with covered tasks, each once
    requires forall all: set<Tid> :: Distinct(ask(all)) && forall t :: t in ask(all) ==> t in all
    modifies rqdata
    ensures fresh(q) && q.Valid() && q.Done() && q.g == old(rqdata.depends)
    ensures ReliesOnScene(q.g, q.covered, initial, q.events)
    ensures q.numberTasks == numberTasks && q.noexec == noexec && q.sched.stamps == stamps && !q.abort
    ensures MapFor(tids, old(rqdata.weight), completion, q.sched.prioMap)
    ensures var all := CoveredSet.Saturated(old(rqdata.revdeps), tids, initial, notcovered);
            q.covered == all - CoveredSet.TakenBack(q.g, all, initial, (set t | t in ask(all)))
    ensures AllCaused(Inputs(q.covered, noexec, stampCurrent, reply), {}, q.events, 0)
    ensures forall t :: t in q.g ==>
      (t in q.complete <==> forall u :: Reach(q.g, t, u) ==>
                              u in q.covered || stampCurrent(u) || u in noexec || reply(u) == 0)
    ensures forall t :: t in q.g ==>
      (t in q.failedTids <==> !(t in q.covered || stampCurrent(t) || t in noexec || reply(t) == 0)
                              && q.g[t] <= q.complete)
  {
    hide Acyclic, Inverse, RunQueueExecuteTasks.Valid, RunQueueExecuteTasks.Done, CoveredSet.TakenBack,
         CoveredSet.Saturated, Weights.IsWeighting, TaskHashes.Hashed, MapFor;
    var covered := CoveredSet.SkipSet(rqdata.depends, rqdata.revdeps, tids, initial, notcovered, ask);
    q := StartTasks(rqdata, s, tids, completion, stamps, numberTasks, false, covered, noexec);
    RunToCompletion(q, stampCurrent, reply);
    LegalEvents(q);
    ghost var w := Inputs(q.covered, noexec, stampCurrent, reply);
    CausedStarts(w, {}, q.events);
    StartsRely(q.g, q.covered, initial, q.events);
    Outcome(q, w);
  }

  lemma Outcome(q: RunQueueExecuteTasks, w: Inputs)
    requires q.Valid() && q.Done() && AllCaused(w, {}, q.events, 0)
    ensures forall t :: t in q.g ==>
      (t in q.complete <==> forall u :: Reach(q.g, t, u) ==>
                              u in w.covered || w.stampCurrent(u) || u in w.noexec || w.reply(u) == 0)
    ensures forall t :: t in q.g ==>
      (t in q.failedTids <==> !(t in w.covered || w.stampCurrent(t) || t in w.noexec || w.reply(t) == 0)
                              && q.g[t] <= q.complete)
  {
    hide RunQueueExecuteTasks.Core, Legal, Quiescent, AllCaused, Begun, ExecutionLog.Finished, FailedIn, Live, Reach,
         StampsHeld, Acyclic, Closed;
    q.Facts();
    forall t | t in q.g
      ensures t in q.complete <==> forall u :: Reach(q.g, t, u) ==>
                                     u in w.covered || w.stampCurrent(u) || u in w.noexec || w.reply(u) == 0
      ensures t in q.failedTids <==> !(t in w.covered || w.stampCurrent(t) || t in w.noexec || w.reply(t) == 0)
                                     && q.g[t] <= q.complete
    {
      OutcomeFromInputs(q.g, w, q.events, t);
      FailedFromInputs(q.g, w, q.events, t);
    }
  }

  /** Whoever answers next holds a stamp. */
  method AnyLive(q: RunQueueExecuteTasks) returns (task: Tid)
    requires q.Valid() && Live(q.events) != {}
    ensures task in Live(q.events)
  {
    hide Legal, Live, Schedulers.Scheduler.Valid, Acyclic, Inverse;
    assert q.buildStamps.Keys == Live(q.events);
    task :| task in q.buildStamps.Keys;
  }
}
