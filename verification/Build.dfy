/** A build from the prepared queue on: the setscene pass, and then the tasks it leaves. */
module Build {
  import opened ExecutionLog
  import opened Graphs
  import opened Sequences
  import opened Tasks
  import CoveredSet
  import ExecuteTasks
  import HardDeps
  import Preparation
  import Scenequeue
  import TaskHashes

  /** How a build ends: some wish cannot be met, a task that must not run for real failed
      to be set up, or both passes ran to their ends. */
  datatype Outcome = Fatal | Stopped | Built

  /** What the setscene pass is given, besides the queue. */
  datatype SceneRequest = SceneRequest(tids: seq<Tid>, wishes: map<Tid, seq<HardDeps.Wish>>,
                                       targets: map<string, seq<string>>, stamps: map<Tid, string>,
                                       targetTids: set<Tid>, force: bool, enforced: set<Tid>,
                                       depvalidate: Option<Scenequeue.DepValidate>, current: Tid -> bool,
                                       available: Option<set<Tid> -> set<Tid>>, stampCurrent: Tid -> bool,
                                       sceneStampCurrent: Tid -> bool, reply: Tid -> int)

  /** What the tasks themselves are run with. */
  datatype TaskRequest = TaskRequest(tids: seq<Tid>, completion: bool, stamps: map<Tid, string>,
                                     ask: set<Tid> -> seq<Tid>, noexec: set<Tid>, stampCurrent: Tid -> bool,
                                     reply: Tid -> int)

  ghost predicate Fits(depends: Graph<Tid>, scene: SceneRequest, tasks: TaskRequest) {
    && (forall t :: t in scene.tids <==> t in scene.stamps) && scene.stamps.Keys == scene.wishes.Keys
       && scene.stamps.Keys <= depends.Keys
    && (forall hard :: HardDeps.RecordsWishes(scene.targets, scene.wishes, scene.stamps.Keys, hard) ==> Acyclic(hard))
    && tasks.stamps.Keys == depends.Keys && Distinct(tasks.tids) && (forall t :: t in tasks.tids <==> t in depends)
    // the hook answers with covered tasks, each once
    && (forall all: set<Tid> :: Distinct(tasks.ask(all)) && forall t :: t in tasks.ask(all) ==> t in all)
  }

  /** Besides what was skipped at the start, the steps and the workers' answers are all that
      happened in the setscene pass, each step was taken for its reason, and nothing that
      cannot be fetched was sent. */
  ghost predicate SceneRan(scene: SceneRequest, numberTasks: nat, sq: Scenequeue.RunQueueExecuteScenequeue,
                           steps: seq<Scenequeue.Step>, answers: seq<Tid>)
    reads sq
  {
    && sq.setsceneTids == scene.tids && sq.stamps == scene.stamps && sq.enforced == scene.enforced
    && sq.targetTids == scene.targetTids && sq.force == scene.force && sq.depvalidate == scene.depvalidate
    && sq.numberTasks == numberTasks
    && (forall t :: t in sq.initial <==> scene.available.Some? && t in sq.g && scene.current(t))
    && (forall t :: t in sq.outrightfail <==>
          scene.available.Some? && t in sq.g && !scene.current(t)
          && t !in scene.available.value(set u | u in sq.g && !scene.current(u)))
    && HardDeps.RecordsWishes(scene.targets, scene.wishes, scene.stamps.Keys, sq.harddeps)
    && Scenequeue.AllCalled(sq, scene.stampCurrent, scene.sceneStampCurrent, steps)
    && (forall t :: t in sq.outrightfail ==> Scenequeue.Sent(t) !in steps)
    && Scenequeue.Explained(scene.reply, Scenequeue.Progress(sq.initial, sq.initial, {}), Scenequeue.ProgressOf(sq),
                            steps, answers)
  }

  /** All that happened to the tasks was caused by what they are run with, and that alone
      tells which of them are complete. */
  ghost predicate TasksRan(tasks: TaskRequest, numberTasks: nat, revdeps: Graph<Tid>, initial: set<Tid>,
                           notcovered: set<Tid>, q: ExecuteTasks.RunQueueExecuteTasks)
    reads q
  {
    && q.noexec == tasks.noexec && q.numberTasks == numberTasks && q.sched.stamps == tasks.stamps
    && (var all := CoveredSet.Saturated(revdeps, tasks.tids, initial, notcovered);
        q.covered == all - CoveredSet.TakenBack(q.g, all, initial, (set t | t in tasks.ask(all))))
    && AllCaused(Inputs(q.covered, tasks.noexec, tasks.stampCurrent, tasks.reply), {}, q.events, 0)
    && forall t :: t in q.g ==>
         (t in q.complete <==>
          forall u :: Reach(q.g, t, u) ==>
            u in q.covered || tasks.stampCurrent(u) || u in tasks.noexec || tasks.reply(u) == 0)
  }

  /** Sets the setscene pass up and runs it, works out what to skip from what it covered,
      and runs the tasks. When nothing stops it, every setscene task is accounted for, the
      tasks end in the exact outcome, and a task that was started relies on no task that
      was to be skipped unless the setscene pass itself had covered that one. */
  method BuildAll(rqdata: Preparation.RunQueueData, ghost s: TaskHashes.Signing, scene: SceneRequest,
                  tasks: TaskRequest, numberTasks: nat)
    returns (r: Outcome, sq: Scenequeue.RunQueueExecuteScenequeue?, q: ExecuteTasks.RunQueueExecuteTasks?,
             ghost answers: seq<Tid>, ghost steps: seq<Scenequeue.Step>)
    requires rqdata.Ready(s) && numberTasks > 0 && Fits(rqdata.depends, scene, tasks)
    modifies rqdata
    ensures r.Fatal? <==> HardDeps.Unmet(scene.stamps.Keys, scene.wishes, scene.targets, old(rqdata.depends.Keys))
    ensures !r.Fatal? ==> sq != null && Scenequeue.Answered(scene.reply, answers, sq.covered, sq.notcovered)
    ensures !r.Fatal? ==> SceneRan(scene, numberTasks, sq, steps, answers)
    ensures r.Stopped? ==> Scenequeue.SomeForbidden(scene.enforced, scene.reply, answers)
    ensures r.Built? ==>
      sq != null && q != null && sq.Valid() && sq.Done() && q.Valid() && q.Done() && q.g == old(rqdata.depends)
    ensures r.Built? ==> ExecuteTasks.ReliesOnScene(q.g, q.covered, sq.covered, q.events)
    ensures r.Built? ==> TasksRan(tasks, numberTasks, old(rqdata.revdeps), sq.covered, sq.notcovered, q)
  {
    hide Inverse, Acyclic, HardDeps.RecordsWishes, HardDeps.Unmet, Scenequeue.RunQueueExecuteScenequeue.Valid,
         Scenequeue.RunQueueExecuteScenequeue.Done, Scenequeue.RunQueueExecuteScenequeue.Idle,
         ExecuteTasks.RunQueueExecuteTasks.Valid, ExecuteTasks.RunQueueExecuteTasks.Done, ExecuteTasks.ReliesOnScene,
         Scenequeue.Answered, Scenequeue.SomeForbidden, Scenequeue.SceneOrder, Scenequeue.AllCalled,
         Scenequeue.Explained, AllCaused, Reach, CoveredSet.Saturated, CoveredSet.TakenBack, ExecuteTasks.MapFor;
    q, answers, steps := null, [], [];
    ghost var order;
    sq, order := Scenequeue.StartScenequeue(rqdata.depends, rqdata.revdeps, scene.tids, scene.wishes, scene.targets,
                                            scene.stamps, numberTasks, scene.targetTids, scene.force, scene.enforced,
                                            scene.depvalidate, scene.current, scene.available);
    if sq == null {
      return Fatal, null, null, [], [];
    }
    ghost var earlier, last, idle;
    earlier, last, idle, steps := Scenequeue.RunScenequeue(sq, scene.stampCurrent, scene.sceneStampCurrent,
                                                           scene.reply);
    answers := earlier + last;
    Scenequeue.MoreAnswers(scene.enforced, scene.reply, earlier, last);
    if sq.state == Scenequeue.CleanUp {
      return Stopped, sq, null, answers, steps;
    }
    Scenequeue.CoveredInQueue(sq);
    q := ExecuteTasks.RunAfterSetscene(rqdata, s, tasks.tids, tasks.completion, tasks.stamps, numberTasks, sq.covered,
                                       sq.notcovered, tasks.ask, tasks.noexec, tasks.stampCurrent, tasks.reply);
    return Built, sq, q, answers, steps;
  }
}
