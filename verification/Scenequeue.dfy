/** Running the setscene tasks. What a task still waits for is a function of which tasks
    have been covered and which have failed to be; the counters keep up with it. */
module Scenequeue {
  import opened Graphs
  import opened Tasks
  import opened HardDeps
  import ExecuteTasks
  import Preparation
  import SceneCollapse
  import TaskDepData

  // ---- what a task waits for ----

  /** `d` failed, or asked, directly or through others, for something that failed. */
  ghost predicate Lost(hard: Marks, notcovered: set<Tid>, d: Tid) {
    ReachFrom(hard, notcovered, d)
  }

  /** `t` need not wait for `d` any more: it is covered, or it is lost and `t` did not
      ask for it. */
  ghost predicate Gone(hard: Marks, covered: set<Tid>, notcovered: set<Tid>, d: Tid, t: Tid) {
    d in covered || (!IsHard(hard, d, t) && Lost(hard, notcovered, d))
  }

  ghost function Left(g: Graph<Tid>, hard: Marks, covered: set<Tid>, notcovered: set<Tid>): Graph<Tid> {
    map t | t in g :: set d | d in g[t] && !Gone(hard, covered, notcovered, d, t)
  }

  ghost function Free(left: Graph<Tid>): set<Tid> {
    set t | t in left && left[t] == {}
  }

  /** The effect of striking `task`, and what is lost with it, everywhere except where it
      was asked for. With no wishes, only `task` is struck. */
  ghost function Struck(left: Graph<Tid>, hard: Marks, task: Tid): Graph<Tid> {
    map t | t in left :: set d | d in left[t] && (IsHard(hard, d, t) || !Reach(hard, task, d))
  }

  lemma CoverStrikes(g: Graph<Tid>, hard: Marks, covered: set<Tid>, notcovered: set<Tid>, t: Tid)
    ensures Left(g, hard, covered + {t}, notcovered) == Struck(Left(g, hard, covered, notcovered), map[], t)
  {
    hide Reach, Lost;
    var before, after := Left(g, hard, covered, notcovered), Left(g, hard, covered + {t}, notcovered);
    forall x | x in g
      ensures after[x] == Struck(before, map[], t)[x]
    {
      forall d | d in g[x]
        ensures d in after[x] <==> d in before[x] && !Reach(map[], t, d)
      {
        NoWishesReach(t, d);
      }
    }
  }

  lemma NoWishesReach(t: Tid, d: Tid)
    ensures Reach<Tid>(map[], t, d) <==> t == d
  {
    ReachRefl<Tid>(map[], t);
    if Reach<Tid>(map[], t, d) && t != d {
      var c := ReachFirst<Tid>(map[], t, d);
    }
  }

  lemma LostMore(hard: Marks, notcovered: set<Tid>, t: Tid, d: Tid)
    ensures Lost(hard, notcovered + {t}, d) <==> Lost(hard, notcovered, d) || Reach(hard, t, d)
  {
  }

  lemma FailStrikes(g: Graph<Tid>, hard: Marks, covered: set<Tid>, notcovered: set<Tid>, t: Tid)
    ensures Left(g, hard, covered, notcovered + {t}) == Struck(Left(g, hard, covered, notcovered), hard, t)
  {
    hide Lost, Reach;
    var before, after := Left(g, hard, covered, notcovered), Left(g, hard, covered, notcovered + {t});
    forall x | x in g
      ensures after[x] == Struck(before, hard, t)[x]
    {
      forall d | d in g[x]
        ensures d in after[x] <==> d in before[x] && (IsHard(hard, d, x) || !Reach(hard, t, d))
      {
        LostMore(hard, notcovered, t, d);
      }
    }
  }

  // ---- the recursion over the counters ----

  /** Struck by `task` while only the dependants in `handled` have been looked at. */
  ghost predicate Hit(hard: Marks, task: Tid, handled: set<Tid>, d: Tid, t: Tid) {
    !IsHard(hard, d, t) && ((d == task && t in handled)
                            || exists h :: h in handled && IsHard(hard, task, h) && Reach(hard, h, d))
  }

  ghost function Partly(left: Graph<Tid>, hard: Marks, task: Tid, handled: set<Tid>): Graph<Tid> {
    map t | t in left :: set d | d in left[t] && !Hit(hard, task, handled, d, t)
  }

  predicate Fits(g: Graph<Tid>, left: Graph<Tid>) {
    left.Keys == g.Keys && forall t :: t in left ==> left[t] <= g[t]
  }

  lemma PartlyNone(left: Graph<Tid>, hard: Marks, task: Tid)
    ensures Partly(left, hard, task, {}) == left
  {
    var none := Partly(left, hard, task, {});
    forall t | t in left
      ensures none[t] == left[t]
    {
    }
  }

  lemma PartlyDirect(left: Graph<Tid>, hard: Marks, task: Tid, handled: set<Tid>, dep: Tid)
    requires dep in left && !IsHard(hard, task, dep)
    ensures Partly(left, hard, task, handled + {dep})
            == Partly(left, hard, task, handled)[dep := Partly(left, hard, task, handled)[dep] - {task}]
  {
    hide Reach;
    var now, next := Partly(left, hard, task, handled), Partly(left, hard, task, handled + {dep});
    forall t | t in left
      ensures next[t] == if t == dep then now[t] - {task} else now[t]
    {
      forall d | d in left[t]
        ensures Hit(hard, task, handled + {dep}, d, t) <==> Hit(hard, task, handled, d, t) || (t == dep && d == task)
      {
      }
    }
  }

  lemma PartlyHard(left: Graph<Tid>, hard: Marks, task: Tid, handled: set<Tid>, dep: Tid)
    requires IsHard(hard, task, dep)
    ensures Partly(left, hard, task, handled + {dep}) == Struck(Partly(left, hard, task, handled), hard, dep)
  {
    hide Reach;
    var now, next := Partly(left, hard, task, handled), Partly(left, hard, task, handled + {dep});
    forall t | t in left
      ensures next[t] == Struck(now, hard, dep)[t]
    {
      forall d | d in left[t]
        ensures Hit(hard, task, handled + {dep}, d, t)
          <==> Hit(hard, task, handled, d, t) || (!IsHard(hard, d, t) && Reach(hard, dep, d))
      {
      }
    }
  }

  lemma PartlyAll(g: Graph<Tid>, deps: Graph<Tid>, left: Graph<Tid>, hard: Marks, task: Tid)
    requires Inverse(g, deps) && task in g && Fits(g, left)
    requires forall t :: IsHard(hard, task, t) ==> t in deps[task]
    ensures Partly(left, hard, task, deps[task]) == Struck(left, hard, task)
  {
    hide Reach;
    var now := Partly(left, hard, task, deps[task]);
    forall t | t in left
      ensures now[t] == Struck(left, hard, task)[t]
    {
      forall d | d in left[t]
        ensures d in now[t] <==> IsHard(hard, d, t) || !Reach(hard, task, d)
      {
        HitAll(hard, task, deps[task], d, t);
      }
    }
  }

  lemma HitAll(hard: Marks, task: Tid, all: set<Tid>, d: Tid, t: Tid)
    requires d == task ==> t in all
    requires forall h :: IsHard(hard, task, h) ==> h in all
    ensures Hit(hard, task, all, d, t) <==> !IsHard(hard, d, t) && Reach(hard, task, d)
  {
    hide Reach;
    ReachRefl(hard, task);
    if Reach(hard, task, d) && d != task {
      var h := ReachFirst(hard, task, d);
      assert IsHard(hard, task, h);
    }
    forall h | IsHard(hard, task, h) && Reach(hard, h, d)
      ensures Reach(hard, task, d)
    {
      ReachCons(hard, task, h, d);
    }
  }

  lemma StrikeSome(left: Graph<Tid>, dep: Tid, task: Tid)
    requires dep in left && task in left[dep]
    ensures Free(left[dep := left[dep] - {task}]) == Free(left) + if left[dep] - {task} == {} then {dep} else {}
  {
  }

  lemma StrikeNone(left: Graph<Tid>, dep: Tid, task: Tid)
    requires dep in left
    ensures task !in left[dep] ==> left[dep := left[dep] - {task}] == left
  {
    if task !in left[dep] {
      assert left[dep] - {task} == left[dep];
    }
  }

  lemma StruckIsSmaller(left: Graph<Tid>, hard: Marks, task: Tid)
    ensures Fits(left, Struck(left, hard, task)) && Free(left) <= Free(Struck(left, hard, task))
  {
  }

  lemma PartlyIsSmaller(left: Graph<Tid>, hard: Marks, task: Tid, handled: set<Tid>)
    ensures Fits(left, Partly(left, hard, task, handled)) && Free(left) <= Free(Partly(left, hard, task, handled))
  {
  }

  lemma FitsTrans(g: Graph<Tid>, left: Graph<Tid>, less: Graph<Tid>)
    requires Fits(g, left) && Fits(left, less)
    ensures Fits(g, less) && less.Keys == g.Keys
  {
  }

  // ---- what the fields say ----

  datatype View = View(left: Graph<Tid>, buildable: set<Tid>, running: set<Tid>, covered: set<Tid>,
                       notcovered: set<Tid>, held: map<Tid, string>, active: int, completed: int, failed: int)

  /** Tasks a worker is busy with. */
  function Live(running: set<Tid>, covered: set<Tid>, notcovered: set<Tid>): set<Tid> {
    running - covered - notcovered
  }

  /** A task is covered or not, not both, and the counters count. */
  ghost predicate Counted(limit: nat, running: set<Tid>, covered: set<Tid>, notcovered: set<Tid>, active: int,
                          completed: int, failed: int)
  {
    && covered !! notcovered && covered + notcovered <= running
    && active == |Live(running, covered, notcovered)| <= limit
    && completed + failed == |covered + notcovered|
  }

  lemma CountSettled(limit: nat, running: set<Tid>, covered: set<Tid>, notcovered: set<Tid>, active: int,
                     completed: int, failed: int, t: Tid)
    requires Counted(limit, running, covered, notcovered, active, completed, failed) && t !in running
    ensures Live(running + {t}, covered + {t}, notcovered) == Live(running + {t}, covered, notcovered + {t})
      == Live(running, covered, notcovered)
    ensures Counted(limit, running + {t}, covered + {t}, notcovered, active, completed + 1, failed)
    ensures Counted(limit, running + {t}, covered, notcovered + {t}, active, completed + 1, failed)
  {
  }

  lemma CountSent(limit: nat, running: set<Tid>, covered: set<Tid>, notcovered: set<Tid>, active: int, completed: int,
                  failed: int, t: Tid)
    requires Counted(limit, running, covered, notcovered, active, completed, failed) && t !in running && active < limit
    ensures Live(running + {t}, covered, notcovered) == Live(running, covered, notcovered) + {t}
    ensures Counted(limit, running + {t}, covered, notcovered, active + 1, completed, failed)
  {
  }

  lemma CountReplied(limit: nat, running: set<Tid>, covered: set<Tid>, notcovered: set<Tid>, active: int,
                     completed: int, failed: int, t: Tid)
    requires Counted(limit, running, covered, notcovered, active, completed, failed)
      && t in Live(running, covered, notcovered)
    ensures Counted(limit, running, covered + {t}, notcovered, active - 1, completed + 1, failed)
    ensures Counted(limit, running, covered, notcovered + {t}, active - 1, completed, failed + 1)
  {
  }

  lemma LiveReplied(running: set<Tid>, covered: set<Tid>, notcovered: set<Tid>, t: Tid)
    ensures Live(running, covered + {t}, notcovered) == Live(running, covered, notcovered) - {t}
    ensures Live(running, covered, notcovered + {t}) == Live(running, covered, notcovered) - {t}
  {
  }

  lemma ReplyReleases(stamps: map<Tid, string>, running: set<Tid>, covered: set<Tid>, notcovered: set<Tid>,
                      held: map<Tid, string>, t: Tid)
    requires ExecuteTasks.StampsHeld(stamps, Live(running, covered, notcovered), held)
    ensures ExecuteTasks.StampsHeld(stamps, Live(running, covered + {t}, notcovered), held - {t})
    ensures ExecuteTasks.StampsHeld(stamps, Live(running, covered, notcovered + {t}), held - {t})
  {
  }

  /** A task that was begun, other than by being skipped at the start, had everything it
      asks for covered. */
  ghost predicate HardFirst(hard: Marks, initial: set<Tid>, running: set<Tid>, covered: set<Tid>) {
    forall h, t {:trigger IsHard(hard, h, t)} :: IsHard(hard, h, t) && t in running && t !in initial ==> h in covered
  }

  /** Only setscene tasks begin, apart from those skipped at the start. */
  predicate Within(g: Graph<Tid>, stamps: map<Tid, string>, initial: set<Tid>, running: set<Tid>, covered: set<Tid>) {
    running <= g.Keys && initial <= covered && running <= initial + stamps.Keys
  }

  lemma WithinMore(g: Graph<Tid>, stamps: map<Tid, string>, initial: set<Tid>, running: set<Tid>, covered: set<Tid>,
                   t: Tid)
    requires Within(g, stamps, initial, running, covered) && t in g
    ensures t in stamps ==>
      Within(g, stamps, initial, running + {t}, covered) && Within(g, stamps, initial, running + {t}, covered + {t})
    ensures Within(g, stamps, initial + {t}, running + {t}, covered + {t})
  {
  }

  lemma WithinCovered(g: Graph<Tid>, stamps: map<Tid, string>, initial: set<Tid>, running: set<Tid>, covered: set<Tid>,
                      t: Tid)
    requires Within(g, stamps, initial, running, covered)
    ensures Within(g, stamps, initial, running, covered + {t})
  {
  }

  ghost predicate Tied(g: Graph<Tid>, hard: Marks, stamps: map<Tid, string>, limit: nat, initial: set<Tid>, v: View) {
    && v.left == Left(g, hard, v.covered, v.notcovered)
    && v.buildable == v.running + Free(v.left)
    && Within(g, stamps, initial, v.running, v.covered)
    && ExecuteTasks.StampsHeld(stamps, Live(v.running, v.covered, v.notcovered), v.held)
    && Counted(limit, v.running, v.covered, v.notcovered, v.active, v.completed, v.failed)
    && HardFirst(hard, initial, v.running, v.covered)
  }

  /** Every task that has begun is counted exactly once. */
  lemma CountsAddUp(limit: nat, running: set<Tid>, covered: set<Tid>, notcovered: set<Tid>, active: int, completed: int,
                    failed: int)
    requires Counted(limit, running, covered, notcovered, active, completed, failed)
    ensures active + completed + failed == |running| && active <= limit
  {
  }

  lemma TiedStart(g: Graph<Tid>, hard: Marks, stamps: map<Tid, string>, limit: nat)
    ensures Left(g, hard, {}, {}) == g
    ensures Tied(g, hard, stamps, limit, {}, View(g, Free(g), {}, {}, {}, map[], 0, 0, 0))
  {
    var now := Left(g, hard, {}, {});
    forall t | t in g
      ensures now[t] == g[t]
    {
    }
  }

  lemma FreeAsked(g: Graph<Tid>, hard: Marks, covered: set<Tid>, notcovered: set<Tid>, t: Tid)
    requires t in Free(Left(g, hard, covered, notcovered))
    ensures t in g && forall d :: d in g[t] ==> Gone(hard, covered, notcovered, d, t)
  {
    hide Gone;
    forall d | d in g[t]
      ensures Gone(hard, covered, notcovered, d, t)
    {
      assert d !in Left(g, hard, covered, notcovered)[t];
    }
  }

  lemma BeginKeepsHardFirst(g: Graph<Tid>, hard: Marks, initial: set<Tid>, running: set<Tid>, covered: set<Tid>,
                            notcovered: set<Tid>, t: Tid)
    requires HardFirst(hard, initial, running, covered) && t in Free(Left(g, hard, covered, notcovered))
    requires forall h :: IsHard(hard, h, t) ==> t in g && h in g[t]
    ensures HardFirst(hard, initial, running + {t}, covered)
  {
    FreeAsked(g, hard, covered, notcovered, t);
  }

  lemma MoreCovered(hard: Marks, initial: set<Tid>, running: set<Tid>, covered: set<Tid>, t: Tid)
    requires HardFirst(hard, initial, running, covered)
    ensures HardFirst(hard, initial, running, covered + {t})
  {
  }

  lemma MoreInitial(hard: Marks, initial: set<Tid>, running: set<Tid>, covered: set<Tid>, t: Tid)
    requires HardFirst(hard, initial, running, covered)
    ensures HardFirst(hard, initial + {t}, running + {t}, covered + {t})
  {
  }

  /** A task is covered without being run: at the start (`early`), or when its turn comes. */
  lemma TiedSkip(g: Graph<Tid>, hard: Marks, stamps: map<Tid, string>, limit: nat, initial: set<Tid>, v: View, t: Tid,
                 early: bool)
    requires Tied(g, hard, stamps, limit, initial, v) && t in g && t !in v.running
    requires early || (t in stamps && t in Free(v.left))
    requires forall h :: IsHard(hard, h, t) ==> h in g[t]
    ensures var left' := Struck(v.left, map[], t);
            Tied(g, hard, stamps, limit, if early then initial + {t} else initial,
                 v.(left := left', buildable := v.buildable + {t} + Free(left'), running := v.running + {t},
                    covered := v.covered + {t}, completed := v.completed + 1))
  {
    if !early {
      BeginKeepsHardFirst(g, hard, initial, v.running, v.covered, v.notcovered, t);
      MoreCovered(hard, initial, v.running + {t}, v.covered, t);
    }
    SkipParts(g, hard, stamps, limit, initial, v, t, early);
  }

  lemma SkipParts(g: Graph<Tid>, hard: Marks, stamps: map<Tid, string>, limit: nat, initial: set<Tid>, v: View, t: Tid,
                  early: bool)
    requires Tied(g, hard, stamps, limit, initial, v) && t in g && t !in v.running
    requires !early ==> t in stamps && HardFirst(hard, initial, v.running + {t}, v.covered + {t})
    ensures var left' := Struck(v.left, map[], t);
            Tied(g, hard, stamps, limit, if early then initial + {t} else initial,
                 v.(left := left', buildable := v.buildable + {t} + Free(left'), running := v.running + {t},
                    covered := v.covered + {t}, completed := v.completed + 1))
  {
    hide Left, Struck, Free, HardFirst, ExecuteTasks.StampsHeld, IsHard, Counted, Live, Within;
    WithinMore(g, stamps, initial, v.running, v.covered, t);
    SkipOrder(g, hard, v, t);
    MoreInitial(hard, initial, v.running, v.covered, t);
    CountSettled(limit, v.running, v.covered, v.notcovered, v.active, v.completed, v.failed, t);
  }

  lemma SkipOrder(g: Graph<Tid>, hard: Marks, v: View, t: Tid)
    requires v.left == Left(g, hard, v.covered, v.notcovered) && v.buildable == v.running + Free(v.left)
    ensures var left' := Struck(v.left, map[], t);
            left' == Left(g, hard, v.covered + {t}, v.notcovered)
              && v.buildable + {t} + Free(left') == v.running + {t} + Free(left')
  {
    hide Left, Struck, Free;
    CoverStrikes(g, hard, v.covered, v.notcovered, t);
    StruckIsSmaller(v.left, map[], t);
  }

  lemma TiedLose(g: Graph<Tid>, hard: Marks, stamps: map<Tid, string>, limit: nat, initial: set<Tid>, v: View, t: Tid)
    requires Tied(g, hard, stamps, limit, initial, v) && t in g && t !in v.running && t in stamps && t in Free(v.left)
    requires forall h :: IsHard(hard, h, t) ==> h in g[t]
    ensures var left' := Struck(v.left, hard, t);
            Tied(g, hard, stamps, limit, initial,
                 v.(left := left', buildable := v.buildable + {t} + Free(left'), running := v.running + {t},
                    notcovered := v.notcovered + {t}, completed := v.completed + 1))
  {
    hide Left, Struck, Free, HardFirst, ExecuteTasks.StampsHeld, IsHard, Counted, Live, Within;
    WithinMore(g, stamps, initial, v.running, v.covered, t);
    BeginKeepsHardFirst(g, hard, initial, v.running, v.covered, v.notcovered, t);
    FailStrikes(g, hard, v.covered, v.notcovered, t);
    StruckIsSmaller(v.left, hard, t);
    CountSettled(limit, v.running, v.covered, v.notcovered, v.active, v.completed, v.failed, t);
  }

  lemma TiedSend(g: Graph<Tid>, hard: Marks, stamps: map<Tid, string>, limit: nat, initial: set<Tid>, v: View, t: Tid)
    requires Tied(g, hard, stamps, limit, initial, v) && t in g && t !in v.running && t in Free(v.left)
    requires forall h :: IsHard(hard, h, t) ==> h in g[t]
    requires t in stamps && stamps[t] !in v.held.Values && v.active < limit
    ensures Tied(g, hard, stamps, limit, initial,
                 v.(running := v.running + {t}, held := v.held[t := stamps[t]], active := v.active + 1))
  {
    hide Left, Struck, Free, HardFirst, ExecuteTasks.StampsHeld, IsHard, Counted, Live, Within;
    WithinMore(g, stamps, initial, v.running, v.covered, t);
    BeginKeepsHardFirst(g, hard, initial, v.running, v.covered, v.notcovered, t);
    CountSent(limit, v.running, v.covered, v.notcovered, v.active, v.completed, v.failed, t);
    ExecuteTasks.HoldStamp(stamps, Live(v.running, v.covered, v.notcovered), v.held, t);
  }

  lemma TiedComplete(g: Graph<Tid>, hard: Marks, stamps: map<Tid, string>, limit: nat, initial: set<Tid>, v: View,
                     t: Tid)
    requires Tied(g, hard, stamps, limit, initial, v) && t in Live(v.running, v.covered, v.notcovered)
    ensures var left' := Struck(v.left, map[], t);
            Tied(g, hard, stamps, limit, initial,
                 v.(left := left', buildable := v.buildable + Free(left'), covered := v.covered + {t},
                    held := v.held - {t}, active := v.active - 1, completed := v.completed + 1))
  {
    hide Left, Struck, Free, HardFirst, ExecuteTasks.StampsHeld, IsHard, Counted, Live, Within;
    CompleteOrder(g, hard, stamps, limit, initial, v, t);
    CompleteCounts(g, hard, stamps, limit, initial, v, t);
  }

  lemma CompleteOrder(g: Graph<Tid>, hard: Marks, stamps: map<Tid, string>, limit: nat, initial: set<Tid>, v: View,
                      t: Tid)
    requires Tied(g, hard, stamps, limit, initial, v)
    ensures var left' := Struck(v.left, map[], t);
            left' == Left(g, hard, v.covered + {t}, v.notcovered)
              && v.buildable + Free(left') == v.running + Free(left')
    ensures Within(g, stamps, initial, v.running, v.covered + {t})
      && HardFirst(hard, initial, v.running, v.covered + {t})
  {
    hide Left, Struck, Free, HardFirst, ExecuteTasks.StampsHeld, IsHard, Counted, Live, Within;
    WithinCovered(g, stamps, initial, v.running, v.covered, t);
    CoverStrikes(g, hard, v.covered, v.notcovered, t);
    StruckIsSmaller(v.left, map[], t);
    MoreCovered(hard, initial, v.running, v.covered, t);
    BuildableMore(v.buildable, v.running, v.left, Struck(v.left, map[], t));
  }

  lemma CompleteCounts(g: Graph<Tid>, hard: Marks, stamps: map<Tid, string>, limit: nat, initial: set<Tid>, v: View,
                       t: Tid)
    requires Tied(g, hard, stamps, limit, initial, v) && t in Live(v.running, v.covered, v.notcovered)
    ensures ExecuteTasks.StampsHeld(stamps, Live(v.running, v.covered + {t}, v.notcovered), v.held - {t})
    ensures Counted(limit, v.running, v.covered + {t}, v.notcovered, v.active - 1, v.completed + 1, v.failed)
  {
    hide Left, Struck, Free, HardFirst, ExecuteTasks.StampsHeld, IsHard, Counted, Live, Within;
    CountReplied(limit, v.running, v.covered, v.notcovered, v.active, v.completed, v.failed, t);
    ReplyReleases(stamps, v.running, v.covered, v.notcovered, v.held, t);
  }

  lemma BuildableMore(buildable: set<Tid>, running: set<Tid>, left: Graph<Tid>, left': Graph<Tid>)
    requires buildable == running + Free(left) && Free(left) <= Free(left')
    ensures buildable + Free(left') == running + Free(left')
  {
    hide Free;
  }

  lemma TiedFail(g: Graph<Tid>, hard: Marks, stamps: map<Tid, string>, limit: nat, initial: set<Tid>, v: View, t: Tid)
    requires Tied(g, hard, stamps, limit, initial, v) && t in Live(v.running, v.covered, v.notcovered)
    ensures var left' := Struck(v.left, hard, t);
            Tied(g, hard, stamps, limit, initial,
                 v.(left := left', buildable := v.buildable + Free(left'), notcovered := v.notcovered + {t},
                    held := v.held - {t}, active := v.active - 1, failed := v.failed + 1))
  {
    hide Left, Struck, Free, HardFirst, ExecuteTasks.StampsHeld, IsHard, Counted, Live, Within;
    FailStrikes(g, hard, v.covered, v.notcovered, t);
    StruckIsSmaller(v.left, hard, t);
    CountReplied(limit, v.running, v.covered, v.notcovered, v.active, v.completed, v.failed, t);
    ReplyReleases(stamps, v.running, v.covered, v.notcovered, v.held, t);
  }

  // ---- the executor ----

  /** What one call of `Execute` did. */
  datatype Step =
    | Unneeded(tid: Tid)
    | Unavailable(tid: Tid)
    | StampCurrent(tid: Tid)
    | Sent(tid: Tid)
    | Waiting
    | Finished

  datatype Phase = SceneRun | CleanUp | RunInit

  /** The metadata's say in whether a task is needed, given who depends on it and which
      tasks were found not to be needed before. */
  type DepValidate = (Tid, set<Tid>, set<Tid>) -> bool

  class RunQueueExecuteScenequeue {
    const setsceneTids: seq<Tid>
    const sqDeps: Graph<Tid>
    const harddeps: Marks
    const stamps: map<Tid, string>
    const numberTasks: nat
    const unskippable: set<Tid>
    const targetTids: set<Tid>
    const force: bool
    // tasks whose failure ends everything, because real work for them is not allowed
    const enforced: set<Tid>
    const depvalidate: Option<DepValidate>
    const stats: ExecuteTasks.RunQueueStats
    var sqRevdeps: Graph<Tid>
    var sqRevdeps2: Graph<Tid>
    var buildable: set<Tid>
    var running: set<Tid>
    var covered: set<Tid>
    var notcovered: set<Tid>
    var notneeded: set<Tid>
    var outrightfail: set<Tid>
    var buildStamps: map<Tid, string>
    var state: Phase
    // the setscene graph as it was set up, a ranking of the wishes, and the tasks
    // skipped while setting up
    ghost const g: Graph<Tid>
    ghost const rank: map<Tid, nat>
    ghost var initial: set<Tid>

    /** What never changes. */
    ghost predicate Wired() {
      && Inverse(g, sqDeps) && Acyclic(g) && Ranked(harddeps, rank)
      && (forall h, t :: IsHard(harddeps, h, t) ==> h in g && t in g && h in g[t] && t in sqDeps[h])
      && (forall t :: t in setsceneTids <==> t in stamps) && stamps.Keys <= g.Keys
      && numberTasks > 0
    }

    ghost function State(): View
      reads this, stats
    {
      View(sqRevdeps2, buildable, running, covered, notcovered, buildStamps, stats.active, stats.completed,
           stats.failed)
    }

    ghost predicate Valid()
      reads this, stats
    {
      && Wired()
      && TaskDepData.SelfLoopsAdded(g, sqRevdeps, running)
      && Tied(g, harddeps, stamps, numberTasks, initial, State())
    }

    /** Strikes `task` off what `dep` waits for; it may have been struck off before. */
    method StrikeOff(task: Tid, dep: Tid)
      requires dep in sqRevdeps2 && Free(sqRevdeps2) <= buildable
      modifies this`sqRevdeps2, this`buildable
      ensures sqRevdeps2 == old(sqRevdeps2)[dep := old(sqRevdeps2)[dep] - {task}]
      ensures Free(old(sqRevdeps2)) <= Free(sqRevdeps2)
      ensures buildable == old(buildable) + Free(sqRevdeps2)
    {
      hide Free;
      StrikeNone(sqRevdeps2, dep, task);
      if task in sqRevdeps2[dep] {
        StrikeSome(sqRevdeps2, dep, task);
        sqRevdeps2 := sqRevdeps2[dep := sqRevdeps2[dep] - {task}];
        if |sqRevdeps2[dep]| == 0 {
          buildable := buildable + {dep};
        }
      }
    }

    /** Strikes a task off what its dependants wait for; when it failed, those that asked
        for it keep waiting, and are struck off in turn. */
    method UpdateCounters(task: Tid, fail: bool)
      requires Wired() && task in g
      requires Fits(g, sqRevdeps2)
      requires Free(sqRevdeps2) <= buildable
      modifies this`sqRevdeps2, this`buildable
      ensures sqRevdeps2 == Struck(old(sqRevdeps2), if fail then harddeps else map[], task)
      ensures buildable == old(buildable) + Free(sqRevdeps2)
      decreases if task in rank then rank[task] + 1 else 0
    {
      hide Struck, Partly, Free, Inverse, Acyclic, IsHard, Fits;
      Neighbours(g, sqDeps, task);
      ghost var hard := if fail then harddeps else map[];
      ghost var left := sqRevdeps2;
      ghost var handled: set<Tid> := {};
      var todo := sqDeps[task];
      PartlyNone(left, hard, task);
      while todo != {}
        invariant todo <= sqDeps[task] && handled == sqDeps[task] - todo
        invariant sqRevdeps2 == Partly(left, hard, task, handled)
        invariant buildable == old(buildable) + Free(sqRevdeps2)
      {
        var dep :| dep in todo;
        todo := todo - {dep};
        PartlyIsSmaller(left, hard, task, handled);
        PartlyIsSmaller(left, hard, task, handled + {dep});
        FitsTrans(g, left, sqRevdeps2);
        AskedFor(hard, task, dep);
        if fail && task in harddeps && dep in harddeps[task] {
          PartlyHard(left, hard, task, handled, dep);
          StruckIsSmaller(sqRevdeps2, hard, dep);
          UpdateCounters(dep, fail);
        } else {
          PartlyDirect(left, hard, task, handled, dep);
          StrikeOff(task, dep);
        }
        handled := handled + {dep};
      }
      assert handled == sqDeps[task];
      forall t
        ensures IsHard(hard, task, t) ==> t in sqDeps[task]
      {
        AskedFor(hard, task, t);
        AskedFor(harddeps, task, t);
      }
      PartlyAll(g, sqDeps, left, hard, task);
    }

    /** Builds the queue over a set up graph, and skips at once what has its stamp or does
        nothing. `available` answers which of the remaining tasks can be fetched; without
        it nothing is skipped or given up. */
    constructor (g: Graph<Tid>, hard: Marks, setsceneTids: seq<Tid>, stamps: map<Tid, string>, numberTasks: nat,
                 unskippable: set<Tid>, targetTids: set<Tid>, force: bool, enforced: set<Tid>,
                 depvalidate: Option<DepValidate>, current: Tid -> bool, available: Option<set<Tid> -> set<Tid>>)
      requires Closed(g) && Acyclic(g) && Acyclic(hard) && numberTasks > 0
      requires forall h, t :: IsHard(hard, h, t) ==> h in g && t in g && h in g[t]
      requires (forall t :: t in setsceneTids <==> t in stamps) && stamps.Keys <= g.Keys
      ensures Valid() && this.g == g && harddeps == hard && state == SceneRun && fresh(stats)
      ensures this.setsceneTids == setsceneTids && this.stamps == stamps && this.numberTasks == numberTasks
      ensures this.unskippable == unskippable && this.targetTids == targetTids && this.force == force
      ensures this.enforced == enforced && this.depvalidate == depvalidate
      ensures running == covered == initial && notcovered == notneeded == {}
      ensures initial == set t | t in g && available.Some? && current(t)
      ensures forall t :: t in outrightfail <==>
        available.Some? && t in g && !current(t) && t !in available.value(set u | u in g && !current(u))
    {
      hide Inverse, Acyclic, Closed, Ranked, Tied, Free;
      this.harddeps, this.setsceneTids, this.stamps := hard, setsceneTids, stamps;
      this.numberTasks, this.unskippable, this.targetTids, this.force := numberTasks, unskippable, targetTids, force;
      this.enforced, this.depvalidate := enforced, depvalidate;
      this.sqRevdeps, this.sqRevdeps2, this.g := g, g, g;
      running, covered, notcovered, notneeded, outrightfail, buildStamps := {}, {}, {}, {}, {}, map[];
      initial, state := {}, SceneRun;
      var inverse := Preparation.InvertDepends(g);
      ghost var ranking := RankingExists(hard);
      sqDeps, rank := inverse, ranking;
      buildable := set t | t in g && |g[t]| == 0;
      stats := new ExecuteTasks.RunQueueStats(|setsceneTids|);
      new;
      TiedStart(g, hard, stamps, numberTasks);
      WishesInverted(g, sqDeps, hard);
      FreeAtStart(g);
      SkipOrGiveUp(current, available);
    }

    /** `Valid`, but that `task`, which is to be begun, may have been added to its own set. */
    ghost predicate Ready(task: Tid)
      reads this, stats
    {
      && Wired() && task in g && task !in running
      && TaskDepData.SelfLoopsAdded(g, sqRevdeps, running + {task})
      && Tied(g, harddeps, stamps, numberTasks, initial, State())
    }

    lemma Facts()
      requires Wired() && Tied(g, harddeps, stamps, numberTasks, initial, State())
      ensures Wired() && sqRevdeps2 == Left(g, harddeps, covered, notcovered)
      ensures Fits(g, sqRevdeps2)
      ensures buildable == running + Free(sqRevdeps2) && running <= g.Keys
    {
      hide Inverse, Acyclic, Ranked, Counted, HardFirst, Gone;
    }

    /** Marks a task covered and strikes it off everywhere. */
    method TaskCompleteOutright(task: Tid)
      requires Wired() && task in g
      requires Fits(g, sqRevdeps2)
      requires Free(sqRevdeps2) <= buildable
      modifies this`covered, this`sqRevdeps2, this`buildable
      ensures covered == old(covered) + {task}
      ensures sqRevdeps2 == Struck(old(sqRevdeps2), map[], task)
      ensures buildable == old(buildable) + Free(sqRevdeps2)
    {
      hide Struck, Free, Inverse, Acyclic, Ranked;
      covered := covered + {task};
      UpdateCounters(task, false);
    }

    /** The task counts as covered without having been run. `early` while setting up. */
    method TaskSkip(task: Tid, ghost early: bool)
      requires Ready(task) && (early || (task in stamps && task in buildable))
      modifies this`covered, this`running, this`sqRevdeps2, this`buildable, this`initial, stats
      ensures Valid() && covered == old(covered) + {task} && running == old(running) + {task}
      ensures initial == if early then old(initial) + {task} else old(initial)
      ensures stats.completed == old(stats.completed) + 1 && stats.skipped == old(stats.skipped) + 1
        && stats.failed == old(stats.failed)
    {
      hide Struck, Free, Inverse, Acyclic, Ranked, Tied, TaskDepData.SelfLoopsAdded;
      Facts();
      TiedSkip(g, harddeps, stamps, numberTasks, initial, State(), task, early);
      initial := if early then initial + {task} else initial;
      running := running + {task};
      buildable := buildable + {task};
      TaskCompleteOutright(task);
      stats.TaskCompleted(1);
      stats.TaskSkipped(1);
    }

    /** The task is given up without having been run. */
    method TaskFailoutright(task: Tid)
      requires Ready(task) && task in stamps && task in buildable
      modifies this`notcovered, this`running, this`sqRevdeps2, this`buildable, stats
      ensures Valid() && notcovered == old(notcovered) + {task} && running == old(running) + {task}
      ensures stats.completed == old(stats.completed) + 1 && stats.skipped == old(stats.skipped) + 1
        && stats.failed == old(stats.failed)
    {
      hide Struck, Free, Inverse, Acyclic, Ranked, Tied, TaskDepData.SelfLoopsAdded;
      Facts();
      TiedLose(g, harddeps, stamps, numberTasks, initial, State(), task);
      running := running + {task};
      buildable := buildable + {task};
      stats.TaskCompleted(1);
      stats.TaskSkipped(1);
      notcovered := notcovered + {task};
      UpdateCounters(task, true);
    }

    /** A worker's reply for a task it was sent. */
    method RunqueueProcessWaitpid(task: Tid, status: int)
      requires Valid() && task in Live(running, covered, notcovered)
      modifies this`covered, this`notcovered, this`sqRevdeps2, this`buildable, this`buildStamps, this`state, stats
      ensures Valid()
      ensures covered == if status != 0 then old(covered) else old(covered) + {task}
      ensures notcovered == if status != 0 then old(notcovered) + {task} else old(notcovered)
      ensures state == if status != 0 && task in enforced then CleanUp else old(state)
      ensures stats.failed == old(stats.failed) + (if status != 0 then 1 else 0) && stats.skipped == old(stats.skipped)
    {
      hide Struck, Free, Inverse, Acyclic, Ranked, Tied, TaskDepData.SelfLoopsAdded, Live;
      Facts();
      LiveInGraph(g, harddeps, stamps, numberTasks, initial, State(), task);
      ghost var before := State();
      if task in buildStamps {
        buildStamps := buildStamps - {task};
      }
      if status != 0 {
        TiedFail(g, harddeps, stamps, numberTasks, initial, before, task);
        stats.TaskFailed();
        notcovered := notcovered + {task};
        UpdateCounters(task, true);
        if task in enforced {
          state := CleanUp;
        }
      } else {
        TiedComplete(g, harddeps, stamps, numberTasks, initial, before, task);
        stats.TaskCompleted(1);
        TaskCompleteOutright(task);
      }
    }

    /** While setting up, tasks that have their stamp or do nothing are skipped; the
        others are returned. */
    method SkipCurrent(current: Tid -> bool) returns (asked: set<Tid>)
      requires Valid() && running == {}
      modifies this`covered, this`running, this`sqRevdeps2, this`buildable, this`initial, stats
      ensures Valid() && asked == set t | t in g && !current(t)
      ensures running == covered == initial == set t | t in g && current(t)
    {
      hide Struck, Free, Inverse, Acyclic, Ranked, Tied, TaskDepData.SelfLoopsAdded;
      NothingRuns(g, harddeps, stamps, numberTasks, initial, State());
      asked := {};
      var todo := sqRevdeps.Keys;
      assert todo == g.Keys by {
        LoopKeys(g, sqRevdeps, running);
      }
      while todo != {}
        invariant Valid() && todo <= g.Keys
        invariant asked == set t | t in g && t !in todo && !current(t)
        invariant running == covered == initial == set t | t in g && t !in todo && current(t)
      {
        var tid :| tid in todo;
        todo := todo - {tid};
        if current(tid) {
          MoreLoops(g, sqRevdeps, running, tid);
          TaskSkip(tid, true);
        } else {
          asked := asked + {tid};
        }
      }
    }

    /** Where availability is checked, what has its stamp is skipped, what can be fetched is
        asked of the others, and what cannot is noted. */
    method SkipOrGiveUp(current: Tid -> bool, available: Option<set<Tid> -> set<Tid>>)
      requires Valid() && running == initial == outrightfail == {}
      modifies this`covered, this`running, this`sqRevdeps2, this`buildable, this`initial, this`outrightfail, stats
      ensures forall t :: t in outrightfail <==>
        available.Some? && t in g && !current(t) && t !in available.value(set u | u in g && !current(u))
      ensures Valid() && running == covered == initial
      ensures initial == set t | t in g && available.Some? && current(t)
    {
      hide Inverse, Acyclic, Ranked, Tied, TaskDepData.SelfLoopsAdded;
      if available.Some? {
        var asked := SkipCurrent(current);
        outrightfail := asked - available.value(asked);
      } else {
        NothingRuns(g, harddeps, stamps, numberTasks, initial, State());
      }
    }

    /** The task may be started now. */
    ghost predicate Eligible(t: Tid)
      reads this`buildable, this`running, this`buildStamps
    {
      t in stamps && t in buildable && t !in running && stamps[t] !in buildStamps.Values
    }

    /** Of the tasks that may be started, the one listed first. */
    ghost predicate FirstEligible(t: Tid)
      reads this
    {
      Eligible(t) && exists i ::
        0 <= i < |setsceneTids| && setsceneTids[i] == t && forall j :: 0 <= j < i ==> !Eligible(setsceneTids[j])
    }

    method NextTask() returns (task: Option<Tid>)
      requires Valid()
      ensures task.None? <==> forall t :: !Eligible(t)
      ensures task.Some? ==> FirstEligible(task.value)
    {
      hide Inverse, Acyclic, Ranked, Tied, TaskDepData.SelfLoopsAdded;
      for i := 0 to |setsceneTids|
        invariant forall j :: 0 <= j < i ==> !Eligible(setsceneTids[j])
      {
        var t := setsceneTids[i];
        assert t in setsceneTids;
        if t in buildable && t !in running && stamps[t] !in buildStamps.Values {
          assert Eligible(t);
          return Some(t);
        }
      }
      forall t | t in stamps
        ensures !Eligible(t)
      {
        var i :| 0 <= i < |setsceneTids| && setsceneTids[i] == t;
      }
      return None;
    }

    /** Asks the metadata; the task joins the set it is asked with, and stays there. */
    method CheckDependencies(task: Tid) returns (valid: bool)
      requires task in sqRevdeps
      modifies this`sqRevdeps
      ensures sqRevdeps == if depvalidate.Some? then old(sqRevdeps)[task := old(sqRevdeps)[task] + {task}]
        else old(sqRevdeps)
      ensures valid <==> depvalidate.Some? && depvalidate.value(task, old(sqRevdeps)[task] + {task}, notneeded)
    {
      if depvalidate.None? {
        return false;
      }
      sqRevdeps := sqRevdeps[task := sqRevdeps[task] + {task}];
      return depvalidate.value(task, sqRevdeps[task], notneeded);
    }

    /** All that could use the task's output is covered already, the build did not ask for
        it, and the metadata agrees that it is not needed. */
    ghost predicate NotNeeded(t: Tid)
      reads this
    {
      && t in g && t !in unskippable && t !in targetTids && g[t] != {} && g[t] <= covered
      && depvalidate.Some? && depvalidate.value(t, g[t] + {t}, notneeded)
    }

    method IsNotNeeded(task: Tid) returns (notNeeded: bool)
      requires task in g && task !in running && TaskDepData.SelfLoopsAdded(g, sqRevdeps, running)
      modifies this`sqRevdeps
      ensures notNeeded <==> NotNeeded(task)
      ensures TaskDepData.SelfLoopsAdded(g, sqRevdeps, running + {task})
    {
      assert sqRevdeps[task] == g[task];
      if task !in unskippable && |sqRevdeps[task]| > 0 && sqRevdeps[task] <= covered {
        var valid := CheckDependencies(task);
        return valid && task !in targetTids;
      }
      return false;
    }

    /** The task is sent to a worker. */
    method Send(task: Tid)
      requires Ready(task) && Eligible(task) && stats.active < numberTasks
      modifies this`running, this`buildStamps, stats
      ensures Valid() && running == old(running) + {task}
    {
      hide Inverse, Acyclic, Ranked, Tied, TaskDepData.SelfLoopsAdded, Free;
      Facts();
      TiedSend(g, harddeps, stamps, numberTasks, initial, State(), task);
      buildStamps := buildStamps[task := stamps[task]];
      running := running + {task};
      stats.TaskActive();
    }

    /** A task that may be started has everything it asks for covered, and all it was put
        after is covered or lost. */
    lemma EligibleIsSafe(t: Tid)
      requires Valid() && Eligible(t)
      ensures t in g && forall h :: IsHard(harddeps, h, t) ==> h in covered
      ensures forall d :: d in g[t] ==> d in covered || Lost(harddeps, notcovered, d)
    {
      hide Inverse, Acyclic, Ranked, Counted, HardFirst, Lost, IsHard, Left;
      Facts();
      FreeAsked(g, harddeps, covered, notcovered, t);
    }

    /** Why a step was taken, in terms of the state it was taken in. */
    ghost predicate Because(step: Step, stampCurrent: Tid -> bool, sceneStampCurrent: Tid -> bool)
      reads this
    {
      match step
      case Unneeded(t) => NotNeeded(t)
      case Unavailable(t) => !NotNeeded(t) && GivenUp(t, stampCurrent)
      case StampCurrent(t) => !NotNeeded(t) && !GivenUp(t, stampCurrent) && sceneStampCurrent(t)
      case Sent(t) => !NotNeeded(t) && !GivenUp(t, stampCurrent) && !sceneStampCurrent(t)
      case Waiting => true
      case Finished => true
    }

    /** Nothing can be fetched for the task, it need not run at all, or it is to run for real. */
    predicate GivenUp(t: Tid, stampCurrent: Tid -> bool)
      reads this
    {
      t in outrightfail || stampCurrent(t) || (force && t in targetTids)
    }

    /** What is done about the task chosen. */
    method Attend(task: Tid, stampCurrent: Tid -> bool, sceneStampCurrent: Tid -> bool) returns (step: Step)
      requires Valid() && Eligible(task) && stats.active < numberTasks
      modifies this, stats
      ensures Valid() && initial == old(initial) && outrightfail == old(outrightfail) && state == old(state)
      ensures TidOf(step) == Some(task) && task in g && task !in old(running) && running == old(running) + {task}
      ensures old(Because(step, stampCurrent, sceneStampCurrent))
      ensures Outcome(step, old(covered), old(notcovered), old(notneeded), covered, notcovered, notneeded)
    {
      hide Inverse, Acyclic, Ranked, Tied, TaskDepData.SelfLoopsAdded, Free;
      EligibleInGraph(task);
      var notNeeded := IsNotNeeded(task);
      if notNeeded {
        TaskSkip(task, false);
        notneeded := notneeded + {task};
        return Unneeded(task);
      }
      step := AttendNeeded(task, stampCurrent, sceneStampCurrent);
    }

    /** What is done about a task that is needed. */
    method AttendNeeded(task: Tid, stampCurrent: Tid -> bool, sceneStampCurrent: Tid -> bool) returns (step: Step)
      requires Ready(task) && Eligible(task) && stats.active < numberTasks
      modifies this, stats
      ensures Valid() && initial == old(initial) && outrightfail == old(outrightfail) && state == old(state)
      ensures running == old(running) + {task}
      ensures step == if old(GivenUp(task, stampCurrent)) then Unavailable(task)
                      else if sceneStampCurrent(task) then StampCurrent(task) else Sent(task)
      ensures Outcome(step, old(covered), old(notcovered), old(notneeded), covered, notcovered, notneeded)
    {
      hide Inverse, Acyclic, Ranked, Tied, TaskDepData.SelfLoopsAdded, Free;
      if GivenUp(task, stampCurrent) {
        TaskFailoutright(task);
        return Unavailable(task);
      }
      if sceneStampCurrent(task) {
        TaskSkip(task, false);
        return StampCurrent(task);
      }
      Send(task);
      return Sent(task);
    }

    lemma EligibleInGraph(t: Tid)
      requires Wired() && Eligible(t)
      ensures t in g && t !in running
    {
      hide Inverse, Acyclic, Ranked;
    }

    /** No worker is busy, and no task may be started. */
    ghost predicate Idle()
      reads this`buildable, this`running, this`buildStamps, this`covered, this`notcovered
    {
      Live(running, covered, notcovered) == {} && forall t :: !Eligible(t)
    }

    /** One call of the server's loop. It finishes exactly when it finds nothing to do, and
        then the state goes on whatever it was before. `stampCurrent` tells whether the task itself need
        not run, `sceneStampCurrent` whether its setscene variant has run before. */
    method Execute(stampCurrent: Tid -> bool, sceneStampCurrent: Tid -> bool) returns (step: Step)
      requires Valid()
      modifies this, stats
      ensures Valid() && initial == old(initial) && outrightfail == old(outrightfail)
      ensures Outcome(step, old(covered), old(notcovered), old(notneeded), covered, notcovered, notneeded)
      ensures match TidOf(step)
              case Some(t) => old(FirstEligible(t)) && t in g && t !in old(running) && running == old(running) + {t}
              case None => running == old(running)
      ensures old(Because(step, stampCurrent, sceneStampCurrent))
      ensures step.Unneeded? ==>
        step.tid !in unskippable && step.tid !in targetTids && g[step.tid] != {} && g[step.tid] <= old(covered)
      ensures step.Sent? ==> forall h :: IsHard(harddeps, h, step.tid) ==> h in covered
      ensures step.Sent? ==> forall d :: d in g[step.tid] ==> d in covered || Lost(harddeps, notcovered, d)
      ensures step.Waiting? ==> Live(running, covered, notcovered) != {}
      ensures step.Finished? <==> old(Idle())
      ensures step.Finished? ==> Done() && Idle()
      ensures state == if old(Idle()) then RunInit else old(state)
    {
      hide Inverse, Acyclic, Ranked, Tied, TaskDepData.SelfLoopsAdded, Lost, Eligible, FirstEligible, Wired, NotNeeded,
           GivenUp, Done, Live, Idle;
      var next := None;
      if stats.active < numberTasks {
        next := NextTask();
      }
      if next.Some? {
        FirstIsEligible(next.value);
        NotIdle(next.value);
        EligibleIsSafe(next.value);
        NeededIs(next.value);
        step := Attend(next.value, stampCurrent, sceneStampCurrent);
      } else if stats.active > 0 {
        Busy();
        step := Waiting;
      } else {
        Busy();
        SetState(RunInit);
        NobodyBusy();
        step := Finished;
      }
    }

    lemma NeededIs(t: Tid)
      ensures NotNeeded(t) ==> t in g && t !in unskippable && t !in targetTids && g[t] != {} && g[t] <= covered
    {
    }

    lemma NotIdle(t: Tid)
      requires Eligible(t)
      ensures !Idle()
    {
    }

    lemma FirstIsEligible(t: Tid)
      requires FirstEligible(t)
      ensures Eligible(t)
    {
    }

    method SetState(phase: Phase)
      requires Valid()
      modifies this`state
      ensures Valid() && state == phase
      ensures Idle() <==> old(Idle())
      ensures forall t :: Eligible(t) <==> old(Eligible(t))
    {
      hide Inverse, Acyclic, Ranked, Tied, TaskDepData.SelfLoopsAdded;
      state := phase;
    }

    lemma Busy()
      requires Valid()
      ensures stats.active >= 0 && numberTasks > 0
      ensures stats.active > 0 <==> Live(running, covered, notcovered) != {}
      ensures stats.active > 0 ==> !Idle()
      ensures stats.active == 0 && (forall t :: !Eligible(t)) ==> Idle()
    {
      hide Inverse, Acyclic, Ranked, Left, Free, HardFirst, Eligible;
    }

    /** At the end nothing is left to start, and every setscene task is covered, or lost with something that failed, or
        waits for a task that has no setscene variant and was not covered at the start. */
    ghost predicate Done()
      reads this
    {
      && Live(running, covered, notcovered) == {}
      && (forall t :: t in stamps && t in Free(sqRevdeps2) ==> t in running)
      && forall t :: t in setsceneTids ==> Accounted(g, harddeps, stamps, covered, notcovered, t)
    }

    lemma NobodyBusy()
      requires Valid() && stats.active == 0 && forall t :: !Eligible(t)
      ensures Done()
    {
      hide Inverse, Acyclic, Ranked, Tied, Left, Free, Accounted, Live, TaskDepData.SelfLoopsAdded;
      Facts();
      QuietEnd(g, harddeps, stamps, numberTasks, initial, State());
      forall t | t in stamps && t in Free(sqRevdeps2)
        ensures t in running
      {
        assert !Eligible(t);
      }
      AllAccounted(g, harddeps, stamps, covered, notcovered, running);
    }
  }

  function TidOf(step: Step): Option<Tid> {
    match step
    case Unneeded(t) => Some(t)
    case Unavailable(t) => Some(t)
    case StampCurrent(t) => Some(t)
    case Sent(t) => Some(t)
    case Waiting => None
    case Finished => None
  }

  /** What a step does to the tasks covered, not covered and not needed. */
  ghost predicate Outcome(step: Step, covered: set<Tid>, notcovered: set<Tid>, notneeded: set<Tid>,
                          covered': set<Tid>, notcovered': set<Tid>, notneeded': set<Tid>) {
    && covered' == (if step.Unneeded? || step.StampCurrent? then covered + {step.tid} else covered)
    && notcovered' == (if step.Unavailable? then notcovered + {step.tid} else notcovered)
    && notneeded' == (if step.Unneeded? then notneeded + {step.tid} else notneeded)
  }

  lemma QuietEnd(g: Graph<Tid>, hard: Marks, stamps: map<Tid, string>, limit: nat, initial: set<Tid>, v: View)
    requires Tied(g, hard, stamps, limit, initial, v) && v.active == 0
    ensures Live(v.running, v.covered, v.notcovered) == {} && v.held.Values == {}
      && v.running <= v.covered + v.notcovered
  {
    hide Left, Free, HardFirst, Within;
    AllFree(stamps, Live(v.running, v.covered, v.notcovered), v.held);
  }

  lemma AllFree(stamps: map<Tid, string>, live: set<Tid>, held: map<Tid, string>)
    requires ExecuteTasks.StampsHeld(stamps, live, held) && |live| == 0
    ensures live == {} && held.Values == {}
  {
  }

  // ---- what a run amounts to ----

  /** `t` comes, directly or not, after a task without a setscene variant that is not covered. */
  ghost predicate WaitsOutside(g: Graph<Tid>, stamps: map<Tid, string>, covered: set<Tid>, t: Tid) {
    exists d :: Reach(g, t, d) && d !in stamps && d !in covered
  }

  ghost predicate Accounted(g: Graph<Tid>, hard: Marks, stamps: map<Tid, string>, covered: set<Tid>,
                            notcovered: set<Tid>, t: Tid)
  {
    t in covered || Lost(hard, notcovered, t) || WaitsOutside(g, stamps, covered, t)
  }

  lemma AccountedStep(g: Graph<Tid>, hard: Marks, stamps: map<Tid, string>, covered: set<Tid>, notcovered: set<Tid>,
                      d: Tid, t: Tid)
    requires t in g && d in g[t]
    requires d in stamps ==> Accounted(g, hard, stamps, covered, notcovered, d)
    ensures Accounted(g, hard, stamps, covered, notcovered, t) || Gone(hard, covered, notcovered, d, t)
  {
    if d !in covered {
      if d !in stamps {
        ReachEdge(g, t, d);
      } else if Lost(hard, notcovered, d) {
        if IsHard(hard, d, t) {
          ReachFromSnoc(hard, notcovered, d, t);
        }
      } else {
        var e :| Reach(g, d, e) && e !in stamps && e !in covered;
        ReachCons(g, t, d, e);
      }
    }
  }

  lemma AllAccounted(g: Graph<Tid>, hard: Marks, stamps: map<Tid, string>, covered: set<Tid>, notcovered: set<Tid>,
                     running: set<Tid>)
    requires Acyclic(g) && stamps.Keys <= g.Keys && running <= covered + notcovered
    requires forall t :: t in stamps && t in Free(Left(g, hard, covered, notcovered)) ==> t in running
    ensures forall t :: t in stamps ==> Accounted(g, hard, stamps, covered, notcovered, t)
  {
    hide Acyclic, Accounted, Gone;
    var bad := set t | t in stamps && !Accounted(g, hard, stamps, covered, notcovered, t);
    if bad != {} {
      var t := MinimalNode(g, bad);
      forall d | d in g[t]
        ensures Gone(hard, covered, notcovered, d, t)
      {
        assert d !in bad;
        AccountedStep(g, hard, stamps, covered, notcovered, d, t);
      }
      assert t in Free(Left(g, hard, covered, notcovered));
      SettledIsAccounted(g, hard, stamps, covered, notcovered, t);
      assert false;
    }
    forall t | t in stamps
      ensures Accounted(g, hard, stamps, covered, notcovered, t)
    {
      assert t !in bad;
    }
  }

  lemma SettledIsAccounted(g: Graph<Tid>, hard: Marks, stamps: map<Tid, string>, covered: set<Tid>,
                           notcovered: set<Tid>, t: Tid)
    requires t in covered + notcovered
    ensures Accounted(g, hard, stamps, covered, notcovered, t)
  {
    ReachRefl(hard, t);
  }

  lemma {:induction false} LostIsNotBegun(hard: Marks, initial: set<Tid>, running: set<Tid>, covered: set<Tid>, x: Tid,
                                          d: Tid, n: nat)
    requires HardFirst(hard, initial, running, covered) && covered <= running
    requires forall t :: t in initial ==> !Reach(hard, x, t)
    requires x !in covered && n > 0 && Steps(hard, x, d, n)
    ensures d !in running
    decreases n
  {
    var y :| y in hard[x] && Steps(hard, y, d, n - 1);
    assert IsHard(hard, x, y);
    ReachEdge(hard, x, y);
    if n == 1 {
    } else {
      forall t | t in initial
        ensures !Reach(hard, y, t)
      {
        if Reach(hard, y, t) {
          ReachCons(hard, x, y, t);
        }
      }
      LostIsNotBegun(hard, initial, running, covered, y, d, n - 1);
    }
  }

  /** What is lost with a failed task has not begun, exactly when no task skipped at the
      start is lost. */
  lemma LostNeverRuns(hard: Marks, initial: set<Tid>, running: set<Tid>, covered: set<Tid>, notcovered: set<Tid>)
    requires HardFirst(hard, initial, running, covered) && initial <= covered <= running && covered !! notcovered
    ensures (forall d :: Lost(hard, notcovered, d) && d !in notcovered ==> d !in running)
       <==> (forall t :: t in initial ==> !Lost(hard, notcovered, t))
  {
    hide HardFirst, Reach;
    if forall t :: t in initial ==> !Lost(hard, notcovered, t) {
      forall d | Lost(hard, notcovered, d) && d !in notcovered
        ensures d !in running
      {
        var f :| f in notcovered && Reach(hard, f, d);
        ReachInSteps(hard, f, d);
        var n: nat :| Steps(hard, f, d, n);
        LostIsNotBegun(hard, initial, running, covered, f, d, n);
      }
    }
  }

  lemma ReachInSteps(hard: Marks, a: Tid, b: Tid)
    requires Reach(hard, a, b)
    ensures exists n: nat :: Steps(hard, a, b, n)
  {
  }

  /** `f` was not skipped at the start although all it asks for was, and a task that was
      skipped asked, directly or not, for `f`. */
  ghost predicate Exposed(hard: Marks, scene: set<Tid>, initial: set<Tid>, f: Tid) {
    && f in scene - initial && (forall h :: IsHard(hard, h, f) ==> h in initial)
    && exists t :: t in initial && Reach(hard, f, t)
  }

  /** In no state is a task lost that was skipped at the start, unless the set-up has such
      a task. */
  lemma SkippedNeverLost(g: Graph<Tid>, hard: Marks, stamps: map<Tid, string>, limit: nat, initial: set<Tid>, v: View,
                         t: Tid)
    requires Acyclic(g) && Tied(g, hard, stamps, limit, initial, v)
    requires forall h, x :: IsHard(hard, h, x) ==> x in g && h in g[x]
    requires t in initial
    ensures !Lost(hard, v.notcovered, t) || exists f :: Exposed(hard, stamps.Keys, initial, f)
  {
    hide Acyclic, Left, Free, ExecuteTasks.StampsHeld, Reach;
    if Lost(hard, v.notcovered, t) {
      var above := set x | x in v.running && x !in initial && Reach(hard, x, t);
      var n :| n in v.notcovered && Reach(hard, n, t);
      assert n in above;
      var f := MinimalNode(g, above);
      forall h | IsHard(hard, h, f)
        ensures h in initial
      {
        ReachCons(hard, h, f, t);
        assert h !in above;
      }
      assert Exposed(hard, stamps.Keys, initial, f);
    }
  }

  /** The wishes without those of tasks skipped at the start. */
  ghost function OpenWishes(hard: Marks, initial: set<Tid>): Marks {
    map d | d in hard :: hard[d] - initial
  }

  /** `t` asks, directly or through others that were not skipped at the start, for a task
      that has no setscene variant and was not skipped either. */
  ghost predicate Barred(hard: Marks, scene: set<Tid>, initial: set<Tid>, t: Tid) {
    exists o :: o !in scene && o !in initial && Reach(OpenWishes(hard, initial), o, t)
  }

  /** Such a task never begins. */
  lemma BarredNeverBegins(hard: Marks, scene: set<Tid>, initial: set<Tid>, running: set<Tid>, covered: set<Tid>, t: Tid)
    requires HardFirst(hard, initial, running, covered) && covered <= running <= initial + scene
    requires Barred(hard, scene, initial, t)
    ensures t !in running
  {
    var open := OpenWishes(hard, initial);
    var o :| o !in scene && o !in initial && Reach(open, o, t);
    var n: nat :| Steps(open, o, t, n);
    BarredStep(hard, initial, running, covered, o, t, n);
  }

  lemma {:induction false} BarredStep(hard: Marks, initial: set<Tid>, running: set<Tid>, covered: set<Tid>, o: Tid,
                                      t: Tid, n: nat)
    requires HardFirst(hard, initial, running, covered) && covered <= running
    requires o !in running && Steps(OpenWishes(hard, initial), o, t, n)
    ensures t !in running
    decreases n
  {
    if n == 0 {
    } else {
      var y :| y in OpenWishes(hard, initial)[o] && Steps(OpenWishes(hard, initial), y, t, n - 1);
      assert IsHard(hard, o, y);
      BarredStep(hard, initial, running, covered, y, t, n - 1);
    }
  }

  /** Should `f` fail, `d` is struck off everywhere as lost although it may still begin:
      all that it asks for and that is lost with `f` was skipped at the start, and neither
      of the two is kept from beginning by what it asks for. */
  ghost predicate LostTooSoon(hard: Marks, scene: set<Tid>, initial: set<Tid>, f: Tid, d: Tid) {
    && f in scene - initial && d in scene - initial && f != d && Reach(hard, f, d)
    && (forall h :: IsHard(hard, h, d) && Reach(hard, f, h) ==> h in initial)
    && !Barred(hard, scene, initial, f) && !Barred(hard, scene, initial, d)
  }

  lemma BegunIsOpen(g: Graph<Tid>, hard: Marks, stamps: map<Tid, string>, limit: nat, initial: set<Tid>, v: View,
                    t: Tid)
    requires Tied(g, hard, stamps, limit, initial, v) && t in v.running
    ensures !Barred(hard, stamps.Keys, initial, t)
  {
    hide Left, Free, ExecuteTasks.StampsHeld, HardFirst, Barred;
    if Barred(hard, stamps.Keys, initial, t) {
      BarredNeverBegins(hard, stamps.Keys, initial, v.running, v.covered, t);
    }
  }

  /** In no state has a lost task begun after the start, unless two tasks of the set-up
      stand in that relation. */
  lemma LostNeverBegins(g: Graph<Tid>, hard: Marks, stamps: map<Tid, string>, limit: nat, initial: set<Tid>, v: View,
                        d: Tid)
    requires Acyclic(g) && Tied(g, hard, stamps, limit, initial, v)
    requires forall h, t :: IsHard(hard, h, t) ==> t in g && h in g[t]
    requires Lost(hard, v.notcovered, d) && d !in v.notcovered && d !in initial
    ensures d !in v.running || exists f, x :: LostTooSoon(hard, stamps.Keys, initial, f, x)
  {
    hide Acyclic, Left, Free, ExecuteTasks.StampsHeld, Reach, Barred;
    var bad := set x | x in v.running && Lost(hard, v.notcovered, x) && x !in v.notcovered && x !in initial;
    if bad != {} {
      var x := MinimalNode(g, bad);
      var f :| f in v.notcovered && Reach(hard, f, x);
      forall h | IsHard(hard, h, x) && Reach(hard, f, h)
        ensures h in initial
      {
        assert h !in bad;
      }
      BegunIsOpen(g, hard, stamps, limit, initial, v, f);
      BegunIsOpen(g, hard, stamps, limit, initial, v, x);
      assert LostTooSoon(hard, stamps.Keys, initial, f, x);
    } else {
      assert d !in bad;
    }
  }

  /** Nothing that `t` comes after lacks a setscene variant, unless it was skipped at the start. */
  ghost predicate Grounded(g: Graph<Tid>, stamps: map<Tid, string>, initial: set<Tid>, t: Tid) {
    !WaitsOutside(g, stamps, initial, t)
  }

  /** When wishes name setscene tasks only, that is so of every task. */
  lemma AllGrounded(g: Graph<Tid>, stamps: map<Tid, string>, initial: set<Tid>, t: Tid)
    requires Closed(g) && t in g && g.Keys <= stamps.Keys + initial
    ensures Grounded(g, stamps, initial, t)
  {
    forall d | Reach(g, t, d)
      ensures d in stamps || d in initial
    {
      ReachStaysInside(g, g.Keys, t, d);
    }
  }

  /** A run in which exactly one given task fails. */
  method FailOne(g: Graph<Tid>, hard: Marks, setsceneTids: seq<Tid>, stamps: map<Tid, string>, numberTasks: nat,
                 initial: set<Tid>, f: Tid)
    returns (q: RunQueueExecuteScenequeue)
    requires Closed(g) && Acyclic(g) && Acyclic(hard) && numberTasks > 0
    requires forall h, t :: IsHard(hard, h, t) ==> h in g && t in g && h in g[t]
    requires (forall t :: t in setsceneTids <==> t in stamps) && stamps.Keys <= g.Keys && initial <= g.Keys
    requires f in stamps && f !in initial && Grounded(g, stamps, initial, f)
    ensures fresh(q) && q.Valid() && q.state == RunInit && q.Done()
    ensures q.g == g && q.harddeps == hard && q.stamps == stamps && q.initial == initial && q.notcovered == {f}
  {
    hide RunQueueExecuteScenequeue.Valid, RunQueueExecuteScenequeue.Done, RunQueueExecuteScenequeue.FirstEligible, Live,
         Acyclic, Closed, Grounded;
    q := new RunQueueExecuteScenequeue(g, hard, setsceneTids, stamps, numberTasks, {}, {}, false, {}, None,
                                       t => t in initial, Some((asked: set<Tid>) => asked - {f}));
    AllButOne(g, initial, f);
    while q.state == SceneRun
      invariant q.Valid() && q.initial == initial && OnlyFails(q, f)
      invariant q.state == SceneRun || (q.state == RunInit && q.Done())
      decreases |q.g.Keys - q.running|, |Live(q.running, q.covered, q.notcovered)|, q.state == SceneRun
    {
      StepButOne(q, f);
    }
    OneFailed(q, f);
  }

  lemma AllButOne(g: Graph<Tid>, initial: set<Tid>, f: Tid)
    requires f in g && f !in initial && initial <= g.Keys
    ensures (set t | t in g && t in initial) == initial
    ensures var asked := set t | t in g && t !in initial; asked - (asked - {f}) == {f}
  {
  }

  /** The run so far has given up nothing but `f`, and can give up nothing else. */
  ghost predicate OnlyFails(q: RunQueueExecuteScenequeue, f: Tid)
    reads q
  {
    && q.outrightfail == {f} && q.depvalidate.None? && !q.force && q.initial <= q.covered
    && q.notcovered <= {f} && f !in q.covered && (f in q.running ==> f in q.notcovered)
  }

  predicate Nearer(state: Phase, live: set<Tid>, before: set<Tid>) {
    |live| < |before| || (live == before && state != SceneRun)
  }

  method StepButOne(q: RunQueueExecuteScenequeue, f: Tid)
    requires q.Valid() && OnlyFails(q, f) && q.state == SceneRun
    modifies q, q.stats
    ensures q.Valid() && OnlyFails(q, f) && q.initial == old(q.initial)
    ensures q.state == SceneRun || (q.state == RunInit && q.Done())
    ensures var left, was := |q.g.Keys - q.running|, old(|q.g.Keys - q.running|);
            left < was || (left == was && Nearer(q.state, Live(q.running, q.covered, q.notcovered),
                                                 old(Live(q.running, q.covered, q.notcovered))))
  {
    hide RunQueueExecuteScenequeue.Valid, RunQueueExecuteScenequeue.Done, RunQueueExecuteScenequeue.FirstEligible, Live;
    ghost var running, covered, notcovered := q.running, q.covered, q.notcovered;
    var step := q.Execute(_ => false, _ => false);
    if step.Waiting? {
      var task :| task in Live(q.running, q.covered, q.notcovered);
      LiveIsOpen(q.running, q.covered, q.notcovered, task);
      q.RunqueueProcessWaitpid(task, 0);
      FewerLive(running, covered, notcovered, task);
    } else if !step.Finished? {
      FewerLeft(q.g.Keys, running, TidOf(step).value);
    }
  }

  /** Where the set-up does have such a task, there is a run that loses a skipped one. */
  method LoseSkipped(g: Graph<Tid>, hard: Marks, setsceneTids: seq<Tid>, stamps: map<Tid, string>, numberTasks: nat,
                     initial: set<Tid>, f: Tid)
    returns (q: RunQueueExecuteScenequeue)
    requires Closed(g) && Acyclic(g) && Acyclic(hard) && numberTasks > 0
    requires forall h, t :: IsHard(hard, h, t) ==> h in g && t in g && h in g[t]
    requires (forall t :: t in setsceneTids <==> t in stamps) && stamps.Keys <= g.Keys && initial <= g.Keys
    requires Exposed(hard, stamps.Keys, initial, f) && Grounded(g, stamps, initial, f)
    ensures fresh(q) && q.Valid() && q.state == RunInit && q.initial == initial && q.harddeps == hard
    ensures exists t :: t in q.initial && Lost(q.harddeps, q.notcovered, t)
  {
    hide RunQueueExecuteScenequeue.Valid, RunQueueExecuteScenequeue.Done, Acyclic, Closed, Reach, Grounded;
    ghost var t :| t in initial && Reach(hard, f, t);
    q := FailOne(g, hard, setsceneTids, stamps, numberTasks, initial, f);
  }

  lemma LiveIsOpen(running: set<Tid>, covered: set<Tid>, notcovered: set<Tid>, t: Tid)
    requires t in Live(running, covered, notcovered)
    ensures t in running && t !in covered && t !in notcovered
  {
  }

  lemma OneFailed(q: RunQueueExecuteScenequeue, f: Tid)
    requires q.Valid() && q.Done() && f in q.stamps && Grounded(q.g, q.stamps, q.initial, f)
    requires q.initial <= q.covered && f !in q.covered && q.notcovered <= {f}
    ensures q.notcovered == {f}
  {
    hide Inverse, Acyclic, Ranked, Tied, TaskDepData.SelfLoopsAdded, Reach;
    assert Accounted(q.g, q.harddeps, q.stamps, q.covered, q.notcovered, f);
  }

  /** Where two tasks of the set-up do stand in that relation, there is a run that gives
      the second one up as lost and covers it all the same. */
  method BeginLost(g: Graph<Tid>, hard: Marks, setsceneTids: seq<Tid>, stamps: map<Tid, string>, numberTasks: nat,
                   initial: set<Tid>, f: Tid, d: Tid)
    returns (q: RunQueueExecuteScenequeue)
    requires Closed(g) && Acyclic(g) && Acyclic(hard) && numberTasks > 0
    requires forall h, t :: IsHard(hard, h, t) ==> h in g && t in g && h in g[t]
    requires (forall t :: t in setsceneTids <==> t in stamps) && stamps.Keys <= g.Keys && initial <= g.Keys
    requires LostTooSoon(hard, stamps.Keys, initial, f, d) && Grounded(g, stamps, initial, f)
      && Grounded(g, stamps, initial, d)
    ensures fresh(q) && q.Valid() && q.state == RunInit
    ensures q.g == g && q.harddeps == hard && q.stamps == stamps && q.initial == initial
    ensures Lost(hard, q.notcovered, d) && d !in q.notcovered && d !in q.initial && d in q.covered
  {
    hide RunQueueExecuteScenequeue.Valid, RunQueueExecuteScenequeue.Done, Acyclic, Closed, Reach, Grounded;
    q := FailOne(g, hard, setsceneTids, stamps, numberTasks, initial, f);
    LostIsCovered(q, f, d);
  }

  lemma LostIsCovered(q: RunQueueExecuteScenequeue, f: Tid, d: Tid)
    requires q.Valid() && q.Done() && q.notcovered == {f}
    requires LostTooSoon(q.harddeps, q.stamps.Keys, q.initial, f, d) && Grounded(q.g, q.stamps, q.initial, d)
    ensures Lost(q.harddeps, q.notcovered, d) && d in q.covered
  {
    hide Inverse, Acyclic, Ranked, TaskDepData.SelfLoopsAdded, Reach, Counted;
    forall e | e in q.g[d]
      ensures Gone(q.harddeps, q.covered, q.notcovered, e, d)
    {
      SettledBelow(q, f, d, e);
    }
    assert q.sqRevdeps2[d] == {};
    assert d in Free(q.sqRevdeps2);
  }

  lemma SettledBelow(q: RunQueueExecuteScenequeue, f: Tid, d: Tid, e: Tid)
    requires q.Valid() && q.Done() && q.notcovered == {f}
    requires LostTooSoon(q.harddeps, q.stamps.Keys, q.initial, f, d) && Grounded(q.g, q.stamps, q.initial, d)
    requires d in q.g && e in q.g[d]
    ensures Gone(q.harddeps, q.covered, q.notcovered, e, d)
  {
    hide Inverse, Acyclic, Ranked, TaskDepData.SelfLoopsAdded, Reach, Counted, Left, HardFirst;
    ReachEdge(q.g, d, e);
    if e in q.stamps {
      assert Accounted(q.g, q.harddeps, q.stamps, q.covered, q.notcovered, e);
      if WaitsOutside(q.g, q.stamps, q.covered, e) {
        var w :| Reach(q.g, e, w) && w !in q.stamps && w !in q.covered;
        ReachCons(q.g, d, e, w);
      }
    }
  }

  /** Such set-ups exist: `t` was skipped at the start although it asks for `h`, and `a`
      asks for `t`. */
  lemma LostTaskMayStart(h: Tid, t: Tid, a: Tid)
    requires h != t && h != a && t != a
    ensures LostTooSoon(map[h := {t}, t := {a}], {h, t, a}, {t}, h, a)
  {
    hide Barred;
    var hard: Marks := map[h := {t}, t := {a}];
    ReachEdge(hard, h, t);
    ReachSnoc(hard, h, t, a);
    NotBarred(hard, {h, t, a}, {t}, h);
    NotBarred(hard, {h, t, a}, {t}, a);
  }

  /** Where only setscene tasks are asked for, none is barred. */
  lemma NotBarred(hard: Marks, scene: set<Tid>, initial: set<Tid>, t: Tid)
    requires hard.Keys <= scene + initial && t in scene
    ensures !Barred(hard, scene, initial, t)
  {
    forall o | o !in scene && o !in initial
      ensures !Reach(OpenWishes(hard, initial), o, t)
    {
      if Reach(OpenWishes(hard, initial), o, t) {
        var y := ReachFirst(OpenWishes(hard, initial), o, t);
        assert false;
      }
    }
  }

  lemma NearCollapsed(depends: Graph<Tid>, revdeps: Graph<Tid>, scene: set<Tid>, order: seq<Tid>, base: Marks)
    requires base.Keys == scene <= depends.Keys && SceneCollapse.IsOrder(depends, revdeps, scene, order)
    requires forall s, x :: s in scene ==> (x in base[s] <==> SceneCollapse.Kept(depends, revdeps, scene, order, x, s))
    ensures HardDeps.Collapsed(depends, scene, base)
  {
    hide SceneCollapse.NearAncestor, SceneCollapse.SceneAncestor, SceneCollapse.Kept, SceneCollapse.IsOrder;
    forall s, x | s in scene && x in base[s]
      ensures SceneCollapse.SceneAncestor(depends, scene, x, s)
    {
      SceneCollapse.KeptIsNear(depends, revdeps, scene, order, x, s);
      SceneCollapse.NearIsAncestor(depends, scene, x, s);
    }
  }

  lemma CollapseIsOrder(depends: Graph<Tid>, scene: set<Tid>, base: Marks, targets: map<string, seq<string>>,
                        wishes: map<Tid, seq<Wish>>, hard: Marks)
    requires Acyclic(depends) && HardDeps.Collapsed(depends, scene, base)
    requires RecordsWishes(targets, wishes, scene, hard) && Acyclic(hard)
    ensures Closed(Squash(base, hard)) && Acyclic(Squash(base, hard)) && scene <= Squash(base, hard).Keys
    ensures forall h, t :: IsHard(hard, h, t) ==>
      h in Squash(base, hard) && t in Squash(base, hard) && h in Squash(base, hard)[t]
  {
    hide Acyclic;
    AskersExist(targets, wishes, scene, hard);
    SquashAcyclic(depends, scene, base, hard);
    SquashIsClosed(depends, scene, base, hard);
  }

  /** Sets the setscene pass up over a prepared queue: collapse, wishes, unskippable tasks.
      It needs the wishes to have no cycle, and stops only for a wish the queue cannot meet. */
  method StartScenequeue(depends: Graph<Tid>, revdeps: Graph<Tid>, setsceneTids: seq<Tid>, wishes: map<Tid, seq<Wish>>,
                         targets: map<string, seq<string>>, stamps: map<Tid, string>, numberTasks: nat,
                         targetTids: set<Tid>, force: bool, enforced: set<Tid>, depvalidate: Option<DepValidate>,
                         current: Tid -> bool, available: Option<set<Tid> -> set<Tid>>)
    returns (q: RunQueueExecuteScenequeue?, ghost order: seq<Tid>)
    requires Inverse(depends, revdeps) && Acyclic(depends) && numberTasks > 0
    requires (forall t :: t in setsceneTids <==> t in stamps) && stamps.Keys == wishes.Keys
      && stamps.Keys <= depends.Keys
    requires forall hard :: RecordsWishes(targets, wishes, stamps.Keys, hard) ==> Acyclic(hard)
    ensures q == null <==> Unmet(stamps.Keys, wishes, targets, depends.Keys)
    ensures q != null ==> forall t :: t in q.outrightfail <==>
      available.Some? && t in q.g && !current(t) && t !in available.value(set u | u in q.g && !current(u))
    ensures q != null ==>
      fresh(q) && fresh(q.stats) && q.Valid() && q.state == SceneRun && q.setsceneTids == setsceneTids
    ensures q != null ==> RecordsWishes(targets, wishes, stamps.Keys, q.harddeps)
    ensures q != null ==> forall t :: t in q.unskippable <==>
      t in stamps && SceneCollapse.FromRoot(depends, revdeps, stamps.Keys, t)
    ensures q != null ==> SceneOrder(depends, revdeps, stamps.Keys, q.harddeps, order, q.g)
    ensures q != null ==> q.stamps == stamps && q.enforced == enforced && q.g.Keys <= depends.Keys
    ensures q != null ==> q.targetTids == targetTids && q.force == force && q.depvalidate == depvalidate
    ensures q != null ==> q.numberTasks == numberTasks && q.running == q.covered == q.initial && q.notcovered == {}
    ensures q != null ==> forall t :: t in q.initial <==> t in q.g && available.Some? && current(t)
  {
    hide Inverse, Acyclic, RunQueueExecuteScenequeue.Valid, RecordsWishes, SceneCollapse.Kept, SceneCollapse.IsOrder,
         SceneCollapse.FromRoot, Wanted, Unmet, Squash, SceneOrder;
    var scene := stamps.Keys;
    var collapsed;
    collapsed, order := SceneCollapse.Collapse(depends, revdeps, scene);
    var r := ResolveHardDeps(scene, wishes, targets, depends.Keys, collapsed.revdeps);
    if !r.Resolved? {
      return null, order;
    }
    NearCollapsed(depends, revdeps, scene, order, collapsed.revdeps);
    CollapseIsOrder(depends, scene, collapsed.revdeps, targets, wishes, r.hard);
    SquashIsOrder(depends, revdeps, scene, order, collapsed.revdeps, r.hard);
    var unskippable := SceneCollapse.Unskippable(depends, revdeps, scene);
    q := new RunQueueExecuteScenequeue(r.revdeps, r.hard, setsceneTids, stamps, numberTasks, unskippable, targetTids,
                                       force, enforced, depvalidate, current, available);
  }

  /** Every task is put after exactly what it asked for and, unless it was asked for itself,
      what the collapse keeps for it. */
  ghost predicate SceneOrder(depends: Graph<Tid>, revdeps: Graph<Tid>, scene: set<Tid>, hard: Marks, order: seq<Tid>,
                             g: Graph<Tid>)
  {
    && SceneCollapse.IsOrder(depends, revdeps, scene, order) && scene <= g.Keys <= depends.Keys
    && forall t, x :: t in g ==>
         (x in g[t] <==>
          IsHard(hard, x, t)
          || (t in scene && t !in hard && SceneCollapse.Kept(depends, revdeps, scene, order, x, t)))
  }

  lemma SquashIsOrder(depends: Graph<Tid>, revdeps: Graph<Tid>, scene: set<Tid>, order: seq<Tid>, base: Marks,
                      hard: Marks)
    requires SceneCollapse.IsOrder(depends, revdeps, scene, order) && base.Keys == scene <= depends.Keys
      && hard.Keys <= depends.Keys
    requires forall s, x :: s in scene ==> (x in base[s] <==> SceneCollapse.Kept(depends, revdeps, scene, order, x, s))
    ensures SceneOrder(depends, revdeps, scene, hard, order, Squash(base, hard))
      && Squash(base, hard).Keys <= depends.Keys
  {
    hide SceneCollapse.Kept, SceneCollapse.IsOrder;
  }

  lemma FewerLive(running: set<Tid>, covered: set<Tid>, notcovered: set<Tid>, t: Tid)
    requires t in Live(running, covered, notcovered)
    ensures |Live(running, covered + {t}, notcovered)| < |Live(running, covered, notcovered)|
    ensures |Live(running, covered, notcovered + {t})| < |Live(running, covered, notcovered)|
  {
    LiveReplied(running, covered, notcovered, t);
    ExecuteTasks.RemoveOne(Live(running, covered, notcovered), t);
  }

  lemma FewerLeft(all: set<Tid>, running: set<Tid>, t: Tid)
    requires t in all && t !in running
    ensures |all - (running + {t})| < |all - running|
  {
    SmallerSet(all - (running + {t}), all - running);
  }

  /** The answer for `t` is the failure of a task whose real work is not allowed. */
  predicate Forbidden(enforced: set<Tid>, reply: Tid -> int, t: Tid) {
    t in enforced && reply(t) != 0
  }

  predicate SomeForbidden(enforced: set<Tid>, reply: Tid -> int, answers: seq<Tid>) {
    exists t :: t in answers && Forbidden(enforced, reply, t)
  }

  /** The answers that were taken have covered their tasks or not. */
  predicate Answered(reply: Tid -> int, answers: seq<Tid>, covered: set<Tid>, notcovered: set<Tid>) {
    forall t :: t in answers ==> if reply(t) == 0 then t in covered else t in notcovered
  }

  lemma OneMoreAnswer(enforced: set<Tid>, reply: Tid -> int, answers: seq<Tid>, t: Tid)
    ensures SomeForbidden(enforced, reply, answers + [t])
      <==> SomeForbidden(enforced, reply, answers) || Forbidden(enforced, reply, t)
  {
    if SomeForbidden(enforced, reply, answers) {
      var u :| u in answers && Forbidden(enforced, reply, u);
      assert u in answers + [t];
    }
    assert t in answers + [t];
  }

  lemma MoreSettled(reply: Tid -> int, answers: seq<Tid>, more: seq<Tid>, covered: set<Tid>, notcovered: set<Tid>,
                    covered': set<Tid>, notcovered': set<Tid>)
    requires Answered(reply, answers, covered, notcovered) && covered <= covered' && notcovered <= notcovered'
    requires Answered(reply, more, covered', notcovered')
    ensures Answered(reply, answers + more, covered', notcovered')
  {
  }

  /** Why a step was taken, by what the queue is given alone: what is not needed is neither
      unskippable nor asked for, what cannot be fetched or need not run is given up, and only
      the rest is sent, unless its setscene variant has run before. */
  ghost predicate Called(q: RunQueueExecuteScenequeue, stampCurrent: Tid -> bool, sceneStampCurrent: Tid -> bool,
                         step: Step)
    reads q`outrightfail
  {
    match step
    case Unneeded(t) => t !in q.unskippable && t !in q.targetTids && q.depvalidate.Some?
    case Unavailable(t) => t in q.outrightfail || stampCurrent(t) || (q.force && t in q.targetTids)
    case StampCurrent(t) =>
      t !in q.outrightfail && !stampCurrent(t) && !(q.force && t in q.targetTids) && sceneStampCurrent(t)
    case Sent(t) =>
      t !in q.outrightfail && !stampCurrent(t) && !(q.force && t in q.targetTids) && !sceneStampCurrent(t)
    case Waiting => true
    case Finished => true
  }

  ghost predicate AllCalled(q: RunQueueExecuteScenequeue, stampCurrent: Tid -> bool, sceneStampCurrent: Tid -> bool,
                            steps: seq<Step>)
    reads q`outrightfail
  {
    forall step :: step in steps ==> Called(q, stampCurrent, sceneStampCurrent, step)
  }

  /** The tasks begun, covered and not covered so far. */
  datatype Progress = Progress(running: set<Tid>, covered: set<Tid>, notcovered: set<Tid>)

  ghost function ProgressOf(q: RunQueueExecuteScenequeue): Progress
    reads q
  {
    Progress(q.running, q.covered, q.notcovered)
  }

  /** From `a` to `b` the steps and the workers' answers are all that happened: a task is
      covered when a step skipped it or its worker succeeded, not covered when a step gave
      it up or its worker failed, and only what was sent is answered. */
  ghost predicate Explained(reply: Tid -> int, a: Progress, b: Progress, steps: seq<Step>, answers: seq<Tid>) {
    && (forall t :: t in b.covered <==>
          t in a.covered || Unneeded(t) in steps || StampCurrent(t) in steps || (t in answers && reply(t) == 0))
    && (forall t :: t in b.notcovered <==>
          t in a.notcovered || Unavailable(t) in steps || (t in answers && reply(t) != 0))
    && (forall t :: t in b.running <==>
          t in a.running || Unneeded(t) in steps || Unavailable(t) in steps || StampCurrent(t) in steps
          || Sent(t) in steps)
    && (forall t :: t in answers ==> Sent(t) in steps || t in Live(a.running, a.covered, a.notcovered))
  }

  lemma ExplainedNothing(reply: Tid -> int, a: Progress)
    ensures Explained(reply, a, a, [], [])
  {
  }

  lemma ExplainedTwice(reply: Tid -> int, a: Progress, b: Progress, c: Progress, steps: seq<Step>, answers: seq<Tid>,
                       moreSteps: seq<Step>, moreAnswers: seq<Tid>)
    requires Explained(reply, a, b, steps, answers) && Explained(reply, b, c, moreSteps, moreAnswers)
    ensures Explained(reply, a, c, steps + moreSteps, answers + moreAnswers)
  {
    forall t | t in moreAnswers && Sent(t) !in moreSteps
      ensures Sent(t) in steps || t in Live(a.running, a.covered, a.notcovered)
    {
      assert t in Live(b.running, b.covered, b.notcovered);
    }
  }

  lemma ExplainedStep(reply: Tid -> int, a: Progress, b: Progress, step: Step, needless: set<Tid>, needless': set<Tid>)
    requires Outcome(step, a.covered, a.notcovered, needless, b.covered, b.notcovered, needless')
    requires b.running == a.running + if TidOf(step).Some? then {TidOf(step).value} else {}
    ensures Explained(reply, a, b, [step], [])
  {
  }

  lemma ExplainedReply(reply: Tid -> int, a: Progress, b: Progress, t: Tid)
    requires t in Live(a.running, a.covered, a.notcovered) && b.running == a.running
    requires b.covered == if reply(t) != 0 then a.covered else a.covered + {t}
    requires b.notcovered == if reply(t) != 0 then a.notcovered + {t} else a.notcovered
    ensures Explained(reply, a, b, [], [t])
  {
  }

  /** One of the workers that are busy answers. */
  method TakeReply(q: RunQueueExecuteScenequeue, reply: Tid -> int) returns (ghost task: Tid)
    requires q.Valid() && Live(q.running, q.covered, q.notcovered) != {}
    modifies q, q.stats
    ensures q.Valid() && q.initial == old(q.initial) && q.running == old(q.running)
    ensures old(q.covered) <= q.covered && old(q.notcovered) <= q.notcovered
    ensures task in old(Live(q.running, q.covered, q.notcovered)) && Answered(reply, [task], q.covered, q.notcovered)
    ensures |Live(q.running, q.covered, q.notcovered)| < old(|Live(q.running, q.covered, q.notcovered)|)
    ensures q.state == if Forbidden(q.enforced, reply, task) then CleanUp else old(q.state)
    ensures q.outrightfail == old(q.outrightfail) && Explained(reply, old(ProgressOf(q)), ProgressOf(q), [], [task])
  {
    hide RunQueueExecuteScenequeue.Valid, Live, Explained;
    ghost var before := ProgressOf(q);
    ghost var running, covered, notcovered := q.running, q.covered, q.notcovered;
    var next :| next in Live(q.running, q.covered, q.notcovered);
    q.RunqueueProcessWaitpid(next, reply(next));
    FewerLive(running, covered, notcovered, next);
    ExplainedReply(reply, before, ProgressOf(q), next);
    task := next;
  }

  /** Takes as many of the workers' answers as have come in, perhaps none. */
  method ReadWorkers(q: RunQueueExecuteScenequeue, reply: Tid -> int) returns (ghost answers: seq<Tid>)
    requires q.Valid()
    modifies q, q.stats
    ensures q.Valid() && q.initial == old(q.initial) && q.running == old(q.running)
    ensures old(q.covered) <= q.covered && old(q.notcovered) <= q.notcovered
      && Answered(reply, answers, q.covered, q.notcovered)
    ensures |Live(q.running, q.covered, q.notcovered)| <= old(|Live(q.running, q.covered, q.notcovered)|)
    ensures q.state == if SomeForbidden(q.enforced, reply, answers) then CleanUp else old(q.state)
    ensures q.outrightfail == old(q.outrightfail) && Explained(reply, old(ProgressOf(q)), ProgressOf(q), [], answers)
  {
    hide RunQueueExecuteScenequeue.Valid, Live, Answered, SomeForbidden, Forbidden, Explained;
    answers := [];
    ghost var before := ProgressOf(q);
    ExplainedNothing(reply, before);
    NoAnswers(q.enforced, reply, q.covered, q.notcovered);
    while Live(q.running, q.covered, q.notcovered) != {}
      invariant q.Valid() && q.initial == old(q.initial) && q.running == old(q.running)
      invariant old(q.covered) <= q.covered && old(q.notcovered) <= q.notcovered
        && Answered(reply, answers, q.covered, q.notcovered)
      invariant |Live(q.running, q.covered, q.notcovered)| <= old(|Live(q.running, q.covered, q.notcovered)|)
      invariant q.state == if SomeForbidden(q.enforced, reply, answers) then CleanUp else old(q.state)
      invariant q.outrightfail == old(q.outrightfail) && Explained(reply, before, ProgressOf(q), [], answers)
      decreases |Live(q.running, q.covered, q.notcovered)|
    {
      var more: bool := *;
      if !more {
        break;
      }
      ghost var covered, notcovered, now := q.covered, q.notcovered, ProgressOf(q);
      ghost var task := TakeReply(q, reply);
      OneMoreAnswer(q.enforced, reply, answers, task);
      MoreSettled(reply, answers, [task], covered, notcovered, q.covered, q.notcovered);
      ghost var none: seq<Step> := [];
      ExplainedTwice(reply, before, now, ProgressOf(q), none, answers, none, [task]);
      assert none + none == none;
      answers := answers + [task];
    }
  }

  lemma NoAnswers(enforced: set<Tid>, reply: Tid -> int, covered: set<Tid>, notcovered: set<Tid>)
    ensures !SomeForbidden(enforced, reply, []) && Answered(reply, [], covered, notcovered)
  {
  }

  /** One call of the queue, told without its state. */
  method CallOnce(q: RunQueueExecuteScenequeue, stampCurrent: Tid -> bool, sceneStampCurrent: Tid -> bool,
                  ghost reply: Tid -> int)
    returns (step: Step)
    requires q.Valid()
    modifies q, q.stats
    ensures q.Valid() && q.initial == old(q.initial) && q.outrightfail == old(q.outrightfail)
    ensures old(q.covered) <= q.covered && old(q.notcovered) <= q.notcovered
    ensures match TidOf(step)
            case Some(t) => t in q.g && t !in old(q.running) && q.running == old(q.running) + {t}
            case None => q.running == old(q.running)
    ensures step.Waiting? || step.Finished? ==> q.covered == old(q.covered) && q.notcovered == old(q.notcovered)
    ensures step.Waiting? ==> Live(q.running, q.covered, q.notcovered) != {}
    ensures step.Finished? ==> q.Done() && q.Idle()
    ensures q.state == if step.Finished? then RunInit else old(q.state)
    ensures Called(q, stampCurrent, sceneStampCurrent, step)
    ensures Explained(reply, old(ProgressOf(q)), ProgressOf(q), [step], [])
  {
    hide RunQueueExecuteScenequeue.Valid, RunQueueExecuteScenequeue.Done, RunQueueExecuteScenequeue.Idle,
         RunQueueExecuteScenequeue.FirstEligible, Live, Explained;
    ghost var before, needless := ProgressOf(q), q.notneeded;
    step := q.Execute(stampCurrent, sceneStampCurrent);
    ExplainedStep(reply, before, ProgressOf(q), step, needless, q.notneeded);
  }

  /** One turn of the server: answers come in, the queue is called, and when it only waits
      one more answer is awaited. A forbidden failure among them stops the run, unless the
      call finds nothing to do. */
  method Serve(q: RunQueueExecuteScenequeue, stampCurrent: Tid -> bool, sceneStampCurrent: Tid -> bool,
               reply: Tid -> int)
    returns (step: Step, ghost answers: seq<Tid>)
    requires q.Valid() && q.state == SceneRun
    modifies q, q.stats
    ensures q.Valid() && q.initial == old(q.initial)
    ensures old(q.covered) <= q.covered && old(q.notcovered) <= q.notcovered
      && Answered(reply, answers, q.covered, q.notcovered)
    ensures q.state == if step.Finished? then RunInit else if SomeForbidden(q.enforced, reply, answers) then CleanUp
      else SceneRun
    ensures step.Finished? ==> q.Done() && q.Idle()
    ensures Closer(q.g, old(q.running), q.running, old(Live(q.running, q.covered, q.notcovered)),
                   Live(q.running, q.covered, q.notcovered)) || step.Finished?
    ensures |q.g.Keys - q.running| <= |q.g.Keys - old(q.running)|
    ensures step.Finished? ==>
      q.running == old(q.running)
      && |Live(q.running, q.covered, q.notcovered)| <= old(|Live(q.running, q.covered, q.notcovered)|)
    ensures q.outrightfail == old(q.outrightfail) && Called(q, stampCurrent, sceneStampCurrent, step)
    ensures Explained(reply, old(ProgressOf(q)), ProgressOf(q), [step], answers)
  {
    hide RunQueueExecuteScenequeue.Valid, RunQueueExecuteScenequeue.Done, RunQueueExecuteScenequeue.Idle,
         RunQueueExecuteScenequeue.FirstEligible, RunQueueExecuteScenequeue.Because, Live, Answered, SomeForbidden,
         Forbidden, Explained, Called, Outcome;
    ghost var p0, needless := ProgressOf(q), q.notneeded;
    answers := ReadWorkers(q, reply);
    ghost var running, covered, notcovered, p1 := q.running, q.covered, q.notcovered, ProgressOf(q);
    step := CallOnce(q, stampCurrent, sceneStampCurrent, reply);
    ghost var p2 := ProgressOf(q);
    ExplainedTwice(reply, p0, p1, p2, [], answers, [step], []);
    assert [] + [step] == [step] && [step] + [] == [step];
    assert covered <= q.covered && notcovered <= q.notcovered;
    NoAnswers(q.enforced, reply, q.covered, q.notcovered);
    MoreSettled(reply, answers, [], covered, notcovered, q.covered, q.notcovered);
    assert answers + [] == answers;
    if step.Waiting? {
      ghost var before, missed := q.covered, q.notcovered;
      ghost var task := TakeReply(q, reply);
      OneMoreAnswer(q.enforced, reply, answers, task);
      MoreSettled(reply, answers, [task], before, missed, q.covered, q.notcovered);
      ExplainedTwice(reply, p0, p2, ProgressOf(q), [step], answers, [], [task]);
      answers := answers + [task];
    } else if !step.Finished? {
      FewerLeft(q.g.Keys, running, TidOf(step).value);
    }
  }

  /** One more task has begun, or none has and fewer workers are busy. */
  predicate Closer(g: Graph<Tid>, before: set<Tid>, running: set<Tid>, busy: set<Tid>, live: set<Tid>) {
    |g.Keys - running| < |g.Keys - before| || (running == before && |live| < |busy|)
  }

  /** Runs the queue to its end: `reply` is what each task's worker will answer. How many
      answers have come in before each step, and whose, is left open. Every run ends and
      accounts for every task, or is stopped. Forbidden failures come in during the last
      turn only, if any do (`last`), and stop the run exactly when its call still found
      something to do (`idle` says that it did not). */
  method RunScenequeue(q: RunQueueExecuteScenequeue, stampCurrent: Tid -> bool, sceneStampCurrent: Tid -> bool,
                       reply: Tid -> int)
    returns (ghost earlier: seq<Tid>, ghost last: seq<Tid>, ghost idle: bool, ghost steps: seq<Step>)
    requires q.Valid() && q.state == SceneRun
    modifies q, q.stats
    ensures q.Valid() && q.initial == old(q.initial) && Answered(reply, earlier + last, q.covered, q.notcovered)
    ensures q.outrightfail == old(q.outrightfail) && AllCalled(q, stampCurrent, sceneStampCurrent, steps)
    ensures forall t :: t in q.outrightfail ==> Sent(t) !in steps
    ensures Explained(reply, old(ProgressOf(q)), ProgressOf(q), steps, earlier + last)
    ensures !SomeForbidden(q.enforced, reply, earlier)
    ensures q.state == if idle then RunInit else CleanUp
    ensures idle ==> q.Done() && q.Idle()
    ensures !idle ==> SomeForbidden(q.enforced, reply, last)
  {
    hide RunQueueExecuteScenequeue.Valid, RunQueueExecuteScenequeue.Done, RunQueueExecuteScenequeue.Idle, Live,
         Answered, SomeForbidden, Forbidden, Explained;
    earlier, last, idle, steps := [], [], false, [];
    ghost var start := ProgressOf(q);
    ExplainedNothing(reply, start);
    NoAnswers(q.enforced, reply, q.covered, q.notcovered);
    assert earlier + last == [];
    while q.state == SceneRun
      invariant q.Valid() && q.initial == old(q.initial) && Answered(reply, earlier + last, q.covered, q.notcovered)
      invariant !SomeForbidden(q.enforced, reply, earlier)
      invariant q.state == SceneRun ==> !SomeForbidden(q.enforced, reply, earlier + last)
      invariant q.state != SceneRun ==> q.state == if idle then RunInit else CleanUp
      invariant q.state != SceneRun && idle ==> q.Done() && q.Idle()
      invariant q.state != SceneRun && !idle ==> SomeForbidden(q.enforced, reply, last)
      invariant q.outrightfail == old(q.outrightfail) && AllCalled(q, stampCurrent, sceneStampCurrent, steps)
      invariant Explained(reply, start, ProgressOf(q), steps, earlier + last)
      decreases |q.g.Keys - q.running|, |Live(q.running, q.covered, q.notcovered)|, q.state == SceneRun
    {
      ghost var covered, notcovered, now := q.covered, q.notcovered, ProgressOf(q);
      earlier := earlier + last;
      var step;
      step, last := Serve(q, stampCurrent, sceneStampCurrent, reply);
      idle := step.Finished?;
      ExplainedTwice(reply, start, now, ProgressOf(q), steps, earlier, [step], last);
      steps := steps + [step];
      MoreSettled(reply, earlier, last, covered, notcovered, q.covered, q.notcovered);
      MoreAnswers(q.enforced, reply, earlier, last);
    }
  }

  lemma MoreAnswers(enforced: set<Tid>, reply: Tid -> int, answers: seq<Tid>, more: seq<Tid>)
    ensures SomeForbidden(enforced, reply, answers + more)
      <==> SomeForbidden(enforced, reply, answers) || SomeForbidden(enforced, reply, more)
  {
    forall t | t in answers || t in more
      ensures t in answers + more
    {
    }
  }

  lemma CoveredInQueue(q: RunQueueExecuteScenequeue)
    requires q.Valid()
    ensures q.covered <= q.g.Keys
  {
    hide Inverse, Acyclic, Ranked, Left, Free, HardFirst, TaskDepData.SelfLoopsAdded;
  }

  /** Once `t` has failed, another worker is still busy or some task may be started. */
  ghost predicate MoreToDo(hard: Marks, stamps: map<Tid, string>, v: View, t: Tid) {
    || Live(v.running, v.covered, v.notcovered) != {t}
    || exists u ::
         u in stamps && u !in v.running && u in Free(Struck(v.left, hard, t)) && stamps[u] !in (v.held - {t}).Values
  }

  lemma FailureLeaves(g: Graph<Tid>, hard: Marks, stamps: map<Tid, string>, limit: nat, initial: set<Tid>, v: View,
                      v': View, t: Tid)
    requires Tied(g, hard, stamps, limit, initial, v) && Tied(g, hard, stamps, limit, initial, v')
    requires t in Live(v.running, v.covered, v.notcovered)
    requires v'.running == v.running && v'.covered == v.covered && v'.notcovered == v.notcovered + {t}
    ensures v'.left == Struck(v.left, hard, t) && v'.buildable == v.running + Free(v'.left) && v'.held == v.held - {t}
    ensures Live(v'.running, v'.covered, v'.notcovered) == Live(v.running, v.covered, v.notcovered) - {t}
  {
    hide Left, Struck, Free, HardFirst, Counted, Within;
    FailStrikes(g, hard, v.covered, v.notcovered, t);
    LiveReplied(v.running, v.covered, v.notcovered, t);
  }

  lemma IdleOrMore(q: RunQueueExecuteScenequeue, v: View, t: Tid)
    requires t in Live(v.running, v.covered, v.notcovered) && q.running == v.running
    requires q.buildable == v.running + Free(Struck(v.left, q.harddeps, t)) && q.buildStamps == v.held - {t}
    requires Live(q.running, q.covered, q.notcovered) == Live(v.running, v.covered, v.notcovered) - {t}
    ensures q.Idle() <==> !MoreToDo(q.harddeps, q.stamps, v, t)
  {
    hide Live, Free, Struck;
    var live := Live(v.running, v.covered, v.notcovered);
    assert live - {t} == {} <==> live == {t};
    if !MoreToDo(q.harddeps, q.stamps, v, t) {
      forall u
        ensures !q.Eligible(u)
      {
      }
    } else if live == {t} {
      var u :| u in q.stamps && u !in v.running && u in Free(Struck(v.left, q.harddeps, t))
        && q.stamps[u] !in (v.held - {t}).Values;
      assert q.Eligible(u);
    }
  }

  /** The answer that a forbidden task has failed, and the call it comes in with: the run
      is stopped exactly when there is more to do without that task; otherwise the failure
      is forgotten, and the call goes on to the next phase all the same. */
  method FailureThenCall(q: RunQueueExecuteScenequeue, t: Tid, status: int, stampCurrent: Tid -> bool,
                         sceneStampCurrent: Tid -> bool)
    requires q.Valid() && t in Live(q.running, q.covered, q.notcovered) && t in q.enforced && status != 0
    modifies q, q.stats
    ensures q.Valid() && t in q.notcovered
    ensures q.state == if old(MoreToDo(q.harddeps, q.stamps, q.State(), t)) then CleanUp else RunInit
  {
    hide RunQueueExecuteScenequeue.FirstEligible, RunQueueExecuteScenequeue.Because, RunQueueExecuteScenequeue.Done,
         Struck, Free, Live, Tied, Inverse, Acyclic, Ranked, TaskDepData.SelfLoopsAdded;
    ghost var v := q.State();
    q.RunqueueProcessWaitpid(t, status);
    FailureLeaves(q.g, q.harddeps, q.stamps, q.numberTasks, q.initial, v, q.State(), t);
    IdleOrMore(q, v, t);
    var step := q.Execute(stampCurrent, sceneStampCurrent);
  }

  /** A queue of one task is enough for a failure to be forgotten. */
  method ForgottenFailure(t: Tid, stamp: string) returns (q: RunQueueExecuteScenequeue)
    ensures fresh(q) && q.Valid() && t in q.enforced && t in q.notcovered && q.state == RunInit
  {
    hide RunQueueExecuteScenequeue.Valid, Free, Reach;
    OneTask(t);
    q := new RunQueueExecuteScenequeue(map[t := {}], map[], [t], map[t := stamp], 1, {}, {}, false, {t}, None,
                                       _ => false, None);
    var step := q.Execute(_ => false, _ => false);
    FreeWithoutDependencies(q, t);
    FailureThenCall(q, t, 1, _ => false, _ => false);
  }

  lemma FreeWithoutDependencies(q: RunQueueExecuteScenequeue, t: Tid)
    requires q.Valid() && t in q.g && q.g[t] == {}
    ensures t in Free(q.sqRevdeps2)
  {
    hide Inverse, Acyclic, Ranked, Counted, HardFirst, Gone, Within;
  }

  lemma OneTask(t: Tid)
    ensures Closed(map[t := {}]) && Acyclic(map[t := {}]) && Acyclic<Tid>(map[])
  {
    RankingRulesOutCycles(map[t := {}], map[t := 0]);
  }

  lemma Neighbours(g: Graph<Tid>, deps: Graph<Tid>, t: Tid)
    requires Inverse(g, deps) && t in g
    ensures t in deps && deps[t] <= g.Keys
  {
  }

  lemma AskedFor(hard: Marks, d: Tid, t: Tid)
    ensures IsHard(hard, d, t) <==> d in hard && t in hard[d]
  {
  }

  lemma MoreLoops(g: Graph<Tid>, live: Graph<Tid>, running: set<Tid>, t: Tid)
    requires TaskDepData.SelfLoopsAdded(g, live, running)
    ensures TaskDepData.SelfLoopsAdded(g, live, running + {t})
  {
  }

  lemma LoopKeys(g: Graph<Tid>, live: Graph<Tid>, running: set<Tid>)
    requires TaskDepData.SelfLoopsAdded(g, live, running)
    ensures live.Keys == g.Keys
  {
  }

  lemma LiveInGraph(g: Graph<Tid>, hard: Marks, stamps: map<Tid, string>, limit: nat, initial: set<Tid>, v: View,
                    t: Tid)
    requires Tied(g, hard, stamps, limit, initial, v) && t in Live(v.running, v.covered, v.notcovered)
    ensures t in g && t in v.held
  {
    hide Left, Free, HardFirst, Counted;
  }

  lemma NothingRuns(g: Graph<Tid>, hard: Marks, stamps: map<Tid, string>, limit: nat, initial: set<Tid>, v: View)
    requires Tied(g, hard, stamps, limit, initial, v) && v.running == {}
    ensures v.covered == v.notcovered == initial == {}
  {
    hide Left, Free, HardFirst, Live;
  }

  lemma FreeAtStart(g: Graph<Tid>)
    ensures (set t | t in g && |g[t]| == 0) == Free(g)
  {
  }

  lemma WishesInverted(g: Graph<Tid>, deps: Graph<Tid>, hard: Marks)
    requires Inverse(g, deps) && forall h, t :: IsHard(hard, h, t) ==> h in g && t in g && h in g[t]
    ensures forall h, t :: IsHard(hard, h, t) ==> t in deps[h]
  {
  }
}
