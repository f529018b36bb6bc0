/** Collapsing the task graph to the setscene tasks. Sets of setscene tasks are pushed
    from each point to its dependencies, round by round, until they come to rest at
    setscene tasks. */
module SceneCollapse {
  import opened Graphs
  import opened Sequences
  import opened Tasks

  /** The graph cut off below every setscene task: its paths run through tasks without
      a setscene variant only, except for where they end. */
  function Between(depends: Graph<Tid>, scene: set<Tid>): Graph<Tid> {
    map t | t in depends :: if t in scene then {} else depends[t]
  }

  /** `x` is a setscene task that depends on `n`, directly or not. */
  ghost predicate SceneAncestor(depends: Graph<Tid>, scene: set<Tid>, x: Tid, n: Tid) {
    x in scene && x in depends && exists d :: d in depends[x] && Reach(depends, d, n)
  }

  /** ... and there is no other setscene task between the two. */
  ghost predicate DirectAncestor(depends: Graph<Tid>, scene: set<Tid>, x: Tid, n: Tid) {
    x in scene && x in depends && exists d :: d in depends[x] && Reach(Between(depends, scene), d, n)
  }

  /** A way down from `x` whose tasks, but for the last, are ordinary. */
  ghost predicate OrdinaryPath(depends: Graph<Tid>, scene: set<Tid>, x: Tid, path: seq<Tid>) {
    && |path| > 0 && x in depends && path[0] in depends[x]
    && forall i :: 0 <= i < |path| - 1 ==>
         path[i] !in scene && path[i] in depends && path[i + 1] in depends[path[i]]
  }

  /** Direct ancestors, told by such ways. */
  lemma DirectByPath(depends: Graph<Tid>, scene: set<Tid>, x: Tid, n: Tid)
    ensures DirectAncestor(depends, scene, x, n) <==>
      x in scene && exists path :: OrdinaryPath(depends, scene, x, path) && path[|path| - 1] == n
  {
    if DirectAncestor(depends, scene, x, n) {
      var d :| d in depends[x] && Reach(Between(depends, scene), d, n);
      ReachedByPath(depends, scene, x, d, n);
    }
    if x in scene {
      if path :| OrdinaryPath(depends, scene, x, path) && path[|path| - 1] == n {
        PathReaches(depends, scene, x, path);
      }
    }
  }

  lemma {:induction false} PathOf(depends: Graph<Tid>, scene: set<Tid>, x: Tid, d: Tid, n: Tid, k: nat)
    returns (path: seq<Tid>)
    requires x in depends && d in depends[x] && Steps(Between(depends, scene), d, n, k)
    ensures OrdinaryPath(depends, scene, x, path) && path[0] == d && path[|path| - 1] == n
    decreases k
  {
    if k == 0 {
      path := [d];
    } else {
      var c :| c in Between(depends, scene)[d] && Steps(Between(depends, scene), c, n, k - 1);
      var rest := PathOf(depends, scene, d, c, n, k - 1);
      path := [d] + rest;
    }
  }

  lemma {:induction false} PathReaches(depends: Graph<Tid>, scene: set<Tid>, x: Tid, path: seq<Tid>)
    requires OrdinaryPath(depends, scene, x, path)
    ensures Reach(Between(depends, scene), path[0], path[|path| - 1])
    decreases |path|
  {
    if |path| == 1 {
      ReachRefl(Between(depends, scene), path[0]);
    } else {
      PathReaches(depends, scene, path[0], path[1..]);
      ReachCons(Between(depends, scene), path[0], path[1], path[|path| - 1]);
    }
  }

  /** `n` lies below `y` with nothing but ordinary tasks, at least one, in between. */
  ghost predicate Under(depends: Graph<Tid>, scene: set<Tid>, y: Tid, n: Tid) {
    y in depends && exists d :: d in depends[y] && d !in scene && Reach(Between(depends, scene), d, n)
  }

  /** `x` is a direct ancestor, or depends on a setscene task `y` without anything in between,
      and `n` lies below that one. */
  ghost predicate NearAncestor(depends: Graph<Tid>, scene: set<Tid>, x: Tid, n: Tid) {
    || DirectAncestor(depends, scene, x, n)
    || (x in scene && x in depends && exists y :: y in depends[x] && y in scene && Under(depends, scene, y, n))
  }

  lemma NearIsAncestor(depends: Graph<Tid>, scene: set<Tid>, x: Tid, n: Tid)
    requires NearAncestor(depends, scene, x, n)
    ensures SceneAncestor(depends, scene, x, n)
  {
    if DirectAncestor(depends, scene, x, n) {
      var d :| d in depends[x] && Reach(Between(depends, scene), d, n);
      BetweenReaches(depends, scene, d, n);
    } else {
      var y :| y in depends[x] && y in scene && Under(depends, scene, y, n);
      var d :| d in depends[y] && d !in scene && Reach(Between(depends, scene), d, n);
      BetweenReaches(depends, scene, d, n);
      ReachCons(depends, y, d, n);
    }
  }

  lemma BetweenReaches(depends: Graph<Tid>, scene: set<Tid>, a: Tid, b: Tid)
    requires Reach(Between(depends, scene), a, b)
    ensures Reach(depends, a, b)
  {
    var n: nat :| Steps(Between(depends, scene), a, b, n);
    BetweenSteps(depends, scene, a, b, n);
  }

  lemma {:induction false} BetweenSteps(depends: Graph<Tid>, scene: set<Tid>, a: Tid, b: Tid, n: nat)
    requires Steps(Between(depends, scene), a, b, n)
    ensures Reach(depends, a, b)
    decreases n
  {
    if n == 0 {
      ReachRefl(depends, a);
    } else {
      var c :| c in Between(depends, scene)[a] && Steps(Between(depends, scene), c, b, n - 1);
      BetweenSteps(depends, scene, c, b, n - 1);
      ReachCons(depends, a, c, b);
    }
  }

  type Marks = map<Tid, set<Tid>>

  function At(m: Marks, n: Tid): set<Tid> {
    if n in m then m[n] else {}
  }

  function Join(depends: Graph<Tid>, a: Marks, b: Marks): Marks {
    map n | n in depends :: At(a, n) + At(b, n)
  }

  /** `n` lies below a task `base` gives `x` to, with ordinary tasks in between only. */
  ghost predicate Fed(depends: Graph<Tid>, scene: set<Tid>, base: Marks, x: Tid, n: Tid) {
    exists m :: m in base && x in base[m] && Reach(Between(depends, scene), m, n)
  }

  ghost predicate AreFed(depends: Graph<Tid>, scene: set<Tid>, base: Marks, m: Marks) {
    forall n, x :: n in m && x in m[n] ==> Fed(depends, scene, base, x, n)
  }

  // Where the marks stand in the middle of a round. `acc` is what each task holds,
  // `todo` the points still to process, `next` the points of the following round;
  // `given` remembers every mark a task was ever handed, `base` where they came from.
  // In the first round setscene tasks are points too, and what these enter their
  // dependencies with comes from nowhere in `base`; later rounds are `late`.

  ghost predicate Shape(depends: Graph<Tid>, scene: set<Tid>, late: bool, base: Marks, acc: Marks, given: Marks,
                        todo: Marks, next: Marks)
  {
    && acc.Keys == given.Keys == depends.Keys && todo.Keys <= depends.Keys && next.Keys <= depends.Keys
       && base.Keys <= depends.Keys
    && AreFed(depends, scene, base, acc) && AreFed(depends, scene, base, given) && AreFed(depends, scene, base, todo)
    && (forall n :: n in next ==> n !in scene)
    && (late ==> AreFed(depends, scene, base, next) && forall n :: n in todo ==> n !in scene)
  }

  predicate Waits(todo: Marks, n: Tid, x: Tid) {
    n in todo && x in todo[n]
  }

  ghost predicate PassedOn(depends: Graph<Tid>, given: Marks, n: Tid, x: Tid)
    requires Closed(depends) && given.Keys == depends.Keys && n in depends
  {
    forall m :: m in depends[n] ==> x in given[m]
  }

  /** A mark handed to an ordinary task is held there, waits there, or was passed on. */
  ghost predicate OrdinaryOk(depends: Graph<Tid>, scene: set<Tid>, acc: Marks, given: Marks, todo: Marks)
    requires Closed(depends) && acc.Keys == given.Keys == depends.Keys
  {
    forall n, x {:trigger x in given[n]} :: n in given && n !in scene && x in given[n] ==>
      x in acc[n] || Waits(todo, n, x) || PassedOn(depends, given, n, x)
  }

  /** A mark handed to a setscene task stays. */
  ghost predicate SceneOk(scene: set<Tid>, acc: Marks, given: Marks, todo: Marks)
    requires acc.Keys == given.Keys
  {
    forall n, x {:trigger x in given[n]} :: n in given && n in scene && x in given[n]
      ==> x in acc[n] || Waits(todo, n, x)
  }

  /** An ordinary task that holds a mark is going to be processed. */
  ghost predicate PendingOk(scene: set<Tid>, acc: Marks, todo: Marks, next: Marks) {
    forall n {:trigger acc[n]} :: n in acc && n !in scene && acc[n] != {} ==> n in todo || n in next
  }

  /** What `base` gives has been handed out. */
  ghost predicate Seeded(base: Marks, given: Marks) {
    forall n, x {:trigger x in base[n]} :: n in base && x in base[n] ==> n in given && x in given[n]
  }

  ghost predicate Spread(depends: Graph<Tid>, scene: set<Tid>, late: bool, base: Marks, acc: Marks, given: Marks,
                         todo: Marks, next: Marks)
    requires Closed(depends)
  {
    && Shape(depends, scene, late, base, acc, given, todo, next)
    && OrdinaryOk(depends, scene, acc, given, todo) && SceneOk(scene, acc, given, todo)
    && PendingOk(scene, acc, todo, next) && Seeded(base, given)
  }

  lemma FedDependency(depends: Graph<Tid>, scene: set<Tid>, base: Marks, x: Tid, n: Tid, m: Tid)
    requires Fed(depends, scene, base, x, n) && n in depends && n !in scene && m in depends[n]
    ensures Fed(depends, scene, base, x, m)
  {
    var b :| b in base && x in base[b] && Reach(Between(depends, scene), b, n);
    ReachSnoc(Between(depends, scene), b, n, m);
  }

  /** The setscene tasks that depend on `t` themselves. */
  function ScenesAbove(depends: Graph<Tid>, scene: set<Tid>, t: Tid): set<Tid> {
    set x | x in scene && x in depends && t in depends[x]
  }

  /** The points to start from: ordinary tasks nobody depends on, and every dependency
      of a setscene task, marked with it. */
  ghost function StartMarks(depends: Graph<Tid>, revdeps: Graph<Tid>, scene: set<Tid>): Marks {
    map t | t in depends && ((t in revdeps && revdeps[t] == {} && t !in scene)
                             || ScenesAbove(depends, scene, t) != {}) ::
      ScenesAbove(depends, scene, t)
  }

  ghost predicate StartPoints(depends: Graph<Tid>, revdeps: Graph<Tid>, scene: set<Tid>, points: Marks) {
    && (forall t {:trigger t in points} :: t in points <==>
        t in depends && ((t in revdeps && revdeps[t] == {} && t !in scene) ||
                              exists x :: x in scene && x in depends && t in depends[x]))
    && (forall t, x {:trigger x in points[t]} :: t in points ==>
        (x in points[t] <==> x in scene && x in depends && t in depends[x]))
  }

  lemma StartPointsAre(depends: Graph<Tid>, revdeps: Graph<Tid>, scene: set<Tid>, points: Marks)
    requires StartPoints(depends, revdeps, scene, points)
    ensures points == StartMarks(depends, revdeps, scene)
  {
    forall t
      ensures t in points <==> t in StartMarks(depends, revdeps, scene)
      ensures t in points ==> points[t] == ScenesAbove(depends, scene, t)
    {
      if x :| x in scene && x in depends && t in depends[x] {
        assert x in ScenesAbove(depends, scene, t);
      }
    }
  }

  method CollectEndpoints(depends: Graph<Tid>, revdeps: Graph<Tid>, scene: set<Tid>) returns (points: Marks)
    requires Closed(depends) && revdeps.Keys == depends.Keys && scene <= depends.Keys
    ensures points == StartMarks(depends, revdeps, scene)
  {
    hide StartMarks;
    points := map[];
    var todo := depends.Keys;
    while todo != {}
      invariant todo <= depends.Keys
      invariant forall t {:trigger t in points} :: t in points <==>
        t in depends && t !in todo && revdeps[t] == {} && t !in scene
      invariant forall t {:trigger points[t]} :: t in points ==> points[t] == {}
    {
      var tid :| tid in todo;
      todo := todo - {tid};
      if |revdeps[tid]| == 0 && tid !in scene {
        points := points[tid := {}];
      }
    }
    todo := scene;
    while todo != {}
      invariant todo <= scene
      invariant forall t {:trigger t in points} :: t in points <==>
        t in depends && ((revdeps[t] == {} && t !in scene) ||
                              exists x :: x in scene && x !in todo && t in depends[x])
      invariant forall t, x {:trigger x in points[t]} :: t in points ==>
        (x in points[t] <==> x in scene && x !in todo && t in depends[x])
    {
      var tid :| tid in todo;
      todo := todo - {tid};
      points := MarkDependencies(depends[tid], tid, points);
    }
    StartPointsAre(depends, revdeps, scene, points);
  }

  method MarkDependencies(deps: set<Tid>, tid: Tid, points: Marks) returns (points': Marks)
    ensures points'.Keys == points.Keys + deps
    ensures forall t {:trigger points'[t]} :: t in points' ==>
              points'[t] == (if t in points then points[t] else {}) + if t in deps then {tid} else {}
  {
    points' := points;
    var todo := deps;
    while todo != {}
      invariant todo <= deps && points'.Keys == points.Keys + (deps - todo)
      invariant forall t {:trigger points'[t]} :: t in points' ==>
                  points'[t] == (if t in points then points[t] else {}) + if t in deps - todo then {tid} else {}
    {
      var dep :| dep in todo;
      todo := todo - {dep};
      if dep !in points' {
        points' := points'[dep := {}];
      }
      points' := points'[dep := points'[dep] + {tid}];
    }
  }

  /** The dependency `m` becomes a point of the next round: an ordinary task that waits
      for nobody any more or holds a mark. */
  predicate Enters(scene: set<Tid>, waiting: set<Tid>, held: set<Tid>, m: Tid) {
    m !in scene && (waiting == {} || held != {})
  }

  // What handing `tasks` on to the dependencies `deps` of `point` does: the point is
  // struck from what they wait for, they hold the tasks too, and those that become
  // points are entered with what the point itself was entered with.

  ghost function LeftOut(left: Marks, deps: set<Tid>, point: Tid): Marks {
    map m | m in left :: if m in deps then left[m] - {point} else left[m]
  }

  ghost function AccOut(acc: Marks, deps: set<Tid>, tasks: set<Tid>): Marks {
    map m | m in acc :: if m in deps then acc[m] + tasks else acc[m]
  }

  ghost function NextOut(next: Marks, deps: set<Tid>, scene: set<Tid>, left: Marks, acc: Marks,
                         carried: set<Tid>): Marks
    requires deps <= left.Keys && deps <= acc.Keys
  {
    map m | m in next.Keys + deps && (m in next || Enters(scene, left[m], acc[m], m)) ::
      if m in deps && Enters(scene, left[m], acc[m], m) then carried else next[m]
  }

  lemma LeftOutMore(left: Marks, deps: set<Tid>, point: Tid, dep: Tid)
    requires dep in left && dep !in deps
    ensures LeftOut(left, deps + {dep}, point) == LeftOut(left, deps, point)[dep := left[dep] - {point}]
    ensures LeftOut(left, deps, point)[dep] == left[dep]
    ensures point !in left[dep] ==> LeftOut(left, deps, point)[dep := left[dep] - {point}] == LeftOut(left, deps, point)
  {
    if point !in left[dep] {
      assert left[dep] - {point} == left[dep];
    }
  }

  lemma AccOutMore(acc: Marks, deps: set<Tid>, tasks: set<Tid>, dep: Tid)
    requires dep in acc && dep !in deps
    ensures AccOut(acc, deps + {dep}, tasks) == AccOut(acc, deps, tasks)[dep := acc[dep] + tasks]
    ensures AccOut(acc, deps, tasks)[dep] == acc[dep]
    ensures tasks == {} ==> AccOut(acc, deps, tasks)[dep := acc[dep] + tasks] == AccOut(acc, deps, tasks)
  {
    if tasks == {} {
      assert acc[dep] + tasks == acc[dep];
    }
  }

  lemma NextOutMore(next: Marks, deps: set<Tid>, scene: set<Tid>, left: Marks, acc: Marks, left': Marks, acc': Marks,
                    carried: set<Tid>, dep: Tid)
    requires deps <= left.Keys && deps <= acc.Keys && dep in left' && dep in acc' && dep !in deps
    requires left'.Keys == left.Keys && acc'.Keys == acc.Keys
    requires forall m :: m in deps ==> left'[m] == left[m] && acc'[m] == acc[m]
    ensures NextOut(next, deps + {dep}, scene, left', acc', carried)
            == if Enters(scene, left'[dep], acc'[dep], dep)
              then NextOut(next, deps, scene, left, acc, carried)[dep := carried]
               else NextOut(next, deps, scene, left, acc, carried)
  {
    hide Enters;
  }

  lemma NothingOut(left: Marks, acc: Marks, next: Marks, scene: set<Tid>, point: Tid, tasks: set<Tid>,
                   carried: set<Tid>)
    ensures LeftOut(left, {}, point) == left && AccOut(acc, {}, tasks) == acc
      && NextOut(next, {}, scene, left, acc, carried) == next
  {
  }

  method HandOn(deps: set<Tid>, scene: set<Tid>, point: Tid, tasks: set<Tid>, carried: set<Tid>, left: Marks,
                acc: Marks, next: Marks)
    returns (left': Marks, acc': Marks, next': Marks)
    requires left.Keys == acc.Keys && deps <= acc.Keys
    ensures left'.Keys == left.Keys && acc'.Keys == acc.Keys
    ensures left' == LeftOut(left, deps, point) && acc' == AccOut(acc, deps, tasks)
    ensures next' == NextOut(next, deps, scene, left', acc', carried)
  {
    hide LeftOut, AccOut, NextOut;
    left', acc', next' := left, acc, next;
    ghost var handed := {};
    NothingOut(left, acc, next, scene, point, tasks, carried);
    var todo := deps;
    while todo != {}
      invariant todo <= deps && handed == deps - todo
      invariant left'.Keys == left.Keys && acc'.Keys == acc.Keys
      invariant left' == LeftOut(left, handed, point) && acc' == AccOut(acc, handed, tasks)
      invariant next' == NextOut(next, handed, scene, left', acc', carried)
    {
      var dep :| dep in todo;
      ghost var l1, a1 := left', acc';
      LeftOutMore(left, handed, point, dep);
      AccOutMore(acc, handed, tasks, dep);
      todo := todo - {dep};
      if point in left'[dep] {
        left' := left'[dep := left'[dep] - {point}];
      }
      if tasks != {} {
        acc' := acc'[dep := acc'[dep] + tasks];
      }
      if (|left'[dep]| == 0 || |acc'[dep]| != 0) && dep !in scene {
        next' := next'[dep := carried];
      }
      NextOutMore(next, handed, scene, l1, a1, left', acc', carried, dep);
      handed := handed + {dep};
    }
    assert handed == deps;
  }

  lemma HandedFed(depends: Graph<Tid>, scene: set<Tid>, base: Marks, point: Tid, tasks: set<Tid>, m: Marks)
    requires Closed(depends) && point in depends && m.Keys == depends.Keys && AreFed(depends, scene, base, m)
    requires forall x :: x in tasks ==> point !in scene && Fed(depends, scene, base, x, point)
    ensures AreFed(depends, scene, base, AccOut(m, depends[point], tasks))
  {
    hide Fed;
    var out := AccOut(m, depends[point], tasks);
    forall n, x | n in out && x in out[n]
      ensures Fed(depends, scene, base, x, n)
    {
      if x !in m[n] {
        FedDependency(depends, scene, base, x, point, n);
      }
    }
  }

  lemma EnteredFed(depends: Graph<Tid>, scene: set<Tid>, late: bool, base: Marks, point: Tid, carried: set<Tid>,
                   next: Marks, left: Marks, acc: Marks)
    requires Closed(depends) && point in depends && left.Keys == acc.Keys == depends.Keys
    requires forall n :: n in next ==> n !in scene
    requires late ==>
      AreFed(depends, scene, base, next) && point !in scene
      && forall x :: x in carried ==> Fed(depends, scene, base, x, point)
    ensures var out := NextOut(next, depends[point], scene, left, acc, carried);
            (forall n :: n in out ==> n !in scene) && (late ==> AreFed(depends, scene, base, out))
  {
    hide Fed;
    var out := NextOut(next, depends[point], scene, left, acc, carried);
    if late {
      forall n, x | n in out && x in out[n]
        ensures Fed(depends, scene, base, x, n)
      {
        if n in depends[point] && x in carried {
          FedDependency(depends, scene, base, x, point, n);
        }
      }
    }
  }

  /** A point without a setscene variant hands everything on and keeps nothing. */
  lemma OrdinaryPoint(depends: Graph<Tid>, scene: set<Tid>, late: bool, base: Marks, acc: Marks, given: Marks,
                      todo: Marks, next: Marks, point: Tid, left': Marks, acc': Marks, next': Marks)
    requires Closed(depends) && Spread(depends, scene, late, base, acc, given, todo, next)
    requires point in todo && point in depends && point !in scene && point !in depends[point]
    requires left'.Keys == depends.Keys && acc'.Keys == depends.Keys && point in acc
    requires acc' == AccOut(acc[point := {}], depends[point], todo[point] + acc[point])
    requires next' == NextOut(next, depends[point], scene, left', acc', todo[point])
    ensures given.Keys == depends.Keys
    ensures Spread(depends, scene, late, base, acc', AccOut(given, depends[point], todo[point] + acc[point]),
                   todo - {point}, next')
  {
    hide Waits, PassedOn, AreFed, OrdinaryOk, SceneOk, PendingOk, Seeded, AccOut, NextOut, Fed;
    var tasks := todo[point] + acc[point];
    OutKeys(given, depends[point], tasks, next, scene, left', acc', todo[point], depends);
    MarksAt(depends, scene, base, acc, todo, point);
    HandedFed(depends, scene, base, point, tasks, acc[point := {}]);
    HandedFed(depends, scene, base, point, tasks, given);
    EnteredFed(depends, scene, late, base, point, todo[point], next, left', acc');
    FewerFed(depends, scene, base, todo, point);
    OrdinaryOkStep(depends, scene, acc, given, todo, point, tasks);
    SceneOkStep(depends, scene, acc, given, todo, point, tasks);
    PendingOkStep(scene, acc[point := {}], todo, next, point, depends[point], tasks, left', acc', todo[point], acc);
    SeededStep(base, given, depends[point], tasks);
  }

  lemma OutKeys(m: Marks, deps: set<Tid>, tasks: set<Tid>, next: Marks, scene: set<Tid>, left: Marks, acc: Marks,
                carried: set<Tid>, depends: Graph<Tid>)
    requires m.Keys == left.Keys == acc.Keys == depends.Keys && deps <= depends.Keys && next.Keys <= depends.Keys
    ensures AccOut(m, deps, tasks).Keys == depends.Keys
      && NextOut(next, deps, scene, left, acc, carried).Keys <= depends.Keys
  {
  }

  lemma MarksAt(depends: Graph<Tid>, scene: set<Tid>, base: Marks, acc: Marks, todo: Marks, point: Tid)
    requires AreFed(depends, scene, base, acc) && AreFed(depends, scene, base, todo) && point in acc && point in todo
    ensures forall x :: x in todo[point] + acc[point] ==> Fed(depends, scene, base, x, point)
    ensures AreFed(depends, scene, base, acc[point := {}])
      && AreFed(depends, scene, base, acc[point := todo[point] + acc[point]])
  {
    hide Fed;
  }

  lemma FewerFed(depends: Graph<Tid>, scene: set<Tid>, base: Marks, todo: Marks, point: Tid)
    requires AreFed(depends, scene, base, todo)
    ensures AreFed(depends, scene, base, todo - {point})
  {
    hide Fed;
  }

  lemma OrdinaryOkStep(depends: Graph<Tid>, scene: set<Tid>, acc: Marks, given: Marks, todo: Marks, point: Tid,
                       tasks: set<Tid>)
    requires Closed(depends) && acc.Keys == given.Keys == depends.Keys && OrdinaryOk(depends, scene, acc, given, todo)
    requires point in todo && point in depends && point !in scene && point !in depends[point]
      && tasks == todo[point] + acc[point]
    ensures OrdinaryOk(depends, scene, AccOut(acc[point := {}], depends[point], tasks),
                       AccOut(given, depends[point], tasks), todo - {point})
  {
  }

  lemma SceneOkStep(depends: Graph<Tid>, scene: set<Tid>, acc: Marks, given: Marks, todo: Marks, point: Tid,
                    tasks: set<Tid>)
    requires Closed(depends) && acc.Keys == given.Keys == depends.Keys && SceneOk(scene, acc, given, todo)
    requires point in depends && point !in scene
    ensures SceneOk(scene, AccOut(acc[point := {}], depends[point], tasks), AccOut(given, depends[point], tasks),
                    todo - {point})
  {
  }

  /** `held` is `acc` with what the point keeps. */
  lemma PendingOkStep(scene: set<Tid>, held: Marks, todo: Marks, next: Marks, point: Tid, deps: set<Tid>,
                      tasks: set<Tid>, left': Marks, acc': Marks, carried: set<Tid>, acc: Marks)
    requires PendingOk(scene, acc, todo, next) && held.Keys == acc.Keys && deps <= acc.Keys
    requires forall n :: n in acc && n != point ==> held[n] == acc[n]
    requires point in held && (point in scene || held[point] == {}) && point !in deps
    requires acc' == AccOut(held, deps, tasks) && left'.Keys == acc'.Keys == acc.Keys
    ensures PendingOk(scene, acc', todo - {point}, NextOut(next, deps, scene, left', acc', carried))
  {
  }

  lemma SeededStep(base: Marks, given: Marks, deps: set<Tid>, tasks: set<Tid>)
    requires Seeded(base, given)
    ensures AccOut(given, deps, tasks).Keys == given.Keys && Seeded(base, AccOut(given, deps, tasks))
  {
  }

  /** A setscene task keeps everything; its dependencies may become points all the same. */
  lemma ScenePoint(depends: Graph<Tid>, scene: set<Tid>, late: bool, base: Marks, acc: Marks, given: Marks, todo: Marks,
                   next: Marks, point: Tid, left': Marks, acc': Marks, next': Marks)
    requires Closed(depends) && Spread(depends, scene, late, base, acc, given, todo, next)
    requires point in todo && point in depends && point in scene && point !in depends[point]
    requires left'.Keys == depends.Keys && acc'.Keys == depends.Keys && point in acc
    requires acc' == AccOut(acc[point := todo[point] + acc[point]], depends[point], {})
    requires next' == NextOut(next, depends[point], scene, left', acc', todo[point])
    ensures Spread(depends, scene, late, base, acc', given, todo - {point}, next')
  {
    hide Waits, PassedOn, AreFed, OrdinaryOk, SceneOk, PendingOk, Seeded, AccOut, NextOut, Fed;
    var held := acc[point := todo[point] + acc[point]];
    OutKeys(held, depends[point], {}, next, scene, left', acc', todo[point], depends);
    MarksAt(depends, scene, base, acc, todo, point);
    HandedFed(depends, scene, base, point, {}, held);
    EnteredFed(depends, scene, late, base, point, todo[point], next, left', acc');
    FewerFed(depends, scene, base, todo, point);
    KeptMarks(held, depends[point]);
    KeptOk(depends, scene, acc, given, todo, point, held);
    PendingOkStep(scene, held, todo, next, point, depends[point], {}, left', acc', todo[point], acc);
  }

  lemma KeptMarks(m: Marks, deps: set<Tid>)
    ensures AccOut(m, deps, {}) == m
  {
    forall n | n in m
      ensures AccOut(m, deps, {})[n] == m[n]
    {
      assert m[n] + {} == m[n];
    }
  }

  lemma KeptOk(depends: Graph<Tid>, scene: set<Tid>, acc: Marks, given: Marks, todo: Marks, point: Tid, held: Marks)
    requires Closed(depends) && acc.Keys == given.Keys == depends.Keys && point in todo && point in depends
      && point in scene
    requires OrdinaryOk(depends, scene, acc, given, todo) && SceneOk(scene, acc, given, todo)
    requires held == acc[point := todo[point] + acc[point]]
    ensures OrdinaryOk(depends, scene, held, given, todo - {point}) && SceneOk(scene, held, given, todo - {point})
  {
  }

  // ---- what the first round enters its points with ----

  // `order` lists the starting points as they have been processed so far.

  /** Nobody that depends on `n` is left to process. */
  predicate Freed(revdeps: Graph<Tid>, order: seq<Tid>, n: Tid) {
    n in revdeps && forall q :: q in revdeps[n] ==> q in order
  }

  /** The ordinary task `n` holds a mark: an ordinary point with marks came after it. */
  predicate Holds(depends: Graph<Tid>, scene: set<Tid>, points: Marks, order: seq<Tid>, n: Tid)
    decreases |order|, 0
  {
    if order == [] then false
    else
      var front, p := order[..|order| - 1], order[|order| - 1];
      p != n && (Holds(depends, scene, points, front, n) || HandsOn(depends, scene, points, front, p, n))
  }

  /** `p`, processed after `order`, hands a mark on to `n`. */
  predicate HandsOn(depends: Graph<Tid>, scene: set<Tid>, points: Marks, order: seq<Tid>, p: Tid, n: Tid)
    decreases |order|, 1
  {
    p !in scene && p in depends && n in depends[p] && (At(points, p) != {} || Holds(depends, scene, points, order, p))
  }

  /** The point that entered the ordinary task `n` last, if any did. */
  function Entry(depends: Graph<Tid>, revdeps: Graph<Tid>, scene: set<Tid>, points: Marks, order: seq<Tid>,
                 n: Tid): Option<Tid>
  {
    if order == [] then None
    else
      var front, p := order[..|order| - 1], order[|order| - 1];
      if p in depends && n in depends[p] && n !in scene
        && (Freed(revdeps, order, n) || Holds(depends, scene, points, order, n)) then Some(p)
      else Entry(depends, revdeps, scene, points, front, n)
  }

  /** What the next round starts with: the marks of the points that entered its points. */
  ghost function Carried(depends: Graph<Tid>, revdeps: Graph<Tid>, scene: set<Tid>, points: Marks,
                         order: seq<Tid>): Marks
  {
    map n | n in depends && Entry(depends, revdeps, scene, points, order, n).Some? ::
      At(points, Entry(depends, revdeps, scene, points, order, n).value)
  }

  /** The state of the first round after the points in `order`. */
  ghost predicate Tracked(depends: Graph<Tid>, revdeps: Graph<Tid>, scene: set<Tid>, points: Marks, order: seq<Tid>,
                          left: Marks, acc: Marks, next: Marks)
  {
    && left.Keys == acc.Keys == depends.Keys
    && (forall n {:trigger left[n]} :: n in depends ==> n in revdeps && forall q :: q in left[n] <==>
        q in revdeps[n] && q !in order)
    && (forall n {:trigger acc[n]} :: n in depends && n !in scene ==>
        (acc[n] != {} <==> Holds(depends, scene, points, order, n)))
    && next == Carried(depends, revdeps, scene, points, order)
  }

  lemma TrackedStart(depends: Graph<Tid>, revdeps: Graph<Tid>, scene: set<Tid>, points: Marks, acc: Marks)
    requires Inverse(depends, revdeps) && acc.Keys == depends.Keys && forall n :: n in acc ==> acc[n] == {}
    ensures Tracked(depends, revdeps, scene, points, [], revdeps, acc, map[])
  {
  }

  lemma TrackedStep(depends: Graph<Tid>, revdeps: Graph<Tid>, scene: set<Tid>, points: Marks, order: seq<Tid>,
                    left: Marks, acc: Marks, next: Marks, p: Tid, left': Marks, acc': Marks, next': Marks)
    requires Inverse(depends, revdeps) && Tracked(depends, revdeps, scene, points, order, left, acc, next)
    requires p in points && p in depends && p !in depends[p]
    requires left' == LeftOut(left, depends[p], p) && left'.Keys == acc'.Keys == depends.Keys
    requires acc' == AccOut(acc[p := if p in scene then points[p] + acc[p] else {}], depends[p],
                            if p in scene then {} else points[p] + acc[p])
    requires next' == NextOut(next, depends[p], scene, left', acc', points[p])
    ensures Tracked(depends, revdeps, scene, points, order + [p], left', acc', next')
  {
    hide Carried;
    var more := order + [p];
    assert more[..|order|] == order;
    forall n | n in depends
      ensures forall q :: q in left'[n] <==> q in revdeps[n] && q !in more
    {
      assert n in depends[p] <==> p in revdeps[n];
    }
    forall n | n in depends && n !in scene
      ensures acc'[n] != {} <==> Holds(depends, scene, points, more, n)
    {
      HoldsStep(depends, scene, points, order, acc, p, acc', n);
    }
    CarriedStep(depends, revdeps, scene, points, order, left', acc', next, p);
  }

  lemma HoldsStep(depends: Graph<Tid>, scene: set<Tid>, points: Marks, order: seq<Tid>, acc: Marks, p: Tid, acc': Marks,
                  n: Tid)
    requires acc.Keys == depends.Keys && p in points && p in depends && p !in depends[p] && n in depends && n !in scene
    requires forall m :: m in depends && m !in scene ==> (acc[m] != {} <==> Holds(depends, scene, points, order, m))
    requires acc' == AccOut(acc[p := if p in scene then points[p] + acc[p] else {}], depends[p],
                            if p in scene then {} else points[p] + acc[p])
    ensures acc'[n] != {} <==> Holds(depends, scene, points, order + [p], n)
  {
    assert (order + [p])[..|order|] == order;
    if n != p {
      var tasks := if p in scene then {} else points[p] + acc[p];
      assert acc'[n] == if n in depends[p] then acc[n] + tasks else acc[n];
      assert tasks != {} <==> p !in scene && (points[p] != {} || Holds(depends, scene, points, order, p));
    }
  }

  lemma CarriedStep(depends: Graph<Tid>, revdeps: Graph<Tid>, scene: set<Tid>, points: Marks, order: seq<Tid>,
                    left': Marks, acc': Marks, next: Marks, p: Tid)
    requires p in points && p in depends && depends[p] <= depends.Keys && left'.Keys == acc'.Keys == depends.Keys
    requires forall n :: n in depends ==> n in revdeps && forall q :: q in left'[n] <==>
      q in revdeps[n] && q !in order + [p]
    requires forall n :: n in depends && n !in scene ==>
      (acc'[n] != {} <==> Holds(depends, scene, points, order + [p], n))
    requires next == Carried(depends, revdeps, scene, points, order)
    ensures NextOut(next, depends[p], scene, left', acc', points[p])
      == Carried(depends, revdeps, scene, points, order + [p])
  {
    var out, more := NextOut(next, depends[p], scene, left', acc', points[p]), order + [p];
    assert more[..|order|] == order;
    forall n
      ensures n in out <==> n in Carried(depends, revdeps, scene, points, more)
      ensures n in out ==> out[n] == Carried(depends, revdeps, scene, points, more)[n]
    {
      if n in depends[p] && n !in scene {
        assert left'[n] == {} <==> Freed(revdeps, more, n);
      }
    }
  }

  // ---- the rounds ----

  /** One point: what it was entered with and what it holds goes to its dependencies,
      unless it is a setscene task, which keeps it. */
  method ProcessPoint(depends: Graph<Tid>, scene: set<Tid>, point: Tid, task: set<Tid>, left: Marks, acc: Marks,
                      next: Marks, ghost late: bool, ghost base: Marks, ghost given: Marks, ghost todo: Marks)
    returns (left': Marks, acc': Marks, next': Marks, ghost given': Marks)
    requires Closed(depends) && Spread(depends, scene, late, base, acc, given, todo, next) && left.Keys == depends.Keys
    requires point in todo && todo[point] == task && point in depends && point !in depends[point]
    ensures Spread(depends, scene, late, base, acc', given', todo - {point}, next')
      && left'.Keys == acc'.Keys == depends.Keys
    ensures next'.Keys <= next.Keys + depends[point] && point in acc
    ensures left' == LeftOut(left, depends[point], point)
    ensures acc' == AccOut(acc[point := if point in scene then task + acc[point] else {}], depends[point],
                           if point in scene then {} else task + acc[point])
    ensures next' == NextOut(next, depends[point], scene, left', acc', task)
  {
    hide OrdinaryOk, SceneOk, PendingOk, Seeded, AreFed, LeftOut, AccOut;
    var tasks := task;
    if acc[point] != {} {
      tasks := tasks + acc[point];
    }
    assert tasks == task + acc[point];
    var mid := acc[point := {}];
    if point in scene {
      mid := mid[point := tasks];
      assert mid == acc[point := tasks];
      tasks := {};
    }
    left', acc', next' := HandOn(depends[point], scene, point, tasks, task, left, mid, next);
    if point in scene {
      ScenePoint(depends, scene, late, base, acc, given, todo, next, point, left', acc', next');
      given' := given;
    } else {
      OrdinaryPoint(depends, scene, late, base, acc, given, todo, next, point, left', acc', next');
      given' := AccOut(given, depends[point], tasks);
    }
  }

  ghost predicate Listed(points: Marks, todo: Marks, order: seq<Tid>) {
    Distinct(order) && forall t :: t in order <==> t in points && t !in todo
  }

  lemma ListOneMore(points: Marks, todo: Marks, order: seq<Tid>, t: Tid)
    requires Listed(points, todo, order) && t in todo && t in points
    ensures Listed(points, todo - {t}, order + [t])
  {
  }

  /** A round over all points; `order` lists them as they were processed. The first round
      is followed exactly. */
  method ProcessRound(depends: Graph<Tid>, ghost revdeps: Graph<Tid>, scene: set<Tid>, left: Marks, acc: Marks,
                      points: Marks, ghost late: bool, ghost base: Marks, ghost given: Marks, ghost rank: map<Tid, nat>,
                      ghost bound: nat)
    returns (left': Marks, acc': Marks, next: Marks, ghost given': Marks, ghost order: seq<Tid>)
    requires Closed(depends) && Ranked(depends, rank) && left.Keys == depends.Keys
    requires Spread(depends, scene, late, base, acc, given, points, map[])
    requires points.Keys <= depends.Keys && forall n :: n in points ==> rank[n] < bound
    requires !late ==> Inverse(depends, revdeps) && Tracked(depends, revdeps, scene, points, [], left, acc, map[])
    ensures left'.Keys == depends.Keys && next.Keys <= depends.Keys && forall n :: n in next ==> rank[n] + 1 < bound
    ensures Spread(depends, scene, late, base, acc', given', map[], next)
    ensures Listed(points, map[], order)
    ensures !late ==> Tracked(depends, revdeps, scene, points, order, left', acc', next)
  {
    hide Spread, Tracked, Listed, Ranked, Closed, Inverse, LeftOut, AccOut, NextOut;
    left', acc', given', next, order := left, acc, given, map[], [];
    NothingListed(points);
    RankedTasks(depends, rank);
    var todo := points;
    while todo.Keys != {}
      invariant todo.Keys <= points.Keys && forall n :: n in todo ==> todo[n] == points[n]
      invariant left'.Keys == depends.Keys && next.Keys <= depends.Keys
      invariant Spread(depends, scene, late, base, acc', given', todo, next) && Listed(points, todo, order)
      invariant forall n :: n in next ==> rank[n] + 1 < bound
      invariant !late ==> Tracked(depends, revdeps, scene, points, order, left', acc', next)
      decreases todo.Keys
    {
      var point :| point in todo.Keys;
      RanksBelow(depends, rank, point, bound);
      ListOneMore(points, todo, order, point);
      ghost var l, a, n := left', acc', next;
      left', acc', next, given' := ProcessPoint(depends, scene, point, todo[point], left', acc', next, late, base,
                                                given', todo);
      if !late {
        TrackedStep(depends, revdeps, scene, points, order, l, a, n, point, left', acc', next);
      }
      todo, order := todo - {point}, order + [point];
    }
    assert todo == map[];
  }

  lemma NothingListed(points: Marks)
    ensures Listed(points, points, [])
  {
  }

  /** The rounds. Once the first is over, what its setscene points entered counts as given
      too, and the later rounds only pass on what there is. On an acyclic graph the ranks
      of the points keep falling. */
  method ProcessEndpoints(depends: Graph<Tid>, ghost revdeps: Graph<Tid>, scene: set<Tid>, left: Marks, acc: Marks,
                          points: Marks, ghost late: bool, ghost base: Marks, ghost given: Marks,
                          ghost rank: map<Tid, nat>, ghost bound: nat)
    returns (left': Marks, acc': Marks, ghost base': Marks, ghost given': Marks, ghost order: seq<Tid>)
    requires Closed(depends) && Ranked(depends, rank) && left.Keys == depends.Keys
    requires Spread(depends, scene, late, base, acc, given, points, map[])
    requires points.Keys <= depends.Keys && forall n :: n in points ==> rank[n] < bound
    requires !late ==> Inverse(depends, revdeps) && Tracked(depends, revdeps, scene, points, [], left, acc, map[])
    ensures Spread(depends, scene, true, base', acc', given', map[], map[]) && Listed(points, map[], order)
    ensures base' == if late then base else Join(depends, base, Carried(depends, revdeps, scene, points, order))
    ensures acc'.Keys == depends.Keys && forall n :: n in acc' && n !in scene ==> acc'[n] == {}
    decreases bound
  {
    hide Spread, Tracked, Listed, Ranked, Closed, Inverse, Join, Carried;
    var next;
    left', acc', next, given', order :=
      ProcessRound(depends, revdeps, scene, left, acc, points, late, base, given, rank, bound);
    base' := base;
    RankedTasks(depends, rank);
    if !late {
      base' := Join(depends, base, next);
      TrackedNext(depends, revdeps, scene, points, order, left', acc', next);
      FirstRoundOver(depends, scene, base, acc', given', next);
      given' := Join(depends, given', next);
    } else {
      NextRound(depends, scene, base, acc', given', next);
    }
    if next.Keys == {} {
      assert next == map[];
      SpreadFacts(depends, scene, base', acc', given');
    } else {
      ghost var n :| n in next.Keys;
      ghost var same, later;
      left', acc', same, given', later :=
        ProcessEndpoints(depends, revdeps, scene, left', acc', next, true, base', given', rank, bound - 1);
    }
  }

  lemma TrackedNext(depends: Graph<Tid>, revdeps: Graph<Tid>, scene: set<Tid>, points: Marks, order: seq<Tid>,
                    left: Marks, acc: Marks, next: Marks)
    requires Tracked(depends, revdeps, scene, points, order, left, acc, next)
    ensures next == Carried(depends, revdeps, scene, points, order)
  {
  }

  lemma SpreadFacts(depends: Graph<Tid>, scene: set<Tid>, base: Marks, acc: Marks, given: Marks)
    requires Closed(depends) && Spread(depends, scene, true, base, acc, given, map[], map[])
    ensures acc.Keys == depends.Keys && forall n :: n in acc && n !in scene ==> acc[n] == {}
  {
  }

  lemma NextRound(depends: Graph<Tid>, scene: set<Tid>, base: Marks, acc: Marks, given: Marks, next: Marks)
    requires Closed(depends) && Spread(depends, scene, true, base, acc, given, map[], next)
    ensures Spread(depends, scene, true, base, acc, given, next, map[])
  {
  }

  /** What the next round starts with is added to where the marks come from. */
  lemma FirstRoundOver(depends: Graph<Tid>, scene: set<Tid>, base: Marks, acc: Marks, given: Marks, next: Marks)
    requires Closed(depends) && Spread(depends, scene, false, base, acc, given, map[], next)
    ensures Spread(depends, scene, true, Join(depends, base, next), acc, Join(depends, given, next), next, map[])
  {
    hide Closed, OrdinaryOk, SceneOk, PendingOk, Seeded, AreFed, Join;
    JoinFacts(depends, base, next);
    JoinFacts(depends, given, next);
    FedByMore(depends, scene, base, next, acc);
    GivenFed(depends, scene, base, next, given);
    NextFed(depends, scene, base, next);
    NothingFed(depends, scene, Join(depends, base, next));
    JoinOk(depends, scene, acc, given, next);
    JoinSeeded(depends, base, given, next);
    JoinPending(scene, acc, next);
  }

  lemma NothingFed(depends: Graph<Tid>, scene: set<Tid>, base: Marks)
    ensures AreFed(depends, scene, base, map[])
  {
  }

  lemma JoinFacts(depends: Graph<Tid>, a: Marks, b: Marks)
    ensures Join(depends, a, b).Keys == depends.Keys
  {
  }

  /** Each task of the next round is fed by itself. */
  lemma NextFed(depends: Graph<Tid>, scene: set<Tid>, base: Marks, next: Marks)
    requires next.Keys <= depends.Keys
    ensures AreFed(depends, scene, Join(depends, base, next), next)
  {
    forall n, x | n in next && x in next[n]
      ensures Fed(depends, scene, Join(depends, base, next), x, n)
    {
      ReachRefl(Between(depends, scene), n);
      assert x in Join(depends, base, next)[n];
    }
  }

  lemma GivenFed(depends: Graph<Tid>, scene: set<Tid>, base: Marks, next: Marks, given: Marks)
    requires AreFed(depends, scene, base, given) && base.Keys <= depends.Keys && given.Keys == depends.Keys
      && next.Keys <= depends.Keys
    ensures AreFed(depends, scene, Join(depends, base, next), Join(depends, given, next))
  {
    hide Fed;
    FedByMore(depends, scene, base, next, given);
    NextFed(depends, scene, base, next);
    forall n, x | n in depends && x in Join(depends, given, next)[n]
      ensures Fed(depends, scene, Join(depends, base, next), x, n)
    {
    }
  }

  lemma JoinSeeded(depends: Graph<Tid>, base: Marks, given: Marks, next: Marks)
    requires Seeded(base, given) && given.Keys == depends.Keys
    ensures Seeded(Join(depends, base, next), Join(depends, given, next))
  {
  }

  lemma JoinPending(scene: set<Tid>, acc: Marks, next: Marks)
    requires PendingOk(scene, acc, map[], next)
    ensures PendingOk(scene, acc, next, map[])
  {
  }

  lemma FedByMore(depends: Graph<Tid>, scene: set<Tid>, base: Marks, next: Marks, m: Marks)
    requires AreFed(depends, scene, base, m) && base.Keys <= depends.Keys
    ensures AreFed(depends, scene, Join(depends, base, next), m)
  {
    forall n, x | n in m && x in m[n]
      ensures Fed(depends, scene, Join(depends, base, next), x, n)
    {
      var b :| b in base && x in base[b] && Reach(Between(depends, scene), b, n);
      assert x in Join(depends, base, next)[b];
    }
  }

  lemma JoinOk(depends: Graph<Tid>, scene: set<Tid>, acc: Marks, given: Marks, next: Marks)
    requires Closed(depends) && acc.Keys == given.Keys == depends.Keys && forall n :: n in next ==> n !in scene
    requires OrdinaryOk(depends, scene, acc, given, map[]) && SceneOk(scene, acc, given, map[])
    ensures OrdinaryOk(depends, scene, acc, Join(depends, given, next), next)
      && SceneOk(scene, acc, Join(depends, given, next), next)
  {
    var all := Join(depends, given, next);
    forall n, x | n in all && n !in scene && x in all[n]
      ensures x in acc[n] || Waits(next, n, x) || PassedOn(depends, all, n, x)
    {
      if !Waits(next, n, x) {
        assert x in given[n];
        if x !in acc[n] {
          assert PassedOn(depends, given, n, x);
        }
      }
    }
  }

  // ---- what the rounds leave behind ----

  /** With no points left, a mark has been passed on or has come to rest. */
  lemma Settled(depends: Graph<Tid>, scene: set<Tid>, base: Marks, acc: Marks, given: Marks, x: Tid, n: Tid)
    requires Closed(depends) && Spread(depends, scene, true, base, acc, given, map[], map[])
    requires n in depends && n in given && x in given[n]
    ensures acc.Keys == given.Keys == depends.Keys
    ensures if n in scene then x in acc[n] else forall m :: m in depends[n] ==> x in given[m]
  {
    assert !Waits(map[], n, x);
    if n !in scene {
      assert acc[n] == {};
      assert PassedOn(depends, given, n, x);
    }
  }

  lemma {:induction false} MarksTravel(depends: Graph<Tid>, scene: set<Tid>, base: Marks, acc: Marks, given: Marks,
                                       x: Tid, n: Tid, s: Tid, k: nat)
    requires Closed(depends) && Spread(depends, scene, true, base, acc, given, map[], map[])
    requires n in depends && n in given && x in given[n] && Steps(Between(depends, scene), n, s, k)
    ensures s in depends && s in given && x in given[s]
    decreases k
  {
    hide Spread;
    if k == 0 {
    } else {
      Settled(depends, scene, base, acc, given, x, n);
      var m :| m in Between(depends, scene)[n] && Steps(Between(depends, scene), m, s, k - 1);
      MarksTravel(depends, scene, base, acc, given, x, m, s, k - 1);
    }
  }

  /** When the rounds are over, a setscene task holds exactly what it is fed. */
  lemma SpreadDone(depends: Graph<Tid>, scene: set<Tid>, base: Marks, acc: Marks, given: Marks)
    requires Closed(depends) && Spread(depends, scene, true, base, acc, given, map[], map[])
    ensures acc.Keys == depends.Keys
    ensures forall s, x :: s in scene && s in acc ==> (x in acc[s] <==> Fed(depends, scene, base, x, s))
  {
    forall s, x | s in scene && s in acc && Fed(depends, scene, base, x, s)
      ensures x in acc[s]
    {
      var m :| m in base && x in base[m] && Reach(Between(depends, scene), m, s);
      var k: nat :| Steps(Between(depends, scene), m, s, k);
      MarksTravel(depends, scene, base, acc, given, x, m, s, k);
      Settled(depends, scene, base, acc, given, x, s);
    }
  }

  lemma SpreadStart(depends: Graph<Tid>, scene: set<Tid>, points: Marks, acc: Marks)
    requires Closed(depends) && scene <= depends.Keys && points.Keys <= depends.Keys
    requires acc.Keys == depends.Keys && forall n :: n in acc ==> acc[n] == {}
    ensures Spread(depends, scene, false, points, acc, Join(depends, points, map[]), points, map[])
  {
    var given := Join(depends, points, map[]);
    forall n, x | n in points && x in points[n]
      ensures Fed(depends, scene, points, x, n)
    {
      ReachRefl(Between(depends, scene), n);
    }
    forall n, x | n in given && x in given[n]
      ensures Waits(points, n, x)
    {
    }
  }

  datatype Squash = Squashed(revdeps: Marks) | BadlyWrong

  /** The last loop over the tasks: setscene tasks keep their sets, and an ordinary task
      that still holds one is a fatal error. */
  method SquashAll(depends: Graph<Tid>, scene: set<Tid>, acc: Marks) returns (r: Squash)
    requires acc.Keys == depends.Keys && scene <= depends.Keys
    ensures r.BadlyWrong? <==> exists t :: t in depends && t !in scene && acc[t] != {}
    ensures r.Squashed? ==> r.revdeps.Keys == scene && forall s :: s in scene ==> r.revdeps[s] == acc[s]
  {
    var squash: Marks := map[];
    var todo := depends.Keys;
    while todo != {}
      invariant todo <= depends.Keys && squash.Keys == scene - todo
      invariant forall t :: t in depends && t !in todo && t !in scene ==> acc[t] == {}
      invariant forall s :: s in squash ==> squash[s] == acc[s]
    {
      var tid :| tid in todo;
      todo := todo - {tid};
      if tid in scene {
        squash := squash[tid := acc[tid]];
      } else if |acc[tid]| != 0 {
        return BadlyWrong;
      }
    }
    return Squashed(squash);
  }

  /** The setscene task `s` gets `x` when the starting points are processed in this order:
      `x` is a direct ancestor, or depends itself on a setscene task `y` that was the last
      to enter an ordinary dependency from which `s` is reached. */
  ghost predicate Kept(depends: Graph<Tid>, revdeps: Graph<Tid>, scene: set<Tid>, order: seq<Tid>, x: Tid, s: Tid) {
    || DirectAncestor(depends, scene, x, s)
    || exists n :: EnteredWith(depends, revdeps, scene, order, x, n) && Reach(Between(depends, scene), n, s)
  }

  ghost predicate EnteredWith(depends: Graph<Tid>, revdeps: Graph<Tid>, scene: set<Tid>, order: seq<Tid>, x: Tid,
                              n: Tid)
  {
    n in depends && match Entry(depends, revdeps, scene, StartMarks(depends, revdeps, scene), order, n)
                    case Some(y) => y in scene && x in ScenesAbove(depends, scene, y)
                    case None => false
  }

  /** The starting points, each once. */
  ghost predicate IsOrder(depends: Graph<Tid>, revdeps: Graph<Tid>, scene: set<Tid>, order: seq<Tid>) {
    Listed(StartMarks(depends, revdeps, scene), map[], order)
  }

  /** The collapse of an acyclic queue: the fatal error cannot happen, and the order of the
      starting points determines the result. */
  method Collapse(depends: Graph<Tid>, revdeps: Graph<Tid>, scene: set<Tid>) returns (r: Squash, ghost order: seq<Tid>)
    requires Inverse(depends, revdeps) && Acyclic(depends) && scene <= depends.Keys
    ensures r.Squashed? && r.revdeps.Keys == scene && IsOrder(depends, revdeps, scene, order)
    ensures forall s, x :: s in scene ==> (x in r.revdeps[s] <==> Kept(depends, revdeps, scene, order, x, s))
  {
    hide Spread, Acyclic, Inverse, Tracked, Listed, StartMarks, Fed, Kept, Join, Carried;
    InverseFacts(depends, revdeps);
    var acc: Marks := map t | t in depends :: {};
    var points := CollectEndpoints(depends, revdeps, scene);
    PointsExist(depends, revdeps, scene);
    SpreadStart(depends, scene, points, acc);
    TrackedStart(depends, revdeps, scene, points, acc);
    ghost var rank := RankingExists(depends);
    ghost var bound := RankBound(depends, rank);
    ghost var base, given;
    var left;
    left, acc, base, given, order :=
      ProcessEndpoints(depends, revdeps, scene, revdeps, acc, points, false, points, Join(depends, points, map[]),
                       rank, bound);
    SpreadDone(depends, scene, base, acc, given);
    r := SquashAll(depends, scene, acc);
    forall s, x | s in scene
      ensures x in r.revdeps[s] <==> Kept(depends, revdeps, scene, order, x, s)
    {
      FedIsKept(depends, revdeps, scene, order, x, s);
    }
  }

  ghost function FirstBase(depends: Graph<Tid>, revdeps: Graph<Tid>, scene: set<Tid>, order: seq<Tid>): Marks {
    Join(depends, StartMarks(depends, revdeps, scene),
         Carried(depends, revdeps, scene, StartMarks(depends, revdeps, scene), order))
  }

  lemma FedIsKept(depends: Graph<Tid>, revdeps: Graph<Tid>, scene: set<Tid>, order: seq<Tid>, x: Tid, s: Tid)
    requires Closed(depends) && IsOrder(depends, revdeps, scene, order)
    ensures Fed(depends, scene, FirstBase(depends, revdeps, scene, order), x, s)
      <==> Kept(depends, revdeps, scene, order, x, s)
  {
    hide IsOrder, Closed, StartMarks, Carried, EnteredWith, ScenesAbove, FirstBase, Between;
    var base := FirstBase(depends, revdeps, scene, order);
    if m :| m in base && x in base[m] && Reach(Between(depends, scene), m, s) {
      FedThrough(depends, revdeps, scene, order, x, m, s);
    }
    if DirectAncestor(depends, scene, x, s) {
      var d :| d in depends[x] && Reach(Between(depends, scene), d, s);
      DirectFed(depends, revdeps, scene, order, x, d);
    }
    if n :| EnteredWith(depends, revdeps, scene, order, x, n) && Reach(Between(depends, scene), n, s) {
      EnteredFedBy(depends, revdeps, scene, order, x, n);
    }
  }

  lemma FedThrough(depends: Graph<Tid>, revdeps: Graph<Tid>, scene: set<Tid>, order: seq<Tid>, x: Tid, m: Tid, s: Tid)
    requires Closed(depends) && IsOrder(depends, revdeps, scene, order)
    requires var base := FirstBase(depends, revdeps, scene, order); m in base && x in base[m]
    requires Reach(Between(depends, scene), m, s)
    ensures DirectAncestor(depends, scene, x, s) || EnteredWith(depends, revdeps, scene, order, x, m)
  {
    hide IsOrder;
    var points := StartMarks(depends, revdeps, scene);
    if x !in At(points, m) {
      EntryIs(depends, revdeps, scene, order, m);
      var y := Entry(depends, revdeps, scene, points, order, m).value;
      if y !in scene {
        ReachEdge(Between(depends, scene), y, m);
        ReachTrans(Between(depends, scene), y, m, s);
        assert x in points[y];
      }
    }
  }

  lemma DirectFed(depends: Graph<Tid>, revdeps: Graph<Tid>, scene: set<Tid>, order: seq<Tid>, x: Tid, d: Tid)
    requires Closed(depends) && x in scene && x in depends && d in depends[x]
    ensures var base := FirstBase(depends, revdeps, scene, order); d in base && x in base[d]
  {
    hide Carried;
    assert x in ScenesAbove(depends, scene, d);
  }

  lemma EnteredFedBy(depends: Graph<Tid>, revdeps: Graph<Tid>, scene: set<Tid>, order: seq<Tid>, x: Tid, n: Tid)
    requires IsOrder(depends, revdeps, scene, order) && EnteredWith(depends, revdeps, scene, order, x, n)
    ensures var base := FirstBase(depends, revdeps, scene, order); n in base && x in base[n]
  {
    hide IsOrder;
    EntryIs(depends, revdeps, scene, order, n);
  }

  /** The point that entered a task is a starting point and depends on it. */
  lemma EntryIs(depends: Graph<Tid>, revdeps: Graph<Tid>, scene: set<Tid>, order: seq<Tid>, n: Tid)
    requires IsOrder(depends, revdeps, scene, order)
    ensures var points := StartMarks(depends, revdeps, scene);
            match Entry(depends, revdeps, scene, points, order, n)
            case Some(y) => y in points && y in depends && n in depends[y] && n !in scene
            case None => true
  {
    hide StartMarks;
    EntryListed(depends, revdeps, scene, StartMarks(depends, revdeps, scene), order, n);
  }

  lemma {:induction false} EntryListed(depends: Graph<Tid>, revdeps: Graph<Tid>, scene: set<Tid>, points: Marks,
                                       order: seq<Tid>, n: Tid)
    ensures match Entry(depends, revdeps, scene, points, order, n)
            case Some(y) => y in order && y in depends && n in depends[y] && n !in scene
            case None => true
  {
    if order == [] {
    } else {
      EntryListed(depends, revdeps, scene, points, order[..|order| - 1], n);
    }
  }

  /** What is kept is a near ancestor. */
  lemma KeptIsNear(depends: Graph<Tid>, revdeps: Graph<Tid>, scene: set<Tid>, order: seq<Tid>, x: Tid, s: Tid)
    requires IsOrder(depends, revdeps, scene, order) && Kept(depends, revdeps, scene, order, x, s)
    ensures NearAncestor(depends, scene, x, s)
  {
    hide StartMarks;
    if !DirectAncestor(depends, scene, x, s) {
      var n :| EnteredWith(depends, revdeps, scene, order, x, n) && Reach(Between(depends, scene), n, s);
      EntryIs(depends, revdeps, scene, order, n);
      var y := Entry(depends, revdeps, scene, StartMarks(depends, revdeps, scene), order, n).value;
      assert Under(depends, scene, y, s);
    }
  }

  lemma PointsExist(depends: Graph<Tid>, revdeps: Graph<Tid>, scene: set<Tid>)
    ensures StartMarks(depends, revdeps, scene).Keys <= depends.Keys
  {
  }

  lemma InverseFacts(depends: Graph<Tid>, revdeps: Graph<Tid>)
    requires Inverse(depends, revdeps)
    ensures revdeps.Keys == depends.Keys && Closed(depends)
  {
  }

  lemma RankBound(depends: Graph<Tid>, rank: map<Tid, nat>) returns (bound: nat)
    requires rank.Keys == depends.Keys
    ensures forall n :: n in depends ==> rank[n] < bound
  {
    bound := 0;
    var left := depends.Keys;
    while left != {}
      invariant left <= depends.Keys && forall n :: n in depends && n !in left ==> rank[n] < bound
      decreases |left|
    {
      var n :| n in left;
      left := left - {n};
      if rank[n] >= bound {
        bound := rank[n] + 1;
      }
    }
  }

  // ---- setscene tasks the build refers to directly ----

  /** Ordinary tasks nobody depends on. */
  ghost predicate OrdinaryRoot(depends: Graph<Tid>, revdeps: Graph<Tid>, scene: set<Tid>, t: Tid) {
    t in depends && t in revdeps && revdeps[t] == {} && t !in scene
  }

  /** Reached from an ordinary root without passing another setscene task. */
  ghost predicate FromRoot(depends: Graph<Tid>, revdeps: Graph<Tid>, scene: set<Tid>, t: Tid) {
    exists r :: OrdinaryRoot(depends, revdeps, scene, r) && Reach(Between(depends, scene), r, t)
  }

  /** Told by ways down from the roots whose tasks, but for the last, are ordinary. */
  lemma FromRootByPath(depends: Graph<Tid>, revdeps: Graph<Tid>, scene: set<Tid>, t: Tid)
    ensures FromRoot(depends, revdeps, scene, t) <==>
      exists r ::
        r in depends && r in revdeps && revdeps[r] == {} && r !in scene
        && (r == t || exists path :: OrdinaryPath(depends, scene, r, path) && path[|path| - 1] == t)
  {
    hide Reach;
    if r :| OrdinaryRoot(depends, revdeps, scene, r) && Reach(Between(depends, scene), r, t) {
      if r != t {
        var d := ReachFirst(Between(depends, scene), r, t);
        ReachedByPath(depends, scene, r, d, t);
      }
    }
    if r :| r in depends && r in revdeps && revdeps[r] == {} && r !in scene
            && (r == t || exists path :: OrdinaryPath(depends, scene, r, path) && path[|path| - 1] == t) {
      assert OrdinaryRoot(depends, revdeps, scene, r);
      if r == t {
        ReachRefl(Between(depends, scene), r);
      } else {
        var path :| OrdinaryPath(depends, scene, r, path) && path[|path| - 1] == t;
        PathReaches(depends, scene, r, path);
        ReachCons(Between(depends, scene), r, path[0], t);
      }
    }
  }

  lemma ReachedByPath(depends: Graph<Tid>, scene: set<Tid>, x: Tid, d: Tid, n: Tid)
    requires x in depends && d in depends[x] && Reach(Between(depends, scene), d, n)
    ensures exists path :: OrdinaryPath(depends, scene, x, path) && path[|path| - 1] == n
  {
    var k: nat :| Steps(Between(depends, scene), d, n, k);
    var path := PathOf(depends, scene, x, d, n, k);
  }

  /** Where the second sweep stands: `seen` are the points processed so far. */
  ghost predicate Sweep(depends: Graph<Tid>, revdeps: Graph<Tid>, scene: set<Tid>, acc: Marks, seen: set<Tid>,
                        todo: set<Tid>, next: set<Tid>)
  {
    && acc.Keys == depends.Keys && todo <= depends.Keys && next <= depends.Keys
    && (forall n {:trigger n in seen} {:trigger n in todo} {:trigger n in next} ::
        n in seen || n in todo || n in next ==>
          n !in scene && FromRoot(depends, revdeps, scene, n))
    && (forall s {:trigger acc[s]} :: s in scene && s in acc && acc[s] != {} ==> FromRoot(depends, revdeps, scene, s))
    && (forall n, m {:trigger n in seen, m in depends[n]} :: n in seen && n in depends && m in depends[n] ==>
        Covered(scene, acc, seen + todo + next, m))
    && (forall r {:trigger OrdinaryRoot(depends, revdeps, scene, r)} :: OrdinaryRoot(depends, revdeps, scene, r) ==>
        r in seen + todo + next)
  }

  /** `m` has been dealt with or is going to be. */
  ghost predicate Covered(scene: set<Tid>, acc: Marks, points: set<Tid>, m: Tid) {
    m in acc && if m in scene then acc[m] != {} else m in points
  }

  lemma FromRootStep(depends: Graph<Tid>, revdeps: Graph<Tid>, scene: set<Tid>, n: Tid, m: Tid)
    requires FromRoot(depends, revdeps, scene, n) && n in depends && n !in scene && m in depends[n]
    ensures FromRoot(depends, revdeps, scene, m)
  {
    var r :| OrdinaryRoot(depends, revdeps, scene, r) && Reach(Between(depends, scene), r, n);
    ReachSnoc(Between(depends, scene), r, n, m);
  }

  lemma SweepStep(depends: Graph<Tid>, revdeps: Graph<Tid>, scene: set<Tid>, acc: Marks, seen: set<Tid>, todo: set<Tid>,
                  next: set<Tid>, point: Tid, tasks: set<Tid>, acc': Marks, next': set<Tid>)
    requires Closed(depends) && Sweep(depends, revdeps, scene, acc, seen, todo, next)
    requires point in todo && point in depends && tasks != {} && point !in depends[point]
    requires acc' == AccOut(acc[point := {}], depends[point], tasks)
    requires next' == next + set m | m in depends[point] && m !in scene
    ensures Sweep(depends, revdeps, scene, acc', seen + {point}, todo - {point}, next')
  {
    var points, points' := seen + todo + next, (seen + {point}) + (todo - {point}) + next';
    assert point !in scene && FromRoot(depends, revdeps, scene, point);
    forall m | m in depends[point]
      ensures FromRoot(depends, revdeps, scene, m)
    {
      FromRootStep(depends, revdeps, scene, point, m);
    }
    forall n, m | n in seen + {point} && n in depends && m in depends[n]
      ensures Covered(scene, acc', points', m)
    {
      if n in seen {
        assert Covered(scene, acc, points, m);
      }
    }
  }

  lemma SweepDone(depends: Graph<Tid>, revdeps: Graph<Tid>, scene: set<Tid>, acc: Marks, seen: set<Tid>)
    requires Closed(depends) && Sweep(depends, revdeps, scene, acc, seen, {}, {})
    ensures forall s :: s in scene && s in depends ==> (acc[s] != {} <==> FromRoot(depends, revdeps, scene, s))
  {
    var g := Between(depends, scene);
    var reached := seen + set s | s in scene && s in acc && acc[s] != {};
    forall t | t in reached && t in g
      ensures g[t] <= reached
    {
      forall m | m in g[t]
        ensures m in reached
      {
        assert t in seen;
        assert Covered(scene, acc, seen + {} + {}, m);
      }
    }
    forall s | s in scene && s in depends && FromRoot(depends, revdeps, scene, s)
      ensures acc[s] != {}
    {
      var r :| OrdinaryRoot(depends, revdeps, scene, r) && Reach(g, r, s);
      assert r in seen + {} + {};
      ReachStaysInside(g, reached, r, s);
    }
  }

  /** One point of the second sweep: the point itself is handed on too. A point never is
      a setscene task here, so nothing is kept. */
  method ProcessPoint2(depends: Graph<Tid>, ghost revdeps: Graph<Tid>, scene: set<Tid>, point: Tid, task: set<Tid>,
                       left: Marks, acc: Marks, next: Marks, ghost seen: set<Tid>, ghost todo: set<Tid>)
    returns (left': Marks, acc': Marks, next': Marks)
    requires Closed(depends) && Sweep(depends, revdeps, scene, acc, seen, todo, next.Keys)
    requires left.Keys == acc.Keys == depends.Keys
    requires point in todo && point in depends && point !in depends[point]
    ensures Sweep(depends, revdeps, scene, acc', seen + {point}, todo - {point}, next'.Keys)
    ensures left'.Keys == acc'.Keys == depends.Keys
    ensures next'.Keys <= next.Keys + depends[point]
  {
    hide Sweep, AccOut, NextOut, LeftOut;
    SweepPoint(depends, revdeps, scene, acc, seen, todo, next.Keys, point);
    var tasks := {point} + task;
    if acc[point] != {} {
      tasks := tasks + acc[point];
    }
    var mid := acc[point := {}];
    if point in scene {
      mid := mid[point := tasks];
    }
    assert mid == acc[point := {}];
    left', acc', next' := HandOn(depends[point], scene, point, tasks, tasks, left, mid, next);
    assert point in tasks;
    EntersAll(next, depends[point], scene, left', acc', tasks, mid);
    SweepStep(depends, revdeps, scene, acc, seen, todo, next.Keys, point, tasks, acc', next'.Keys);
  }

  /** The second sweep, started at the ordinary roots; `points` carries the tasks each
      point was entered with. */
  method ProcessEndpoints2(depends: Graph<Tid>, ghost revdeps: Graph<Tid>, scene: set<Tid>, left: Marks, acc: Marks,
                           points: Marks, ghost seen: set<Tid>, ghost rank: map<Tid, nat>, ghost bound: nat)
    returns (acc': Marks, ghost seen': set<Tid>)
    requires Closed(depends) && Ranked(depends, rank) && left.Keys == depends.Keys
    requires Sweep(depends, revdeps, scene, acc, seen, points.Keys, {})
    requires points.Keys <= depends.Keys && forall n :: n in points ==> rank[n] < bound
    ensures Sweep(depends, revdeps, scene, acc', seen', {}, {}) && acc'.Keys == depends.Keys
    decreases bound
  {
    hide Sweep, Ranked, Closed;
    SweepFacts(depends, revdeps, scene, acc, seen, points.Keys, {});
    RankedTasks(depends, rank);
    acc', seen' := acc, seen;
    var left' := left;
    var todo := points;
    var next: Marks := map[];
    assert next.Keys == {};
    while todo.Keys != {}
      invariant todo.Keys <= points.Keys && forall n :: n in todo ==> todo[n] == points[n]
      invariant left'.Keys == depends.Keys == acc'.Keys && next.Keys <= depends.Keys
      invariant Sweep(depends, revdeps, scene, acc', seen', todo.Keys, next.Keys)
      invariant rank.Keys == depends.Keys && forall n :: n in next ==> rank[n] + 1 < bound
      decreases todo.Keys
    {
      var point :| point in todo.Keys;
      RanksBelow(depends, rank, point, bound);
      left', acc', next := ProcessPoint2(depends, revdeps, scene, point, todo[point], left', acc', next, seen',
                                         todo.Keys);
      seen' := seen' + {point};
      assert (todo - {point}).Keys == todo.Keys - {point};
      todo := todo - {point};
    }
    if next.Keys != {} {
      ghost var n :| n in next.Keys;
      NextSweep(depends, revdeps, scene, acc', seen', next.Keys);
      acc', seen' := ProcessEndpoints2(depends, revdeps, scene, left', acc', next, seen', rank, bound - 1);
    }
  }

  lemma RankedTasks(depends: Graph<Tid>, rank: map<Tid, nat>)
    requires Ranked(depends, rank)
    ensures rank.Keys == depends.Keys
  {
  }

  lemma RanksBelow(depends: Graph<Tid>, rank: map<Tid, nat>, point: Tid, bound: nat)
    requires Closed(depends) && Ranked(depends, rank) && point in depends && point in rank && rank[point] < bound
    ensures point !in depends[point]
    ensures forall n :: n in depends[point] ==> n in depends && n in rank && rank[n] + 1 < bound
  {
  }

  lemma SweepFacts(depends: Graph<Tid>, revdeps: Graph<Tid>, scene: set<Tid>, acc: Marks, seen: set<Tid>,
                   todo: set<Tid>, next: set<Tid>)
    requires Sweep(depends, revdeps, scene, acc, seen, todo, next)
    ensures acc.Keys == depends.Keys && next <= depends.Keys && todo <= depends.Keys
  {
  }

  lemma NextSweep(depends: Graph<Tid>, revdeps: Graph<Tid>, scene: set<Tid>, acc: Marks, seen: set<Tid>, next: set<Tid>)
    requires Sweep(depends, revdeps, scene, acc, seen, {}, next)
    ensures Sweep(depends, revdeps, scene, acc, seen, next, {})
  {
  }

  /** A point is an ordinary task, so nothing it holds is lost by clearing it. */
  lemma SweepPoint(depends: Graph<Tid>, revdeps: Graph<Tid>, scene: set<Tid>, acc: Marks, seen: set<Tid>,
                   todo: set<Tid>, next: set<Tid>, point: Tid)
    requires Sweep(depends, revdeps, scene, acc, seen, todo, next) && point in todo
    ensures point !in scene && point in depends && acc.Keys == depends.Keys && next <= depends.Keys
  {
  }

  /** Handing on a non-empty set makes every ordinary dependency a point. */
  lemma EntersAll(next: Marks, deps: set<Tid>, scene: set<Tid>, left: Marks, acc: Marks, tasks: set<Tid>, was: Marks)
    requires deps <= left.Keys && deps <= was.Keys && tasks != {} && acc == AccOut(was, deps, tasks)
    ensures NextOut(next, deps, scene, left, acc, tasks).Keys == next.Keys + set m | m in deps && m !in scene
  {
  }

  /** The unskippable setscene tasks are exactly those the build reaches without passing
      another setscene task. */
  method Unskippable(depends: Graph<Tid>, revdeps: Graph<Tid>, scene: set<Tid>) returns (unskippable: set<Tid>)
    requires Inverse(depends, revdeps) && Acyclic(depends) && scene <= depends.Keys
    ensures forall s :: s in unskippable <==> s in scene && FromRoot(depends, revdeps, scene, s)
  {
    hide Sweep, Acyclic, Inverse, FromRoot;
    InverseFacts(depends, revdeps);
    var acc: Marks := map t | t in depends :: {};
    var points: Marks := map t | t in depends && revdeps[t] == {} && t !in scene :: {};
    SweepStart(depends, revdeps, scene, acc, points);
    ghost var rank := RankingExists(depends);
    ghost var bound := RankBound(depends, rank);
    ghost var seen;
    acc, seen := ProcessEndpoints2(depends, revdeps, scene, revdeps, acc, points, {}, rank, bound);
    SweepDone(depends, revdeps, scene, acc, seen);
    unskippable := set s | s in scene && acc[s] != {};
  }

  lemma SweepStart(depends: Graph<Tid>, revdeps: Graph<Tid>, scene: set<Tid>, acc: Marks, points: Marks)
    requires revdeps.Keys == depends.Keys
    requires acc.Keys == depends.Keys && forall n :: n in acc ==> acc[n] == {}
    requires forall t :: t in points <==> t in depends && revdeps[t] == {} && t !in scene
    ensures Sweep(depends, revdeps, scene, acc, {}, points.Keys, {})
  {
    forall n | n in points
      ensures FromRoot(depends, revdeps, scene, n)
    {
      ReachRefl(Between(depends, scene), n);
      assert OrdinaryRoot(depends, revdeps, scene, n);
    }
  }
}
