/** Preparing the run queue: mark what the targets need, prune the rest, turn the
    dependencies round, refuse cycles, weigh the tasks and hash them in dependency
    order. Each stage relies on what the one before it established. */
module Preparation {
  import opened Graphs
  import opened Sequences
  import opened Tasks
  import RecursiveDeps
  import Signatures
  import TaskHashes
  import Weights

  // ---- step B: mark ----

  /** What marking from `t` found: reached from `t`, and closed up to what was marked. */
  ghost predicate MarkedFrom(depends: Graph<Tid>, t: Tid, found: set<Tid>, marked: set<Tid>) {
    && found <= depends.Keys
    && (forall x {:trigger x in found} :: x in found ==> depends[x] <= marked && Reach(depends, t, x))
  }

  /** Marks `tid` and, recursively, its dependencies. */
  method MarkActive(depends: Graph<Tid>, tid: Tid, build: set<Tid>) returns (build': set<Tid>, ghost found: set<Tid>)
    requires Closed(depends) && tid in depends && build <= depends.Keys
    ensures build' == build + found && tid in build' && build' <= depends.Keys
    ensures MarkedFrom(depends, tid, found, build')
    decreases |depends.Keys - build|, 0
  {
    found := {};
    if tid in build {
      return build, found;
    }
    build' := build + {tid};
    SmallerSet(depends.Keys - build', depends.Keys - build);
    ghost var below;
    build', below := MarkEach(depends, tid, depends[tid], build');
    ReachRefl(depends, tid);
    found := {tid} + below;
  }

  method MarkEach(depends: Graph<Tid>, ghost tid: Tid, tids: set<Tid>, build: set<Tid>)
    returns (build': set<Tid>, ghost found: set<Tid>)
    requires Closed(depends) && tid in depends && tids <= depends[tid] && build <= depends.Keys
    ensures build' == build + found && tids <= build' <= depends.Keys
    ensures MarkedFrom(depends, tid, found, build')
    decreases |depends.Keys - build|, 1
  {
    build', found := build, {};
    var todo := tids;
    while todo != {}
      invariant todo <= tids && build' == build + found && tids - todo <= build' <= depends.Keys
      invariant MarkedFrom(depends, tid, found, build')
    {
      var depend :| depend in todo;
      todo := todo - {depend};
      SubsetSize(depends.Keys - build', depends.Keys - build);
      ghost var below;
      build', below := MarkActive(depends, depend, build');
      forall x | x in below
        ensures Reach(depends, tid, x)
      {
        ReachCons(depends, tid, depend, x);
      }
      found := found + below;
    }
  }

  /** A build target: what was asked for, the task (with a trailing `-` when only its
      dependencies are wanted) and the recipe chosen for it. */
  datatype Target = Target(name: string, task: string, fn: string)

  /** The part of the task data that decides whether a target is dropped. */
  datatype Providers = Providers(buildTargets: map<string, seq<string>>, failedDeps: seq<string>,
                                 failedFns: seq<string>)

  predicate Wanted(p: Providers, t: Target) {
    t.name in p.buildTargets && p.buildTargets[t.name] != [] && t.name !in p.failedDeps && t.fn !in p.failedFns
  }

  predicate OnlyDeps(t: Target) {
    t.task != "" && t.task[|t.task| - 1] == '-'
  }

  function TargetTid(t: Target): Tid {
    Tid(t.fn, if OnlyDeps(t) then t.task[..|t.task| - 1] else t.task)
  }

  /** Where the marking for a target starts. */
  function Starts(depends: Graph<Tid>, t: Target): set<Tid>
    requires TargetTid(t) in depends
  {
    if OnlyDeps(t) then depends[TargetTid(t)] else {TargetTid(t)}
  }

  predicate TargetsExist(depends: Graph<Tid>, p: Providers, targets: seq<Target>) {
    forall k :: 0 <= k < |targets| && Wanted(p, targets[k]) ==> TargetTid(targets[k]) in depends
  }

  function Roots(depends: Graph<Tid>, p: Providers, targets: seq<Target>): set<Tid>
    requires TargetsExist(depends, p, targets)
  {
    set k, r | 0 <= k < |targets| && Wanted(p, targets[k]) && r in Starts(depends, targets[k]) :: r
  }

  /** Everything the targets need. */
  ghost function Needed(depends: Graph<Tid>, roots: set<Tid>): set<Tid> {
    set t | t in depends && ReachFrom(depends, roots, t)
  }

  ghost predicate ExactlyMarked(depends: Graph<Tid>, roots: set<Tid>, build: set<Tid>) {
    && roots <= build <= depends.Keys
    && (forall x {:trigger x in build} :: x in build ==> depends[x] <= build && ReachFrom(depends, roots, x))
  }

  lemma MarkedIsNeeded(depends: Graph<Tid>, roots: set<Tid>, build: set<Tid>)
    requires Closed(depends) && ExactlyMarked(depends, roots, build)
    ensures build == Needed(depends, roots)
  {
    ExactlyReached(depends, roots, build);
  }

  datatype Marking = Marked(build: set<Tid>, targetTids: seq<Tid>) | NoSuchTask(tid: Tid)

  lemma MoreRoots(depends: Graph<Tid>, p: Providers, targets: seq<Target>, k: nat)
    requires k < |targets| && TargetsExist(depends, p, targets[..k])
    requires Wanted(p, targets[k]) ==> TargetTid(targets[k]) in depends
    ensures TargetsExist(depends, p, targets[..k + 1])
    ensures Roots(depends, p, targets[..k + 1])
            == Roots(depends, p, targets[..k]) + if Wanted(p, targets[k]) then Starts(depends, targets[k]) else {}
  {
  }

  method MarkTargets(depends: Graph<Tid>, p: Providers, targets: seq<Target>) returns (r: Marking)
    requires Closed(depends)
    ensures r.Marked? <==> TargetsExist(depends, p, targets)
    ensures r.Marked? ==> r.build == Needed(depends, Roots(depends, p, targets))
    ensures r.Marked? ==> forall t :: t in r.targetTids <==>
      exists k :: 0 <= k < |targets| && Wanted(p, targets[k]) && t == TargetTid(targets[k])
    ensures r.NoSuchTask? ==> MissesOne(depends, p, targets, r.tid)
  {
    hide MissesOne, ExactlyMarked, Roots, TargetsExist, Needed, Starts, Wanted, TargetTid;
    var build, targetTids := {}, [];
    ghost var roots: set<Tid> := {};
    NoTargets(depends, p);
    assert targets[..0] == [];
    for k := 0 to |targets|
      invariant TargetsExist(depends, p, targets[..k]) && roots == Roots(depends, p, targets[..k])
      invariant ExactlyMarked(depends, roots, build)
      invariant forall t :: t in targetTids <==>
        exists j :: 0 <= j < k && Wanted(p, targets[j]) && t == TargetTid(targets[j])
    {
      if Wanted(p, targets[k]) && TargetTid(targets[k]) !in depends {
        MissingTarget(depends, p, targets, k);
        return NoSuchTask(TargetTid(targets[k]));
      }
      MoreRoots(depends, p, targets, k);
      if Wanted(p, targets[k]) {
        targetTids := targetTids + [TargetTid(targets[k])];
        build := MarkOneTarget(depends, targets[k], build, roots);
        roots := roots + Starts(depends, targets[k]);
      }
    }
    assert targets[..|targets|] == targets;
    MarkedIsNeeded(depends, roots, build);
    return Marked(build, targetTids);
  }

  lemma NoTargets(depends: Graph<Tid>, p: Providers)
    ensures TargetsExist(depends, p, []) && Roots(depends, p, []) == {} && ExactlyMarked(depends, {}, {})
  {
  }

  /** Told without the words above: a target is dropped when nobody provides it, when it has
      failed or when its recipe has, and a trailing `-` asks for the dependencies only. */
  lemma TargetsByName(depends: Graph<Tid>, p: Providers, targets: seq<Target>, k: nat, r: Tid)
    requires k < |targets| && TargetsExist(depends, p, targets)
    ensures var t := targets[k];
            var wanted := t.name in p.buildTargets && |p.buildTargets[t.name]| > 0 && t.name !in p.failedDeps
                          && t.fn !in p.failedFns;
            && (Wanted(p, t) <==> wanted)
            && (EndsWith(t.task, "-") ==> TargetTid(t) == Tid(t.fn, t.task[..|t.task| - 1])
                                          && (wanted ==> (r in Starts(depends, t) <==> r in depends[TargetTid(t)])))
            && (!EndsWith(t.task, "-") ==> TargetTid(t) == Tid(t.fn, t.task)
                                           && (wanted ==> (r in Starts(depends, t) <==> r == Tid(t.fn, t.task))))
            && (wanted && r in Starts(depends, t) ==> r in Roots(depends, p, targets))
  {
    var t := targets[k];
    assert EndsWith(t.task, "-") <==> OnlyDeps(t) by {
      LastLetter(t.task);
    }
  }

  lemma LastLetter(s: string)
    ensures EndsWith(s, "-") <==> s != "" && s[|s| - 1] == '-'
  {
    if s != "" {
      assert s[|s| - 1..] == [s[|s| - 1]];
    }
  }

  lemma MissingTarget(depends: Graph<Tid>, p: Providers, targets: seq<Target>, k: nat)
    requires k < |targets| && Wanted(p, targets[k]) && TargetTid(targets[k]) !in depends
    ensures !TargetsExist(depends, p, targets)
    ensures MissesOne(depends, p, targets, TargetTid(targets[k]))
  {
  }

  /** `tid` is the task of a wanted target, and does not exist. */
  ghost predicate MissesOne(depends: Graph<Tid>, p: Providers, targets: seq<Target>, tid: Tid) {
    tid !in depends && exists k :: 0 <= k < |targets| && Wanted(p, targets[k]) && tid == TargetTid(targets[k])
  }

  method MarkOneTarget(depends: Graph<Tid>, target: Target, build: set<Tid>, ghost roots: set<Tid>)
    returns (build': set<Tid>)
    requires Closed(depends) && TargetTid(target) in depends && ExactlyMarked(depends, roots, build)
    ensures ExactlyMarked(depends, roots + Starts(depends, target), build')
  {
    var tid := TargetTid(target);
    ghost var found;
    if OnlyDeps(target) {
      build', found := MarkStarts(depends, depends[tid], build);
    } else {
      build', found := MarkActive(depends, tid, build);
      assert forall x :: x in found ==> tid in {tid} && Reach(depends, tid, x);
    }
    ghost var all := roots + Starts(depends, target);
    forall x | x in build'
      ensures depends[x] <= build' && ReachFrom(depends, all, x)
    {
      if x in found {
      } else {
        var r :| r in roots && Reach(depends, r, x);
        assert r in all;
      }
    }
  }

  /** For a target that only wants its dependencies, each of them is marked. */
  method MarkStarts(depends: Graph<Tid>, starts: set<Tid>, build: set<Tid>)
    returns (build': set<Tid>, ghost found: set<Tid>)
    requires Closed(depends) && starts <= depends.Keys && build <= depends.Keys
    ensures build' == build + found && starts <= build' <= depends.Keys
    ensures forall x :: x in found ==> depends[x] <= build' && ReachFrom(depends, starts, x)
  {
    build', found := build, {};
    var todo := starts;
    while todo != {}
      invariant todo <= starts && build' == build + found && starts - todo <= build' <= depends.Keys
      invariant forall x {:trigger x in found} :: x in found ==> depends[x] <= build' && ReachFrom(depends, starts, x)
    {
      var i :| i in todo;
      todo := todo - {i};
      ghost var below;
      build', below := MarkActive(depends, i, build');
      assert forall x :: x in below ==> i in starts && Reach(depends, i, x);
      found := found + below;
    }
  }

  // ---- step C: prune ----

  ghost function Restrict(depends: Graph<Tid>, keep: set<Tid>): Graph<Tid> {
    map t | t in depends && t in keep :: depends[t]
  }

  lemma RestrictKeys(depends: Graph<Tid>, keep: set<Tid>)
    ensures Restrict(depends, keep).Keys <= depends.Keys
  {
  }

  method Prune(depends: Graph<Tid>, build: set<Tid>) returns (kept: Graph<Tid>)
    ensures kept == Restrict(depends, build)
  {
    kept := depends;
    var todo := depends.Keys;
    while todo != {}
      invariant todo <= depends.Keys
      invariant kept.Keys == set t | t in depends && (t in build || t in todo)
      invariant forall t :: t in kept ==> kept[t] == depends[t]
    {
      var tid :| tid in todo;
      todo := todo - {tid};
      if tid !in build {
        kept := kept - {tid};
      }
    }
  }

  /** Nothing that is kept waits for anything that was pruned. */
  lemma PrunedIsClosed(depends: Graph<Tid>, roots: set<Tid>)
    requires Closed(depends)
    ensures Closed(Restrict(depends, Needed(depends, roots)))
  {
    var kept := Restrict(depends, Needed(depends, roots));
    forall t, u | t in kept && u in kept[t]
      ensures u in kept
    {
      ReachFromSnoc(depends, roots, t, u);
    }
  }

  // ---- step D: reverse dependencies and endpoints ----

  method InvertDepends(depends: Graph<Tid>) returns (revdeps: Graph<Tid>)
    requires Closed(depends)
    ensures Inverse(depends, revdeps)
  {
    revdeps := map t | t in depends :: {};
    var todo := depends.Keys;
    while todo != {}
      invariant todo <= depends.Keys == revdeps.Keys
      invariant forall a, b {:trigger a in revdeps[b]} :: a in depends && b in depends ==>
        (a in revdeps[b] <==> a !in todo && b in depends[a])
      invariant forall b {:trigger revdeps[b]} :: b in depends ==> revdeps[b] <= depends.Keys
    {
      var tid :| tid in todo;
      todo := todo - {tid};
      var deps := depends[tid];
      ghost var before := revdeps;
      while deps != {}
        invariant deps <= depends[tid] && revdeps.Keys == depends.Keys
        invariant forall b {:trigger revdeps[b]} :: b in depends ==>
          revdeps[b] == if b in depends[tid] - deps then before[b] + {tid} else before[b]
      {
        var dep :| dep in deps;
        deps := deps - {dep};
        revdeps := revdeps[dep := revdeps[dep] + {tid}];
      }
    }
  }

  datatype EndpointResult = Endpoints(tids: seq<Tid>) | Circular(tid: Tid, dep: Tid)

  /** Lists the tasks nobody waits for, and refuses two tasks that wait for each other. */
  method FindEndpoints(depends: Graph<Tid>, revdeps: Graph<Tid>) returns (r: EndpointResult)
    requires Inverse(depends, revdeps)
    ensures r.Endpoints? ==> Weights.AreEndpoints(revdeps, r.tids)
    ensures r.Circular? ==> r.tid in depends && r.dep in depends[r.tid] && r.dep in depends && r.tid in depends[r.dep]
    ensures r.Endpoints? ==> forall t, d :: t in depends && d in depends[t] && d in depends ==> t !in depends[d]
  {
    var endpoints: seq<Tid> := [];
    var todo := depends.Keys;
    while todo != {}
      invariant todo <= depends.Keys && Distinct(endpoints)
      invariant forall t {:trigger t in endpoints} :: t in endpoints <==> t in depends && t !in todo && revdeps[t] == {}
      invariant forall t, d :: t in depends && t !in todo && d in revdeps[t] ==> d !in depends[t]
    {
      var tid :| tid in todo;
      todo := todo - {tid};
      if |revdeps[tid]| == 0 {
        assert tid !in endpoints;
        endpoints := endpoints + [tid];
      }
      if dep :| dep in revdeps[tid] && dep in depends[tid] {
        return Circular(tid, dep);
      }
    }
    return Endpoints(endpoints);
  }

  lemma CircularMeansCycle(depends: Graph<Tid>, a: Tid, b: Tid)
    requires a in depends && b in depends && b in depends[a] && a in depends[b]
    ensures !Acyclic(depends)
  {
    ReachEdge(depends, b, a);
    assert OnCycle(depends, a);
  }

  // ---- the stages in order ----

  datatype Outcome = NothingToDo | Prepared(count: nat) | Fatal | KeyError

  /** What preparing needs from outside: the targets, the providers chosen for them,
      and the recursive-dependency flags. */
  datatype Request = Request(targets: seq<Target>, providers: Providers,
                             names: map<Tid, seq<string>>, itasks: map<Tid, seq<Tid>>, selfref: set<Tid>)

  ghost predicate WellFormed(direct: Graph<Tid>, q: Request) {
    Closed(direct) && q.names.Keys <= direct.Keys && q.itasks.Keys <= q.names.Keys
  }

  /** The graph that is left after resolving, marking and pruning. */
  ghost function FinalGraph(direct: Graph<Tid>, q: Request): Graph<Tid>
    requires WellFormed(direct, q)
    requires TargetsExist(RecursiveDeps.FinalDepends(direct, q.names, q.itasks, q.selfref), q.providers, q.targets)
  {
    var full := RecursiveDeps.FinalDepends(direct, q.names, q.itasks, q.selfref);
    Restrict(full, Needed(full, Roots(full, q.providers, q.targets)))
  }

  ghost predicate Accepts(direct: Graph<Tid>, q: Request)
    requires WellFormed(direct, q)
  {
    && RecursiveDeps.AllNamedExist(direct, q.itasks)
    && TargetsExist(RecursiveDeps.FinalDepends(direct, q.names, q.itasks, q.selfref), q.providers, q.targets)
    && FinalGraph(direct, q) != map[]
    && Acyclic(FinalGraph(direct, q))
  }

  class RunQueueData {
    var depends: Graph<Tid>
    var revdeps: Graph<Tid>
    var weight: map<Tid, int>
    var hash: map<Tid, string>
    var targetTids: seq<Tid>

    constructor (direct: Graph<Tid>)
      ensures depends == direct
    {
      depends := direct;
      revdeps, weight, hash, targetTids := map[], map[], map[], [];
    }

    /** What execution relies on. */
    ghost predicate Ready(s: TaskHashes.Signing)
      reads this
    {
      && Inverse(depends, revdeps) && Acyclic(depends)
      && Weights.IsWeighting(revdeps, weight)
      && hash.Keys == depends.Keys && forall t :: t in depends ==> TaskHashes.Hashed(s, depends, hash, t)
    }

    /** The whole preparation, up to and including the hashes; the generator then holds what
        every task was hashed from. */
    method Prepare(q: Request, s: TaskHashes.Signing, gen: Signatures.SignatureGeneratorBasic) returns (r: Outcome)
      requires WellFormed(depends, q) && TaskHashes.Signs(s, depends.Keys) && gen.md5 == s.md5
      modifies this, gen`basehash, gen`taskhash, gen`runtaskdeps, gen`fileChecksumValues, gen`taints
      ensures r.NothingToDo? <==> old(depends) == map[]
      ensures r.Prepared? <==> old(depends) != map[] && Accepts(old(depends), q)
      ensures r.KeyError? <==> old(depends) != map[] && !RecursiveDeps.AllNamedExist(old(depends), q.itasks)
      ensures r.Prepared? ==> depends == FinalGraph(old(depends), q) && r.count == |depends| && Ready(s)
      ensures r.Prepared? ==>
        Recorded(s, gen, old(gen.taints)) && gen.taskhash.Keys == old(gen.taskhash.Keys) + depends.Keys
      ensures r.Prepared? ==> forall t :: t in targetTids <==>
        exists k :: 0 <= k < |q.targets| && Wanted(q.providers, q.targets[k]) && t == TargetTid(q.targets[k])
    {
      hide Restrict, Needed, Roots, TargetsExist, Acyclic, Ready, Recorded, TaskHashes.Signs,
           RecursiveDeps.FinalDepends, RecursiveDeps.AllNamedExist;
      if |depends| == 0 {
        return NothingToDo;
      }
      ghost var direct := depends;
      var resolved := RecursiveDeps.ResolveRecursive(depends, q.names, q.itasks, q.selfref);
      if resolved.KeyError? {
        return KeyError;
      }
      depends := resolved.value;
      RecursiveDeps.FinalDependsClosed(direct, q.names, q.itasks, q.selfref);
      var marking := MarkTargets(depends, q.providers, q.targets);
      if marking.NoSuchTask? {
        return Fatal;
      }
      targetTids := marking.targetTids;
      PrunedIsClosed(depends, Roots(depends, q.providers, q.targets));
      RestrictKeys(depends, marking.build);
      depends := Prune(depends, marking.build);
      if |depends| == 0 {
        return Fatal;
      }
      TaskHashes.SignsFewer(s, direct.Keys, depends.Keys);
      r := WeighAndHash(s, gen);
    }

    /** The generator holds what every task was hashed from, and the same hashes. */
    ghost predicate Recorded(s: TaskHashes.Signing, gen: Signatures.SignatureGeneratorBasic, before: map<Tid, string>)
      reads this, gen
    {
      && depends.Keys <= hash.Keys && depends.Keys <= gen.taskhash.Keys
      && forall t :: t in depends ==>
           TaskHashes.Entry(s, depends, before, TaskHashes.HeldBy(gen), t) && gen.taskhash[t] == hash[t]
    }

    /** The second half: inversion, the checks for cycles, weights and hashes. */
    method WeighAndHash(s: TaskHashes.Signing, gen: Signatures.SignatureGeneratorBasic) returns (r: Outcome)
      requires Closed(depends) && TaskHashes.Signs(s, depends.Keys) && gen.md5 == s.md5
      modifies this`revdeps, this`weight, this`hash, gen`basehash, gen`taskhash, gen`runtaskdeps,
        gen`fileChecksumValues, gen`taints
      ensures r == (if Acyclic(depends) then Prepared(|depends|) else Fatal)
      ensures Acyclic(depends) ==>
        Ready(s) && Recorded(s, gen, old(gen.taints)) && gen.taskhash.Keys == old(gen.taskhash.Keys) + depends.Keys
    {
      hide Acyclic, Inverse, Ready, Recorded, TaskHashes.Hashed, TaskHashes.Signs, Weights.AreEndpoints,
           Weights.IsWeighting, Closed;
      revdeps := InvertDepends(depends);
      var endpoints := FindEndpoints(depends, revdeps);
      if endpoints.Circular? {
        CircularMeansCycle(depends, endpoints.tid, endpoints.dep);
        return Fatal;
      }
      var problems;
      weight, problems := Weights.CalculateTaskWeights(depends, revdeps, endpoints.tids);
      Weights.NoProblemsIffAcyclic(depends, revdeps, problems);
      Weights.AcceptedWeights(depends, revdeps, weight, problems);
      if problems != {} {
        return Fatal;
      }
      HashAll(s, gen);
      return Prepared(|depends|);
    }

    method HashAll(s: TaskHashes.Signing, gen: Signatures.SignatureGeneratorBasic)
      requires Inverse(depends, revdeps) && Acyclic(depends) && Weights.IsWeighting(revdeps, weight)
      requires Closed(depends) && TaskHashes.Signs(s, depends.Keys) && gen.md5 == s.md5
      modifies this`hash, gen`basehash, gen`taskhash, gen`runtaskdeps, gen`fileChecksumValues, gen`taints
      ensures Ready(s) && Recorded(s, gen, old(gen.taints))
        && gen.taskhash.Keys == old(gen.taskhash.Keys) + depends.Keys
    {
      hide Acyclic, Closed, Inverse, Weights.IsWeighting, TaskHashes.Hashed, TaskHashes.Entry,
           TaskHashes.DependencyOrder, TaskHashes.Signs;
      var calls;
      hash, calls := TaskHashes.HashTasks(depends, s, gen);
    }
  }
}
