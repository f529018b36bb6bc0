/** Which variables a task depends on: the dependencies of every variable met on the way
    from the tasks, and the values they have. */
module VariableDeps {
  import opened Graphs
  import opened Tasks

  /** What the datastore says about a variable: the variables it refers to, and its value
      if it has one. */
  type Build = string -> (set<string>, Option<string>)

  function References(build: Build, names: set<string>): Graph<string> {
    map v | v in names :: build(v).0
  }

  /** `deps` and `values` hold what the datastore says, for variables in `names` only. */
  ghost predicate Looked(build: Build, names: set<string>, deps: Graph<string>, values: map<string, Option<string>>) {
    && deps.Keys == values.Keys && deps.Keys <= names
    && forall v :: v in deps ==> deps[v] == build(v).0 && values[v] == build(v).1
  }

  method BuildDependencies(build: Build, v: string, deps: Graph<string>, values: map<string, Option<string>>,
                           ghost names: set<string>)
    returns (deps': Graph<string>, values': map<string, Option<string>>)
    requires Looked(build, names, deps, values) && v in names
    ensures Looked(build, names, deps', values') && deps'.Keys == deps.Keys + {v}
  {
    deps', values' := deps[v := build(v).0], values[v := build(v).1];
  }

  /** Enters everything the variables of one round refer to. */
  method NextRound(build: Build, ghost names: set<string>, round: set<string>, deps: Graph<string>,
                   values: map<string, Option<string>>)
    returns (found: set<string>, deps': Graph<string>, values': map<string, Option<string>>)
    requires Looked(build, names, deps, values) && round <= names
    ensures Looked(build, names, deps', values') && deps'.Keys == deps.Keys + round
    ensures forall v :: v in round && v in References(build, names) ==> References(build, names)[v] <= found
    ensures forall w :: w in found ==>
      exists v :: v in round && v in References(build, names) && w in References(build, names)[v]
  {
    hide Looked;
    ghost var g := References(build, names);
    found, deps', values' := {}, deps, values;
    var todo := round;
    while todo != {}
      invariant todo <= round && Looked(build, names, deps', values') && deps'.Keys == deps.Keys + (round - todo)
      invariant forall v :: v in round && v !in todo && v in g ==> g[v] <= found
      invariant forall w :: w in found ==> exists v :: v in round && v in g && w in g[v]
    {
      var dep :| dep in todo;
      todo := todo - {dep};
      if dep !in deps' {
        deps', values' := BuildDependencies(build, dep, deps', values', names);
      }
      found := found + LookedAt(build, names, deps', values', dep);
    }
  }

  /** One task: round after round until nothing new is met. */
  method FollowTask(build: Build, ghost names: set<string>, task: string, deps: Graph<string>,
                    values: map<string, Option<string>>, ghost roots: set<string>)
    returns (deps': Graph<string>, values': map<string, Option<string>>)
    requires Looked(build, names, deps, values) && task in names && task in roots
    requires forall v :: v in names ==> build(v).0 <= names
    requires ClosedUnder(References(build, names), deps.Keys)
    requires forall v :: v in deps ==> ReachFrom(References(build, names), roots, v)
    ensures Looked(build, names, deps', values') && deps.Keys + {task} <= deps'.Keys
    ensures ClosedUnder(References(build, names), deps'.Keys)
    ensures forall v :: v in deps' ==> ReachFrom(References(build, names), roots, v)
  {
    hide ReachFrom, Looked, Collecting, ClosedUnder, Closed, References;
    assert References(build, names).Keys == names by {
      ReferencesClosed(build, names);
    }
    ghost var g := References(build, names);
    assert Closed(g) by {
      ReferencesClosed(build, names);
    }
    CollectStart(g, task);
    deps', values' := BuildDependencies(build, task, deps, values, names);
    var newdeps := LookedAt(build, names, deps', values', task);
    var seen := {};
    ghost var start := deps'.Keys;
    assert start == start + {};
    while newdeps != {}
      invariant Looked(build, names, deps', values') && Collecting(g, task, seen, newdeps)
      invariant deps'.Keys == start + seen
      decreases |g.Keys - seen|
    {
      var nextdeps := newdeps;
      ghost var before := seen;
      CollectNext(g, task, seen, newdeps);
      UnionAssoc(start, before, nextdeps);
      seen := seen + nextdeps;
      newdeps, deps', values' := NextRound(build, names, nextdeps, deps', values');
      CollectStep(g, task, before, nextdeps, newdeps);
      newdeps := newdeps - seen;
    }
    CollectDone(g, task, seen);
    AddCollected(g, roots, deps.Keys, task, seen);
  }

  lemma ReferencesClosed(build: Build, names: set<string>)
    requires forall v :: v in names ==> build(v).0 <= names
    ensures Closed(References(build, names)) && References(build, names).Keys == names
  {
  }

  function LookedAt(build: Build, ghost names: set<string>, deps: Graph<string>, values: map<string, Option<string>>,
                    v: string): (r: set<string>)
    requires Looked(build, names, deps, values) && v in deps
    ensures v in References(build, names) && r == References(build, names)[v]
  {
    deps[v]
  }

  lemma AddCollected(g: Graph<string>, roots: set<string>, start: set<string>, task: string, seen: set<string>)
    requires task in g && task in roots && ClosedUnder(g, start) && ClosedUnder(g, seen) && g[task] <= seen
    requires forall v :: v in start ==> ReachFrom(g, roots, v)
    requires forall v :: v in seen ==> ReachFrom(g, g[task], v)
    ensures ClosedUnder(g, start + {task} + seen)
    ensures forall v :: v in start + {task} + seen ==> ReachFrom(g, roots, v)
  {
    ReachRefl(g, task);
    forall v | v in seen
      ensures ReachFrom(g, roots, v)
    {
      var d :| d in g[task] && Reach(g, d, v);
      ReachCons(g, task, d, v);
    }
  }

  /** The entries are exactly those of the variables met on the way from the tasks.
      `names` stands for the variable names that can come up at all: finitely many. */
  method GenerateDependencies(build: Build, tasklist: seq<string>, ghost names: set<string>)
    returns (deps: Graph<string>, values: map<string, Option<string>>)
    requires forall v :: v in names ==> build(v).0 <= names
    requires forall t :: t in tasklist ==> t in names
    ensures deps.Keys == values.Keys && forall v :: v in deps ==> deps[v] == build(v).0 && values[v] == build(v).1
    ensures forall v :: v in deps <==> ReachFrom(References(build, names), (set t | t in tasklist), v)
    ensures Closed(deps)
  {
    hide ReachFrom;
    ghost var g, roots := References(build, names), set t | t in tasklist;
    deps, values := map[], map[];
    for i := 0 to |tasklist|
      invariant Looked(build, names, deps, values) && ClosedUnder(g, deps.Keys)
      invariant forall v :: v in deps ==> ReachFrom(g, roots, v)
      invariant forall t :: t in tasklist[..i] ==> t in deps
    {
      assert tasklist[..i + 1] == tasklist[..i] + [tasklist[i]];
      deps, values := FollowTask(build, names, tasklist[i], deps, values, roots);
    }
    assert tasklist[..|tasklist|] == tasklist;
    ExactlyReached(g, roots, deps.Keys);
  }
}
