/** Step A, part B, of preparing the run queue: a task with `recrdeptask` waits for the
    named sibling tasks of everything below it. The direct dependencies may still be
    cyclic here, and siblings of a visited task are looked through without being
    visited themselves. */
module RecursiveDeps {
  import opened Graphs
  import opened Tasks

  /** The tasks called `names` in the same recipe as `t`, as far as they exist. */
  function Siblings(depends: Graph<Tid>, names: seq<string>, t: Tid): set<Tid> {
    set s | s in depends && s.fn == t.fn && s.task in names
  }

  /** What visiting `t` leads to: the dependencies of `t` and of its siblings. */
  function Expand(depends: Graph<Tid>, names: seq<string>, t: Tid): set<Tid>
    requires Closed(depends) && t in depends
  {
    set i, n | i in Siblings(depends, names, t) + {t} && n in depends[i] :: n
  }

  function VisitGraph(depends: Graph<Tid>, names: seq<string>): Graph<Tid>
    requires Closed(depends)
  {
    map t | t in depends :: Expand(depends, names, t)
  }

  /** The least set that holds the roots and is closed under visiting. */
  ghost function Visited(depends: Graph<Tid>, names: seq<string>, roots: set<Tid>): set<Tid>
    requires Closed(depends)
  {
    set t | t in depends && ReachFrom(VisitGraph(depends, names), roots, t)
  }

  /** ... which it is: closed under visiting, and inside every other such set. */
  lemma VisitedIsLeast(depends: Graph<Tid>, names: seq<string>, roots: set<Tid>)
    requires Closed(depends) && roots <= depends.Keys
    ensures roots <= Visited(depends, names, roots)
    ensures forall t :: t in Visited(depends, names, roots) ==>
      Expand(depends, names, t) <= Visited(depends, names, roots)
    ensures forall s: set<Tid> :: roots <= s <= depends.Keys && (forall t :: t in s ==> Expand(depends, names, t) <= s)
              ==> Visited(depends, names, roots) <= s
  {
    hide ReachFrom, Expand;
    var g := VisitGraph(depends, names);
    forall r | r in roots
      ensures ReachFrom(g, roots, r)
    {
      ReachRefl(g, r);
      assert r in roots && Reach(g, r, r);
      RootIsReached(g, roots, r);
    }
    forall t, u | t in Visited(depends, names, roots) && u in Expand(depends, names, t)
      ensures u in Visited(depends, names, roots)
    {
      ExpandExists(depends, names, t);
      ReachFromSnoc(g, roots, t, u);
    }
    forall s: set<Tid> | roots <= s <= depends.Keys && forall t :: t in s ==> Expand(depends, names, t) <= s
      ensures Visited(depends, names, roots) <= s
    {
      forall t | t in Visited(depends, names, roots)
        ensures t in s
      {
        StaysInside(g, roots, s, t);
      }
    }
  }

  /** Told by names: what a visited task depends on is visited, and what those tasks of its
      recipe depend on that carry one of the names. */
  lemma VisitedByNames(depends: Graph<Tid>, names: seq<string>, roots: set<Tid>, t: Tid, i: Tid, n: Tid)
    requires Closed(depends) && roots <= depends.Keys && t in Visited(depends, names, roots)
    requires i in depends && (i == t || (i.fn == t.fn && i.task in names)) && n in depends[i]
    ensures n in Visited(depends, names, roots)
  {
    hide Visited;
    VisitedIsLeast(depends, names, roots);
    VisitedExist(depends, names, roots);
    assert n in Expand(depends, names, t);
  }

  lemma VisitedExist(depends: Graph<Tid>, names: seq<string>, roots: set<Tid>)
    requires Closed(depends)
    ensures Visited(depends, names, roots) <= depends.Keys
  {
  }

  lemma RootIsReached(g: Graph<Tid>, roots: set<Tid>, r: Tid)
    requires r in roots && Reach(g, r, r)
    ensures ReachFrom(g, roots, r)
  {
  }

  lemma ExpandExists(depends: Graph<Tid>, names: seq<string>, t: Tid)
    requires Closed(depends) && t in depends
    ensures Expand(depends, names, t) <= depends.Keys
  {
  }

  lemma StaysInside(g: Graph<Tid>, roots: set<Tid>, s: set<Tid>, t: Tid)
    requires roots <= s && ClosedUnder(g, s) && ReachFrom(g, roots, t)
    ensures t in s
  {
    var r :| r in roots && Reach(g, r, t);
    ReachStaysInside(g, s, r, t);
  }

  function AllSiblings(depends: Graph<Tid>, names: seq<string>, visited: set<Tid>): set<Tid> {
    set v, i | v in visited && i in Siblings(depends, names, v) :: i
  }

  /** What a recursive task waits for: its direct dependencies and the siblings of
      everything visited. */
  ghost function Resolved(depends: Graph<Tid>, names: seq<string>, tid: Tid, roots: set<Tid>): set<Tid>
    requires Closed(depends) && tid in depends
  {
    depends[tid] + AllSiblings(depends, names, Visited(depends, names, roots))
  }

  /** `found` was reached by visiting from `t`, and nothing one visit away from it is
      outside `seen`. */
  ghost predicate Explored(depends: Graph<Tid>, names: seq<string>, t: Tid, found: set<Tid>, seen: set<Tid>)
    requires Closed(depends)
  {
    && found <= depends.Keys
    && (forall x :: x in found ==> Expand(depends, names, x) <= seen)
    && (forall x :: x in found ==> Reach(VisitGraph(depends, names), t, x))
  }

  lemma ExploredUnion(depends: Graph<Tid>, names: seq<string>, t: Tid, n: Tid, a: set<Tid>, b: set<Tid>,
                      seenA: set<Tid>, seenB: set<Tid>)
    requires Closed(depends) && t in depends
    requires Explored(depends, names, t, a, seenA) && Explored(depends, names, n, b, seenB)
    requires seenA <= seenB && (n == t || n in Expand(depends, names, t))
    ensures Explored(depends, names, t, a + b, seenB)
  {
    if n != t {
      forall x | x in b
        ensures Reach(VisitGraph(depends, names), t, x)
      {
        ReachCons(VisitGraph(depends, names), t, n, x);
      }
    }
  }

  lemma AllSiblingsUnion(depends: Graph<Tid>, names: seq<string>, a: set<Tid>, b: set<Tid>)
    ensures AllSiblings(depends, names, a + b) == AllSiblings(depends, names, a) + AllSiblings(depends, names, b)
  {
  }

  lemma AllSiblingsOne(depends: Graph<Tid>, names: seq<string>, t: Tid)
    ensures AllSiblings(depends, names, {t}) == Siblings(depends, names, t)
  {
  }

  lemma ExpandCovered(depends: Graph<Tid>, names: seq<string>, t: Tid, seen: set<Tid>)
    requires Closed(depends) && t in depends
    requires forall i :: i in Siblings(depends, names, t) + {t} ==> depends[i] <= seen
    ensures Expand(depends, names, t) <= seen
  {
  }

  lemma NothingVisited(depends: Graph<Tid>, names: seq<string>, t: Tid, seen: set<Tid>, extra: set<Tid>)
    requires Closed(depends)
    ensures Explored(depends, names, t, {}, seen) && seen + {} == seen
      && extra + AllSiblings(depends, names, {}) == extra
  {
  }

  lemma InExpand(depends: Graph<Tid>, names: seq<string>, t: Tid)
    requires Closed(depends) && t in depends
    ensures forall i :: i in Siblings(depends, names, t) + {t} ==>
      i in depends && depends[i] <= Expand(depends, names, t)
  {
  }

  /** One recursive visit, with the accumulated dependencies and the visited set
      threaded through; `found` is what this visit and its recursive visits went
      through. `t` may have been visited before when it is a root. */
  method GenerateRecdeps(depends: Graph<Tid>, names: seq<string>, t: Tid, extra: set<Tid>, seen: set<Tid>)
    returns (extra': set<Tid>, seen': set<Tid>, ghost found: set<Tid>)
    requires Closed(depends) && t in depends && seen <= depends.Keys
    ensures seen' == seen + found && t in found && found <= depends.Keys
    ensures Explored(depends, names, t, found, seen')
    ensures extra' == extra + AllSiblings(depends, names, found)
    ensures forall x :: x in seen' && x !in seen ==> Reach(VisitGraph(depends, names), t, x)
    ensures extra + Siblings(depends, names, t) <= extra'
    decreases |depends.Keys - (seen + {t})|
  {
    var newdeps := Siblings(depends, names, t);
    extra' := extra + newdeps;
    seen' := seen + {t};
    newdeps := newdeps + {t};
    found := {};
    AllSiblingsOne(depends, names, t);
    ghost var below: set<Tid>;
    extra', seen', below := VisitGroup(depends, names, t, newdeps, extra', seen');
    ExpandCovered(depends, names, t, seen');
    ReachRefl(VisitGraph(depends, names), t);
    found := {t} + below;
    ExploredUnion(depends, names, t, t, {t}, below, seen', seen');
    AllSiblingsUnion(depends, names, {t}, below);
  }

  /** The outer loop: look through the task and its siblings. */
  method VisitGroup(depends: Graph<Tid>, names: seq<string>, t: Tid, newdeps: set<Tid>, extra: set<Tid>, seen: set<Tid>)
    returns (extra': set<Tid>, seen': set<Tid>, ghost found: set<Tid>)
    requires Closed(depends) && t in seen && seen <= depends.Keys
    requires newdeps == Siblings(depends, names, t) + {t}
    ensures seen' == seen + found && found <= depends.Keys
    ensures forall i :: i in newdeps ==> depends[i] <= seen'
    ensures Explored(depends, names, t, found, seen')
    ensures extra' == extra + AllSiblings(depends, names, found)
    decreases |depends.Keys - seen|, 2
  {
    hide Explored, AllSiblings;
    extra', seen', found := extra, seen, {};
    var todo := newdeps;
    NothingVisited(depends, names, t, seen, extra);
    InExpand(depends, names, t);
    while todo != {}
      invariant todo <= newdeps && seen' == seen + found && found <= depends.Keys
      invariant forall i :: i in newdeps - todo ==> depends[i] <= seen'
      invariant Explored(depends, names, t, found, seen')
      invariant extra' == extra + AllSiblings(depends, names, found)
    {
      var i :| i in todo;
      todo := todo - {i};
      SubsetSize(depends.Keys - seen', depends.Keys - seen);
      ghost var below: set<Tid>;
      ghost var before := seen';
      extra', seen', below := VisitAll(depends, names, t, depends[i], extra', seen');
      ExploredUnion(depends, names, t, t, found, below, before, seen');
      AllSiblingsUnion(depends, names, found, below);
      UnionAssoc(extra, AllSiblings(depends, names, found), AllSiblings(depends, names, below));
      found := found + below;
    }
  }

  /** The inner loop: recurse into each dependency that has not been visited. */
  method VisitAll(depends: Graph<Tid>, names: seq<string>, ghost t: Tid, deps: set<Tid>, extra: set<Tid>,
                  seen: set<Tid>)
    returns (extra': set<Tid>, seen': set<Tid>, ghost found: set<Tid>)
    requires Closed(depends) && t in seen && seen <= depends.Keys && deps <= Expand(depends, names, t)
    ensures seen' == seen + found && found <= depends.Keys && deps <= seen'
    ensures Explored(depends, names, t, found, seen')
    ensures extra' == extra + AllSiblings(depends, names, found)
    decreases |depends.Keys - seen|, 1
  {
    hide Explored, AllSiblings;
    extra', seen', found := extra, seen, {};
    var todo := deps;
    NothingVisited(depends, names, t, seen, extra);
    while todo != {}
      invariant todo <= deps && seen' == seen + found && found <= depends.Keys && deps - todo <= seen'
      invariant Explored(depends, names, t, found, seen')
      invariant extra' == extra + AllSiblings(depends, names, found)
    {
      var n :| n in todo;
      todo := todo - {n};
      if n !in seen' {
        SmallerSet(depends.Keys - (seen' + {n}), depends.Keys - seen);
        ghost var below: set<Tid>;
        ghost var before := seen';
        extra', seen', below := GenerateRecdeps(depends, names, n, extra', seen');
        ExploredUnion(depends, names, t, n, found, below, before, seen');
        AllSiblingsUnion(depends, names, found, below);
        UnionAssoc(extra, AllSiblings(depends, names, found), AllSiblings(depends, names, below));
        found := found + below;
      }
    }
  }

  datatype Result<T> = Ok(value: T) | KeyError(tid: Tid)

  /** The dependencies of one recursive task: a visit from the task itself and then
      from each task named by its `recideptask` flag. A named task that does not exist
      is looked up all the same, which raises a key error. */
  method ResolveTask(depends: Graph<Tid>, names: seq<string>, tid: Tid, itasks: seq<Tid>) returns (r: Result<set<Tid>>)
    requires Closed(depends) && tid in depends
    ensures r.Ok? <==> forall d :: d in itasks ==> d in depends
    ensures r.Ok? ==> r.value == Resolved(depends, names, tid, RootsOf(tid, itasks))
    ensures r.KeyError? ==> r.tid in itasks && r.tid !in depends
  {
    hide ExactVisit, Explored, AllSiblings, Visited, RootsOf;
    ghost var found;
    var extra, seen;
    extra, seen, found := GenerateRecdeps(depends, names, tid, depends[tid], {});
    ghost var roots := {tid};
    assert seen == found;
    FirstRoot(depends, names, tid, itasks);
    RootsReach(depends, names, {}, tid, {}, found, seen);
    assert {} + roots == roots;
    for k := 0 to |itasks|
      invariant roots == RootsOf(tid, itasks[..k]) && roots <= seen <= depends.Keys
      invariant ExactVisit(depends, names, roots, seen)
      invariant extra == depends[tid] + AllSiblings(depends, names, seen)
      invariant forall d :: d in itasks[..k] ==> d in depends
    {
      var dep := itasks[k];
      RootsOfNext(tid, itasks, k);
      if dep !in depends {
        return KeyError(dep);
      }
      extra, seen := VisitRoot(depends, names, dep, extra, seen, roots, depends[tid]);
      roots := roots + {dep};
    }
    RootsOfAll(itasks);
    VisitedExactly(depends, names, roots, seen);
    return Ok(extra);
  }

  /** Told by names: besides what the task depends on itself, it gets exactly the tasks that
      carry one of the names in the recipe of a visited task. */
  lemma ResolvedByNames(depends: Graph<Tid>, names: seq<string>, tid: Tid, roots: set<Tid>, s: Tid)
    requires Closed(depends) && tid in depends
    ensures s in Resolved(depends, names, tid, roots) <==>
      s in depends[tid]
      || (s in depends && s.task in names && exists v :: v in Visited(depends, names, roots) && v.fn == s.fn)
  {
    hide Visited;
    if v :| v in Visited(depends, names, roots) && v.fn == s.fn {
      assert s in depends && s.task in names ==> s in Siblings(depends, names, v);
    }
  }

  /** One more root. */
  method VisitRoot(depends: Graph<Tid>, names: seq<string>, dep: Tid, extra: set<Tid>, seen: set<Tid>,
                   ghost roots: set<Tid>, ghost base: set<Tid>)
    returns (extra': set<Tid>, seen': set<Tid>)
    requires Closed(depends) && dep in depends && roots <= seen <= depends.Keys
    requires ExactVisit(depends, names, roots, seen)
    requires extra == base + AllSiblings(depends, names, seen)
    ensures roots + {dep} <= seen' <= depends.Keys
    ensures ExactVisit(depends, names, roots + {dep}, seen')
    ensures extra' == base + AllSiblings(depends, names, seen')
  {
    ghost var found;
    extra', seen', found := GenerateRecdeps(depends, names, dep, extra, seen);
    AllSiblingsUnion(depends, names, seen, found);
    UnionAssoc(base, AllSiblings(depends, names, seen), AllSiblings(depends, names, found));
    RootsReach(depends, names, roots, dep, seen, found, seen');
  }

  lemma VisitedExactly(depends: Graph<Tid>, names: seq<string>, roots: set<Tid>, seen: set<Tid>)
    requires Closed(depends) && roots <= seen <= depends.Keys && ExactVisit(depends, names, roots, seen)
    ensures seen == Visited(depends, names, roots)
  {
    ExactlyReached(VisitGraph(depends, names), roots, seen);
  }

  function RootsOf(tid: Tid, itasks: seq<Tid>): set<Tid> {
    {tid} + set d | d in itasks
  }

  lemma FirstRoot(depends: Graph<Tid>, names: seq<string>, tid: Tid, itasks: seq<Tid>)
    requires Closed(depends)
    ensures itasks[..0] == [] && RootsOf(tid, itasks[..0]) == {tid} && ExactVisit(depends, names, {}, {})
  {
  }

  lemma RootsOfNext(tid: Tid, itasks: seq<Tid>, k: nat)
    requires k < |itasks|
    ensures RootsOf(tid, itasks[..k + 1]) == RootsOf(tid, itasks[..k]) + {itasks[k]}
    ensures forall d :: d in itasks[..k + 1] <==> d in itasks[..k] || d == itasks[k]
  {
    assert itasks[..k + 1] == itasks[..k] + [itasks[k]];
  }

  lemma RootsOfAll(itasks: seq<Tid>)
    ensures itasks[..|itasks|] == itasks
  {
  }

  /** `seen` is closed under visiting and was reached from the roots. */
  ghost predicate ExactVisit(depends: Graph<Tid>, names: seq<string>, roots: set<Tid>, seen: set<Tid>)
    requires Closed(depends)
  {
    && ClosedUnder(VisitGraph(depends, names), seen)
    && forall x :: x in seen ==> ReachFrom(VisitGraph(depends, names), roots, x)
  }

  lemma RootsReach(depends: Graph<Tid>, names: seq<string>, roots: set<Tid>, t: Tid, before: set<Tid>, found: set<Tid>,
                   seen: set<Tid>)
    requires Closed(depends) && t in depends && seen == before + found
    requires Explored(depends, names, t, found, seen)
    requires ExactVisit(depends, names, roots, before)
    ensures ExactVisit(depends, names, roots + {t}, seen)
  {
    var g := VisitGraph(depends, names);
    forall x | x in seen
      ensures ReachFrom(g, roots + {t}, x)
    {
      if x in before {
        var r :| r in roots && Reach(g, r, x);
        assert r in roots + {t};
      } else {
        assert t in roots + {t} && Reach(g, t, x);
      }
    }
  }

  /** What step A leaves behind: recursive tasks get their resolved dependencies, less
      every task that names itself recursively, and nobody waits for itself. */
  ghost function FinalDepends(depends: Graph<Tid>, names: map<Tid, seq<string>>, itasks: map<Tid, seq<Tid>>,
                              selfref: set<Tid>): Graph<Tid>
    requires Closed(depends)
  {
    map t | t in depends ::
      (if t in names then Resolved(depends, names[t], t, Roots(itasks, t)) - selfref else depends[t]) - {t}
  }

  /** Told one dependency at a time. */
  lemma FinalDependsAre(depends: Graph<Tid>, names: map<Tid, seq<string>>, itasks: map<Tid, seq<Tid>>,
                        selfref: set<Tid>, t: Tid, d: Tid)
    requires Closed(depends) && t in depends && (t in itasks ==> forall i :: i in itasks[t] ==> i in depends)
    ensures d in FinalDepends(depends, names, itasks, selfref)[t] <==>
      && d != t
      && if t !in names then d in depends[t]
         else d !in selfref
              && (d in depends[t]
                  || (d in depends && d.task in names[t]
                      && exists v :: v in Visited(depends, names[t], Roots(itasks, t)) && v.fn == d.fn))
    ensures forall r :: r in Roots(itasks, t) <==> r == t || (t in itasks && r in itasks[t])
  {
    hide Visited;
    if t in names {
      ResolvedByNames(depends, names[t], t, Roots(itasks, t), d);
    }
  }

  function Roots(itasks: map<Tid, seq<Tid>>, t: Tid): set<Tid> {
    RootsOf(t, if t in itasks then itasks[t] else [])
  }

  ghost predicate AllNamedExist(depends: Graph<Tid>, itasks: map<Tid, seq<Tid>>) {
    forall t, d :: t in itasks && d in itasks[t] ==> d in depends
  }

  method ResolveRecursive(depends: Graph<Tid>, names: map<Tid, seq<string>>, itasks: map<Tid, seq<Tid>>,
                          selfref: set<Tid>)
    returns (r: Result<Graph<Tid>>)
    requires Closed(depends) && names.Keys <= depends.Keys && itasks.Keys <= names.Keys
    ensures r.Ok? <==> AllNamedExist(depends, itasks)
    ensures r.Ok? ==> r.value == FinalDepends(depends, names, itasks, selfref)
    ensures r.KeyError? ==> exists t :: t in itasks && r.tid in itasks[t] && r.tid !in depends
  {
    r := ResolveEach(depends, names, itasks);
    if r.Ok? {
      var pruned := DropSelfRefs(r.value, selfref);
      var final := InstallExtraDeps(depends, pruned);
      FinalMatches(depends, names, itasks, selfref, r.value, pruned, final);
      return Ok(final);
    }
  }

  lemma FinalMatches(depends: Graph<Tid>, names: map<Tid, seq<string>>, itasks: map<Tid, seq<Tid>>, selfref: set<Tid>,
                     extradeps: Graph<Tid>, pruned: Graph<Tid>, final: Graph<Tid>)
    requires Closed(depends) && names.Keys <= depends.Keys
    requires pruned.Keys == extradeps.Keys == names.Keys && final.Keys == depends.Keys
    requires forall t :: t in names ==> extradeps[t] == Resolved(depends, names[t], t, Roots(itasks, t))
    requires forall t :: t in names ==> pruned[t] == extradeps[t] - selfref
    requires forall t :: t in depends ==> final[t] == (if t in pruned then pruned[t] else depends[t]) - {t}
    ensures final == FinalDepends(depends, names, itasks, selfref)
  {
    var spec := FinalDepends(depends, names, itasks, selfref);
    forall t | t in depends
      ensures final[t] == spec[t]
    {
      if t in names {
        assert pruned[t] == Resolved(depends, names[t], t, Roots(itasks, t)) - selfref;
      }
    }
  }

  /** The extra dependencies of every recursive task; the graph itself is not
      changed until all of them are known. */
  method ResolveEach(depends: Graph<Tid>, names: map<Tid, seq<string>>, itasks: map<Tid, seq<Tid>>)
    returns (r: Result<Graph<Tid>>)
    requires Closed(depends) && names.Keys <= depends.Keys && itasks.Keys <= names.Keys
    ensures r.Ok? <==> AllNamedExist(depends, itasks)
    ensures r.Ok? ==> r.value.Keys == names.Keys
    ensures r.Ok? ==> forall t :: t in names ==> r.value[t] == Resolved(depends, names[t], t, Roots(itasks, t))
    ensures r.KeyError? ==> exists t :: t in itasks && r.tid in itasks[t] && r.tid !in depends
  {
    var extradeps: Graph<Tid> := map[];
    var todo := names.Keys;
    while todo != {}
      invariant todo <= names.Keys && extradeps.Keys == names.Keys - todo
      invariant forall t :: t in itasks && t !in todo ==> forall d :: d in itasks[t] ==> d in depends
      invariant forall t :: t in extradeps ==> extradeps[t] == Resolved(depends, names[t], t, Roots(itasks, t))
    {
      var tid :| tid in todo;
      todo := todo - {tid};
      var one := ResolveTask(depends, names[tid], tid, if tid in itasks then itasks[tid] else []);
      if one.KeyError? {
        return KeyError(one.tid);
      }
      extradeps := extradeps[tid := one.value];
    }
    return Ok(extradeps);
  }

  /** Remove circular references between recursive tasks. */
  method DropSelfRefs(extradeps: Graph<Tid>, selfref: set<Tid>) returns (pruned: Graph<Tid>)
    ensures pruned.Keys == extradeps.Keys
    ensures forall t :: t in extradeps ==> pruned[t] == extradeps[t] - selfref
  {
    pruned := extradeps;
    var todo := extradeps.Keys;
    while todo != {}
      invariant todo <= extradeps.Keys == pruned.Keys
      invariant forall t :: t in extradeps ==> pruned[t] == if t in todo then extradeps[t] else extradeps[t] - selfref
    {
      var tid :| tid in todo;
      todo := todo - {tid};
      pruned := pruned[tid := pruned[tid] - selfref];
    }
  }

  /** Install the extra dependencies and remove self references. */
  method InstallExtraDeps(depends: Graph<Tid>, extradeps: Graph<Tid>) returns (final: Graph<Tid>)
    requires extradeps.Keys <= depends.Keys
    ensures final.Keys == depends.Keys
    ensures forall t :: t in depends ==> final[t] == (if t in extradeps then extradeps[t] else depends[t]) - {t}
  {
    final := depends;
    var todo := depends.Keys;
    while todo != {}
      invariant todo <= depends.Keys == final.Keys
      invariant forall t :: t in todo ==> final[t] == depends[t]
      invariant forall t :: t in depends && t !in todo ==>
        final[t] == (if t in extradeps then extradeps[t] else depends[t]) - {t}
    {
      var tid :| tid in todo;
      todo := todo - {tid};
      if tid in extradeps {
        final := final[tid := extradeps[tid]];
      }
      if tid in final[tid] {
        final := final[tid := final[tid] - {tid}];
      }
    }
  }

  /** The result is again a graph over the same tasks, and no task waits for itself. */
  lemma FinalDependsClosed(depends: Graph<Tid>, names: map<Tid, seq<string>>, itasks: map<Tid, seq<Tid>>,
                           selfref: set<Tid>)
    requires Closed(depends)
    ensures Closed(FinalDepends(depends, names, itasks, selfref))
    ensures FinalDepends(depends, names, itasks, selfref).Keys == depends.Keys
    ensures forall t :: t in depends ==> t !in FinalDepends(depends, names, itasks, selfref)[t]
  {
  }
}
