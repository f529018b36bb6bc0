/** What the order of the starting points can change in the collapse. Besides its direct
    ancestors, a setscene task may or may not get tasks that depend on a setscene task above
    it; exactly which ones some order gives it is a matter of the graph alone. */
module CollapseOrder {
  import opened Graphs
  import opened Sequences
  import opened Tasks
  import opened SceneCollapse

  /** Some order lets a starting point enter `n`: all that depends on `n` are starting
      points, or an ordinary task that a setscene task depends on itself depends on `n`. */
  ghost predicate MayEnter(depends: Graph<Tid>, revdeps: Graph<Tid>, scene: set<Tid>, n: Tid) {
    n in revdeps
    && ((forall q :: q in revdeps[n] ==> q in StartMarks(depends, revdeps, scene))
        || exists q :: q in revdeps[n] && q !in scene && ScenesAbove(depends, scene, q) != {})
  }

  /** `x` depends itself on the setscene task `y`, which may enter its ordinary dependency `n`. */
  ghost predicate MayPass(depends: Graph<Tid>, revdeps: Graph<Tid>, scene: set<Tid>, x: Tid, y: Tid, n: Tid) {
    && y in scene && y in depends && x in ScenesAbove(depends, scene, y)
    && n in depends[y] && n !in scene && MayEnter(depends, revdeps, scene, n)
  }

  ghost predicate MayGet(depends: Graph<Tid>, revdeps: Graph<Tid>, scene: set<Tid>, x: Tid, s: Tid) {
    || DirectAncestor(depends, scene, x, s)
    || exists y, n :: MayPass(depends, revdeps, scene, x, y, n) && Reach(Between(depends, scene), n, s)
  }

  // ---- only what may enter does ----

  lemma {:induction false} EntryMay(depends: Graph<Tid>, revdeps: Graph<Tid>, scene: set<Tid>, order: seq<Tid>, n: Tid)
    requires Inverse(depends, revdeps) && forall t :: t in order ==> t in StartMarks(depends, revdeps, scene)
    requires n in depends && Entry(depends, revdeps, scene, StartMarks(depends, revdeps, scene), order, n).Some?
    ensures MayEnter(depends, revdeps, scene, n)
    decreases |order|
  {
    hide StartMarks;
    var points := StartMarks(depends, revdeps, scene);
    var front, p := order[..|order| - 1], order[|order| - 1];
    if p in depends && n in depends[p] && n !in scene
      && (Freed(revdeps, order, n) || Holds(depends, scene, points, order, n)) {
      if !Freed(revdeps, order, n) {
        HolderMarks(depends, revdeps, scene, order, n);
      }
    } else {
      EntryMay(depends, revdeps, scene, front, n);
    }
  }

  /** A held mark was handed on by an ordinary task that a setscene task depends on. */
  lemma {:induction false} HolderMarks(depends: Graph<Tid>, revdeps: Graph<Tid>, scene: set<Tid>, order: seq<Tid>,
                                       n: Tid)
    requires Inverse(depends, revdeps) && forall t :: t in order ==> t in StartMarks(depends, revdeps, scene)
    requires n in depends && Holds(depends, scene, StartMarks(depends, revdeps, scene), order, n)
    ensures exists q :: q in revdeps[n] && q !in scene && ScenesAbove(depends, scene, q) != {}
    decreases |order|
  {
    var points := StartMarks(depends, revdeps, scene);
    var front, p := order[..|order| - 1], order[|order| - 1];
    if Holds(depends, scene, points, front, n) {
      HolderMarks(depends, revdeps, scene, front, n);
    } else if At(points, p) == {} {
      // nobody depends on a starting point without marks, so it holds none either
      HolderMarks(depends, revdeps, scene, front, p);
    } else {
      assert p in revdeps[n];
    }
  }

  // ---- and what may enter does in some order ----

  lemma ListSet(s: set<Tid>) returns (order: seq<Tid>)
    ensures Distinct(order) && forall t :: t in order <==> t in s
  {
    order := [];
    var left := s;
    while left != {}
      invariant left <= s && Distinct(order) && forall t :: t in order <==> t in s && t !in left
      decreases left
    {
      var t :| t in left;
      order, left := order + [t], left - {t};
    }
  }

  /** An order with some starting points at the end. */
  lemma OrderEndingIn(depends: Graph<Tid>, revdeps: Graph<Tid>, scene: set<Tid>, last: seq<Tid>)
    returns (order: seq<Tid>, before: seq<Tid>)
    requires Distinct(last) && forall t :: t in last ==> t in StartMarks(depends, revdeps, scene)
    ensures IsOrder(depends, revdeps, scene, order) && order == before + last
  {
    hide StartMarks;
    var starts := StartMarks(depends, revdeps, scene).Keys;
    before := ListSet(starts - set t | t in last);
    order := before + last;
    forall i, j | 0 <= i < j < |order|
      ensures order[i] != order[j]
    {
      if i < |before| <= j {
        assert before[i] in before && last[j - |before|] in last;
      }
    }
  }

  lemma LastEnters(depends: Graph<Tid>, revdeps: Graph<Tid>, scene: set<Tid>, x: Tid, y: Tid, n: Tid)
    returns (order: seq<Tid>)
    requires Inverse(depends, revdeps) && Acyclic(depends) && MayPass(depends, revdeps, scene, x, y, n)
    ensures IsOrder(depends, revdeps, scene, order) && EnteredWith(depends, revdeps, scene, order, x, n)
  {
    hide Acyclic;
    var points := StartMarks(depends, revdeps, scene);
    Starts(depends, revdeps, scene, y, x);
    Starts(depends, revdeps, scene, n, y);
    NoLoop(depends, y, n);
    var before;
    if forall q :: q in revdeps[n] ==> q in points {
      order, before := OrderEndingIn(depends, revdeps, scene, [y]);
      assert Freed(revdeps, order, n);
    } else {
      var q :| q in revdeps[n] && q !in scene && ScenesAbove(depends, scene, q) != {};
      var z :| z in ScenesAbove(depends, scene, q);
      Starts(depends, revdeps, scene, q, z);
      NoLoop(depends, q, n);
      order, before := OrderEndingIn(depends, revdeps, scene, [n, q, y]);
      HeldAtLast(depends, scene, points, before, n, q, y);
    }
    assert order[|order| - 1] == y;
  }

  lemma HeldAtLast(depends: Graph<Tid>, scene: set<Tid>, points: Marks, before: seq<Tid>, n: Tid, q: Tid, y: Tid)
    requires q != n && y != n && q !in scene && q in depends && n in depends[q] && At(points, q) != {}
    ensures Holds(depends, scene, points, before + [n, q, y], n)
  {
    var order := before + [n, q, y];
    var front := order[..|order| - 1];
    assert front == before + [n, q];
    assert front[|front| - 1] == q && order[|order| - 1] == y;
    assert HandsOn(depends, scene, points, front[..|front| - 1], q, n);
  }

  lemma Starts(depends: Graph<Tid>, revdeps: Graph<Tid>, scene: set<Tid>, t: Tid, x: Tid)
    requires t in depends && x in ScenesAbove(depends, scene, t)
    ensures t in StartMarks(depends, revdeps, scene) && At(StartMarks(depends, revdeps, scene), t) != {}
  {
  }

  lemma NoLoop(depends: Graph<Tid>, a: Tid, b: Tid)
    requires Acyclic(depends) && a in depends && b in depends[a]
    ensures a != b
  {
    if a == b {
      ReachRefl(depends, a);
      assert OnCycle(depends, a);
      assert false;
    }
  }

  // ---- the exact outcomes ----

  /** Some order gives `x` to `s` exactly when `x` is a direct ancestor or may get past a
      setscene task to one. */
  lemma SomeOrderGives(depends: Graph<Tid>, revdeps: Graph<Tid>, scene: set<Tid>, x: Tid, s: Tid)
    requires Inverse(depends, revdeps) && Acyclic(depends)
    ensures (exists order :: IsOrder(depends, revdeps, scene, order) && Kept(depends, revdeps, scene, order, x, s))
       <==> MayGet(depends, revdeps, scene, x, s)
  {
    hide Acyclic, StartMarks, DirectAncestor, Inverse;
    if order :| IsOrder(depends, revdeps, scene, order) && Kept(depends, revdeps, scene, order, x, s) {
      KeptMayBe(depends, revdeps, scene, order, x, s);
    }
    if DirectAncestor(depends, scene, x, s) {
      var order, before := OrderEndingIn(depends, revdeps, scene, []);
      assert Kept(depends, revdeps, scene, order, x, s);
    }
    if y, n :| MayPass(depends, revdeps, scene, x, y, n) && Reach(Between(depends, scene), n, s) {
      var order := LastEnters(depends, revdeps, scene, x, y, n);
      assert Kept(depends, revdeps, scene, order, x, s);
    }
  }

  lemma KeptMayBe(depends: Graph<Tid>, revdeps: Graph<Tid>, scene: set<Tid>, order: seq<Tid>, x: Tid, s: Tid)
    requires Inverse(depends, revdeps) && IsOrder(depends, revdeps, scene, order)
      && Kept(depends, revdeps, scene, order, x, s)
    ensures MayGet(depends, revdeps, scene, x, s)
  {
    hide StartMarks;
    if !DirectAncestor(depends, scene, x, s) {
      var n :| EnteredWith(depends, revdeps, scene, order, x, n) && Reach(Between(depends, scene), n, s);
      EntryIs(depends, revdeps, scene, order, n);
      EntryMay(depends, revdeps, scene, order, n);
      var y := Entry(depends, revdeps, scene, StartMarks(depends, revdeps, scene), order, n).value;
      assert MayPass(depends, revdeps, scene, x, y, n);
    }
  }

  /** Every order gives exactly the direct ancestors, if and only if nothing but direct
      ancestors may get past a setscene task. */
  lemma DirectOnlyIff(depends: Graph<Tid>, revdeps: Graph<Tid>, scene: set<Tid>)
    requires Inverse(depends, revdeps) && Acyclic(depends)
    ensures (forall order, x, s :: IsOrder(depends, revdeps, scene, order) && s in scene ==>
               (Kept(depends, revdeps, scene, order, x, s) <==> DirectAncestor(depends, scene, x, s)))
       <==> (forall x, s :: s in scene && MayGet(depends, revdeps, scene, x, s) ==>
             DirectAncestor(depends, scene, x, s))
  {
    hide Acyclic, StartMarks, DirectAncestor, Inverse, MayGet, IsOrder;
    forall x, s | s in scene
      ensures (exists order :: IsOrder(depends, revdeps, scene, order) && Kept(depends, revdeps, scene, order, x, s))
         <==> MayGet(depends, revdeps, scene, x, s)
    {
      SomeOrderGives(depends, revdeps, scene, x, s);
    }
    forall order, x, s | DirectAncestor(depends, scene, x, s)
      ensures Kept(depends, revdeps, scene, order, x, s)
    {
    }
  }

  /** Where no setscene task depends on another with nothing in between, that is so. */
  lemma NoEdgesDirectOnly(depends: Graph<Tid>, revdeps: Graph<Tid>, scene: set<Tid>, order: seq<Tid>, x: Tid, s: Tid)
    requires IsOrder(depends, revdeps, scene, order)
    requires forall y, z :: y in scene && y in depends && z in depends[y] ==> z !in scene
    ensures Kept(depends, revdeps, scene, order, x, s) <==> DirectAncestor(depends, scene, x, s)
  {
    hide StartMarks, IsOrder, DirectAncestor;
  }

  /** A setscene task that alone depends on an ordinary one passes on what depends on it
      itself, whatever the order. */
  lemma SoleDependantPasses(depends: Graph<Tid>, revdeps: Graph<Tid>, scene: set<Tid>, order: seq<Tid>, x: Tid, y: Tid,
                            n: Tid, s: Tid)
    requires Inverse(depends, revdeps) && IsOrder(depends, revdeps, scene, order)
    requires y in scene && y in depends && x in ScenesAbove(depends, scene, y)
    requires n in depends && revdeps[n] == {y} && n !in scene && Reach(Between(depends, scene), n, s)
    ensures Kept(depends, revdeps, scene, order, x, s)
  {
    hide StartMarks, DirectAncestor;
    var points := StartMarks(depends, revdeps, scene);
    Starts(depends, revdeps, scene, y, x);
    OnlyEntry(depends, revdeps, scene, points, order, y, n);
    assert EnteredWith(depends, revdeps, scene, order, x, n);
  }

  lemma {:induction false} OnlyEntry(depends: Graph<Tid>, revdeps: Graph<Tid>, scene: set<Tid>, points: Marks,
                                     order: seq<Tid>, y: Tid, n: Tid)
    requires Inverse(depends, revdeps) && n in depends && revdeps[n] == {y} && n !in scene && y in order
    ensures Entry(depends, revdeps, scene, points, order, n) == Some(y)
    decreases |order|
  {
    var front, p := order[..|order| - 1], order[|order| - 1];
    assert order == front + [p];
    if p == y {
      assert Freed(revdeps, order, n);
    } else {
      assert p in depends ==> n !in depends[p];
      OnlyEntry(depends, revdeps, scene, points, front, y, n);
    }
  }

  /** When only setscene tasks depend on an ordinary one, the one processed last passes. */
  lemma {:induction false} LastDependantPasses(depends: Graph<Tid>, revdeps: Graph<Tid>, scene: set<Tid>, points: Marks,
                                               before: seq<Tid>, y: Tid, after: seq<Tid>, n: Tid)
    requires Inverse(depends, revdeps) && n in depends && n !in scene && y in revdeps[n]
    requires forall q :: q in revdeps[n] ==> q in before + [y] && q !in after
    ensures Entry(depends, revdeps, scene, points, before + [y] + after, n) == Some(y)
    decreases |after|
  {
    var order := before + [y] + after;
    if after == [] {
      assert order == before + [y];
      assert Freed(revdeps, order, n);
    } else {
      var front, p := after[..|after| - 1], after[|after| - 1];
      assert order[..|order| - 1] == before + [y] + front && order[|order| - 1] == p;
      assert p in after && p !in revdeps[n];
      LastDependantPasses(depends, revdeps, scene, points, before, y, front, n);
    }
  }

  ghost predicate Apart(x: Tid, y: Tid, w: Tid, z: Tid, n: Tid, s: Tid) {
    x !in {y, w, z, n, s} && y !in {w, z, n, s} && w !in {z, n, s} && z !in {n, s} && n != s
  }

  /** Two setscene tasks `y` and `z` share an ordinary dependency: which of the tasks that
      depend on them `s` is put after is decided by which of the two comes last. */
  lemma OrderMatters(x: Tid, y: Tid, w: Tid, z: Tid, n: Tid, s: Tid)
    requires Apart(x, y, w, z, n, s)
    ensures var depends, revdeps := map[x := {y}, w := {z}, y := {n}, z := {n}, n := {s}, s := {}],
                                    map[x := {}, w := {}, y := {x}, z := {w}, n := {y, z}, s := {n}];
            var scene := {x, y, w, z, s};
            && Inverse(depends, revdeps) && IsOrder(depends, revdeps, scene, [n, y, z])
            && Kept(depends, revdeps, scene, [n, y, z], w, s) && !Kept(depends, revdeps, scene, [n, y, z], x, s)
  {
    hide IsOrder, StartMarks, ScenesAbove, DirectAncestor, Inverse;
    var depends, revdeps := map[x := {y}, w := {z}, y := {n}, z := {n}, n := {s}, s := {}],
                            map[x := {}, w := {}, y := {x}, z := {w}, n := {y, z}, s := {n}];
    var scene, order := {x, y, w, z, s}, [n, y, z];
    var points := StartMarks(depends, revdeps, scene);
    ExampleInverse(x, y, w, z, n, s, depends, revdeps);
    ExampleAbove(x, y, w, z, n, s, depends, scene);
    ExampleOrder(x, y, w, z, n, s, depends, revdeps, scene);
    assert order == [n, y] + [z] + [];
    LastDependantPasses(depends, revdeps, scene, points, [n, y], z, [], n);
    ReachEdge(Between(depends, scene), n, s);
    assert EnteredWith(depends, revdeps, scene, order, w, n);
    NotDirect(depends, scene, x, y, s);
    forall m
      ensures !EnteredWith(depends, revdeps, scene, order, x, m)
    {
      EntryIs(depends, revdeps, scene, order, m);
    }
  }

  lemma ExampleInverse(x: Tid, y: Tid, w: Tid, z: Tid, n: Tid, s: Tid, depends: Graph<Tid>, revdeps: Graph<Tid>)
    requires Apart(x, y, w, z, n, s)
    requires depends == map[x := {y}, w := {z}, y := {n}, z := {n}, n := {s}, s := {}]
    requires revdeps == map[x := {}, w := {}, y := {x}, z := {w}, n := {y, z}, s := {n}]
    ensures Inverse(depends, revdeps)
  {
    assert depends[x] == {y} && depends[w] == {z} && depends[y] == depends[z] == {n} && depends[n] == {s};
    assert revdeps[y] == {x} && revdeps[z] == {w} && revdeps[n] == {y, z} && revdeps[s] == {n};
    assert depends[s] == revdeps[x] == revdeps[w] == {};
    forall a, b | a in depends && b in revdeps
      ensures b in depends[a] <==> a in revdeps[b]
    {
    }
  }

  lemma ExampleAbove(x: Tid, y: Tid, w: Tid, z: Tid, n: Tid, s: Tid, depends: Graph<Tid>, scene: set<Tid>)
    requires Apart(x, y, w, z, n, s) && scene == {x, y, w, z, s}
    requires depends == map[x := {y}, w := {z}, y := {n}, z := {n}, n := {s}, s := {}]
    ensures ScenesAbove(depends, scene, y) == {x} && ScenesAbove(depends, scene, z) == {w}
    ensures ScenesAbove(depends, scene, n) == {y, z} && ScenesAbove(depends, scene, s) == {}
    ensures ScenesAbove(depends, scene, x) == ScenesAbove(depends, scene, w) == {}
  {
  }

  lemma ExampleOrder(x: Tid, y: Tid, w: Tid, z: Tid, n: Tid, s: Tid, depends: Graph<Tid>, revdeps: Graph<Tid>,
                     scene: set<Tid>)
    requires Apart(x, y, w, z, n, s) && scene == {x, y, w, z, s}
    requires depends == map[x := {y}, w := {z}, y := {n}, z := {n}, n := {s}, s := {}]
    requires revdeps == map[x := {}, w := {}, y := {x}, z := {w}, n := {y, z}, s := {n}]
    ensures IsOrder(depends, revdeps, scene, [n, y, z])
  {
    hide IsOrder, ScenesAbove;
    ExampleAbove(x, y, w, z, n, s, depends, scene);
    StartsListed(depends, revdeps, scene, [n, y, z]);
  }

  lemma StartsListed(depends: Graph<Tid>, revdeps: Graph<Tid>, scene: set<Tid>, order: seq<Tid>)
    requires Distinct(order) && forall t :: t in order <==> t in StartMarks(depends, revdeps, scene)
    ensures IsOrder(depends, revdeps, scene, order)
  {
  }

  lemma NotDirect(depends: Graph<Tid>, scene: set<Tid>, x: Tid, y: Tid, s: Tid)
    requires x in depends && depends[x] == {y} && y in scene && y != s
    ensures !DirectAncestor(depends, scene, x, s)
  {
    if Reach(Between(depends, scene), y, s) {
      var c := ReachFirst(Between(depends, scene), y, s);
      assert false;
    }
  }
}
