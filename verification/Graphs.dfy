/** Finite directed graphs as the run queue keeps them: every task maps to the set
    of tasks it depends on (or, inverted, of the tasks that depend on it). */
module Graphs {

  type Graph<T(==)> = map<T, set<T>>

  /** Every edge leads to a node of the graph. */
  ghost predicate Closed<T>(g: Graph<T>) {
    forall t {:trigger g[t]} :: t in g ==> g[t] <= g.Keys
  }

  /** `b` is reached from `a` in exactly `n` edges. */
  ghost predicate Steps<T>(g: Graph<T>, a: T, b: T, n: nat) {
    if n == 0 then a == b
    else a in g && exists c :: c in g[a] && Steps(g, c, b, n - 1)
  }

  /** The reflexive-transitive closure of the edges. */
  ghost predicate Reach<T>(g: Graph<T>, a: T, b: T) {
    exists n: nat :: Steps(g, a, b, n)
  }

  ghost predicate OnCycle<T>(g: Graph<T>, t: T) {
    t in g && exists c :: c in g[t] && Reach(g, c, t)
  }

  ghost predicate Acyclic<T>(g: Graph<T>) {
    forall t :: t in g ==> !OnCycle(g, t)
  }

  ghost predicate ReachesCycle<T(!new)>(g: Graph<T>, t: T) {
    exists c :: Reach(g, t, c) && OnCycle(g, c)
  }

  /** Everything reached from some root. */
  ghost predicate ReachFrom<T>(g: Graph<T>, roots: set<T>, b: T) {
    exists r :: r in roots && Reach(g, r, b)
  }

  /** No edge leaves `s`. */
  ghost predicate ClosedUnder<T>(g: Graph<T>, s: set<T>) {
    forall t :: t in s && t in g ==> g[t] <= s
  }

  /** `r` holds exactly the edges of `g`, turned round. */
  ghost predicate Inverse<T>(g: Graph<T>, r: Graph<T>) {
    && g.Keys == r.Keys
    && Closed(g)
    && Closed(r)
    && (forall a, b {:trigger b in g[a]} {:trigger a in r[b]} :: a in g && b in r ==> (b in g[a] <==> a in r[b]))
  }

  /** A certificate of acyclicity: ranks drop along every edge. */
  ghost predicate Ranked<T>(g: Graph<T>, rank: map<T, nat>) {
    && rank.Keys == g.Keys
    && (forall a, b :: a in g && b in g[a] && b in g ==> rank[b] < rank[a])
  }

  lemma UnionAssoc<T>(a: set<T>, b: set<T>, c: set<T>)
    ensures a + b + c == a + (b + c)
  {
  }

  lemma HeadIn<T>(s: seq<T>)
    ensures s == [] || s[0] in s
  {
  }

  lemma ConcatAssoc<T>(a: seq<T>, b: seq<T>, c: seq<T>)
    ensures a + b + c == a + (b + c)
  {
  }

  // ---- reachability ----

  lemma ReachRefl<T>(g: Graph<T>, a: T)
    ensures Reach(g, a, a)
  {
    assert Steps(g, a, a, 0);
  }

  lemma ReachCons<T>(g: Graph<T>, a: T, c: T, b: T)
    requires a in g && c in g[a] && Reach(g, c, b)
    ensures Reach(g, a, b)
  {
    var n: nat :| Steps(g, c, b, n);
    assert Steps(g, a, b, n + 1);
  }

  lemma ReachEdge<T>(g: Graph<T>, a: T, b: T)
    requires a in g && b in g[a]
    ensures Reach(g, a, b)
  {
    ReachRefl(g, b);
    ReachCons(g, a, b, b);
  }

  /** A path either is empty or starts with an edge. */
  lemma ReachFirst<T>(g: Graph<T>, a: T, b: T) returns (c: T)
    requires Reach(g, a, b) && a != b
    ensures a in g && c in g[a] && Reach(g, c, b)
  {
    var n: nat :| Steps(g, a, b, n);
    c :| c in g[a] && Steps(g, c, b, n - 1);
  }

  lemma {:induction false} StepsTrans<T>(g: Graph<T>, a: T, b: T, c: T, m: nat, n: nat)
    requires Steps(g, a, b, m) && Steps(g, b, c, n)
    ensures Steps(g, a, c, m + n)
    decreases m
  {
    if m == 0 {
    } else {
      var x :| x in g[a] && Steps(g, x, b, m - 1);
      StepsTrans(g, x, b, c, m - 1, n);
    }
  }

  lemma ReachTrans<T>(g: Graph<T>, a: T, b: T, c: T)
    requires Reach(g, a, b) && Reach(g, b, c)
    ensures Reach(g, a, c)
  {
    var m: nat :| Steps(g, a, b, m);
    var n: nat :| Steps(g, b, c, n);
    StepsTrans(g, a, b, c, m, n);
  }

  lemma ReachSnoc<T>(g: Graph<T>, a: T, b: T, c: T)
    requires Reach(g, a, b) && b in g && c in g[b]
    ensures Reach(g, a, c)
  {
    ReachEdge(g, b, c);
    ReachTrans(g, a, b, c);
  }

  lemma {:induction false} StepsStayInside<T>(g: Graph<T>, s: set<T>, a: T, b: T, n: nat)
    requires ClosedUnder(g, s) && a in s && Steps(g, a, b, n)
    ensures b in s
    decreases n
  {
    if n == 0 {
    } else {
      var c :| c in g[a] && Steps(g, c, b, n - 1);
      StepsStayInside(g, s, c, b, n - 1);
    }
  }

  /** A set no edge leaves holds everything reached from its members. */
  lemma ReachStaysInside<T>(g: Graph<T>, s: set<T>, a: T, b: T)
    requires ClosedUnder(g, s) && a in s && Reach(g, a, b)
    ensures b in s
  {
    var n: nat :| Steps(g, a, b, n);
    StepsStayInside(g, s, a, b, n);
  }

  /** A closed set that holds the roots and only reached nodes is exactly the reached set. */
  lemma ExactlyReached<T(!new)>(g: Graph<T>, roots: set<T>, s: set<T>)
    requires ClosedUnder(g, s) && roots <= s
    requires forall b :: b in s ==> ReachFrom(g, roots, b)
    ensures forall b :: b in s <==> ReachFrom(g, roots, b)
  {
    forall b | ReachFrom(g, roots, b)
      ensures b in s
    {
      var r :| r in roots && Reach(g, r, b);
      ReachStaysInside(g, s, r, b);
    }
  }

  lemma ReachFromSnoc<T>(g: Graph<T>, roots: set<T>, b: T, c: T)
    requires ReachFrom(g, roots, b) && b in g && c in g[b]
    ensures ReachFrom(g, roots, c)
  {
    var r :| r in roots && Reach(g, r, b);
    ReachSnoc(g, r, b, c);
  }

  // ---- collecting what lies ahead of a node, round by round ----

  /** Between two rounds: `seen` leads to what was seen or comes `next`, and all of it lies
      ahead of the node. */
  ghost predicate Collecting<T(!new)>(g: Graph<T>, node: T, seen: set<T>, next: set<T>) {
    && node in g && seen !! next && seen + next <= g.Keys
    && g[node] <= seen + next && (forall v :: v in seen ==> g[v] <= seen + next)
    && (forall v :: v in seen || v in next ==> ReachFrom(g, g[node], v))
  }

  lemma CollectStart<T(!new)>(g: Graph<T>, node: T)
    requires Closed(g) && node in g
    ensures Collecting(g, node, {}, g[node])
  {
    forall v | v in g[node]
      ensures ReachFrom(g, g[node], v)
    {
      ReachRefl(g, v);
    }
  }

  /** One round: `found` is what the nodes that come next lead to. */
  lemma CollectStep<T(!new)>(g: Graph<T>, node: T, seen: set<T>, next: set<T>, found: set<T>)
    requires Closed(g) && Collecting(g, node, seen, next)
    requires forall v :: v in next && v in g ==> g[v] <= found
    requires forall w :: w in found ==> exists v :: v in next && v in g && w in g[v]
    ensures Collecting(g, node, seen + next, found - (seen + next))
    ensures next != {} ==> |g.Keys - (seen + next)| < |g.Keys - seen|
  {
    hide ReachFrom;
    forall w | w in found
      ensures ReachFrom(g, g[node], w) && w in g
    {
      var v :| v in next && v in g && w in g[v];
      ReachFromSnoc(g, g[node], v, w);
    }
    if next != {} {
      var v :| v in next;
      assert v in g.Keys - seen;
      SmallerSet(g.Keys - (seen + next), g.Keys - seen);
    }
  }

  lemma CollectDone<T(!new)>(g: Graph<T>, node: T, seen: set<T>)
    requires Collecting(g, node, seen, {})
    ensures ClosedUnder(g, seen) && g[node] <= seen
    ensures forall v :: v in seen <==> ReachFrom(g, g[node], v)
  {
    ExactlyReached(g, g[node], seen);
  }

  lemma CollectNext<T(!new)>(g: Graph<T>, node: T, seen: set<T>, next: set<T>)
    requires Collecting(g, node, seen, next)
    ensures next <= g.Keys
  {
  }

  // ---- inverses ----

  lemma {:induction false} StepsInverse<T>(g: Graph<T>, r: Graph<T>, a: T, b: T, n: nat)
    requires Inverse(g, r) && a in g && Steps(g, a, b, n)
    ensures b in g && Reach(r, b, a)
    decreases n
  {
    if n == 0 {
      ReachRefl(r, a);
    } else {
      var c :| c in g[a] && Steps(g, c, b, n - 1);
      StepsInverse(g, r, c, b, n - 1);
      ReachSnoc(r, b, c, a);
    }
  }

  lemma ReachInverse<T>(g: Graph<T>, r: Graph<T>, a: T, b: T)
    requires Inverse(g, r) && a in g && Reach(g, a, b)
    ensures b in g && Reach(r, b, a)
  {
    var n: nat :| Steps(g, a, b, n);
    StepsInverse(g, r, a, b, n);
  }

  lemma InverseSymmetric<T>(g: Graph<T>, r: Graph<T>)
    requires Inverse(g, r)
    ensures Inverse(r, g)
  {
  }

  lemma OnCycleInverse<T>(g: Graph<T>, r: Graph<T>, t: T)
    requires Inverse(g, r) && OnCycle(g, t)
    ensures OnCycle(r, t)
  {
    var c :| c in g[t] && Reach(g, c, t);
    // the last edge of the cycle leads into t from some p
    ReachInverse(g, r, c, t);
    if c == t {
      ReachRefl(r, t);
      assert t in r[t];
    } else {
      var p := ReachFirst(r, t, c);
      assert t in r[c];
      ReachSnoc(r, p, c, t);
    }
  }

  lemma AcyclicInverse<T>(g: Graph<T>, r: Graph<T>)
    requires Inverse(g, r) && Acyclic(g)
    ensures Acyclic(r)
  {
    InverseSymmetric(g, r);
    forall t | t in r
      ensures !OnCycle(r, t)
    {
      if OnCycle(r, t) {
        OnCycleInverse(r, g, t);
      }
    }
  }

  // ---- cycles ----

  /** Every member of `s` has an edge back into `s`. */
  ghost predicate Trapped<T>(g: Graph<T>, s: set<T>) {
    s <= g.Keys && forall x {:trigger g[x]} :: x in s ==> g[x] * s != {}
  }

  /** A non-empty set from which no member gets out leads to a cycle. */
  lemma {:induction false} TrappedReachesCycle<T(!new)>(g: Graph<T>, s: set<T>, t: T)
    requires t in s && Trapped(g, s)
    ensures ReachesCycle(g, t)
    decreases |s|
  {
    if OnCycle(g, t) {
      ReachRefl(g, t);
    } else {
      var next :| next in g[t] * s;
      // what lies strictly ahead of t is a smaller trapped set
      var ahead := set x | x in s && Reach(g, next, x);
      ReachRefl(g, next);
      assert t !in ahead;
      assert ahead < s;
      SmallerSet(ahead, s);
      forall x {:trigger g[x]} | x in ahead
        ensures g[x] * ahead != {}
      {
        var y :| y in g[x] * s;
        ReachSnoc(g, next, x, y);
        assert y in g[x] * ahead;
      }
      TrappedReachesCycle(g, ahead, next);
      var c :| Reach(g, next, c) && OnCycle(g, c);
      ReachCons(g, t, next, c);
    }
  }

  lemma {:induction false} SmallerSet<T>(a: set<T>, b: set<T>)
    requires a < b
    ensures |a| < |b|
  {
    assert b == a + (b - a);
    assert |b| == |a| + |b - a|;
  }

  lemma {:induction false} SubsetSize<T>(a: set<T>, b: set<T>)
    requires a <= b
    ensures |a| <= |b|
  {
    if a != b {
      SmallerSet(a, b);
    }
  }

  /** A node leads to a cycle exactly when one of its successors does. */
  lemma ReachesCycleStep<T(!new)>(g: Graph<T>, t: T)
    ensures ReachesCycle(g, t) <==> t in g && exists s :: s in g[t] && ReachesCycle(g, s)
  {
    if ReachesCycle(g, t) {
      var c :| Reach(g, t, c) && OnCycle(g, c);
      if t == c {
        var d :| d in g[t] && Reach(g, d, t);
        assert ReachesCycle(g, d);
      } else {
        var d := ReachFirst(g, t, c);
        assert ReachesCycle(g, d);
      }
    }
    if t in g && exists s :: s in g[t] && ReachesCycle(g, s) {
      var s :| s in g[t] && ReachesCycle(g, s);
      var c :| Reach(g, s, c) && OnCycle(g, c);
      ReachCons(g, t, s, c);
    }
  }

  /** Acyclic graphs are well founded: a non-empty set of nodes has a member with
      no edge back into the set. */
  lemma MinimalNode<T(!new)>(g: Graph<T>, s: set<T>) returns (t: T)
    requires Acyclic(g) && s != {} && s <= g.Keys
    ensures t in s && forall u :: u in g[t] ==> u !in s
  {
    if Trapped(g, s) {
      var x :| x in s;
      TrappedReachesCycle(g, s, x);
      assert false;
    }
    t :| t in s && g[t] * s == {};
    forall u | u in g[t]
      ensures u !in s
    {
      assert u !in g[t] * s;
    }
  }

  /** Every acyclic graph has a ranking ... */
  lemma RankingExists<T(!new)>(g: Graph<T>) returns (rank: map<T, nat>)
    requires Acyclic(g)
    ensures Ranked(g, rank)
  {
    rank := map[];
    var left := g.Keys;
    while left != {}
      invariant left <= g.Keys && rank.Keys == g.Keys - left
      invariant forall a :: a in rank ==> rank[a] < |g.Keys| - |left|
      invariant forall a, b :: a in rank && b in g[a] && b in g ==> b in rank && rank[b] < rank[a]
      decreases |left|
    {
      var t := MinimalNode(g, left);
      var next := left - {t};
      assert |next| == |left| - 1;
      SubsetSize(left, g.Keys);
      rank := rank[t := |g.Keys| - |left|];
      left := next;
    }
    assert rank.Keys == g.Keys;
  }

  lemma {:induction false} RankDropsAlongPath<T>(g: Graph<T>, rank: map<T, nat>, a: T, b: T, n: nat)
    requires Ranked(g, rank) && b in g && Steps(g, a, b, n)
    ensures a in g && rank[b] + n <= rank[a]
    decreases n
  {
    if n == 0 {
    } else {
      var c :| c in g[a] && Steps(g, c, b, n - 1);
      RankDropsAlongPath(g, rank, c, b, n - 1);
    }
  }

  /** ... and a ranking rules out cycles. */
  lemma RankingRulesOutCycles<T(!new)>(g: Graph<T>, rank: map<T, nat>)
    requires Ranked(g, rank)
    ensures Acyclic(g)
  {
    forall t | t in g
      ensures !OnCycle(g, t)
    {
      if OnCycle(g, t) {
        var c :| c in g[t] && Reach(g, c, t);
        var n: nat :| Steps(g, c, t, n);
        RankDropsAlongPath(g, rank, c, t, n);
      }
    }
  }
}
