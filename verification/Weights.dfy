/** Task weights and the check for circular dependencies: a frontier sweep that starts
    at the tasks nobody depends on and moves to a task once everything that depends on
    it has been processed. */
module Weights {
  import opened Graphs
  import opened Sequences
  import opened Tasks

  ghost function Sum(s: set<Tid>, w: map<Tid, int>): int
    requires s <= w.Keys
  {
    if s == {} then 0 else
      var t :| t in s;
      w[t] + Sum(s - {t}, w)
  }

  lemma {:induction false} SumRemove(s: set<Tid>, w: map<Tid, int>, t: Tid)
    requires s <= w.Keys && t in s
    ensures Sum(s, w) == w[t] + Sum(s - {t}, w)
    decreases |s|
  {
    var u :| u in s && Sum(s, w) == w[u] + Sum(s - {u}, w);
    if u == t {
    } else {
      SumRemove(s - {u}, w, t);
      SumRemove(s - {t}, w, u);
      assert s - {u} - {t} == s - {t} - {u};
    }
  }

  lemma {:induction false} SumAgree(s: set<Tid>, w: map<Tid, int>, v: map<Tid, int>)
    requires s <= w.Keys && s <= v.Keys
    requires forall t :: t in s ==> w[t] == v[t]
    ensures Sum(s, w) == Sum(s, v)
    decreases |s|
  {
    if s == {} {
    } else {
      var t :| t in s;
      SumRemove(s, w, t);
      SumRemove(s, v, t);
      SumAgree(s - {t}, w, v);
    }
  }

  lemma {:induction false} SumAtLeast(s: set<Tid>, w: map<Tid, int>, t: Tid)
    requires s <= w.Keys && (forall u :: u in s ==> w[u] >= 1)
    ensures Sum(s, w) >= 0 && (t in s ==> Sum(s, w) >= w[t])
    decreases |s|
  {
    if s == {} {
    } else {
      var u :| u in s;
      if t in s {
        SumRemove(s, w, t);
        SumAtLeast(s - {t}, w, t);
      } else {
        SumRemove(s, w, u);
        SumAtLeast(s - {u}, w, t);
      }
    }
  }

  function Base(revdeps: Graph<Tid>, t: Tid): int
    requires t in revdeps
  {
    if revdeps[t] == {} then 10 else 1
  }

  /** The weight equation at `t`: a base plus the weight of everything that waits for `t`. */
  ghost predicate Weighs(revdeps: Graph<Tid>, w: map<Tid, int>, t: Tid)
    requires t in revdeps && Closed(revdeps) && w.Keys == revdeps.Keys
  {
    w[t] == Base(revdeps, t) + Sum(revdeps[t], w)
  }

  ghost predicate IsWeighting(revdeps: Graph<Tid>, w: map<Tid, int>)
    requires Closed(revdeps)
  {
    w.Keys == revdeps.Keys && forall t :: t in revdeps ==> Weighs(revdeps, w, t)
  }

  /** What that comes to: ten where nobody waits, and one more than whoever waits alone. */
  lemma WeightOf(revdeps: Graph<Tid>, w: map<Tid, int>, t: Tid, u: Tid, v: Tid)
    requires Closed(revdeps) && IsWeighting(revdeps, w) && t in revdeps
    ensures revdeps[t] == {} ==> w[t] == 10
    ensures revdeps[t] == {u} ==> w[t] == 1 + w[u]
    ensures revdeps[t] == {u, v} && u != v ==> w[t] == 1 + w[u] + w[v]
  {
    assert Weighs(revdeps, w, t);
    if revdeps[t] == {u} {
      SumRemove({u}, w, u);
      assert {u} - {u} == {};
    } else if revdeps[t] == {u, v} && u != v {
      SumRemove({u, v}, w, u);
      assert {u, v} - {u} == {v};
      SumRemove({v}, w, v);
      assert {v} - {v} == {};
    }
  }

  lemma WeightsPositive(revdeps: Graph<Tid>, w: map<Tid, int>)
    requires Closed(revdeps) && Acyclic(revdeps) && IsWeighting(revdeps, w)
    ensures forall t :: t in w ==> w[t] >= 1
  {
    var bad := set t | t in w && w[t] < 1;
    if bad != {} {
      var t := MinimalNode(revdeps, bad);
      WeightPositive(revdeps, w, t);
      assert false;
    }
    forall t | t in w
      ensures w[t] >= 1
    {
      assert t !in bad;
    }
  }

  /** A task is strictly heavier than everything that waits for it. */
  lemma HeavierThanDependants(revdeps: Graph<Tid>, w: map<Tid, int>, t: Tid, r: Tid)
    requires Closed(revdeps) && Acyclic(revdeps) && IsWeighting(revdeps, w)
    requires t in revdeps && r in revdeps[t]
    ensures w[t] > w[r]
  {
    WeightsPositive(revdeps, w);
    SumAtLeast(revdeps[t], w, r);
    assert Weighs(revdeps, w, t);
  }

  lemma SameWeight(revdeps: Graph<Tid>, w: map<Tid, int>, v: map<Tid, int>, t: Tid)
    requires Closed(revdeps) && w.Keys == v.Keys == revdeps.Keys && t in revdeps
    requires Weighs(revdeps, w, t) && Weighs(revdeps, v, t)
    requires forall u :: u in revdeps[t] ==> w[u] == v[u]
    ensures w[t] == v[t]
  {
    SumAgree(revdeps[t], w, v);
  }

  lemma WeightPositive(revdeps: Graph<Tid>, w: map<Tid, int>, t: Tid)
    requires Closed(revdeps) && w.Keys == revdeps.Keys && t in revdeps && Weighs(revdeps, w, t)
    requires forall u :: u in revdeps[t] ==> w[u] >= 1
    ensures w[t] >= 1
  {
    SumAtLeast(revdeps[t], w, t);
  }

  /** The weight equations have one solution on an acyclic graph. */
  lemma WeightingUnique(revdeps: Graph<Tid>, w: map<Tid, int>, v: map<Tid, int>)
    requires Closed(revdeps) && Acyclic(revdeps)
    requires IsWeighting(revdeps, w) && IsWeighting(revdeps, v)
    ensures w == v
  {
    var bad := set t | t in revdeps && w[t] != v[t];
    if bad != {} {
      var t := MinimalNode(revdeps, bad);
      SameWeight(revdeps, w, v, t);
      assert false;
    }
    forall t | t in revdeps
      ensures w[t] == v[t]
    {
      assert t !in bad;
    }
  }

  // ---- the sweep ----

  /** The tasks nobody waits for, each listed once. */
  ghost predicate AreEndpoints(revdeps: Graph<Tid>, endpoints: seq<Tid>) {
    Distinct(endpoints) && forall t {:trigger t in endpoints} :: t in endpoints <==> t in revdeps && revdeps[t] == {}
  }

  /** How many dependants of `t` have not passed their weight on. */
  ghost function Unsent(revdeps: Graph<Tid>, sent: set<Tid>, t: Tid): int
    requires t in revdeps
  {
    |revdeps[t] - sent|
  }

  ghost predicate Ready(revdeps: Graph<Tid>, sent: set<Tid>, t: Tid)
    requires t in revdeps
  {
    revdeps[t] <= sent
  }

  /** The weight `t` has received from the dependants in `sent`. */
  ghost predicate Received(revdeps: Graph<Tid>, sent: set<Tid>, weight: map<Tid, int>, t: Tid)
    requires t in revdeps && t in weight && sent <= weight.Keys
  {
    weight[t] == Base(revdeps, t) + Sum(revdeps[t] * sent, weight)
  }

  /** The sweep after the tasks in `sent` have passed their weight on. `waiting` is the
      frontier: finished, but not yet passed on. */
  ghost predicate Swept(depends: Graph<Tid>, revdeps: Graph<Tid>, sent: set<Tid>, waiting: seq<Tid>,
                        weight: map<Tid, int>, depsLeft: map<Tid, int>, done: set<Tid>)
    requires Inverse(depends, revdeps)
  {
    && weight.Keys == depsLeft.Keys == depends.Keys
    && sent <= done <= depends.Keys
    && Distinct(waiting)
    && (forall t :: t in waiting <==> t in done && t !in sent)
    && (forall t {:trigger depsLeft[t]} :: t in depends ==> depsLeft[t] == Unsent(revdeps, sent, t))
    && (forall t {:trigger Ready(revdeps, sent, t)} :: t in depends ==> (t in done <==> Ready(revdeps, sent, t)))
    && (forall t {:trigger Received(revdeps, sent, weight, t)} :: t in depends ==> Received(revdeps, sent, weight, t))
    && (forall t :: t in done ==> !ReachesCycle(revdeps, t))
  }

  /** The updates one frontier task makes, stated per task. */
  ghost predicate Passed(deps: set<Tid>, tid: Tid, ready: seq<Tid>, weight: map<Tid, int>, weight': map<Tid, int>,
                         depsLeft: map<Tid, int>, depsLeft': map<Tid, int>, done: set<Tid>, done': set<Tid>)
    requires tid in weight && deps <= weight.Keys && weight.Keys == depsLeft.Keys
  {
    && weight'.Keys == depsLeft'.Keys == weight.Keys
    && (forall t :: t in weight ==> weight'[t] == if t in deps then weight[t] + weight[tid] else weight[t])
    && (forall t :: t in weight ==> depsLeft'[t] == if t in deps then depsLeft[t] - 1 else depsLeft[t])
    && (forall t :: t in done' <==> t in done || (t in deps && depsLeft[t] == 1))
    && Distinct(ready)
    && (forall t :: t in ready <==> t in deps && depsLeft[t] == 1)
  }

  /** One frontier task passes its weight to its dependencies; `ready` are those that
      were waiting for nothing else. */
  method PassOn(deps: set<Tid>, tid: Tid, weight: map<Tid, int>, depsLeft: map<Tid, int>, done: set<Tid>)
    returns (ready: seq<Tid>, weight': map<Tid, int>, depsLeft': map<Tid, int>, done': set<Tid>)
    requires tid in weight && tid !in deps && deps <= weight.Keys && weight.Keys == depsLeft.Keys
    ensures Passed(deps, tid, ready, weight, weight', depsLeft, depsLeft', done, done')
  {
    ready, weight', depsLeft', done' := [], weight, depsLeft, done;
    var todo := deps;
    while todo != {}
      invariant todo <= deps
      invariant Passed(deps - todo, tid, ready, weight, weight', depsLeft, depsLeft', done, done')
    {
      var revdep :| revdep in todo;
      todo := todo - {revdep};
      weight' := weight'[revdep := weight'[revdep] + weight'[tid]];
      depsLeft' := depsLeft'[revdep := depsLeft'[revdep] - 1];
      if depsLeft'[revdep] == 0 {
        ready := ready + [revdep];
        done' := done' + {revdep};
      }
    }
    assert deps - todo == deps;
  }

  lemma SumExtend(s: set<Tid>, sent: set<Tid>, tid: Tid, w: map<Tid, int>)
    requires s <= w.Keys && tid in s && tid !in sent
    ensures Sum(s * (sent + {tid}), w) == w[tid] + Sum(s * sent, w)
  {
    SumRemove(s * (sent + {tid}), w, tid);
    assert s * (sent + {tid}) - {tid} == s * sent;
  }

  lemma DoneClosed(depends: Graph<Tid>, revdeps: Graph<Tid>, sent: set<Tid>, waiting: seq<Tid>,
                   weight: map<Tid, int>, depsLeft: map<Tid, int>, done: set<Tid>, tid: Tid)
    requires Inverse(depends, revdeps) && Swept(depends, revdeps, sent, waiting, weight, depsLeft, done)
    requires tid in waiting
    ensures weight.Keys == depsLeft.Keys == depends.Keys == revdeps.Keys && Closed(revdeps)
    ensures tid in depends && tid in done && tid !in sent && Ready(revdeps, sent, tid)
    ensures forall t :: t in depends[tid] ==> t in depends && t !in done
    ensures forall t :: t in depends ==> (t in depends[tid] <==> tid in revdeps[t])
    ensures tid !in depends[tid]
  {
    hide Sum, ReachesCycle, Distinct, Unsent, Received;
    assert Ready(revdeps, sent, tid);
    forall t | t in depends[tid]
      ensures t !in done
    {
      assert tid in revdeps[t];
      assert Ready(revdeps, sent, t) ==> tid in sent;
    }
  }

  /** One task leaves the frontier and passes its weight on. */
  lemma SweepStep(depends: Graph<Tid>, revdeps: Graph<Tid>, sent: set<Tid>, waiting: seq<Tid>,
                  weight: map<Tid, int>, depsLeft: map<Tid, int>, done: set<Tid>,
                  ready: seq<Tid>, weight': map<Tid, int>, depsLeft': map<Tid, int>, done': set<Tid>)
    requires Inverse(depends, revdeps) && Swept(depends, revdeps, sent, waiting, weight, depsLeft, done)
    requires waiting != [] && waiting[0] in weight
    requires Passed(depends[waiting[0]], waiting[0], ready, weight, weight', depsLeft, depsLeft', done, done')
    ensures Swept(depends, revdeps, sent + {waiting[0]}, waiting[1..] + ready, weight', depsLeft', done')
  {
    hide Sum, ReachesCycle, Distinct, Unsent, Received, Ready, Inverse;
    var tid := waiting[0];
    var sent' := sent + {tid};
    DoneClosed(depends, revdeps, sent, waiting, weight, depsLeft, done, tid);
    forall t | t in depends
      ensures depsLeft'[t] == Unsent(revdeps, sent', t)
      ensures t in done' <==> Ready(revdeps, sent', t)
    {
      StepCounts(revdeps, sent, tid, t);
    }
    forall t | t in depends
      ensures Received(revdeps, sent', weight', t)
    {
      assert Received(revdeps, sent, weight, t);
      StepWeight(revdeps, sent, tid, weight, weight', t);
    }
    StepNoCycle(revdeps, sent', done, done');
    StepFrontier(waiting, ready, done, done', sent, tid);
  }

  lemma StepCounts(revdeps: Graph<Tid>, sent: set<Tid>, tid: Tid, t: Tid)
    requires t in revdeps && tid !in sent
    ensures tid in revdeps[t] ==> Unsent(revdeps, sent + {tid}, t) == Unsent(revdeps, sent, t) - 1
    ensures tid !in revdeps[t] ==> Unsent(revdeps, sent + {tid}, t) == Unsent(revdeps, sent, t)
    ensures tid in revdeps[t] ==> !Ready(revdeps, sent, t)
    ensures tid in revdeps[t] ==> (Unsent(revdeps, sent, t) == 1 <==> Ready(revdeps, sent + {tid}, t))
    ensures tid !in revdeps[t] ==> (Ready(revdeps, sent + {tid}, t) <==> Ready(revdeps, sent, t))
  {
    var r := revdeps[t];
    if tid in r {
      assert r - sent == (r - (sent + {tid})) + {tid};
      if |r - sent| == 1 {
        forall x | x in r
          ensures x in sent + {tid}
        {
          assert x !in r - (sent + {tid});
        }
      }
    } else {
      assert r - (sent + {tid}) == r - sent;
    }
  }

  lemma StepWeight(revdeps: Graph<Tid>, sent: set<Tid>, tid: Tid, weight: map<Tid, int>, weight': map<Tid, int>, t: Tid)
    requires t in revdeps && weight.Keys == weight'.Keys && t in weight && sent + {tid} + revdeps[t] <= weight.Keys
      && tid !in sent
    requires forall u :: u in sent + {tid} ==> weight'[u] == weight[u]
    requires Received(revdeps, sent, weight, t)
    requires weight'[t] == if tid in revdeps[t] then weight[t] + weight[tid] else weight[t]
    ensures Received(revdeps, sent + {tid}, weight', t)
  {
    var r := revdeps[t];
    SumAgree(r * (sent + {tid}), weight', weight);
    if tid in r {
      SumExtend(r, sent, tid, weight);
    } else {
      assert r * (sent + {tid}) == r * sent;
    }
  }

  lemma StepNoCycle(revdeps: Graph<Tid>, sent': set<Tid>, done: set<Tid>, done': set<Tid>)
    requires sent' <= done <= done' <= revdeps.Keys
    requires forall t :: t in done' ==> Ready(revdeps, sent', t)
    requires forall t :: t in done ==> !ReachesCycle(revdeps, t)
    ensures forall t :: t in done' ==> !ReachesCycle(revdeps, t)
  {
    forall t | t in done'
      ensures !ReachesCycle(revdeps, t)
    {
      hide ReachesCycle;
      assert Ready(revdeps, sent', t);
      ReachesCycleStep(revdeps, t);
    }
  }

  lemma StepFrontier(waiting: seq<Tid>, ready: seq<Tid>, done: set<Tid>, done': set<Tid>, sent: set<Tid>, tid: Tid)
    requires waiting != [] && waiting[0] == tid && Distinct(waiting) && Distinct(ready)
    requires sent + {tid} <= done <= done'
    requires forall t :: t in waiting <==> t in done && t !in sent
    requires forall t :: t in ready <==> t in done' && t !in done
    ensures Distinct(waiting[1..] + ready)
    ensures forall t :: t in waiting[1..] + ready <==> t in done' && t !in sent + {tid}
  {
    assert waiting == [tid] + waiting[1..];
    forall i, j | 0 <= i < j < |waiting[1..] + ready|
      ensures (waiting[1..] + ready)[i] != (waiting[1..] + ready)[j]
    {
      if i < |waiting[1..]| <= j {
        assert waiting[1..][i] in waiting && ready[j - |waiting[1..]|] in ready;
      }
    }
    forall t
      ensures t in waiting[1..] <==> t in waiting && t != tid
    {
      if t in waiting[1..] {
        var i :| 0 <= i < |waiting[1..]| && waiting[1..][i] == t;
        assert waiting[0] != waiting[i + 1];
      }
    }
  }

  method InitialWeights(depends: Graph<Tid>, revdeps: Graph<Tid>, endpoints: seq<Tid>)
    returns (weight: map<Tid, int>, depsLeft: map<Tid, int>, done: set<Tid>)
    requires Inverse(depends, revdeps) && AreEndpoints(revdeps, endpoints)
    ensures Swept(depends, revdeps, {}, endpoints, weight, depsLeft, done)
  {
    hide Distinct, Swept, Inverse, AreEndpoints;
    EndpointsAreTasks(depends, revdeps, endpoints);
    weight := map t | t in depends :: 1;
    depsLeft := map t | t in depends :: |revdeps[t]|;
    done := {};
    for k := 0 to |endpoints|
      invariant weight.Keys == depends.Keys && done <= depends.Keys
      invariant forall t :: t in done <==> t in endpoints[..k]
      invariant forall t :: t in depends ==> weight[t] == if t in done then 10 else 1
    {
      var tid := endpoints[k];
      assert endpoints[..k + 1] == endpoints[..k] + [tid];
      weight := weight[tid := 10];
      done := done + {tid};
    }
    assert endpoints[..|endpoints|] == endpoints;
    InitiallySwept(depends, revdeps, endpoints, weight, depsLeft, done);
  }

  lemma EndpointsAreTasks(depends: Graph<Tid>, revdeps: Graph<Tid>, endpoints: seq<Tid>)
    requires Inverse(depends, revdeps) && AreEndpoints(revdeps, endpoints)
    ensures depends.Keys == revdeps.Keys && forall k :: 0 <= k < |endpoints| ==> endpoints[k] in depends
  {
    assert forall k :: 0 <= k < |endpoints| ==> endpoints[k] in endpoints;
  }

  lemma InitiallySwept(depends: Graph<Tid>, revdeps: Graph<Tid>, endpoints: seq<Tid>,
                       weight: map<Tid, int>, depsLeft: map<Tid, int>, done: set<Tid>)
    requires Inverse(depends, revdeps) && AreEndpoints(revdeps, endpoints)
    requires weight.Keys == depsLeft.Keys == depends.Keys
    requires forall t :: t in done <==> t in endpoints
    requires forall t :: t in depends ==> weight[t] == if t in done then 10 else 1
    requires forall t :: t in depends ==> depsLeft[t] == |revdeps[t]|
    ensures Swept(depends, revdeps, {}, endpoints, weight, depsLeft, done)
  {
    hide Sum, ReachesCycle, Distinct, Unsent, Received, Ready;
    forall t | t in depends
      ensures Received(revdeps, {}, weight, t)
      ensures depsLeft[t] == Unsent(revdeps, {}, t)
      ensures t in done <==> Ready(revdeps, {}, t)
    {
      assert t in done <==> t in endpoints;
      InitialCounts(revdeps, weight, t);
    }
    forall t | t in done
      ensures !ReachesCycle(revdeps, t)
    {
      assert t in endpoints;
      ReachesCycleStep(revdeps, t);
    }
  }

  lemma InitialCounts(revdeps: Graph<Tid>, weight: map<Tid, int>, t: Tid)
    requires t in revdeps && t in weight && weight[t] == Base(revdeps, t)
    ensures Received(revdeps, {}, weight, t)
    ensures Unsent(revdeps, {}, t) == |revdeps[t]|
    ensures Ready(revdeps, {}, t) <==> revdeps[t] == {}
  {
  }

  /** One pass over the frontier; `next` collects the following frontier. */
  method Round(depends: Graph<Tid>, revdeps: Graph<Tid>, endpoints: seq<Tid>,
               weight: map<Tid, int>, depsLeft: map<Tid, int>, done: set<Tid>, ghost sent: set<Tid>)
    returns (next: seq<Tid>, weight': map<Tid, int>, depsLeft': map<Tid, int>, done': set<Tid>, ghost sent': set<Tid>)
    requires Inverse(depends, revdeps) && Swept(depends, revdeps, sent, endpoints, weight, depsLeft, done)
    ensures Swept(depends, revdeps, sent', next, weight', depsLeft', done')
    ensures sent <= sent' && (endpoints == [] ==> next == [])
    ensures endpoints != [] ==> sent < sent'
  {
    hide Swept, Passed;
    next, weight', depsLeft', done', sent' := [], weight, depsLeft, done, sent;
    assert endpoints[0..] + next == endpoints;
    for k := 0 to |endpoints|
      invariant Swept(depends, revdeps, sent', endpoints[k..] + next, weight', depsLeft', done')
      invariant sent <= sent' && (k == 0 ==> next == []) && (k > 0 ==> sent < sent')
    {
      var tid := endpoints[k];
      ghost var waiting := endpoints[k..] + next;
      assert waiting[0] == tid && tid in waiting;
      DoneClosed(depends, revdeps, sent', waiting, weight', depsLeft', done', tid);
      var ready, w, l, d := PassOn(depends[tid], tid, weight', depsLeft', done');
      SweepStep(depends, revdeps, sent', waiting, weight', depsLeft', done', ready, w, l, d);
      assert waiting[1..] + ready == endpoints[k + 1..] + (next + ready);
      weight', depsLeft', done', next := w, l, d, next + ready;
      sent' := sent' + {tid};
    }
    assert endpoints[|endpoints|..] + next == next;
  }

  /** The sweep as a whole, round by round, and the check for what it did not reach. */
  method CalculateTaskWeights(depends: Graph<Tid>, revdeps: Graph<Tid>, endpoints: seq<Tid>)
    returns (weight: map<Tid, int>, problems: set<Tid>)
    requires Inverse(depends, revdeps) && AreEndpoints(revdeps, endpoints)
    ensures weight.Keys == depends.Keys
    ensures forall t :: t in problems <==> t in depends && ReachesCycle(revdeps, t)
    ensures forall t :: t in depends && t !in problems ==> Weighs(revdeps, weight, t)
  {
    var depsLeft, done;
    weight, depsLeft, done := InitialWeights(depends, revdeps, endpoints);
    ghost var sent := {};
    var frontier := endpoints;
    while true
      invariant Swept(depends, revdeps, sent, frontier, weight, depsLeft, done)
      decreases |depends.Keys - sent|
    {
      ghost var before := sent;
      frontier, weight, depsLeft, done, sent := Round(depends, revdeps, frontier, weight, depsLeft, done, sent);
      if |frontier| == 0 {
        break;
      }
      SmallerSet(depends.Keys - sent, depends.Keys - before);
    }
    problems := set t | t in depends && (t !in done || depsLeft[t] != 0);
    hide Swept;
    forall t | t in depends
      ensures t in problems <==> ReachesCycle(revdeps, t)
      ensures t !in problems ==> Weighs(revdeps, weight, t)
    {
      if t in done {
        DoneIsWeighed(depends, revdeps, sent, [], weight, depsLeft, done, t);
      } else {
        StuckReachesCycle(depends, revdeps, sent, weight, depsLeft, done, t);
      }
    }
  }

  /** When the frontier has run dry, what is not done leads to a cycle ... */
  lemma StuckReachesCycle(depends: Graph<Tid>, revdeps: Graph<Tid>, sent: set<Tid>, weight: map<Tid, int>,
                          depsLeft: map<Tid, int>, done: set<Tid>, t: Tid)
    requires Inverse(depends, revdeps) && Swept(depends, revdeps, sent, [], weight, depsLeft, done)
    requires t in depends && t !in done
    ensures ReachesCycle(revdeps, t)
  {
    var stuck := depends.Keys - done;
    forall x {:trigger revdeps[x]} | x in stuck
      ensures revdeps[x] * stuck != {}
    {
      assert !Ready(revdeps, sent, x);
      var r :| r in revdeps[x] && r !in sent;
      assert r !in [] && r in revdeps[x] * stuck;
    }
    TrappedReachesCycle(revdeps, stuck, t);
  }

  /** ... and what is done has its final weight. */
  lemma DoneIsWeighed(depends: Graph<Tid>, revdeps: Graph<Tid>, sent: set<Tid>, waiting: seq<Tid>,
                      weight: map<Tid, int>, depsLeft: map<Tid, int>, done: set<Tid>, t: Tid)
    requires Inverse(depends, revdeps) && Swept(depends, revdeps, sent, waiting, weight, depsLeft, done)
    requires t in done
    ensures depsLeft[t] == 0 && Weighs(revdeps, weight, t) && !ReachesCycle(revdeps, t)
  {
    hide Sum, ReachesCycle, Inverse, Swept;
    SweptAt(depends, revdeps, sent, waiting, weight, depsLeft, done, t);
    AllSent(revdeps[t], sent);
  }

  lemma SweptAt(depends: Graph<Tid>, revdeps: Graph<Tid>, sent: set<Tid>, waiting: seq<Tid>, weight: map<Tid, int>,
                depsLeft: map<Tid, int>, done: set<Tid>, t: Tid)
    requires Inverse(depends, revdeps) && Swept(depends, revdeps, sent, waiting, weight, depsLeft, done) && t in done
    ensures t in revdeps && t in weight && t in depsLeft && sent <= weight.Keys && revdeps[t] <= sent
      && revdeps[t] <= weight.Keys
    ensures depsLeft[t] == Unsent(revdeps, sent, t) && Received(revdeps, sent, weight, t) && !ReachesCycle(revdeps, t)
  {
    hide Sum, ReachesCycle, Distinct, Received;
    assert Ready(revdeps, sent, t);
  }

  lemma AllSent(dependants: set<Tid>, sent: set<Tid>)
    requires dependants <= sent
    ensures |dependants - sent| == 0 && dependants * sent == dependants
  {
    assert dependants - sent == {};
  }

  lemma AcceptedWeights(depends: Graph<Tid>, revdeps: Graph<Tid>, weight: map<Tid, int>, problems: set<Tid>)
    requires Inverse(depends, revdeps) && weight.Keys == depends.Keys
    requires forall t :: t in depends && t !in problems ==> Weighs(revdeps, weight, t)
    ensures problems == {} ==> IsWeighting(revdeps, weight)
  {
  }

  /** No problem tasks is the same as no cycle, and then the weights are the weighting. */
  lemma NoProblemsIffAcyclic(depends: Graph<Tid>, revdeps: Graph<Tid>, problems: set<Tid>)
    requires Inverse(depends, revdeps)
    requires forall t :: t in problems <==> t in depends && ReachesCycle(revdeps, t)
    ensures problems == {} <==> Acyclic(depends)
  {
    if Acyclic(depends) {
      AcyclicInverse(depends, revdeps);
      forall t | t in depends
        ensures t !in problems
      {
        if ReachesCycle(revdeps, t) {
          assert false;
        }
      }
    } else {
      var t :| t in depends && OnCycle(depends, t);
      OnCycleInverse(depends, revdeps, t);
      ReachRefl(revdeps, t);
      assert t in problems;
    }
  }
}
