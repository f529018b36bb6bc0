/** The dependency data sent to a worker with a task: everything the task depends on,
    collected in rounds over the live dependency sets. The task is added to its own
    live set on the way, and stays there. */
module TaskDepData {
  import opened Graphs
  import opened Tasks

  /** `live` is `g` but for tasks that have been added to their own dependencies. */
  ghost predicate SelfLoopsAdded(g: Graph<Tid>, live: Graph<Tid>, looped: set<Tid>) {
    && live.Keys == g.Keys
    && (forall t {:trigger live[t]} :: t in g ==> live[t] == g[t] || (t in looped && live[t] == g[t] + {t}))
  }

  lemma {:induction false} StepsIgnoreSelfLoops(g: Graph<Tid>, live: Graph<Tid>, looped: set<Tid>, a: Tid, b: Tid,
                                                n: nat)
    requires SelfLoopsAdded(g, live, looped) && Steps(live, a, b, n)
    ensures Reach(g, a, b)
    decreases n
  {
    if n == 0 {
      ReachRefl(g, a);
    } else {
      var c :| c in live[a] && Steps(live, c, b, n - 1);
      StepsIgnoreSelfLoops(g, live, looped, c, b, n - 1);
      if c != a {
        ReachCons(g, a, c, b);
      }
    }
  }

  lemma {:induction false} StepsInLive(g: Graph<Tid>, live: Graph<Tid>, looped: set<Tid>, a: Tid, b: Tid, n: nat)
    requires SelfLoopsAdded(g, live, looped) && Steps(g, a, b, n)
    ensures Reach(live, a, b)
    decreases n
  {
    if n == 0 {
      ReachRefl(live, a);
    } else {
      var c :| c in g[a] && Steps(g, c, b, n - 1);
      StepsInLive(g, live, looped, c, b, n - 1);
      assert c in live[a];
      ReachCons(live, a, c, b);
    }
  }

  /** Adding self loops changes nothing about what a task depends on. */
  lemma ReachIgnoresSelfLoops(g: Graph<Tid>, live: Graph<Tid>, looped: set<Tid>, a: Tid, b: Tid)
    requires SelfLoopsAdded(g, live, looped)
    ensures Reach(live, a, b) <==> Reach(g, a, b)
  {
    if Reach(live, a, b) {
      var n: nat :| Steps(live, a, b, n);
      StepsIgnoreSelfLoops(g, live, looped, a, b, n);
    }
    if Reach(g, a, b) {
      var n: nat :| Steps(g, a, b, n);
      StepsInLive(g, live, looped, a, b, n);
    }
  }

  method ListOf(s: set<Tid>) returns (r: seq<Tid>)
    ensures forall t :: t in r <==> t in s
  {
    r := [];
    var todo := s;
    while todo != {}
      invariant todo <= s && forall t :: t in r <==> t in s && t !in todo
    {
      var t :| t in todo;
      todo := todo - {t};
      r := r + [t];
    }
  }

  /** Recorded entries are right, reached, and lead only to what is recorded or queued. */
  ghost predicate Collected(depends: Graph<Tid>, task: Tid, data: map<Tid, set<Tid>>, queued: seq<Tid>) {
    && data.Keys <= depends.Keys
    && (forall x :: x in data ==> data[x] == depends[x] && Reach(depends, task, x))
    && (forall x :: x in queued ==> x in depends && Reach(depends, task, x))
    && (forall x, y :: x in data && y in data[x] ==> y in data || y in queued)
  }

  lemma RecordStep(depends: Graph<Tid>, task: Tid, data: map<Tid, set<Tid>>, revdep: Tid, rest: seq<Tid>,
                   additional: seq<Tid>, more: seq<Tid>)
    requires Closed(depends) && Collected(depends, task, data, [revdep] + rest + additional)
    requires revdep in depends
    requires forall t :: t in more <==> t in depends[revdep] && t !in data && t != revdep
    ensures Collected(depends, task, data[revdep := depends[revdep]], rest + (additional + more))
  {
    var queued := rest + (additional + more);
    forall x | x in queued
      ensures x in depends && Reach(depends, task, x)
    {
      if x in more {
        assert revdep in [revdep] + rest + additional;
        ReachSnoc(depends, task, revdep, x);
      } else {
        assert x in [revdep] + rest + additional;
      }
    }
    assert revdep in [revdep] + rest + additional;
    var data' := data[revdep := depends[revdep]];
    forall x, y | x in data' && y in data'[x]
      ensures y in data' || y in queued
    {
      if x != revdep {
        assert y in data || y in [revdep] + rest + additional;
      }
    }
  }

  /** One round: every queued task is recorded, and its dependencies that are not
      recorded yet are queued for the next round. */
  method RecordRound(depends: Graph<Tid>, task: Tid, data: map<Tid, set<Tid>>, next: seq<Tid>)
    returns (data': map<Tid, set<Tid>>, additional: seq<Tid>)
    requires Closed(depends) && Collected(depends, task, data, next)
    ensures Collected(depends, task, data', additional)
    ensures data.Keys <= data'.Keys && forall x :: x in next ==> x in data'
    ensures (forall x :: x in next ==> x in data) ==> additional == [] && data'.Keys == data.Keys
  {
    hide Collected;
    data', additional := data, [];
    ghost var repeat := forall x :: x in next ==> x in data;
    assert next[0..] + additional == next;
    for i := 0 to |next|
      invariant Collected(depends, task, data', next[i..] + additional)
      invariant data.Keys <= data'.Keys && forall x :: x in next[..i] ==> x in data'
      invariant repeat ==> additional == [] && data'.Keys == data.Keys
    {
      var revdep := next[i];
      assert next[i..] + additional == [revdep] + next[i + 1..] + additional;
      assert next[..i + 1] == next[..i] + [revdep];
      QueuedExists(depends, task, data', next[i..] + additional, revdep);
      var deps := depends[revdep];
      ghost var before := data';
      data' := data'[revdep := deps];
      var more := Unrecorded(deps, data'.Keys);
      if repeat {
        RecordedAlready(depends, task, data, next, revdep, more);
      }
      RecordStep(depends, task, before, revdep, next[i + 1..], additional, more);
      additional := additional + more;
    }
    assert next[..|next|] == next && next[|next|..] + additional == additional;
  }

  lemma QueuedExists(depends: Graph<Tid>, task: Tid, data: map<Tid, set<Tid>>, queued: seq<Tid>, x: Tid)
    requires Collected(depends, task, data, queued) && x in queued
    ensures x in depends
  {
  }

  lemma RecordedAlready(depends: Graph<Tid>, task: Tid, data: map<Tid, set<Tid>>, next: seq<Tid>, revdep: Tid,
                        more: seq<Tid>)
    requires Collected(depends, task, data, next) && revdep in next
    requires forall x :: x in next ==> x in data
    requires forall x :: x in more ==> revdep in depends && x in depends[revdep] && x !in data
    ensures more == []
  {
    HeadIn(more);
  }

  method Unrecorded(deps: set<Tid>, recorded: set<Tid>) returns (more: seq<Tid>)
    ensures forall t :: t in more <==> t in deps && t !in recorded
  {
    more := [];
    var todo := deps;
    while todo != {}
      invariant todo <= deps && forall t :: t in more <==> t in deps && t !in todo && t !in recorded
    {
      var revdep2 :| revdep2 in todo;
      todo := todo - {revdep2};
      if revdep2 !in recorded {
        more := more + [revdep2];
      }
    }
  }

  lemma DirectlyQueued(depends: Graph<Tid>, task: Tid, next: seq<Tid>)
    requires Closed(depends) && task in depends && forall x :: x in next <==> x in depends[task]
    ensures Collected(depends, task, map[], next)
  {
    forall x | x in next
      ensures x in depends && Reach(depends, task, x)
    {
      ReachEdge(depends, task, x);
    }
  }

  lemma CollectedAll(depends: Graph<Tid>, live: Graph<Tid>, task: Tid, data: map<Tid, set<Tid>>)
    requires SelfLoopsAdded(depends, live, {task}) && Collected(live, task, data, []) && task in data
    ensures forall x :: x in data <==> Reach(depends, task, x)
    ensures forall x :: x in data ==> x in depends && data[x] == live[x]
  {
    forall x
      ensures x in data <==> Reach(depends, task, x)
    {
      ReachIgnoresSelfLoops(depends, live, {task}, task, x);
      if Reach(live, task, x) {
        ReachStaysInside(live, data.Keys, task, x);
      }
    }
  }

  /** A task can be queued again in the round in which it is recorded; then the next
      round records nothing new and queues nothing. */
  method BuildTaskdepdata(depends: Graph<Tid>, task: Tid) returns (data: map<Tid, set<Tid>>, depends': Graph<Tid>)
    requires Closed(depends) && task in depends
    ensures depends' == depends[task := depends[task] + {task}]
    ensures forall x :: x in data <==> Reach(depends, task, x)
    ensures forall x :: x in data ==> x in depends && data[x] == depends'[x]
  {
    hide Collected;
    depends' := depends[task := depends[task] + {task}];
    var next := ListOf(depends'[task]);
    data := map[];
    DirectlyQueued(depends', task, next);
    while next != []
      invariant Collected(depends', task, data, next)
      invariant data.Keys <= depends'.Keys && (task in data || task in next)
      decreases |depends'.Keys - data.Keys|, if next == [] then 0 else 1
    {
      ghost var before := data.Keys;
      data, next := RecordRound(depends', task, data, next);
      assert data.Keys <= depends'.Keys by {
        CollectedKeys(depends', task, data, next);
      }
      if data.Keys != before {
        SmallerSet(depends'.Keys - data.Keys, depends'.Keys - before);
      }
    }
    CollectedAll(depends, depends', task, data);
  }

  lemma CollectedKeys(depends: Graph<Tid>, task: Tid, data: map<Tid, set<Tid>>, queued: seq<Tid>)
    requires Collected(depends, task, data, queued)
    ensures data.Keys <= depends.Keys
  {
  }
}
