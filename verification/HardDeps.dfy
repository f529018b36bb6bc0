/** Setscene tasks that explicitly ask for other setscene tasks. What they ask for comes
    before them whatever the collapsed graph says, so tasks asked for forget the order
    the collapsed graph gave them. */
module HardDeps {
  import opened Graphs
  import opened Sequences
  import opened Tasks
  import SceneCollapse

  type Marks = SceneCollapse.Marks

  /** An entry of a task's `depends` flag: a target and one of its tasks. */
  datatype Wish = Wish(target: string, task: string)

  /** Somebody provides the target, and the first of the list is taken. */
  predicate Provided(targets: map<string, seq<string>>, w: Wish) {
    w.target in targets && targets[w.target] != []
  }

  /** The target is listed, but nobody is left to provide it. */
  predicate Deserted(targets: map<string, seq<string>>, w: Wish) {
    w.target in targets && targets[w.target] == []
  }

  /** The tasks the wishes stand for; targets nobody provides are passed over. */
  function Wanted(targets: map<string, seq<string>>, wishes: seq<Wish>): set<Tid>
  {
    if wishes == [] then {}
    else
      var w := wishes[|wishes| - 1];
      Wanted(targets, wishes[..|wishes| - 1])
      + if Provided(targets, w) then {Tid(targets[w.target][0], Removed(w.task, SETSCENE))} else {}
  }

  /** Told by places in the list: a wish stands for the first provider of its target, with
      the task's name without the suffix; a target nobody provides is passed over. */
  lemma {:induction false} WantedByIndex(targets: map<string, seq<string>>, wishes: seq<Wish>, d: Tid)
    ensures d in Wanted(targets, wishes) <==>
      exists k ::
        0 <= k < |wishes| && wishes[k].target in targets && targets[wishes[k].target] != []
        && d == Tid(targets[wishes[k].target][0], Removed(wishes[k].task, "_setscene"))
  {
    hide Removed;
    if wishes == [] {
    } else {
      WantedByIndex(targets, wishes[..|wishes| - 1], d);
      assert forall k :: 0 <= k < |wishes| - 1 ==> wishes[..|wishes| - 1][k] == wishes[k];
    }
  }

  /** A suffix that stands nowhere else is all that is taken off. */
  lemma {:induction false} SuffixRemoved(name: string, suffix: string)
    requires suffix != "" && forall i :: 0 <= i < |name| ==> !StartsWith((name + suffix)[i..], suffix)
    ensures Removed(name + suffix, suffix) == name
    decreases |name|
  {
    var s := name + suffix;
    if name == "" {
      assert s == suffix && s[|suffix|..] == "";
    } else {
      assert s[0..] == s && !StartsWith(s, suffix);
      assert s[1..] == name[1..] + suffix;
      forall i | 0 <= i < |name| - 1
        ensures !StartsWith((name[1..] + suffix)[i..], suffix)
      {
        assert (name[1..] + suffix)[i..] == s[i + 1..];
      }
      SuffixRemoved(name[1..], suffix);
    }
  }

  predicate IsHard(hard: Marks, d: Tid, t: Tid) {
    d in hard && t in hard[d]
  }

  /** What `t` asks for. */
  function HardOn(hard: Marks, t: Tid): set<Tid> {
    set d | d in hard && t in hard[d]
  }

  /** The collapsed graph once the wishes are added: a task asked for by anyone keeps
      nothing but its own wishes. */
  function Squash(base: Marks, hard: Marks): Marks {
    map t | t in base.Keys + hard.Keys :: (if t in base && t !in hard then base[t] else {}) + HardOn(hard, t)
  }

  /** `hard` maps every task asked for to exactly the tasks that ask for it. */
  ghost predicate RecordsWishes(targets: map<string, seq<string>>, wishes: map<Tid, seq<Wish>>, asking: set<Tid>,
                                hard: Marks)
  {
    && asking <= wishes.Keys
    && (forall d :: d in hard ==> hard[d] != {})
    && (forall d, t :: IsHard(hard, d, t) <==> t in asking && d in Wanted(targets, wishes[t]))
  }

  /** The same while the wishes of `t` are half read. */
  ghost predicate RecordsSomeWishes(targets: map<string, seq<string>>, wishes: map<Tid, seq<Wish>>, asking: set<Tid>,
                                    tid: Tid, read: seq<Wish>, hard: Marks)
  {
    && asking <= wishes.Keys && tid !in asking
    && (forall d :: d in hard ==> hard[d] != {})
    && (forall d, t :: IsHard(hard, d, t) <==>
        (t in asking && d in Wanted(targets, wishes[t])) || (t == tid && d in Wanted(targets, read)))
  }

  /** Half way: tasks asked for have lost what the collapse gave them, and possibly
      wishes of their own that were read too early. */
  ghost predicate HalfSquashed(base: Marks, hard: Marks, squash: Marks) {
    && squash.Keys == base.Keys + hard.Keys
    && (forall t :: t in squash && t !in hard ==> squash[t] == base[t] + HardOn(hard, t))
    && (forall t :: t in squash && t in hard ==> squash[t] <= HardOn(hard, t))
  }

  /** The source takes the first of a list without looking: an empty one is an index error. */
  datatype Resolution =
    | Resolved(revdeps: Marks, hard: Marks)
    | NoSuchTask(tid: Tid, dep: Tid)
    | IndexError(tid: Tid, wish: Wish)

  /** What stops the reading of one task's wishes. */
  datatype Stop = Going | Missing(dep: Tid) | Empty(wish: Wish)

  function Recorded(hard: Marks, tid: Tid, dep: Tid): Marks {
    hard[dep := (if dep in hard then hard[dep] else {}) + {tid}]
  }

  lemma AddWish(base: Marks, hard: Marks, squash: Marks, tid: Tid, dep: Tid)
    requires HalfSquashed(base, hard, squash) && tid in base
    ensures tid in squash && HalfSquashed(base, Recorded(hard, tid, dep), squash[tid := squash[tid] + {dep}][dep := {}])
  {
    hide Recorded, HardOn;
    RecordedFacts(hard, tid, dep);
    forall t
      ensures HardOn(Recorded(hard, tid, dep), t) == HardOn(hard, t) + if t == tid then {dep} else {}
    {
      HardOnRecorded(hard, tid, dep, t);
    }
  }

  lemma RecordedFacts(hard: Marks, tid: Tid, dep: Tid)
    ensures Recorded(hard, tid, dep).Keys == hard.Keys + {dep}
    ensures forall d, t :: IsHard(Recorded(hard, tid, dep), d, t) <==> IsHard(hard, d, t) || (d == dep && t == tid)
  {
  }

  lemma HardOnRecorded(hard: Marks, tid: Tid, dep: Tid, t: Tid)
    ensures HardOn(Recorded(hard, tid, dep), t) == HardOn(hard, t) + if t == tid then {dep} else {}
  {
  }

  lemma ReadOne(targets: map<string, seq<string>>, wishes: map<Tid, seq<Wish>>, asking: set<Tid>, tid: Tid, k: nat,
                hard: Marks)
    requires tid in wishes && k < |wishes[tid]|
    requires RecordsSomeWishes(targets, wishes, asking, tid, wishes[tid][..k], hard)
    ensures var w := wishes[tid][k];
            RecordsSomeWishes(
              targets, wishes, asking, tid, wishes[tid][..k + 1],
              if Provided(targets, w) then Recorded(hard, tid, Tid(targets[w.target][0], Removed(w.task, SETSCENE)))
              else hard)
  {
    hide IsHard, Removed;
    var w := wishes[tid][k];
    assert wishes[tid][..k + 1][..k] == wishes[tid][..k];
    if Provided(targets, w) {
      RecordedFacts(hard, tid, Tid(targets[w.target][0], Removed(w.task, SETSCENE)));
    }
  }

  lemma ReadAll(targets: map<string, seq<string>>, wishes: map<Tid, seq<Wish>>, asking: set<Tid>, tid: Tid, hard: Marks)
    requires tid in wishes && RecordsSomeWishes(targets, wishes, asking, tid, wishes[tid], hard)
    ensures RecordsWishes(targets, wishes, asking + {tid}, hard)
  {
  }

  lemma ReadNone(targets: map<string, seq<string>>, wishes: map<Tid, seq<Wish>>, asking: set<Tid>, tid: Tid,
                 hard: Marks)
    requires tid in wishes && tid !in asking && RecordsWishes(targets, wishes, asking, hard)
    ensures RecordsSomeWishes(targets, wishes, asking, tid, wishes[tid][..0], hard)
  {
  }

  /** The wishes of one task. */
  method ReadWishes(tid: Tid, wishes: map<Tid, seq<Wish>>, targets: map<string, seq<string>>, entries: set<Tid>,
                    ghost base: Marks, ghost asking: set<Tid>, squash: Marks, hard: Marks)
    returns (stop: Stop, squash': Marks, hard': Marks)
    requires tid in wishes && tid !in asking && tid in base && hard.Keys <= entries
    requires RecordsWishes(targets, wishes, asking, hard) && HalfSquashed(base, hard, squash)
    ensures stop.Missing? ==> stop.dep in Wanted(targets, wishes[tid]) && stop.dep !in entries
    ensures stop.Empty? ==> stop.wish in wishes[tid] && Deserted(targets, stop.wish)
    ensures stop.Going? ==> forall w :: w in wishes[tid] ==> !Deserted(targets, w)
    ensures stop.Going? ==>
      RecordsWishes(targets, wishes, asking + {tid}, hard') && HalfSquashed(base, hard', squash')
      && hard'.Keys <= entries
  {
    hide RecordsWishes, RecordsSomeWishes, HalfSquashed, Wanted, Removed, IsHard, HardOn, Recorded;
    squash', hard' := squash, hard;
    ReadNone(targets, wishes, asking, tid, hard);
    var k := 0;
    while k < |wishes[tid]|
      invariant k <= |wishes[tid]| && hard'.Keys <= entries
      invariant RecordsSomeWishes(targets, wishes, asking, tid, wishes[tid][..k], hard')
      invariant HalfSquashed(base, hard', squash')
      invariant forall j :: 0 <= j < k ==> !Deserted(targets, wishes[tid][j])
    {
      var wish := wishes[tid][k];
      ReadOne(targets, wishes, asking, tid, k, hard');
      if wish.target in targets {
        if targets[wish.target] == [] {
          return Empty(wish), squash', hard';
        }
        var dep := Tid(targets[wish.target][0], Removed(wish.task, SETSCENE));
        if dep !in entries {
          WantedHere(targets, wishes[tid], k);
          return Missing(dep), squash', hard';
        }
        AddWish(base, hard', squash', tid, dep);
        RecordedFacts(hard', tid, dep);
        hard' := Recorded(hard', tid, dep);
        squash' := squash'[tid := squash'[tid] + {dep}];
        squash' := squash'[dep := {}];
      }
      k := k + 1;
    }
    assert wishes[tid][..k] == wishes[tid];
    ReadAll(targets, wishes, asking, tid, hard');
    stop := Going;
  }

  lemma WantedHere(targets: map<string, seq<string>>, wishes: seq<Wish>, k: nat)
    requires k < |wishes| && Provided(targets, wishes[k])
    ensures Tid(targets[wishes[k].target][0], Removed(wishes[k].task, SETSCENE)) in Wanted(targets, wishes)
  {
  }

  lemma NothingMissing(targets: map<string, seq<string>>, wishes: map<Tid, seq<Wish>>, scene: set<Tid>, hard: Marks,
                       entries: set<Tid>)
    requires RecordsWishes(targets, wishes, scene, hard) && hard.Keys <= entries
    ensures forall t, d :: t in scene && d in Wanted(targets, wishes[t]) ==> d in entries
  {
  }

  /** Some wish is for a task the queue does not have, or for a target without a provider. */
  ghost predicate Unmet(scene: set<Tid>, wishes: map<Tid, seq<Wish>>, targets: map<string, seq<string>>,
                        entries: set<Tid>)
    requires scene <= wishes.Keys
  {
    || (exists t, d :: t in scene && d in Wanted(targets, wishes[t]) && d !in entries)
    || (exists t, w :: t in scene && w in wishes[t] && Deserted(targets, w))
  }

  /** Told by places in the lists. */
  lemma UnmetByIndex(scene: set<Tid>, wishes: map<Tid, seq<Wish>>, targets: map<string, seq<string>>, entries: set<Tid>)
    requires scene <= wishes.Keys
    ensures Unmet(scene, wishes, targets, entries) <==>
      exists t, k ::
        t in scene && 0 <= k < |wishes[t]| && wishes[t][k].target in targets
        && (targets[wishes[t][k].target] == []
            || Tid(targets[wishes[t][k].target][0], Removed(wishes[t][k].task, "_setscene")) !in entries)
  {
    hide Removed, Wanted;
    if t, k :| t in scene && 0 <= k < |wishes[t]| && wishes[t][k].target in targets
               && (targets[wishes[t][k].target] == []
                   || Tid(targets[wishes[t][k].target][0], Removed(wishes[t][k].task, "_setscene")) !in entries) {
      var w := wishes[t][k];
      if targets[w.target] == [] {
        assert w in wishes[t] && Deserted(targets, w);
      } else {
        WantedByIndex(targets, wishes[t], Tid(targets[w.target][0], Removed(w.task, "_setscene")));
      }
    }
    if t, d :| t in scene && d in Wanted(targets, wishes[t]) && d !in entries {
      WantedByIndex(targets, wishes[t], d);
    }
    if t, w :| t in scene && w in wishes[t] && Deserted(targets, w) {
      var k :| 0 <= k < |wishes[t]| && wishes[t][k] == w;
    }
  }

  /** Reads everybody's wishes: a wish for a task the queue does not have is fatal, and one
      for a target that has lost its last provider is an error. */
  method ResolveHardDeps(scene: set<Tid>, wishes: map<Tid, seq<Wish>>, targets: map<string, seq<string>>,
                         entries: set<Tid>, base: Marks)
    returns (r: Resolution)
    requires wishes.Keys == scene == base.Keys
    ensures r.Resolved? <==> !Unmet(scene, wishes, targets, entries)
    ensures r.IndexError? ==> r.tid in scene && r.wish in wishes[r.tid] && Deserted(targets, r.wish)
    ensures r.NoSuchTask? ==> r.tid in scene && r.dep in Wanted(targets, wishes[r.tid]) && r.dep !in entries
    ensures r.Resolved? ==> RecordsWishes(targets, wishes, scene, r.hard) && r.hard.Keys <= entries
    ensures r.Resolved? ==> r.revdeps == Squash(base, r.hard)
  {
    hide RecordsWishes, HalfSquashed, Wanted, Squash, Deserted;
    var squash, hard: Marks := base, map[];
    assert RecordsWishes(targets, wishes, {}, hard) && HalfSquashed(base, hard, squash) by {
      NoWishes(targets, wishes, base);
    }
    var todo := scene;
    ghost var asking := {};
    while todo != {}
      invariant todo <= scene && hard.Keys <= entries && asking == scene - todo
      invariant RecordsWishes(targets, wishes, asking, hard)
      invariant HalfSquashed(base, hard, squash)
      invariant forall t, w :: t in asking && w in wishes[t] ==> !Deserted(targets, w)
    {
      var tid :| tid in todo;
      var stop;
      stop, squash, hard := ReadWishes(tid, wishes, targets, entries, base, asking, squash, hard);
      if stop.Missing? {
        return NoSuchTask(tid, stop.dep);
      }
      if stop.Empty? {
        return IndexError(tid, stop.wish);
      }
      todo, asking := todo - {tid}, asking + {tid};
    }
    assert asking == scene;
    NothingMissing(targets, wishes, scene, hard, entries);
    AskersExist(targets, wishes, scene, hard);
    squash := AddBack(base, hard, squash);
    return Resolved(squash, hard);
  }

  lemma NoWishes(targets: map<string, seq<string>>, wishes: map<Tid, seq<Wish>>, base: Marks)
    ensures RecordsWishes(targets, wishes, {}, map[]) && HalfSquashed(base, map[], base)
  {
  }

  lemma AskersExist(targets: map<string, seq<string>>, wishes: map<Tid, seq<Wish>>, scene: set<Tid>, hard: Marks)
    requires RecordsWishes(targets, wishes, scene, hard)
    ensures forall d, t :: IsHard(hard, d, t) ==> t in scene
  {
  }

  lemma {:induction false} WantedMore(targets: map<string, seq<string>>, wishes: seq<Wish>, k: nat, dep: Tid)
    requires k <= |wishes| && dep in Wanted(targets, wishes[..k])
    ensures dep in Wanted(targets, wishes)
    decreases |wishes|
  {
    if k < |wishes| {
      assert wishes[..|wishes| - 1][..k] == wishes[..k];
      WantedMore(targets, wishes[..|wishes| - 1], k, dep);
    } else {
      assert wishes[..k] == wishes;
    }
  }

  /** What is left to put back: `task` for those of `deps`, and everything in `todo`. */
  ghost predicate PutBack(hard: Marks, squash: Marks, todo: set<Tid>, task: Tid, deps: set<Tid>) {
    forall d, t {:trigger IsHard(hard, d, t)} :: IsHard(hard, d, t) && d !in todo && !(d == task && t in deps)
      ==> t in squash && d in squash[t]
  }

  lemma PutOne(base: Marks, hard: Marks, squash: Marks, todo: set<Tid>, task: Tid, deps: set<Tid>, dep: Tid)
    requires HalfSquashed(base, hard, squash) && PutBack(hard, squash, todo, task, deps) && IsHard(hard, task, dep)
      && dep in base
    ensures dep in squash && HalfSquashed(base, hard, squash[dep := squash[dep] + {task}])
    ensures PutBack(hard, squash[dep := squash[dep] + {task}], todo, task, deps - {dep})
  {
  }

  /** The wishes are added once more, after everything that was to be forgotten is. */
  method AddBack(base: Marks, hard: Marks, squash: Marks) returns (squash': Marks)
    requires HalfSquashed(base, hard, squash)
    requires forall d, t :: IsHard(hard, d, t) ==> t in base
    ensures squash' == Squash(base, hard)
  {
    hide HalfSquashed, PutBack, Squash;
    squash' := squash;
    var todo := hard.Keys;
    assert forall task :: PutBack(hard, squash', todo, task, {}) by {
      PutNothing(hard, squash');
    }
    while todo != {}
      invariant todo <= hard.Keys && HalfSquashed(base, hard, squash')
      invariant forall task :: PutBack(hard, squash', todo, task, {})
    {
      var task :| task in todo;
      PutNext(hard, squash', todo, task);
      todo := todo - {task};
      var deps := hard[task];
      while deps != {}
        invariant deps <= hard[task] && HalfSquashed(base, hard, squash')
        invariant PutBack(hard, squash', todo, task, deps)
      {
        var dep :| dep in deps;
        assert IsHard(hard, task, dep);
        PutOne(base, hard, squash', todo, task, deps, dep);
        deps := deps - {dep};
        squash' := squash'[dep := squash'[dep] + {task}];
      }
      PutWhole(hard, squash', todo, task);
    }
    AllPutBack(base, hard, squash');
  }

  lemma PutNothing(hard: Marks, squash: Marks)
    ensures forall task :: PutBack(hard, squash, hard.Keys, task, {})
  {
  }

  lemma PutNext(hard: Marks, squash: Marks, todo: set<Tid>, task: Tid)
    requires PutBack(hard, squash, todo, task, {}) && task in hard
    ensures PutBack(hard, squash, todo - {task}, task, hard[task])
  {
  }

  lemma PutWhole(hard: Marks, squash: Marks, todo: set<Tid>, task: Tid)
    requires PutBack(hard, squash, todo, task, {})
    ensures forall other :: PutBack(hard, squash, todo, other, {})
  {
  }

  lemma AllPutBack(base: Marks, hard: Marks, squash: Marks)
    requires HalfSquashed(base, hard, squash) && forall task :: PutBack(hard, squash, {}, task, {})
    ensures squash == Squash(base, hard)
  {
    forall t | t in squash
      ensures squash[t] == Squash(base, hard)[t]
    {
      forall d | d in HardOn(hard, t)
        ensures d in squash[t]
      {
        assert PutBack(hard, squash, {}, d, {}) && IsHard(hard, d, t);
      }
    }
  }

  // ---- why tasks asked for forget what the collapse gave them ----

  /** What the collapse promises: a task is put after setscene tasks that depend on it. */
  ghost predicate Collapsed(depends: Graph<Tid>, scene: set<Tid>, base: Marks) {
    && base.Keys == scene && scene <= depends.Keys
    && forall s, x :: s in scene && x in base[s] ==> SceneCollapse.SceneAncestor(depends, scene, x, s)
  }

  lemma AncestorRank(depends: Graph<Tid>, scene: set<Tid>, rank: map<Tid, nat>, x: Tid, s: Tid)
    requires Ranked(depends, rank) && s in depends && SceneCollapse.SceneAncestor(depends, scene, x, s)
    ensures x in rank && rank[s] < rank[x]
  {
    var d :| d in depends[x] && Reach(depends, d, s);
    var n: nat :| Steps(depends, d, s, n);
    RankDropsAlongPath(depends, rank, d, s, n);
  }

  lemma SquashIsClosed(depends: Graph<Tid>, scene: set<Tid>, base: Marks, hard: Marks)
    requires Collapsed(depends, scene, base)
    ensures Closed(Squash(base, hard))
  {
  }

  lemma SquashRanked(depends: Graph<Tid>, scene: set<Tid>, base: Marks, hard: Marks, down: map<Tid, nat>,
                     wish: map<Tid, nat>, d: nat, h: nat)
    requires Collapsed(depends, scene, base) && Ranked(depends, down) && Ranked(hard, wish)
    requires (forall n :: n in depends ==> down[n] < d) && (forall n :: n in hard ==> wish[n] < h)
    requires forall x, t :: IsHard(hard, x, t) ==> t in scene
    ensures Acyclic(Squash(base, hard))
  {
    var g := Squash(base, hard);
    var rank: map<Tid, nat> := map t | t in g :: if t in hard then h - wish[t] else h + (d - down[t]);
    forall a, b | a in g && b in g[a] && b in g
      ensures rank[b] < rank[a]
    {
      if b in HardOn(hard, a) {
        assert IsHard(hard, b, a);
      } else {
        assert a in base && a !in hard && b in base[a];
        AncestorRank(depends, scene, down, b, a);
      }
    }
    RankingRulesOutCycles(g, rank);
  }

  lemma WishesRanked(base: Marks, hard: Marks, rank: map<Tid, nat>, bound: nat)
    requires Ranked(Squash(base, hard), rank) && forall n :: n in rank ==> rank[n] < bound
    requires forall x, t :: IsHard(hard, x, t) ==> t in base
    ensures Acyclic(hard)
  {
    var g := Squash(base, hard);
    var wish: map<Tid, nat> := map t | t in hard :: bound - rank[t];
    forall a, b | a in hard && b in hard[a] && b in hard
      ensures wish[b] < wish[a]
    {
      assert IsHard(hard, a, b);
      assert a in g[b];
    }
    RankingRulesOutCycles(hard, wish);
  }

  /** The resulting order has a cycle only if the wishes themselves have one. */
  lemma SquashAcyclic(depends: Graph<Tid>, scene: set<Tid>, base: Marks, hard: Marks)
    requires Acyclic(depends) && Collapsed(depends, scene, base)
    requires forall x, t :: IsHard(hard, x, t) ==> t in scene
    ensures Acyclic(Squash(base, hard)) <==> Acyclic(hard)
  {
    hide Acyclic, Ranked, Squash;
    if Acyclic(hard) {
      var down := RankingExists(depends);
      var wish := RankingExists(hard);
      RankKeys(depends, down);
      RankKeys(hard, wish);
      var d := SceneCollapse.RankBound(depends, down);
      var h := SceneCollapse.RankBound(hard, wish);
      SquashRanked(depends, scene, base, hard, down, wish, d, h);
    }
    if Acyclic(Squash(base, hard)) {
      var rank := RankingExists(Squash(base, hard));
      RankKeys(Squash(base, hard), rank);
      var bound := SceneCollapse.RankBound(Squash(base, hard), rank);
      WishesRanked(base, hard, rank, bound);
    }
  }

  lemma RankKeys(g: Graph<Tid>, rank: map<Tid, nat>)
    requires Ranked(g, rank)
    ensures rank.Keys == g.Keys
  {
  }

  /** Without forgetting, a wish for a task that the collapse puts later closes a cycle. */
  lemma KeepingClosesCycle(a: Tid, b: Tid)
    requires a != b
    ensures var depends, base, hard := map[a := {b}, b := {}], map[a := {}, b := {a}], map[b := {a}];
            && Collapsed(depends, {a, b}, base)
            && OnCycle(map t | t in base :: base[t] + HardOn(hard, t), a)
            && Acyclic(Squash(base, hard))
  {
    var depends, base, hard: Marks := map[a := {b}, b := {}], map[a := {}, b := {a}], map[b := {a}];
    ReachRefl(depends, b);
    assert SceneCollapse.SceneAncestor(depends, {a, b}, a, b);
    var kept := map t | t in base :: base[t] + HardOn(hard, t);
    assert b in kept[a] && a in kept[b];
    ReachEdge(kept, b, a);
    assert OnCycle(kept, a);
    RankingRulesOutCycles(depends, map[a := 1, b := 0]);
    RankingRulesOutCycles(hard, map[b := 0]);
    SquashAcyclic(depends, {a, b}, base, hard);
  }
}
