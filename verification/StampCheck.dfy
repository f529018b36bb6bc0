/** Deciding whether a task's stamp is current: the recursive check over the task's
    dependencies, with a cache that calls share. */
module StampCheck {
  import opened Graphs
  import opened Sequences
  import opened Tasks

  /** What the check looks at. `times` holds the stamps that exist, the stamp of a task's
      setscene variant under the task's name with the suffix. */
  datatype Setting = Setting(depends: Graph<Tid>, times: map<Tid, int>, nostamp: set<Tid>,
                             fulldeptree: bool, stampwhitelist: set<string>)

  predicate IsSetscene(name: string) {
    name != "do_setscene" && EndsWith(name, SETSCENE)
  }

  function SetsceneOf(t: Tid): Tid {
    Tid(t.fn, t.task + SETSCENE)
  }

  /** The stamp exists, and its time is not zero, which the source takes for missing. */
  predicate Present(s: Setting, t: Tid) {
    t in s.times && s.times[t] != 0
  }

  /** The dependency's setscene variant stands in for it. */
  predicate StandsIn(s: Setting, d: Tid) {
    Present(s, SetsceneOf(d)) && (!Present(s, d) || s.times[SetsceneOf(d)] > s.times[d])
  }

  /** The stamp policy wants the dependency compared. */
  predicate Compared(s: Setting, t: Tid, d: Tid) {
    !StandsIn(s, d) && (t.fn == d.fn || (s.fulldeptree && d.fn !in s.stampwhitelist))
  }

  /** The stamp of `t` under `name` is there, wanted, and no older than what it depends on. */
  predicate Sound(s: Setting, t: Tid, name: string)
    requires t in s.depends
  {
    var own := Tid(t.fn, name);
    && own in s.times && own !in s.nostamp
    && (IsSetscene(name) || forall d :: d in s.depends[t] && Compared(s, t, d) ==>
        Present(s, d) && s.times[own] >= s.times[d])
  }

  /** The dependencies the check goes on to. */
  function Followed(s: Setting): Graph<Tid> {
    map t | t in s.depends :: if IsSetscene(t.task) then {} else set d | d in s.depends[t] && Compared(s, t, d)
  }

  /** A task is current when its stamp and those of all the check leads to are sound. */
  ghost predicate Current(s: Setting, t: Tid)
    requires Closed(s.depends) && t in s.depends
  {
    forall x :: Reach(Followed(s), t, x) && x in s.depends ==> Sound(s, x, x.task)
  }

  /** The recursion the source writes out. */
  ghost predicate Recursion(s: Setting, current: set<Tid>)
    requires Closed(s.depends)
  {
    forall t :: t in s.depends ==>
      (t in current <==> Sound(s, t, t.task) && forall d :: d in Followed(s)[t] ==> d in current)
  }

  /** A stamp is sound, told by the times alone. */
  lemma SoundByTimes(s: Setting, t: Tid, name: string)
    requires t in s.depends
    ensures Sound(s, t, name) <==>
      && Tid(t.fn, name) in s.times && Tid(t.fn, name) !in s.nostamp
      && ((name != "do_setscene" && EndsWith(name, "_setscene"))
          || forall d :: d in s.depends[t] && (d.fn == t.fn || (s.fulldeptree && d.fn !in s.stampwhitelist)) ==>
               var setscene := Tid(d.fn, d.task + "_setscene");
               || (setscene in s.times && s.times[setscene] != 0
                   && (d !in s.times || s.times[d] == 0 || s.times[setscene] > s.times[d]))
               || (d in s.times && s.times[d] != 0 && s.times[Tid(t.fn, name)] >= s.times[d]))
  {
  }

  /** So are the dependencies the check goes on to. */
  lemma FollowedByTimes(s: Setting, t: Tid, d: Tid)
    requires t in s.depends
    ensures d in Followed(s)[t] <==>
      && (t.task == "do_setscene" || !EndsWith(t.task, "_setscene")) && d in s.depends[t]
         && (d.fn == t.fn || (s.fulldeptree && d.fn !in s.stampwhitelist))
      && var setscene := Tid(d.fn, d.task + "_setscene");
         !(setscene in s.times && s.times[setscene] != 0
           && (d !in s.times || s.times[d] == 0 || s.times[setscene] > s.times[d]))
  {
  }

  lemma CurrentUnfolds(s: Setting, t: Tid)
    requires Closed(s.depends) && t in s.depends
    ensures Current(s, t) <==> Sound(s, t, t.task) && forall d :: d in Followed(s)[t] ==> Current(s, d)
  {
    var g := Followed(s);
    ReachRefl(g, t);
    if Current(s, t) {
      forall d | d in g[t]
        ensures Current(s, d)
      {
        forall x | Reach(g, d, x)
          ensures Reach(g, t, x)
        {
          ReachCons(g, t, d, x);
        }
      }
    }
    if Sound(s, t, t.task) && forall d :: d in g[t] ==> Current(s, d) {
      forall x | Reach(g, t, x) && x in s.depends
        ensures Sound(s, x, x.task)
      {
        if x != t {
          var d := ReachFirst(g, t, x);
          assert Current(s, d);
        }
      }
    }
  }

  /** On an acyclic queue the recursion has one solution, the tasks that are current. */
  lemma RecursionIsCurrent(s: Setting, current: set<Tid>)
    requires Closed(s.depends) && Acyclic(s.depends) && Recursion(s, current)
    ensures forall t :: t in s.depends ==> (t in current <==> Current(s, t))
  {
    hide Acyclic, Current, Sound, Followed;
    var wrong := set t | t in s.depends && (t in current) != Current(s, t);
    if wrong != {} {
      var t := MinimalNode(s.depends, wrong);
      FollowedFrom(s, t);
      CurrentUnfolds(s, t);
      assert false;
    }
    forall t | t in s.depends
      ensures t in current <==> Current(s, t)
    {
      assert t !in wrong;
    }
  }

  lemma FollowedFrom(s: Setting, t: Tid)
    requires t in s.depends
    ensures Followed(s).Keys == s.depends.Keys && Followed(s)[t] <= s.depends[t]
  {
  }

  class StampChecker {
    const s: Setting
    var cache: map<Tid, bool>
    ghost const rank: map<Tid, nat>

    /** Every cached answer is right. */
    ghost predicate Valid()
      reads this
    {
      && Closed(s.depends) && Ranked(s.depends, rank)
      && cache.Keys <= s.depends.Keys && forall t :: t in cache ==> (cache[t] <==> Current(s, t))
    }

    constructor (s: Setting)
      requires Closed(s.depends) && Acyclic(s.depends)
      ensures Valid() && this.s == s && cache == map[]
    {
      ghost var ranking := RankingExists(s.depends);
      this.s, cache, rank := s, map[], ranking;
    }

    /** Whether the stamp of `tid` under `taskname` is current. With `recurse`, which the
        source only uses with the task's own name, all the task depends on counts too. */
    method CheckStampTask(tid: Tid, taskname: string, recurse: bool) returns (isCurrent: bool)
      requires Valid() && tid in s.depends && (recurse ==> taskname == tid.task)
      modifies this`cache
      ensures Valid() && isCurrent == (if recurse then Current(s, tid) else Sound(s, tid, taskname))
      ensures forall t :: t in old(cache) ==> t in cache && cache[t] == old(cache[t])
      ensures !recurse ==> cache == old(cache)
      ensures recurse && tid in s.times && tid !in s.nostamp && !IsSetscene(tid.task) ==> tid in cache
      decreases rank[tid], 1
    {
      hide Acyclic, Current, Reach, CheckedOk, Ranked;
      CurrentUnfolds(s, tid);
      FollowedFrom(s, tid);
      var own := Tid(tid.fn, taskname);
      if own !in s.times || own in s.nostamp {
        return false;
      }
      if IsSetscene(taskname) {
        return true;
      }
      isCurrent := true;
      var todo := s.depends[tid];
      while todo != {}
        invariant Valid() && todo <= s.depends[tid]
        invariant forall t :: t in old(cache) ==> t in cache && cache[t] == old(cache[t])
        invariant !recurse ==> cache == old(cache)
        invariant isCurrent ==> forall d :: d in s.depends[tid] && d !in todo ==> CheckedOk(own, tid, d, recurse)
        invariant !isCurrent ==> exists d :: d in s.depends[tid] && !CheckedOk(own, tid, d, recurse)
      {
        var dep :| dep in todo;
        todo := todo - {dep};
        if isCurrent {
          isCurrent := CheckDependency(own, tid, dep, recurse);
        }
      }
      AllChecked(own, tid, recurse);
      if recurse {
        cache := cache[tid := isCurrent];
      }
    }

    /** One dependency: its own stamps first, then what the cache or the recursion says. */
    method CheckDependency(own: Tid, tid: Tid, dep: Tid, recurse: bool) returns (ok: bool)
      requires Valid() && tid in s.depends && dep in s.depends[tid] && own in s.times
      modifies this`cache
      ensures Valid() && (ok <==> CheckedOk(own, tid, dep, recurse))
      ensures forall t :: t in old(cache) ==> t in cache && cache[t] == old(cache[t])
      ensures !recurse ==> cache == old(cache)
      decreases rank[tid], 0
    {
      hide Acyclic, Current, Reach;
      ok := true;
      // no stamp counts as time zero, and so does a time of zero
      var t2 := if dep in s.times then s.times[dep] else 0;
      var t3 := if SetsceneOf(dep) in s.times then s.times[SetsceneOf(dep)] else 0;
      if t3 != 0 && (t2 == 0 || t3 > t2) {
        return true;
      }
      if tid.fn == dep.fn || (s.fulldeptree && dep.fn !in s.stampwhitelist) {
        if t2 == 0 || s.times[own] < t2 {
          return false;
        }
        if recurse {
          if dep in cache {
            ok := cache[dep];
          } else {
            ok := CheckStampTask(dep, dep.task, true);
            cache := cache[dep := ok];
          }
        }
      }
    }

    lemma AllChecked(own: Tid, tid: Tid, recurse: bool)
      requires Closed(s.depends) && tid in s.depends && own in s.times && own !in s.nostamp && own.fn == tid.fn
        && !IsSetscene(own.task)
      requires recurse ==> own.task == tid.task
      ensures Sound(s, tid, own.task) && (recurse ==> forall d :: d in Followed(s)[tid] ==> Current(s, d))
              <==> forall d :: d in s.depends[tid] ==> CheckedOk(own, tid, d, recurse)
    {
      hide Current, Compared, Present;
    }

    /** The dependency does not make the task out of date. */
    ghost predicate CheckedOk(own: Tid, tid: Tid, d: Tid, recurse: bool)
      requires Closed(s.depends) && tid in s.depends && d in s.depends[tid] && own in s.times
    {
      assert d in s.depends;
      Compared(s, tid, d) ==> Present(s, d) && s.times[own] >= s.times[d] && (recurse ==> Current(s, d))
    }
  }
}
