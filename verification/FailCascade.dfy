/** Task data: the providers chosen for build and run-time targets, and the cascade that
    starts when a recipe file turns out to be unbuildable. Failing a file empties
    targets, which fails the files that depend on them, which empties more targets; the
    provider lists are edited by nested calls while outer calls loop over them. */
module FailCascade {
  import opened Graphs
  import opened Sequences
  import opened Tasks

  /** The inter-task dependencies of a task, as pairs of target and task name. */
  datatype TaskEntry = TaskEntry(idepends: seq<(string, string)>, irdepends: seq<(string, string)>)

  function Elements(s: seq<string>): set<string> {
    set x | x in s
  }

  lemma ElementsSnoc(s: seq<string>, x: string)
    ensures Elements(s + [x]) == Elements(s) + {x}
    ensures x in s <==> x in Elements(s)
  {
  }

  /** `s` without the members of `gone`, order kept. */
  function Without(s: seq<string>, gone: set<string>): seq<string> {
    if s == [] then []
    else if s[0] in gone then Without(s[1..], gone)
    else [s[0]] + Without(s[1..], gone)
  }

  lemma {:induction false} WithoutMembers(s: seq<string>, gone: set<string>)
    ensures forall x :: x in Without(s, gone) <==> x in s && x !in gone
  {
    if s == [] {
    } else {
      assert s == [s[0]] + s[1..];
      WithoutMembers(s[1..], gone);
    }
  }

  lemma {:induction false} WithoutTwice(s: seq<string>, a: set<string>, b: set<string>)
    ensures Without(Without(s, a), b) == Without(s, a + b)
  {
    if s == [] {
    } else {
      WithoutTwice(s[1..], a, b);
    }
  }

  lemma {:induction false} WithoutNone(s: seq<string>, gone: set<string>)
    requires forall x :: x in s ==> x !in gone
    ensures Without(s, gone) == s
  {
    if s == [] {
    } else {
      assert s == [s[0]] + s[1..];
      WithoutNone(s[1..], gone);
    }
  }

  lemma {:induction false} WithoutDistinct(s: seq<string>, gone: set<string>)
    requires Distinct(s)
    ensures Distinct(Without(s, gone))
  {
    if s == [] {
    } else {
      WithoutDistinct(s[1..], gone);
      WithoutMembers(s[1..], gone);
      assert s[0] !in s[1..];
    }
  }

  /** Whoever stays keeps his place. */
  lemma {:induction false} WithoutInOrder(a: seq<string>, x: string, b: seq<string>, gone: set<string>)
    ensures Without(a + b, gone) == Without(a, gone) + Without(b, gone)
    ensures Without([x], gone) == if x in gone then [] else [x]
  {
    if a == [] {
      assert a + b == b;
    } else {
      assert (a + b)[1..] == a[1..] + b;
      WithoutInOrder(a[1..], x, b, gone);
    }
  }

  /** Removes the first occurrence, as `list.remove` does. */
  function Remove(s: seq<string>, x: string): seq<string>
    requires x in s
  {
    if s[0] == x then s[1..] else [s[0]] + Remove(s[1..], x)
  }

  lemma {:induction false} RemoveIsWithout(s: seq<string>, x: string)
    requires Distinct(s) && x in s
    ensures Remove(s, x) == Without(s, {x})
  {
    assert s == [s[0]] + s[1..];
    if s[0] == x {
      WithoutNone(s[1..], {x});
    } else {
      RemoveIsWithout(s[1..], x);
    }
  }

  type Providers = map<string, seq<string>>

  ghost predicate AllDistinct(p: Providers) {
    forall t {:trigger p[t]} :: t in p ==> Distinct(p[t])
  }

  /** `after` is `before` with the files in `gone` taken out of every list. */
  ghost predicate Purged(before: Providers, after: Providers, gone: set<string>) {
    after.Keys == before.Keys && forall t {:trigger after[t]} :: t in before ==> after[t] == Without(before[t], gone)
  }

  lemma PurgedTwice(a: Providers, b: Providers, c: Providers, m: set<string>, n: set<string>)
    requires Purged(a, b, m) && Purged(b, c, n)
    ensures Purged(a, c, m + n)
  {
    forall t | t in a
      ensures c[t] == Without(a[t], m + n)
    {
      assert b[t] == Without(a[t], m);
      WithoutTwice(a[t], m, n);
    }
  }

  lemma PurgedNothing(a: Providers)
    ensures Purged(a, a, {})
  {
    forall t | t in a
      ensures a[t] == Without(a[t], {})
    {
      WithoutNone(a[t], {});
    }
  }

  /** Targets that had a provider before and have none after. */
  ghost predicate Emptied(before: Providers, after: Providers, t: string) {
    t in before && t in after && before[t] != [] && after[t] == []
  }

  /** What depends on what, and the targets that must not be lost; the cascade never
      changes it. */
  datatype Deps = Deps(depids: map<string, seq<string>>, rdepids: map<string, seq<string>>,
                       entries: map<Tid, TaskEntry>, required: set<string>)

  function Names(pairs: seq<(string, string)>): set<string> {
    set k | 0 <= k < |pairs| :: pairs[k].0
  }

  /** The files that depend on a build target, through DEPENDS or through a task. */
  function BuildDependees(d: Deps, t: string): set<string> {
    (set fn | fn in d.depids && t in d.depids[fn])
      + (set tid | tid in d.entries && t in Names(d.entries[tid].idepends) :: tid.fn)
  }

  function RunDependees(d: Deps, t: string): set<string> {
    (set fn | fn in d.rdepids && t in d.rdepids[fn])
      + (set tid | tid in d.entries && t in Names(d.entries[tid].irdepends) :: tid.fn)
  }

  /** A target's dependees are those that list it and the files of the tasks that name it. */
  lemma TaskDepends(d: Deps, t: string, tid: Tid)
    requires tid in d.entries
    ensures t in Names(d.entries[tid].idepends) ==> tid.fn in BuildDependees(d, t)
    ensures t in Names(d.entries[tid].irdepends) ==> tid.fn in RunDependees(d, t)
  {
  }

  lemma BuildDependeesAre(d: Deps, t: string, listed: set<string>)
    requires forall fn :: fn in listed <==> fn in d.depids && t in d.depids[fn]
    ensures listed <= BuildDependees(d, t)
    ensures forall tid :: tid in d.entries && t in Names(d.entries[tid].idepends) ==> tid.fn in BuildDependees(d, t)
    ensures forall f: set<string> ::
      listed <= f && (forall tid :: tid in d.entries && t in Names(d.entries[tid].idepends) ==> tid.fn in f)
      ==> BuildDependees(d, t) <= f
  {
  }

  lemma RunDependeesAre(d: Deps, t: string, listed: set<string>)
    requires forall fn :: fn in listed <==> fn in d.rdepids && t in d.rdepids[fn]
    ensures listed <= RunDependees(d, t)
    ensures forall tid :: tid in d.entries && t in Names(d.entries[tid].irdepends) ==> tid.fn in RunDependees(d, t)
    ensures forall f: set<string> ::
      listed <= f && (forall tid :: tid in d.entries && t in Names(d.entries[tid].irdepends) ==> tid.fn in f)
      ==> RunDependees(d, t) <= f
  {
  }

  /** A file depends on a build target exactly when it lists it, or one of its tasks names
      it as the target, not the task, of a pair. */
  lemma BuildDependeesByPairs(d: Deps, t: string, fn: string)
    ensures fn in BuildDependees(d, t) <==>
      (fn in d.depids && t in d.depids[fn])
      || exists tid, k ::
           tid in d.entries && tid.fn == fn && 0 <= k < |d.entries[tid].idepends| && d.entries[tid].idepends[k].0 == t
  {
    if tid, k :| tid in d.entries && tid.fn == fn && 0 <= k < |d.entries[tid].idepends|
                 && d.entries[tid].idepends[k].0 == t {
      assert t in Names(d.entries[tid].idepends);
    }
  }

  lemma RunDependeesByPairs(d: Deps, t: string, fn: string)
    ensures fn in RunDependees(d, t) <==>
      (fn in d.rdepids && t in d.rdepids[fn])
      || exists tid, k ::
           tid in d.entries && tid.fn == fn && 0 <= k < |d.entries[tid].irdepends| && d.entries[tid].irdepends[k].0 == t
  {
    if tid, k :| tid in d.entries && tid.fn == fn && 0 <= k < |d.entries[tid].irdepends|
                 && d.entries[tid].irdepends[k].0 == t {
      assert t in Names(d.entries[tid].irdepends);
    }
  }

  /** Whoever lists the target, and whose task names it first in a pair, depends on it. */
  lemma NamingFails(d: Deps, t: string)
    ensures forall fn :: fn in d.depids && t in d.depids[fn] ==> fn in BuildDependees(d, t)
    ensures forall fn :: fn in d.rdepids && t in d.rdepids[fn] ==> fn in RunDependees(d, t)
    ensures forall tid, k ::
      tid in d.entries && 0 <= k < |d.entries[tid].idepends| && d.entries[tid].idepends[k].0 == t ==>
      tid.fn in BuildDependees(d, t)
    ensures forall tid, k ::
      tid in d.entries && 0 <= k < |d.entries[tid].irdepends| && d.entries[tid].irdepends[k].0 == t ==>
      tid.fn in RunDependees(d, t)
  {
    forall fn
      ensures fn in d.depids && t in d.depids[fn] ==> fn in BuildDependees(d, t)
      ensures fn in d.rdepids && t in d.rdepids[fn] ==> fn in RunDependees(d, t)
    {
      BuildDependeesByPairs(d, t, fn);
      RunDependeesByPairs(d, t, fn);
    }
    forall tid, k | tid in d.entries
      ensures 0 <= k < |d.entries[tid].idepends| && d.entries[tid].idepends[k].0 == t ==>
        tid.fn in BuildDependees(d, t)
      ensures 0 <= k < |d.entries[tid].irdepends| && d.entries[tid].irdepends[k].0 == t ==>
        tid.fn in RunDependees(d, t)
    {
      BuildDependeesByPairs(d, t, tid.fn);
      RunDependeesByPairs(d, t, tid.fn);
    }
  }

  /** Every file the cascade can reach by a dependency. */
  function Universe(d: Deps): set<string> {
    d.depids.Keys + d.rdepids.Keys + set tid | tid in d.entries :: tid.fn
  }

  lemma DependeesInUniverse(d: Deps, t: string)
    ensures BuildDependees(d, t) <= Universe(d) && RunDependees(d, t) <= Universe(d)
  {
  }

  /** The lists the cascade edits. */
  datatype Lists = Lists(build: Providers, run: Providers, failed: set<string>, failedDeps: set<string>,
                         failedRdeps: set<string>)

  /** Emptied targets are recorded, none of them is required, and whatever depends on them
      has failed. */
  ghost predicate BuildHandled(d: Deps, before: Providers, after: Providers, failed: set<string>, recorded: set<string>)
  {
    forall t {:trigger Emptied(before, after, t)} :: Emptied(before, after, t)
      ==> t in recorded && t !in d.required && BuildDependees(d, t) <= failed
  }

  ghost predicate RunHandled(d: Deps, before: Providers, after: Providers, failed: set<string>, recorded: set<string>) {
    forall t {:trigger Emptied(before, after, t)} :: Emptied(before, after, t)
      ==> t in recorded && RunDependees(d, t) <= failed
  }

  /** Only emptied targets, and those in `named`, are added to the record. */
  ghost predicate RecordGrew(before: Providers, after: Providers, old': set<string>, new': set<string>,
                             named: set<string>)
  {
    old' + named <= new' && forall t :: t in new' ==> t in old' || t in named || Emptied(before, after, t)
  }

  /** From `a` to `b` exactly the files in `gone` failed: they were taken out of every
      list and out of no list was anything else taken; emptied targets were handled. */
  ghost predicate Cascade(d: Deps, a: Lists, b: Lists, gone: set<string>, namedBuild: set<string>,
                          namedRun: set<string>)
  {
    && gone !! a.failed && b.failed == a.failed + gone
    && Purged(a.build, b.build, gone) && Purged(a.run, b.run, gone)
    && BuildHandled(d, a.build, b.build, b.failed, b.failedDeps)
    && RunHandled(d, a.run, b.run, b.failed, b.failedRdeps)
    && RecordGrew(a.build, b.build, a.failedDeps, b.failedDeps, namedBuild)
    && RecordGrew(a.run, b.run, a.failedRdeps, b.failedRdeps, namedRun)
  }

  lemma CascadeNothing(d: Deps, a: Lists)
    ensures Cascade(d, a, a, {}, {}, {})
  {
    PurgedNothing(a.build);
    PurgedNothing(a.run);
  }

  lemma EmptiedTwice(a: Providers, b: Providers, c: Providers, m: set<string>, n: set<string>, t: string)
    requires Purged(a, b, m) && Purged(b, c, n)
    ensures Emptied(a, c, t) <==> Emptied(a, b, t) || Emptied(b, c, t)
  {
    if t in a {
      assert b[t] == Without(a[t], m) && c[t] == Without(b[t], n);
    }
  }

  lemma CascadeTwice(d: Deps, a: Lists, b: Lists, c: Lists, m: set<string>, n: set<string>,
                     nb: set<string>, nr: set<string>, mb: set<string>, mr: set<string>)
    requires Cascade(d, a, b, m, nb, nr) && Cascade(d, b, c, n, mb, mr)
    ensures Cascade(d, a, c, m + n, nb + mb, nr + mr)
  {
    hide Emptied, Purged, BuildDependees, RunDependees;
    PurgedTwice(a.build, b.build, c.build, m, n);
    PurgedTwice(a.run, b.run, c.run, m, n);
    forall t
      ensures Emptied(a.build, c.build, t) <==> Emptied(a.build, b.build, t) || Emptied(b.build, c.build, t)
      ensures Emptied(a.run, c.run, t) <==> Emptied(a.run, b.run, t) || Emptied(b.run, c.run, t)
    {
      EmptiedTwice(a.build, b.build, c.build, m, n, t);
      EmptiedTwice(a.run, b.run, c.run, m, n, t);
    }
  }

  // ---- the least set of files that has to fail ----

  ghost predicate Provided(p: Providers, t: string, s: set<string>) {
    t in p && p[t] != [] && forall x :: x in p[t] ==> x in s
  }

  /** `s` holds the failed files and, with all providers of a target, everything that
      depends on the target. */
  ghost predicate ClosedSet(d: Deps, a: Lists, s: set<string>) {
    && a.failed <= s
    && (forall t {:trigger Provided(a.build, t, s)} :: Provided(a.build, t, s) ==> BuildDependees(d, t) <= s)
    && (forall t {:trigger Provided(a.run, t, s)} :: Provided(a.run, t, s) ==> RunDependees(d, t) <= s)
  }

  /** What `now` lacks of `before` is in `gone`. */
  ghost predicate LostOnly(before: Providers, now: Providers, gone: set<string>) {
    && now.Keys == before.Keys
    && (forall t, x :: t in before && x in before[t] ==> x in now[t] || x in gone)
    && (forall t {:trigger now[t]} :: t in before && before[t] == [] ==> now[t] == [])
  }

  lemma PurgedLostOnly(before: Providers, now: Providers, gone: set<string>)
    requires Purged(before, now, gone)
    ensures LostOnly(before, now, gone)
  {
    forall t, x | t in before && x in before[t]
      ensures x in now[t] || x in gone
    {
      assert now[t] == Without(before[t], gone);
      WithoutMembers(before[t], gone);
    }
  }

  lemma ClosedSetKept(d: Deps, a: Lists, b: Lists, gone: set<string>, s: set<string>)
    requires ClosedSet(d, a, s) && b.failed <= s && gone <= s
    requires LostOnly(a.build, b.build, gone) && LostOnly(a.run, b.run, gone)
    ensures ClosedSet(d, b, s)
  {
    hide BuildDependees, RunDependees;
    forall t | Provided(b.build, t, s)
      ensures BuildDependees(d, t) <= s
    {
      assert Provided(a.build, t, s);
    }
    forall t | Provided(b.run, t, s)
      ensures RunDependees(d, t) <= s
    {
      assert Provided(a.run, t, s);
    }
  }

  /** The files that every closed set with the `seeds` in it holds. */
  ghost function Doomed(d: Deps, a: Lists, seeds: set<string>): set<string> {
    set x | x in Universe(d) + seeds + a.failed && forall s: set<string> :: ClosedSet(d, a, s) && seeds <= s ==> x in s
  }

  lemma DoomedClosed(d: Deps, a: Lists, seeds: set<string>)
    ensures ClosedSet(d, a, Doomed(d, a, seeds)) && seeds <= Doomed(d, a, seeds)
  {
    var least := Doomed(d, a, seeds);
    forall t | Provided(a.build, t, least)
      ensures BuildDependees(d, t) <= least
    {
      DependeesInUniverse(d, t);
      forall x, s: set<string> | x in BuildDependees(d, t) && ClosedSet(d, a, s) && seeds <= s
        ensures x in s
      {
        assert Provided(a.build, t, s);
      }
    }
    forall t | Provided(a.run, t, least)
      ensures RunDependees(d, t) <= least
    {
      DependeesInUniverse(d, t);
      forall x, s: set<string> | x in RunDependees(d, t) && ClosedSet(d, a, s) && seeds <= s
        ensures x in s
      {
        assert Provided(a.run, t, s);
      }
    }
  }

  /** After the cascade the failed files are themselves a closed set of the lists as
      they were before, if no failed file was listed then. */
  lemma FailedIsClosed(d: Deps, a: Lists, b: Lists, gone: set<string>, nb: set<string>, nr: set<string>)
    requires Cascade(d, a, b, gone, nb, nr) && Clean(a)
    ensures ClosedSet(d, a, b.failed)
  {
    forall t | Provided(a.build, t, b.failed)
      ensures BuildDependees(d, t) <= b.failed
    {
      assert b.build[t] == Without(a.build[t], gone);
      WithoutMembers(a.build[t], gone);
      HeadIn(b.build[t]);
      assert Emptied(a.build, b.build, t);
    }
    forall t | Provided(a.run, t, b.failed)
      ensures RunDependees(d, t) <= b.failed
    {
      assert b.run[t] == Without(a.run[t], gone);
      WithoutMembers(a.run[t], gone);
      HeadIn(b.run[t]);
      assert Emptied(a.run, b.run, t);
    }
  }

  /** No failed file is listed as a provider. */
  ghost predicate Clean(a: Lists) {
    && (forall t, x :: t in a.build && x in a.build[t] ==> x !in a.failed)
    && (forall t, x :: t in a.run && x in a.run[t] ==> x !in a.failed)
  }

  lemma CascadeClean(d: Deps, a: Lists, b: Lists, gone: set<string>, nb: set<string>, nr: set<string>)
    requires Cascade(d, a, b, gone, nb, nr) && Clean(a)
    ensures Clean(b)
  {
    forall t, x | t in b.build && x in b.build[t]
      ensures x !in b.failed
    {
      assert b.build[t] == Without(a.build[t], gone);
      WithoutMembers(a.build[t], gone);
    }
    forall t, x | t in b.run && x in b.run[t]
      ensures x !in b.failed
    {
      assert b.run[t] == Without(a.run[t], gone);
      WithoutMembers(a.run[t], gone);
    }
  }

  // ---- one target inside the loop of fail_fn ----

  /** In the middle of failing `fn`: nested calls have failed `gone`, and `fn` itself is
      out of the lists of the targets in `visited`. */
  ghost predicate PartPurged(before: Providers, now: Providers, gone: set<string>, fn: string, visited: set<string>) {
    && now.Keys == before.Keys
    && forall t {:trigger now[t]} :: t in before ==>
       now[t] == Without(before[t], if t in visited then gone + {fn} else gone)
  }

  lemma PartPurgedStart(before: Providers, fn: string)
    ensures PartPurged(before, before, {}, fn, {})
  {
    PurgedNothing(before);
  }

  lemma PartPurgedDone(before: Providers, now: Providers, gone: set<string>, fn: string)
    requires PartPurged(before, now, gone, fn, before.Keys)
    ensures Purged(before, now, gone + {fn})
  {
  }

  /** The loop reaches `t`: `fn` is removed from its list if it is there. */
  lemma PartPurgedVisit(before: Providers, now: Providers, gone: set<string>, fn: string, visited: set<string>,
                        t: string)
    requires PartPurged(before, now, gone, fn, visited) && AllDistinct(now) && t in before && t !in visited
    ensures fn in now[t] ==> PartPurged(before, now[t := Remove(now[t], fn)], gone, fn, visited + {t})
    ensures fn !in now[t] ==> PartPurged(before, now, gone, fn, visited + {t})
  {
    assert now[t] == Without(before[t], gone);
    WithoutTwice(before[t], gone, {fn});
    if fn in now[t] {
      RemoveIsWithout(now[t], fn);
    } else {
      WithoutNone(now[t], {fn});
    }
  }

  /** A nested call fails more files. */
  lemma PartPurgedNested(before: Providers, now: Providers, later: Providers, gone: set<string>, more: set<string>,
                         fn: string, visited: set<string>)
    requires PartPurged(before, now, gone, fn, visited) && Purged(now, later, more)
    ensures PartPurged(before, later, gone + more, fn, visited)
  {
    forall t | t in before
      ensures later[t] == Without(before[t], if t in visited then gone + more + {fn} else gone + more)
    {
      var was := if t in visited then gone + {fn} else gone;
      assert now[t] == Without(before[t], was);
      assert later[t] == Without(now[t], more);
      WithoutTwice(before[t], was, more);
      assert was + more == if t in visited then gone + more + {fn} else gone + more;
    }
  }

  lemma PartPurgedFacts(before: Providers, now: Providers, gone: set<string>, fn: string, visited: set<string>)
    requires PartPurged(before, now, gone, fn, visited) && AllDistinct(before)
    ensures AllDistinct(now) && LostOnly(before, now, gone + {fn})
  {
    forall t | t in now
      ensures Distinct(now[t])
    {
      WithoutDistinct(before[t], if t in visited then gone + {fn} else gone);
    }
    forall t, x | t in before && x in before[t]
      ensures x in now[t] || x in gone + {fn}
    {
      assert now[t] == Without(before[t], if t in visited then gone + {fn} else gone);
      WithoutMembers(before[t], if t in visited then gone + {fn} else gone);
    }
  }

  /** `fn` has been entered as failed after `a`, and its loops have got as far as
      `buildSeen` and `runSeen`. */
  ghost predicate Failing(d: Deps, a: Lists, now: Lists, fn: string, gone: set<string>, buildSeen: set<string>,
                          runSeen: set<string>)
  {
    && AllDistinct(a.build) && AllDistinct(a.run)
    && fn !in a.failed && gone !! a.failed + {fn} && now.failed == a.failed + {fn} + gone
    && PartPurged(a.build, now.build, gone, fn, buildSeen) && PartPurged(a.run, now.run, gone, fn, runSeen)
    && BuildHandled(d, a.build, now.build, now.failed, now.failedDeps)
    && RunHandled(d, a.run, now.run, now.failed, now.failedRdeps)
    && RecordGrew(a.build, now.build, a.failedDeps, now.failedDeps, {})
    && RecordGrew(a.run, now.run, a.failedRdeps, now.failedRdeps, {})
  }

  lemma FailingStart(d: Deps, a: Lists, fn: string)
    requires fn !in a.failed && AllDistinct(a.build) && AllDistinct(a.run)
    ensures Failing(d, a, a.(failed := a.failed + {fn}), fn, {}, {}, {})
  {
    PartPurgedStart(a.build, fn);
    PartPurgedStart(a.run, fn);
  }

  lemma FailingDone(d: Deps, a: Lists, now: Lists, fn: string, gone: set<string>)
    requires Failing(d, a, now, fn, gone, a.build.Keys, a.run.Keys)
    ensures Cascade(d, a, now, gone + {fn}, {}, {})
  {
    PartPurgedDone(a.build, now.build, gone, fn);
    PartPurgedDone(a.run, now.run, gone, fn);
  }

  lemma FailingFacts(d: Deps, a: Lists, now: Lists, fn: string, gone: set<string>, buildSeen: set<string>,
                     runSeen: set<string>, doomed: set<string>)
    requires Failing(d, a, now, fn, gone, buildSeen, runSeen)
    requires ClosedSet(d, a, doomed) && now.failed <= doomed
    ensures AllDistinct(now.build) && AllDistinct(now.run) && ClosedSet(d, now, doomed)
    ensures now.build.Keys == a.build.Keys && now.run.Keys == a.run.Keys
    ensures a.failed + {fn} <= now.failed
  {
    hide PartPurged, LostOnly, ClosedSet, AllDistinct, BuildHandled, RunHandled, RecordGrew;
    PartPurgedFacts(a.build, now.build, gone, fn, buildSeen);
    PartPurgedFacts(a.run, now.run, gone, fn, runSeen);
    ClosedSetKept(d, a, now, gone + {fn}, doomed);
  }

  /** A visited target keeps a provider, or did not list the file. */
  lemma VisitBuild(d: Deps, a: Lists, now: Lists, fn: string, gone: set<string>, buildSeen: set<string>,
                   runSeen: set<string>, t: string)
    requires Failing(d, a, now, fn, gone, buildSeen, runSeen) && AllDistinct(now.build) && t in a.build
      && t in now.build && t !in buildSeen
    ensures fn !in now.build[t] ==> Failing(d, a, now, fn, gone, buildSeen + {t}, runSeen)
    ensures fn in now.build[t] && Remove(now.build[t], fn) != [] ==>
              Failing(d, a, now.(build := now.build[t := Remove(now.build[t], fn)]), fn, gone, buildSeen + {t}, runSeen)
  {
    hide PartPurged, BuildDependees, RunDependees, AllDistinct, RunHandled;
    PartPurgedVisit(a.build, now.build, gone, fn, buildSeen, t);
    if fn in now.build[t] && Remove(now.build[t], fn) != [] {
      var later := now.build[t := Remove(now.build[t], fn)];
      assert forall x :: Emptied(a.build, later, x) <==> Emptied(a.build, now.build, x);
    }
  }

  lemma VisitRun(d: Deps, a: Lists, now: Lists, fn: string, gone: set<string>, buildSeen: set<string>,
                 runSeen: set<string>, t: string)
    requires Failing(d, a, now, fn, gone, buildSeen, runSeen) && AllDistinct(now.run) && t in a.run && t in now.run
      && t !in runSeen
    ensures fn !in now.run[t] ==> Failing(d, a, now, fn, gone, buildSeen, runSeen + {t})
    ensures fn in now.run[t] && Remove(now.run[t], fn) != [] ==>
              Failing(d, a, now.(run := now.run[t := Remove(now.run[t], fn)]), fn, gone, buildSeen, runSeen + {t})
  {
    hide PartPurged, BuildDependees, RunDependees, AllDistinct, BuildHandled;
    PartPurgedVisit(a.run, now.run, gone, fn, runSeen, t);
    if fn in now.run[t] && Remove(now.run[t], fn) != [] {
      var later := now.run[t := Remove(now.run[t], fn)];
      assert forall x :: Emptied(a.run, later, x) <==> Emptied(a.run, now.run, x);
    }
  }

  /** The visit empties the build target: its dependees are bound to fail anyway. */
  lemma EmptiedBuildIsDoomed(d: Deps, a: Lists, now: Lists, fn: string, gone: set<string>, buildSeen: set<string>,
                             runSeen: set<string>, t: string, doomed: set<string>)
    requires Failing(d, a, now, fn, gone, buildSeen, runSeen) && ClosedSet(d, a, doomed) && now.failed <= doomed
    requires AllDistinct(now.build) && t in a.build && t in now.build && t !in buildSeen
    requires fn in now.build[t] && Remove(now.build[t], fn) == []
    ensures a.build[t] != [] && BuildDependees(d, t) <= doomed
    ensures AllDistinct(now.build[t := Remove(now.build[t], fn)])
    ensures ClosedSet(d, now.(build := now.build[t := Remove(now.build[t], fn)]), doomed)
  {
    hide BuildDependees, RunDependees, BuildHandled, RunHandled, RecordGrew;
    var mid := now.(build := now.build[t := Remove(now.build[t], fn)]);
    PartPurgedVisit(a.build, now.build, gone, fn, buildSeen, t);
    assert mid.build[t] == Without(a.build[t], gone + {fn});
    WithoutMembers(a.build[t], gone + {fn});
    assert fn in a.build[t] by {
      WithoutMembers(a.build[t], gone);
    }
    assert Provided(a.build, t, doomed);
    hide PartPurged, AllDistinct, LostOnly, ClosedSet, Provided;
    PartPurgedFacts(a.build, mid.build, gone, fn, buildSeen + {t});
    PartPurgedFacts(a.run, mid.run, gone, fn, runSeen);
    ClosedSetKept(d, a, mid, gone + {fn}, doomed);
  }

  /** The visit empties the run-time target: its dependees are bound to fail anyway. */
  lemma EmptiedRunIsDoomed(d: Deps, a: Lists, now: Lists, fn: string, gone: set<string>, buildSeen: set<string>,
                           runSeen: set<string>, t: string, doomed: set<string>)
    requires Failing(d, a, now, fn, gone, buildSeen, runSeen) && ClosedSet(d, a, doomed) && now.failed <= doomed
    requires AllDistinct(now.run) && t in a.run && t in now.run && t !in runSeen
    requires fn in now.run[t] && Remove(now.run[t], fn) == []
    ensures a.run[t] != [] && RunDependees(d, t) <= doomed
    ensures AllDistinct(now.run[t := Remove(now.run[t], fn)])
    ensures ClosedSet(d, now.(run := now.run[t := Remove(now.run[t], fn)]), doomed)
  {
    hide BuildDependees, RunDependees, BuildHandled, RunHandled, RecordGrew;
    var mid := now.(run := now.run[t := Remove(now.run[t], fn)]);
    PartPurgedVisit(a.run, now.run, gone, fn, runSeen, t);
    assert mid.run[t] == Without(a.run[t], gone + {fn});
    WithoutMembers(a.run[t], gone + {fn});
    assert fn in a.run[t] by {
      WithoutMembers(a.run[t], gone);
    }
    assert Provided(a.run, t, doomed);
    hide PartPurged, AllDistinct, LostOnly, ClosedSet, Provided;
    PartPurgedFacts(a.build, mid.build, gone, fn, buildSeen);
    PartPurgedFacts(a.run, mid.run, gone, fn, runSeen + {t});
    ClosedSetKept(d, a, mid, gone + {fn}, doomed);
  }

  /** The visit emptied `t`, and the nested cascade it set off is over. */
  lemma VisitBuildEmptied(d: Deps, a: Lists, now: Lists, later: Lists, fn: string, gone: set<string>, more: set<string>,
                          buildSeen: set<string>, runSeen: set<string>, t: string)
    requires Failing(d, a, now, fn, gone, buildSeen, runSeen) && AllDistinct(now.build) && t in a.build
      && t in now.build && t !in buildSeen
    requires fn in now.build[t] && Remove(now.build[t], fn) == [] && a.build[t] != []
    requires Cascade(d, now.(build := now.build[t := Remove(now.build[t], fn)]), later, more, {t}, {})
    requires BuildDependees(d, t) <= later.failed && t !in d.required
    ensures Failing(d, a, later, fn, gone + more, buildSeen + {t}, runSeen)
  {
    hide BuildDependees, RunDependees, AllDistinct, PartPurged, Without, Remove, Emptied, Purged;
    var mid := now.(build := now.build[t := Remove(now.build[t], fn)]);
    PartPurgedVisit(a.build, now.build, gone, fn, buildSeen, t);
    PartPurgedNested(a.build, mid.build, later.build, gone, more, fn, buildSeen + {t});
    PartPurgedNested(a.run, mid.run, later.run, gone, more, fn, runSeen);
    EmptiedMid(a.build, now.build, later.build, gone, more, fn, buildSeen, t);
    EmptiedNested(a.run, now.run, later.run, gone, more, fn, runSeen);
  }

  lemma VisitRunEmptied(d: Deps, a: Lists, now: Lists, later: Lists, fn: string, gone: set<string>, more: set<string>,
                        buildSeen: set<string>, runSeen: set<string>, t: string)
    requires Failing(d, a, now, fn, gone, buildSeen, runSeen) && AllDistinct(now.run) && t in a.run && t in now.run
      && t !in runSeen
    requires fn in now.run[t] && Remove(now.run[t], fn) == [] && a.run[t] != []
    requires Cascade(d, now.(run := now.run[t := Remove(now.run[t], fn)]), later, more, {}, {t})
    requires RunDependees(d, t) <= later.failed
    ensures Failing(d, a, later, fn, gone + more, buildSeen, runSeen + {t})
  {
    hide BuildDependees, RunDependees, AllDistinct, PartPurged, Without, Remove, Emptied, Purged;
    var mid := now.(run := now.run[t := Remove(now.run[t], fn)]);
    PartPurgedVisit(a.run, now.run, gone, fn, runSeen, t);
    PartPurgedNested(a.run, mid.run, later.run, gone, more, fn, runSeen + {t});
    PartPurgedNested(a.build, mid.build, later.build, gone, more, fn, buildSeen);
    EmptiedMid(a.run, now.run, later.run, gone, more, fn, runSeen, t);
    EmptiedNested(a.build, now.build, later.build, gone, more, fn, buildSeen);
  }

  /** What a nested cascade empties was either empty before or is newly empty. */
  lemma EmptiedNested(before: Providers, now: Providers, later: Providers, gone: set<string>, more: set<string>,
                      fn: string, visited: set<string>)
    requires PartPurged(before, now, gone, fn, visited) && Purged(now, later, more)
    ensures forall x :: Emptied(before, later, x) <==> Emptied(before, now, x) || Emptied(now, later, x)
  {
    forall x
      ensures Emptied(before, later, x) <==> Emptied(before, now, x) || Emptied(now, later, x)
    {
      if x in before {
        assert now[x] == Without(before[x], if x in visited then gone + {fn} else gone);
        assert later[x] == Without(now[x], more);
      }
    }
  }

  lemma EmptiedMid(before: Providers, now: Providers, later: Providers, gone: set<string>, more: set<string>,
                   fn: string, visited: set<string>, t: string)
    requires PartPurged(before, now, gone, fn, visited) && t in now && Purged(now[t := []], later, more)
    ensures forall x :: Emptied(before, later, x) ==>
      x == t || Emptied(before, now, x) || Emptied(now[t := []], later, x)
    ensures forall x :: Emptied(before, now, x) || Emptied(now[t := []], later, x) ==> Emptied(before, later, x)
    ensures before[t] != [] ==> Emptied(before, later, t)
  {
    var mid := now[t := []];
    forall x
      ensures Emptied(before, later, x) ==> x == t || Emptied(before, now, x) || Emptied(mid, later, x)
      ensures Emptied(before, now, x) || Emptied(mid, later, x) ==> Emptied(before, later, x)
      ensures x == t && before[t] != [] ==> Emptied(before, later, t)
    {
      if x in before {
        assert now[x] == Without(before[x], if x in visited then gone + {fn} else gone);
        assert later[x] == Without(mid[x], more);
      }
    }
  }

  // ---- the task data ----

  class TaskData {
    var buildTargets: Providers
    var runTargets: Providers
    var taskentries: map<Tid, TaskEntry>
    var depids: map<string, seq<string>>
    var rdepids: map<string, seq<string>>
    var failedDeps: seq<string>
    var failedRdeps: seq<string>
    var failedFns: seq<string>
    var externalTargets: seq<string>
    const abort: bool

    /** No provider is listed twice for a target, and no file has failed twice. */
    ghost predicate Valid()
      reads this
    {
      AllDistinct(buildTargets) && AllDistinct(runTargets) && Distinct(failedFns)
    }

    ghost function Dependencies(): Deps
      reads this
    {
      Deps(depids, rdepids, taskentries, if abort then Elements(externalTargets) else {})
    }

    ghost function View(): Lists
      reads this
    {
      Lists(buildTargets, runTargets, Elements(failedFns), Elements(failedDeps), Elements(failedRdeps))
    }

    /** The exception a required target raises in abort mode. */
    ghost predicate RequiredTargetLost()
      reads this
    {
      abort && exists t :: t in externalTargets && t in failedDeps
    }

    lemma RequiredIs(t: string)
      ensures t in Dependencies().required <==> abort && t in externalTargets
    {
    }

    constructor (abort: bool)
      ensures Valid() && this.abort == abort && View() == Lists(map[], map[], {}, {}, {})
    {
      this.abort := abort;
      buildTargets, runTargets, taskentries, depids, rdepids := map[], map[], map[], map[], map[];
      failedDeps, failedRdeps, failedFns, externalTargets := [], [], [], [];
    }

    /** Adds a provider to a target's list, once. */
    method AddBuildTarget(fn: string, item: string)
      requires Valid()
      modifies this`buildTargets
      ensures Valid()
      ensures buildTargets
        == if item !in old(buildTargets) then old(buildTargets)[item := [fn]]
           else if fn in old(buildTargets)[item] then old(buildTargets)
           else old(buildTargets)[item := old(buildTargets)[item] + [fn]]
    {
      if item in buildTargets {
        if fn in buildTargets[item] {
          assert buildTargets == buildTargets[item := buildTargets[item]];
          return;
        }
        assert Distinct(buildTargets[item] + [fn]);
        buildTargets := buildTargets[item := buildTargets[item] + [fn]];
        return;
      }
      assert [] + [fn] == [fn];
      buildTargets := buildTargets[item := [fn]];
    }

    method AddRuntimeTarget(fn: string, item: string)
      requires Valid()
      modifies this`runTargets
      ensures Valid()
      ensures runTargets
        == if item !in old(runTargets) then old(runTargets)[item := [fn]]
           else if fn in old(runTargets)[item] then old(runTargets)
           else old(runTargets)[item := old(runTargets)[item] + [fn]]
    {
      if item in runTargets {
        if fn in runTargets[item] {
          assert runTargets == runTargets[item := runTargets[item]];
          return;
        }
        assert Distinct(runTargets[item] + [fn]);
        runTargets := runTargets[item := runTargets[item] + [fn]];
        return;
      }
      assert [] + [fn] == [fn];
      runTargets := runTargets[item := [fn]];
    }

    method GetDependees(item: string) returns (dependees: set<string>)
      ensures forall fn :: fn in dependees <==> fn in depids && item in depids[fn]
    {
      dependees := {};
      var todo := depids.Keys;
      while todo != {}
        invariant todo <= depids.Keys
        invariant forall fn :: fn in dependees <==> fn in depids && fn !in todo && item in depids[fn]
      {
        var fn :| fn in todo;
        todo := todo - {fn};
        if item in depids[fn] {
          dependees := dependees + {fn};
        }
      }
    }

    method GetRdependees(item: string) returns (dependees: set<string>)
      ensures forall fn :: fn in dependees <==> fn in rdepids && item in rdepids[fn]
    {
      dependees := {};
      var todo := rdepids.Keys;
      while todo != {}
        invariant todo <= rdepids.Keys
        invariant forall fn :: fn in dependees <==> fn in rdepids && fn !in todo && item in rdepids[fn]
      {
        var fn :| fn in todo;
        todo := todo - {fn};
        if item in rdepids[fn] {
          dependees := dependees + {fn};
        }
      }
    }

    /** Fails a file: it is taken out of every provider list, and a target left without
        providers is removed. `raised` says that a required target was lost in abort
        mode; `doomed` is any closed set of files that holds `fn`. */
    method FailFn(fn: string, ghost doomed: set<string>) returns (raised: bool, ghost gone: set<string>)
      requires Valid() && fn in doomed && ClosedSet(Dependencies(), View(), doomed)
      modifies this`buildTargets, this`runTargets, this`failedFns, this`failedDeps, this`failedRdeps
      ensures Valid() && (raised ==> RequiredTargetLost())
      ensures !raised ==> Cascade(Dependencies(), old(View()), View(), gone, {}, {})
      ensures !raised ==> fn in failedFns && View().failed <= doomed
      decreases |Universe(Dependencies()) + {fn} - View().failed|, 0
    {
      hide ClosedSet, Cascade, Failing, AllDistinct, Universe, BuildDependees, RunDependees, Elements;
      raised, gone := false, {};
      ElementsSnoc(failedFns, fn);
      if fn in failedFns {
        CascadeNothing(Dependencies(), View());
        DoomedHasFailed(Dependencies(), View(), doomed);
        return;
      }
      ghost var a := View();
      FailingStart(Dependencies(), a, fn);
      DoomedHasFailed(Dependencies(), a, doomed);
      SmallerSet(Universe(Dependencies()) - (a.failed + {fn}), Universe(Dependencies()) + {fn} - a.failed);
      failedFns := failedFns + [fn];
      assert View() == a.(failed := a.failed + {fn});
      ghost var nested;
      raised, nested := PurgeBuildTargets(fn, a, doomed);
      if !raised {
        FailingFacts(Dependencies(), a, View(), fn, nested, a.build.Keys, {}, doomed);
        SubsetSize(Universe(Dependencies()) - View().failed, Universe(Dependencies()) - (a.failed + {fn}));
        raised, nested := PurgeRunTargets(fn, a, nested, doomed);
        if !raised {
          FailingDone(Dependencies(), a, View(), fn, nested);
          gone := nested + {fn};
          CascadeFailed(Dependencies(), a, View(), gone, {}, {});
          ElementsSnoc(failedFns, fn);
        }
      }
    }

    /** The loop over the build targets. */
    method PurgeBuildTargets(fn: string, ghost a: Lists, ghost doomed: set<string>)
      returns (raised: bool, ghost gone: set<string>)
      requires Valid() && Failing(Dependencies(), a, View(), fn, {}, {}, {})
      requires ClosedSet(Dependencies(), a, doomed) && View().failed <= doomed
      modifies this`buildTargets, this`runTargets, this`failedFns, this`failedDeps, this`failedRdeps
      ensures Valid() && (raised ==> RequiredTargetLost())
      ensures !raised ==> Failing(Dependencies(), a, View(), fn, gone, a.build.Keys, {}) && View().failed <= doomed
      decreases |Universe(Dependencies()) - View().failed|, 6
    {
      hide ClosedSet, Cascade, Failing, AllDistinct, Universe, BuildDependees, RunDependees, Elements;
      raised, gone := false, {};
      ghost var d := Dependencies();
      FailingFacts(d, a, View(), fn, gone, {}, {}, doomed);
      var todo := buildTargets.Keys;
      ghost var failed0, seen := View().failed, {};
      while todo != {}
        invariant todo <= a.build.Keys && seen == a.build.Keys - todo && Dependencies() == d
        invariant Valid() && Failing(d, a, View(), fn, gone, seen, {})
        invariant failed0 <= View().failed <= doomed
      {
        var target :| target in todo;
        ghost var now := View();
        todo := todo - {target};
        FailingFacts(d, a, now, fn, gone, seen, {}, doomed);
        VisitBuild(d, a, now, fn, gone, seen, {}, target);
        if fn in buildTargets[target] {
          buildTargets := buildTargets[target := Remove(buildTargets[target], fn)];
          ghost var mid := View();
          assert mid == now.(build := now.build[target := Remove(now.build[target], fn)]);
          if |buildTargets[target]| == 0 {
            EmptiedBuildIsDoomed(d, a, now, fn, gone, seen, {}, target, doomed);
            SubsetSize(Universe(d) - mid.failed, Universe(d) - failed0);
            ghost var more;
            raised, more := RemoveBuildTarget(target, doomed);
            if raised {
              return;
            }
            VisitBuildEmptied(d, a, now, View(), fn, gone, more, seen, {}, target);
            CascadeFailed(d, mid, View(), more, {target}, {});
            gone := gone + more;
          }
        }
        seen := seen + {target};
        FailingFacts(d, a, View(), fn, gone, seen, {}, doomed);
      }
      assert seen == a.build.Keys;
    }

    /** The loop over the run-time targets. */
    method PurgeRunTargets(fn: string, ghost a: Lists, ghost gone0: set<string>, ghost doomed: set<string>)
      returns (raised: bool, ghost gone: set<string>)
      requires Valid() && Failing(Dependencies(), a, View(), fn, gone0, a.build.Keys, {})
      requires ClosedSet(Dependencies(), a, doomed) && View().failed <= doomed
      modifies this`buildTargets, this`runTargets, this`failedFns, this`failedDeps, this`failedRdeps
      ensures Valid() && (raised ==> RequiredTargetLost())
      ensures !raised ==>
        Failing(Dependencies(), a, View(), fn, gone, a.build.Keys, a.run.Keys) && View().failed <= doomed
      decreases |Universe(Dependencies()) - View().failed|, 5
    {
      hide ClosedSet, Cascade, Failing, AllDistinct, Universe, BuildDependees, RunDependees, Elements;
      raised, gone := false, gone0;
      ghost var d := Dependencies();
      FailingFacts(d, a, View(), fn, gone, a.build.Keys, {}, doomed);
      var todo := runTargets.Keys;
      ghost var failed0, seen := View().failed, {};
      while todo != {}
        invariant todo <= a.run.Keys && seen == a.run.Keys - todo && Dependencies() == d
        invariant Valid() && Failing(d, a, View(), fn, gone, a.build.Keys, seen)
        invariant failed0 <= View().failed <= doomed
      {
        var target :| target in todo;
        ghost var now := View();
        todo := todo - {target};
        FailingFacts(d, a, now, fn, gone, a.build.Keys, seen, doomed);
        VisitRun(d, a, now, fn, gone, a.build.Keys, seen, target);
        if fn in runTargets[target] {
          runTargets := runTargets[target := Remove(runTargets[target], fn)];
          ghost var mid := View();
          assert mid == now.(run := now.run[target := Remove(now.run[target], fn)]);
          if |runTargets[target]| == 0 {
            EmptiedRunIsDoomed(d, a, now, fn, gone, a.build.Keys, seen, target, doomed);
            SubsetSize(Universe(d) - mid.failed, Universe(d) - failed0);
            ghost var more;
            raised, more := RemoveRunTarget(target, doomed);
            if raised {
              return;
            }
            VisitRunEmptied(d, a, now, View(), fn, gone, more, a.build.Keys, seen, target);
            CascadeFailed(d, mid, View(), more, {}, {target});
            gone := gone + more;
          }
        }
        seen := seen + {target};
        FailingFacts(d, a, View(), fn, gone, a.build.Keys, seen, doomed);
      }
      assert seen == a.run.Keys;
    }

    /** Fails every file in a list of dependees. */
    method FailEach(dependees: set<string>, ghost doomed: set<string>) returns (raised: bool, ghost gone: set<string>)
      requires Valid() && dependees <= doomed * Universe(Dependencies()) && ClosedSet(Dependencies(), View(), doomed)
      modifies this`buildTargets, this`runTargets, this`failedFns, this`failedDeps, this`failedRdeps
      ensures Valid() && (raised ==> RequiredTargetLost())
      ensures !raised ==> Cascade(Dependencies(), old(View()), View(), gone, {}, {})
      ensures !raised ==> dependees <= View().failed <= doomed && ClosedSet(Dependencies(), View(), doomed)
      decreases |Universe(Dependencies()) - View().failed|, 1
    {
      hide ClosedSet, Cascade, Failing, AllDistinct, Universe, BuildDependees, RunDependees, Elements;
      raised, gone := false, {};
      ghost var d, a := Dependencies(), View();
      CascadeNothing(d, a);
      DoomedHasFailed(d, a, doomed);
      var todo := dependees;
      while todo != {}
        invariant todo <= dependees && Dependencies() == d && Valid()
        invariant Cascade(d, a, View(), gone, {}, {})
        invariant a.failed + (dependees - todo) <= View().failed <= doomed
        invariant ClosedSet(d, View(), doomed)
      {
        var fn :| fn in todo;
        todo := todo - {fn};
        ghost var now := View();
        SubsetSize(Universe(d) + {fn} - now.failed, Universe(d) - a.failed);
        ghost var more;
        raised, more := FailFn(fn, doomed);
        if raised {
          return;
        }
        NestedDone(d, a, now, View(), gone, more, doomed);
        ElementsSnoc(failedFns, fn);
        gone := gone + more;
      }
    }

    /** Fails the file of every task that depends on the build target. */
    method FailBuildTasks(target: string, ghost doomed: set<string>) returns (raised: bool, ghost gone: set<string>)
      requires Valid() && BuildDependees(Dependencies(), target) <= doomed && ClosedSet(Dependencies(), View(), doomed)
      modifies this`buildTargets, this`runTargets, this`failedFns, this`failedDeps, this`failedRdeps
      ensures Valid() && (raised ==> RequiredTargetLost())
      ensures !raised ==> Cascade(Dependencies(), old(View()), View(), gone, {}, {}) && View().failed <= doomed
      ensures !raised ==> forall tid :: tid in taskentries && target in Names(taskentries[tid].idepends) ==>
        tid.fn in View().failed
      decreases |Universe(Dependencies()) - View().failed|, 2
    {
      hide ClosedSet, Cascade, Failing, AllDistinct, Universe, BuildDependees, RunDependees, Elements;
      raised, gone := false, {};
      ghost var d, a := Dependencies(), View();
      CascadeNothing(d, a);
      DoomedHasFailed(d, a, doomed);
      DependeesInUniverse(d, target);
      var todo := taskentries.Keys;
      while todo != {}
        invariant todo <= taskentries.Keys && Dependencies() == d && Valid()
        invariant Cascade(d, a, View(), gone, {}, {})
        invariant a.failed <= View().failed <= doomed && ClosedSet(d, View(), doomed)
        invariant forall tid :: tid in taskentries && tid !in todo && target in Names(taskentries[tid].idepends) ==>
          tid.fn in View().failed
      {
        var tid :| tid in todo;
        todo := todo - {tid};
        var idepends := taskentries[tid].idepends;
        if exists k :: 0 <= k < |idepends| && idepends[k].0 == target {
          ghost var now := View();
          TaskDepends(d, target, tid);
          SubsetSize(Universe(d) - now.failed, Universe(d) - a.failed);
          ghost var more;
          raised, more := FailEach({tid.fn}, doomed);
          if raised {
            return;
          }
          CascadeTwice(d, a, now, View(), gone, more, {}, {}, {}, {});
          CascadeFailed(d, now, View(), more, {}, {});
          gone := gone + more;
        }
      }
    }

    method FailRunTasks(target: string, ghost doomed: set<string>) returns (raised: bool, ghost gone: set<string>)
      requires Valid() && RunDependees(Dependencies(), target) <= doomed && ClosedSet(Dependencies(), View(), doomed)
      modifies this`buildTargets, this`runTargets, this`failedFns, this`failedDeps, this`failedRdeps
      ensures Valid() && (raised ==> RequiredTargetLost())
      ensures !raised ==> Cascade(Dependencies(), old(View()), View(), gone, {}, {}) && View().failed <= doomed
      ensures !raised ==> forall tid :: tid in taskentries && target in Names(taskentries[tid].irdepends) ==>
        tid.fn in View().failed
      decreases |Universe(Dependencies()) - View().failed|, 2
    {
      hide ClosedSet, Cascade, Failing, AllDistinct, Universe, BuildDependees, RunDependees, Elements;
      raised, gone := false, {};
      ghost var d, a := Dependencies(), View();
      CascadeNothing(d, a);
      DoomedHasFailed(d, a, doomed);
      DependeesInUniverse(d, target);
      var todo := taskentries.Keys;
      while todo != {}
        invariant todo <= taskentries.Keys && Dependencies() == d && Valid()
        invariant Cascade(d, a, View(), gone, {}, {})
        invariant a.failed <= View().failed <= doomed && ClosedSet(d, View(), doomed)
        invariant forall tid :: tid in taskentries && tid !in todo && target in Names(taskentries[tid].irdepends) ==>
          tid.fn in View().failed
      {
        var tid :| tid in todo;
        todo := todo - {tid};
        var irdepends := taskentries[tid].irdepends;
        if exists k :: 0 <= k < |irdepends| && irdepends[k].0 == target {
          ghost var now := View();
          TaskDepends(d, target, tid);
          SubsetSize(Universe(d) - now.failed, Universe(d) - a.failed);
          ghost var more;
          raised, more := FailEach({tid.fn}, doomed);
          if raised {
            return;
          }
          CascadeTwice(d, a, now, View(), gone, more, {}, {}, {}, {});
          CascadeFailed(d, now, View(), more, {}, {});
          gone := gone + more;
        }
      }
    }

    /** Fails every file that depends on the target, in either way. */
    method FailBuildDependees(target: string, ghost doomed: set<string>) returns (raised: bool, ghost gone: set<string>)
      requires Valid() && BuildDependees(Dependencies(), target) <= doomed && ClosedSet(Dependencies(), View(), doomed)
      modifies this`buildTargets, this`runTargets, this`failedFns, this`failedDeps, this`failedRdeps
      ensures Valid() && (raised ==> RequiredTargetLost())
      ensures !raised ==> Cascade(Dependencies(), old(View()), View(), gone, {}, {})
      ensures !raised ==> BuildDependees(Dependencies(), target) <= View().failed <= doomed
      decreases |Universe(Dependencies()) - View().failed|, 3
    {
      hide ClosedSet, Cascade, Failing, AllDistinct, Universe, BuildDependees, RunDependees, Elements;
      gone := {};
      ghost var d, a := Dependencies(), View();
      DependeesInUniverse(d, target);
      var dependees := GetDependees(target);
      BuildDependeesAre(d, target, dependees);
      ghost var g1, g2;
      raised, g1 := FailEach(dependees, doomed);
      if raised {
        return;
      }
      ghost var c := View();
      CascadeFailed(d, a, c, g1, {}, {});
      SubsetSize(Universe(d) - c.failed, Universe(d) - a.failed);
      raised, g2 := FailBuildTasks(target, doomed);
      if raised {
        return;
      }
      ghost var none: set<string> := {};
      assert none + none == none;
      CascadeTwice(d, a, c, View(), g1, g2, none, none, none, none);
      CascadeFailed(d, c, View(), g2, {}, {});
      gone := g1 + g2;
    }

    /** Fails every file that depends on the target, in either way. */
    method FailRunDependees(target: string, ghost doomed: set<string>) returns (raised: bool, ghost gone: set<string>)
      requires Valid() && RunDependees(Dependencies(), target) <= doomed && ClosedSet(Dependencies(), View(), doomed)
      modifies this`buildTargets, this`runTargets, this`failedFns, this`failedDeps, this`failedRdeps
      ensures Valid() && (raised ==> RequiredTargetLost())
      ensures !raised ==> Cascade(Dependencies(), old(View()), View(), gone, {}, {})
      ensures !raised ==> RunDependees(Dependencies(), target) <= View().failed <= doomed
      decreases |Universe(Dependencies()) - View().failed|, 3
    {
      hide ClosedSet, Cascade, Failing, AllDistinct, Universe, BuildDependees, RunDependees, Elements;
      gone := {};
      ghost var d, a := Dependencies(), View();
      DependeesInUniverse(d, target);
      var dependees := GetRdependees(target);
      RunDependeesAre(d, target, dependees);
      ghost var g1, g2;
      raised, g1 := FailEach(dependees, doomed);
      if raised {
        return;
      }
      ghost var c := View();
      CascadeFailed(d, a, c, g1, {}, {});
      SubsetSize(Universe(d) - c.failed, Universe(d) - a.failed);
      raised, g2 := FailRunTasks(target, doomed);
      if raised {
        return;
      }
      ghost var none: set<string> := {};
      assert none + none == none;
      CascadeTwice(d, a, c, View(), g1, g2, none, none, none, none);
      CascadeFailed(d, c, View(), g2, {}, {});
      gone := g1 + g2;
    }

    /** Marks a build target as failed and fails every file that depends on it. */
    method RemoveBuildTarget(target: string, ghost doomed: set<string>) returns (raised: bool, ghost gone: set<string>)
      requires Valid() && BuildDependees(Dependencies(), target) <= doomed && ClosedSet(Dependencies(), View(), doomed)
      modifies this`buildTargets, this`runTargets, this`failedFns, this`failedDeps, this`failedRdeps
      ensures Valid() && (raised ==> RequiredTargetLost())
      ensures !raised ==> Cascade(Dependencies(), old(View()), View(), gone, {target}, {})
      ensures !raised ==>
        BuildDependees(Dependencies(), target) <= View().failed <= doomed && target !in Dependencies().required
      ensures !raised ==> forall tid, k ::
        tid in taskentries && 0 <= k < |taskentries[tid].idepends| && taskentries[tid].idepends[k].0 == target ==>
        tid.fn in failedFns
      decreases |Universe(Dependencies()) - View().failed|, 5
    {
      hide ClosedSet, Cascade, AllDistinct, Universe, BuildDependees, RequiredTargetLost, Dependencies, View;
      raised, gone := RecordAndFail(target, doomed);
      if !raised {
        NamedHaveFailed(target);
        raised := IsRequired(target);
      }
    }

    method RecordAndFail(target: string, ghost doomed: set<string>) returns (raised: bool, ghost gone: set<string>)
      requires Valid() && BuildDependees(Dependencies(), target) <= doomed && ClosedSet(Dependencies(), View(), doomed)
      modifies this`buildTargets, this`runTargets, this`failedFns, this`failedDeps, this`failedRdeps
      ensures Valid() && (raised ==> RequiredTargetLost())
      ensures !raised ==>
        Cascade(Dependencies(), old(View()), View(), gone, {target}, {}) && target in View().failedDeps
      ensures !raised ==> BuildDependees(Dependencies(), target) <= View().failed <= doomed
      decreases |Universe(Dependencies()) - View().failed|, 4
    {
      hide ClosedSet, Cascade, Failing, AllDistinct, Universe, BuildDependees, RunDependees, Elements;
      gone := {};
      ghost var d, a := Dependencies(), View();
      ElementsSnoc(failedDeps, target);
      failedDeps := failedDeps + [target];
      ghost var b := View();
      assert b == a.(failedDeps := a.failedDeps + {target});
      CascadeNamed(d, a, doomed, target);
      ghost var more;
      raised, more := FailBuildDependees(target, doomed);
      if raised {
        return;
      }
      CascadeTwice(d, a, b, View(), {}, more, {target}, {}, {}, {});
      assert {target} + {} == {target};
      gone := {} + more;
      RecordedTarget(d, a, View(), gone, {target}, {});
    }

    /** Losing a required target raises in abort mode. */
    method IsRequired(target: string) returns (raised: bool)
      requires target in View().failedDeps
      ensures raised <==> target in Dependencies().required
      ensures raised ==> RequiredTargetLost()
    {
      RequiredIs(target);
      ElementsSnoc(failedDeps, target);
      raised := abort && target in externalTargets;
    }

    /** Marks a run-time target as failed and fails every file that depends on it. */
    method RemoveRunTarget(target: string, ghost doomed: set<string>) returns (raised: bool, ghost gone: set<string>)
      requires Valid() && RunDependees(Dependencies(), target) <= doomed && ClosedSet(Dependencies(), View(), doomed)
      modifies this`buildTargets, this`runTargets, this`failedFns, this`failedDeps, this`failedRdeps
      ensures Valid() && (raised ==> RequiredTargetLost())
      ensures !raised ==> Cascade(Dependencies(), old(View()), View(), gone, {}, {target})
      ensures !raised ==> RunDependees(Dependencies(), target) <= View().failed <= doomed
      ensures !raised ==> forall tid, k ::
        tid in taskentries && 0 <= k < |taskentries[tid].irdepends| && taskentries[tid].irdepends[k].0 == target ==>
        tid.fn in failedFns
      decreases |Universe(Dependencies()) - View().failed|, 4
    {
      hide ClosedSet, Cascade, Failing, AllDistinct, Universe, BuildDependees, RunDependees, Elements;
      gone := {};
      ghost var d, a := Dependencies(), View();
      ElementsSnoc(failedRdeps, target);
      failedRdeps := failedRdeps + [target];
      ghost var b := View();
      assert b == a.(failedRdeps := a.failedRdeps + {target});
      CascadeNamed(d, a, doomed, target);
      ghost var more;
      raised, more := FailRunDependees(target, doomed);
      if raised {
        return;
      }
      CascadeTwice(d, a, b, View(), {}, more, {}, {target}, {}, {});
      assert {target} + {} == {target};
      gone := {} + more;
      NamedHaveFailed(target);
    }

    /** What an outermost call amounts to over lists without failed files: exactly the
        files doomed with the `seeds` fail, no failed file stays in any list, what depends
        on an emptied target has failed, and none of these targets is a required one. */
    twostate predicate Settled(seeds: set<string>)
      reads this
    {
      && View().failed == Doomed(Dependencies(), old(View()), seeds) && Clean(View())
      && Purged(old(buildTargets), buildTargets, View().failed) && Purged(old(runTargets), runTargets, View().failed)
      && (forall t :: Emptied(old(buildTargets), buildTargets, t) ==>
            t in failedDeps && BuildDependees(Dependencies(), t) <= View().failed && !(abort && t in externalTargets))
      && (forall t :: Emptied(old(runTargets), runTargets, t) ==>
          t in failedRdeps && RunDependees(Dependencies(), t) <= View().failed)
    }

    /** The same without a word about dependees: who lists an emptied target, and whose task
        names it first in a pair, has failed, and no other file has but the `seeds`. */
    twostate predicate ToldByPairs(seeds: set<string>)
      reads this
    {
      && (forall t, f :: Emptied(old(buildTargets), buildTargets, t) && f in depids && t in depids[f] ==>
            f in failedFns)
      && (forall t, f :: Emptied(old(runTargets), runTargets, t) && f in rdepids && t in rdepids[f] ==>
            f in failedFns)
      && (forall tid, k :: NamesEmptied(tid, k) || NamesEmptiedRun(tid, k) ==> tid.fn in failedFns)
      && (forall f :: f in failedFns && f !in old(failedFns) && f !in seeds ==>
            || (exists t :: Emptied(old(buildTargets), buildTargets, t) && f in depids && t in depids[f])
            || (exists t :: Emptied(old(runTargets), runTargets, t) && f in rdepids && t in rdepids[f])
            || (exists tid: Tid, k :: tid.fn == f && (NamesEmptied(tid, k) || NamesEmptiedRun(tid, k))))
    }

    twostate predicate NamesEmptied(tid: Tid, k: nat)
      reads this
    {
      && tid in taskentries && k < |taskentries[tid].idepends|
      && Emptied(old(buildTargets), buildTargets, taskentries[tid].idepends[k].0)
    }

    twostate predicate NamesEmptiedRun(tid: Tid, k: nat)
      reads this
    {
      && tid in taskentries && k < |taskentries[tid].irdepends|
      && Emptied(old(runTargets), runTargets, taskentries[tid].irdepends[k].0)
    }

    twostate lemma PairsTell(seeds: set<string>)
      requires Settled(seeds) && old(Dependencies()) == Dependencies()
      ensures ToldByPairs(seeds)
    {
      hide Emptied, BuildDependees, RunDependees, Doomed, Clean, Purged, Elements;
      var d, a, b := Dependencies(), old(View()), View();
      InElements(failedFns);
      InElements(old(failedFns));
      forall t, f | Emptied(a.build, b.build, t) && f in depids && t in depids[f]
        ensures f in failedFns
      {
        BuildDependeesByPairs(d, t, f);
      }
      forall t, f | Emptied(a.run, b.run, t) && f in rdepids && t in rdepids[f]
        ensures f in failedFns
      {
        RunDependeesByPairs(d, t, f);
      }
      forall tid, k | NamesEmptied(tid, k) || NamesEmptiedRun(tid, k)
        ensures tid.fn in failedFns
      {
        TasksFollow(d, a, b, tid, k);
      }
      forall f | f in failedFns && f !in old(failedFns) && f !in seeds
        ensures (exists t :: Emptied(a.build, b.build, t) && f in depids && t in depids[f])
          || (exists t :: Emptied(a.run, b.run, t) && f in rdepids && t in rdepids[f])
          || (exists tid: Tid, k :: tid.fn == f && (NamesEmptied(tid, k) || NamesEmptiedRun(tid, k)))
      {
        FailedForReason(d, a, b, seeds, f);
        if t :| Emptied(a.build, b.build, t) && f in BuildDependees(d, t) {
          BuildDependeesByPairs(d, t, f);
          if !(f in depids && t in depids[f]) {
            var tid, k :| tid in d.entries && tid.fn == f && 0 <= k < |d.entries[tid].idepends|
                          && d.entries[tid].idepends[k].0 == t;
            assert NamesEmptied(tid, k);
          }
        } else {
          var t :| Emptied(a.run, b.run, t) && f in RunDependees(d, t);
          RunDependeesByPairs(d, t, f);
          if !(f in rdepids && t in rdepids[f]) {
            var tid, k :| tid in d.entries && tid.fn == f && 0 <= k < |d.entries[tid].irdepends|
                          && d.entries[tid].irdepends[k].0 == t;
            assert NamesEmptiedRun(tid, k);
          }
        }
      }
    }

    lemma NamedHaveFailed(target: string)
      ensures BuildDependees(Dependencies(), target) <= View().failed ==>
        (forall f :: f in depids && target in depids[f] ==> f in failedFns)
        && forall tid, k ::
          tid in taskentries && 0 <= k < |taskentries[tid].idepends| && taskentries[tid].idepends[k].0 == target ==>
          tid.fn in failedFns
      ensures RunDependees(Dependencies(), target) <= View().failed ==>
        (forall f :: f in rdepids && target in rdepids[f] ==> f in failedFns)
        && forall tid, k ::
          tid in taskentries && 0 <= k < |taskentries[tid].irdepends| && taskentries[tid].irdepends[k].0 == target ==>
          tid.fn in failedFns
    {
      hide Elements, BuildDependees, RunDependees;
      NamingFails(Dependencies(), target);
      InElements(failedFns);
    }

    /** Fails a file that has not failed. */
    method FailFile(fn: string) returns (raised: bool)
      requires Valid() && Clean(View()) && fn !in failedFns
      modifies this`buildTargets, this`runTargets, this`failedFns, this`failedDeps, this`failedRdeps
      ensures Valid() && (raised ==> RequiredTargetLost())
      ensures !raised ==> Settled({fn})
      ensures !raised ==> ToldByPairs({fn})
    {
      hide Clean, Doomed, Cascade;
      ghost var d, a := Dependencies(), View();
      ghost var seeds := {fn};
      DoomedClosed(d, a, seeds);
      ghost var gone;
      raised, gone := FailFn(fn, Doomed(d, a, seeds));
      if !raised {
        ElementsSnoc(failedFns, fn);
        CascadeClean(d, a, View(), gone, {}, {});
        FailedIsClosed(d, a, View(), gone, {}, {});
        ExactlyDoomed(d, a, View(), seeds);
        CascadeOutcome(d, a, View(), gone, {}, {});
        PairsTell(seeds);
      }
    }

    /** Gives a build target up that no file provides. */
    method LoseBuildTarget(target: string) returns (raised: bool)
      requires Valid() && Clean(View())
      modifies this`buildTargets, this`runTargets, this`failedFns, this`failedDeps, this`failedRdeps
      ensures Valid() && (raised ==> RequiredTargetLost())
      ensures !raised ==>
        Settled(BuildDependees(Dependencies(), target)) && target in failedDeps
        && !(abort && target in externalTargets)
      ensures !raised ==> forall f :: f in depids && target in depids[f] ==> f in failedFns
      ensures !raised ==> forall tid, k ::
        tid in taskentries && 0 <= k < |taskentries[tid].idepends| && taskentries[tid].idepends[k].0 == target ==>
        tid.fn in failedFns
      ensures !raised ==> ToldByPairs(BuildDependees(Dependencies(), target))
    {
      hide Clean, Doomed, Cascade, BuildDependees, RunDependees, AllDistinct, Universe;
      ghost var d, a := Dependencies(), View();
      ghost var seeds := BuildDependees(d, target);
      DoomedClosed(d, a, seeds);
      ghost var gone;
      raised, gone := RemoveBuildTarget(target, Doomed(d, a, seeds));
      if !raised {
        CascadeClean(d, a, View(), gone, {target}, {});
        FailedIsClosed(d, a, View(), gone, {target}, {});
        ExactlyDoomed(d, a, View(), seeds);
        CascadeOutcome(d, a, View(), gone, {target}, {});
        RecordedTarget(d, a, View(), gone, {target}, {});
        ElementsSnoc(failedDeps, target);
        RequiredIs(target);
        PairsTell(seeds);
        NamedHaveFailed(target);
      }
    }

    /** Gives a run-time target up that no file provides. */
    method LoseRunTarget(target: string) returns (raised: bool)
      requires Valid() && Clean(View())
      modifies this`buildTargets, this`runTargets, this`failedFns, this`failedDeps, this`failedRdeps
      ensures Valid() && (raised ==> RequiredTargetLost())
      ensures !raised ==> Settled(RunDependees(Dependencies(), target)) && target in failedRdeps
      ensures !raised ==> forall f :: f in rdepids && target in rdepids[f] ==> f in failedFns
      ensures !raised ==> forall tid, k ::
        tid in taskentries && 0 <= k < |taskentries[tid].irdepends| && taskentries[tid].irdepends[k].0 == target ==>
        tid.fn in failedFns
      ensures !raised ==> ToldByPairs(RunDependees(Dependencies(), target))
    {
      hide Clean, Doomed, Cascade, BuildDependees, RunDependees, AllDistinct, Universe;
      ghost var d, a := Dependencies(), View();
      ghost var seeds := RunDependees(d, target);
      DoomedClosed(d, a, seeds);
      ghost var gone;
      raised, gone := RemoveRunTarget(target, Doomed(d, a, seeds));
      if !raised {
        CascadeClean(d, a, View(), gone, {}, {target});
        FailedIsClosed(d, a, View(), gone, {}, {target});
        ExactlyDoomed(d, a, View(), seeds);
        CascadeOutcome(d, a, View(), gone, {}, {target});
        RecordedTarget(d, a, View(), gone, {}, {target});
        ElementsSnoc(failedRdeps, target);
        PairsTell(seeds);
        NamedHaveFailed(target);
      }
    }
  }

  lemma InElements(s: seq<string>)
    ensures forall x :: x in Elements(s) <==> x in s
  {
  }

  lemma DoomedHasFailed(d: Deps, a: Lists, doomed: set<string>)
    requires ClosedSet(d, a, doomed)
    ensures a.failed <= doomed
  {
  }

  lemma CascadeFailed(d: Deps, a: Lists, b: Lists, gone: set<string>, nb: set<string>, nr: set<string>)
    requires Cascade(d, a, b, gone, nb, nr)
    ensures b.failed == a.failed + gone
  {
  }

  /** A nested call is over: it continues the cascade, and the bound still holds. */
  lemma NestedDone(d: Deps, a: Lists, now: Lists, later: Lists, gone: set<string>, more: set<string>,
                   doomed: set<string>)
    requires Cascade(d, a, now, gone, {}, {}) && Cascade(d, now, later, more, {}, {})
    requires ClosedSet(d, now, doomed) && later.failed <= doomed
    ensures Cascade(d, a, later, gone + more, {}, {}) && now.failed <= later.failed && ClosedSet(d, later, doomed)
  {
    CascadeTwice(d, a, now, later, gone, more, {}, {}, {}, {});
    PurgedLostOnly(now.build, later.build, more);
    PurgedLostOnly(now.run, later.run, more);
    ClosedSetKept(d, now, later, more, doomed);
  }

  lemma CascadeNamed(d: Deps, a: Lists, doomed: set<string>, t: string)
    ensures Cascade(d, a, a.(failedDeps := a.failedDeps + {t}), {}, {t}, {})
    ensures Cascade(d, a, a.(failedRdeps := a.failedRdeps + {t}), {}, {}, {t})
    ensures ClosedSet(d, a, doomed) ==>
      ClosedSet(d, a.(failedDeps := a.failedDeps + {t}), doomed)
      && ClosedSet(d, a.(failedRdeps := a.failedRdeps + {t}), doomed)
  {
    CascadeNothing(d, a);
  }

  lemma RecordedTarget(d: Deps, a: Lists, b: Lists, gone: set<string>, nb: set<string>, nr: set<string>)
    requires Cascade(d, a, b, gone, nb, nr)
    ensures nb <= b.failedDeps && nr <= b.failedRdeps
  {
  }

  lemma ExactlyDoomed(d: Deps, a: Lists, b: Lists, seeds: set<string>)
    requires ClosedSet(d, a, b.failed) && seeds <= b.failed <= Doomed(d, a, seeds)
    ensures b.failed == Doomed(d, a, seeds)
  {
  }

  lemma CascadeOutcome(d: Deps, a: Lists, b: Lists, gone: set<string>, nb: set<string>, nr: set<string>)
    requires Cascade(d, a, b, gone, nb, nr) && Clean(a)
    ensures Purged(a.build, b.build, b.failed) && Purged(a.run, b.run, b.failed)
    ensures BuildHandled(d, a.build, b.build, b.failed, b.failedDeps)
      && RunHandled(d, a.run, b.run, b.failed, b.failedRdeps)
  {
    forall t | t in a.build
      ensures b.build[t] == Without(a.build[t], b.failed)
    {
      assert b.build[t] == Without(a.build[t], gone);
      WithoutMore(a.build[t], gone, a.failed);
    }
    forall t | t in a.run
      ensures b.run[t] == Without(a.run[t], b.failed)
    {
      assert b.run[t] == Without(a.run[t], gone);
      WithoutMore(a.run[t], gone, a.failed);
    }
  }

  /** The tasks that name an emptied target first in a pair have failed with their files. */
  lemma TasksFollow(d: Deps, a: Lists, b: Lists, tid: Tid, k: nat)
    requires tid in d.entries
    requires forall t :: Emptied(a.build, b.build, t) ==> BuildDependees(d, t) <= b.failed
    requires forall t :: Emptied(a.run, b.run, t) ==> RunDependees(d, t) <= b.failed
    ensures k < |d.entries[tid].idepends| && Emptied(a.build, b.build, d.entries[tid].idepends[k].0) ==>
      tid.fn in b.failed
    ensures k < |d.entries[tid].irdepends| && Emptied(a.run, b.run, d.entries[tid].irdepends[k].0) ==>
      tid.fn in b.failed
  {
    hide Emptied, BuildDependees, RunDependees;
    if k < |d.entries[tid].idepends| {
      BuildDependeesByPairs(d, d.entries[tid].idepends[k].0, tid.fn);
    }
    if k < |d.entries[tid].irdepends| {
      RunDependeesByPairs(d, d.entries[tid].irdepends[k].0, tid.fn);
    }
  }

  /** A file that failed, but not to begin with, depends on an emptied target. */
  lemma FailedForReason(d: Deps, a: Lists, b: Lists, seeds: set<string>, f: string)
    requires b.failed == Doomed(d, a, seeds) && f in b.failed && f !in seeds && f !in a.failed
    requires Purged(a.build, b.build, b.failed) && Purged(a.run, b.run, b.failed)
    ensures exists t :: (Emptied(a.build, b.build, t) && f in BuildDependees(d, t))
                     || (Emptied(a.run, b.run, t) && f in RunDependees(d, t))
  {
    hide BuildDependees, RunDependees;
    DoomedClosed(d, a, seeds);
    var s := b.failed - {f};
    assert !ClosedSet(d, a, s);
    if t :| Provided(a.build, t, s) && !(BuildDependees(d, t) <= s) {
      assert Provided(a.build, t, b.failed);
      AllGone(a.build[t], b.failed);
      assert b.build[t] == Without(a.build[t], b.failed);
      assert Emptied(a.build, b.build, t);
    }
    if t :| Provided(a.run, t, s) && !(RunDependees(d, t) <= s) {
      assert Provided(a.run, t, b.failed);
      AllGone(a.run[t], b.failed);
      assert b.run[t] == Without(a.run[t], b.failed);
      assert Emptied(a.run, b.run, t);
    }
  }

  lemma {:induction false} AllGone(s: seq<string>, gone: set<string>)
    requires forall x :: x in s ==> x in gone
    ensures Without(s, gone) == []
  {
    if s == [] {
    } else {
      AllGone(s[1..], gone);
    }
  }

  lemma WithoutMore(s: seq<string>, gone: set<string>, failed: set<string>)
    requires forall x :: x in s ==> x !in failed
    ensures Without(s, gone) == Without(s, failed + gone)
  {
    WithoutNone(s, failed);
    WithoutTwice(s, failed, gone);
  }
}
