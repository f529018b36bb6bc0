/** What the run queue reports about its tasks, as the sequence of events it fires, and
    what a legal sequence means. The executor's sets are functions of this sequence. */
module ExecutionLog {
  import opened Graphs
  import opened Tasks

  datatype Event =
    | Started(tid: Tid, noexec: bool)
    | Skipped(tid: Tid)
    | Completed(tid: Tid)
    | Failed(tid: Tid)

  function Last(log: seq<Event>): Event
    requires log != []
  {
    log[|log| - 1]
  }

  function Front(log: seq<Event>): seq<Event>
    requires log != []
  {
    log[..|log| - 1]
  }

  /** Tasks that were started or skipped. */
  function Begun(log: seq<Event>): set<Tid> {
    if log == [] then {}
    else Begun(Front(log)) + if Last(log).Started? || Last(log).Skipped? then {Last(log).tid} else {}
  }

  /** Tasks that completed or were skipped. */
  function Finished(log: seq<Event>): set<Tid> {
    if log == [] then {}
    else Finished(Front(log)) + if Last(log).Completed? || Last(log).Skipped? then {Last(log).tid} else {}
  }

  function FailedIn(log: seq<Event>): set<Tid> {
    if log == [] then {}
    else FailedIn(Front(log)) + if Last(log).Failed? then {Last(log).tid} else {}
  }

  function Live(log: seq<Event>): set<Tid> {
    Begun(log) - Finished(log) - FailedIn(log)
  }

  /** `e` may be fired after `log`: a task begins once and only when all it depends on
      is finished, and ends once, after it has started. */
  ghost predicate Allowed(g: Graph<Tid>, log: seq<Event>, e: Event) {
    && e.tid in g
    && match e
       case Started(t, _) => t !in Begun(log) && g[t] <= Finished(log)
       case Skipped(t) => t !in Begun(log) && g[t] <= Finished(log)
       case Completed(t) => t in Live(log)
       case Failed(t) => t in Live(log)
  }

  ghost predicate Legal(g: Graph<Tid>, log: seq<Event>) {
    log == [] || (Legal(g, Front(log)) && Allowed(g, Front(log), Last(log)))
  }

  lemma LogSnoc(log: seq<Event>, e: Event)
    ensures Begun(log + [e]) == Begun(log) + if e.Started? || e.Skipped? then {e.tid} else {}
    ensures Finished(log + [e]) == Finished(log) + if e.Completed? || e.Skipped? then {e.tid} else {}
    ensures FailedIn(log + [e]) == FailedIn(log) + if e.Failed? then {e.tid} else {}
  {
  }

  lemma LegalSnoc(g: Graph<Tid>, log: seq<Event>, e: Event)
    requires Legal(g, log) && Allowed(g, log, e)
    ensures Legal(g, log + [e])
  {
  }

  lemma {:induction false} LegalPrefix(g: Graph<Tid>, log: seq<Event>, k: nat)
    requires Legal(g, log) && k <= |log|
    ensures Legal(g, log[..k])
    decreases |log|
  {
    if k == |log| {
      assert log[..k] == log;
    } else {
      LegalPrefix(g, Front(log), k);
      assert Front(log)[..k] == log[..k];
    }
  }

  /** Tasks fall into three kinds that do not overlap; all that was begun is of one of them. */
  lemma {:induction false} Kinds(g: Graph<Tid>, log: seq<Event>)
    requires Legal(g, log)
    ensures Finished(log) !! FailedIn(log)
    ensures Finished(log) + FailedIn(log) <= Begun(log) <= g.Keys
  {
    if log == [] {
    } else {
      Kinds(g, Front(log));
    }
  }

  /** A finished task has all its dependencies finished. */
  lemma {:induction false} FinishedIsClosed(g: Graph<Tid>, log: seq<Event>, t: Tid)
    requires Legal(g, log) && t in Begun(log)
    ensures t in g && g[t] <= Finished(log)
  {
    if t in Begun(Front(log)) {
      FinishedIsClosed(g, Front(log), t);
    }
  }

  // What one allowed event changes, as sets and as counts.

  lemma EffectStarted(g: Graph<Tid>, log: seq<Event>, t: Tid, noexec: bool)
    requires Legal(g, log) && Allowed(g, log, Started(t, noexec))
    ensures Legal(g, log + [Started(t, noexec)])
    ensures Begun(log + [Started(t, noexec)]) == Begun(log) + {t}
    ensures Finished(log + [Started(t, noexec)]) == Finished(log)
    ensures FailedIn(log + [Started(t, noexec)]) == FailedIn(log)
    ensures Live(log + [Started(t, noexec)]) == Live(log) + {t}
    ensures t !in Live(log)
  {
    LogSnoc(log, Started(t, noexec));
    LegalSnoc(g, log, Started(t, noexec));
    Kinds(g, log);
    hide Begun, Finished, FailedIn, Legal;
  }

  lemma EffectSkipped(g: Graph<Tid>, log: seq<Event>, t: Tid)
    requires Legal(g, log) && Allowed(g, log, Skipped(t))
    ensures Legal(g, log + [Skipped(t)])
    ensures Begun(log + [Skipped(t)]) == Begun(log) + {t}
    ensures Finished(log + [Skipped(t)]) == Finished(log) + {t}
    ensures FailedIn(log + [Skipped(t)]) == FailedIn(log)
    ensures Live(log + [Skipped(t)]) == Live(log)
    ensures t !in Finished(log)
  {
    LogSnoc(log, Skipped(t));
    LegalSnoc(g, log, Skipped(t));
    Kinds(g, log);
    hide Begun, Finished, FailedIn, Legal;
  }

  lemma EffectCompleted(g: Graph<Tid>, log: seq<Event>, t: Tid)
    requires Legal(g, log) && t in Live(log)
    ensures Legal(g, log + [Completed(t)])
    ensures Begun(log + [Completed(t)]) == Begun(log)
    ensures Finished(log + [Completed(t)]) == Finished(log) + {t}
    ensures FailedIn(log + [Completed(t)]) == FailedIn(log)
    ensures Live(log + [Completed(t)]) == Live(log) - {t}
    ensures t in g && t !in Finished(log)
  {
    Kinds(g, log);
    LogSnoc(log, Completed(t));
    LegalSnoc(g, log, Completed(t));
    hide Begun, Finished, FailedIn, Legal;
  }

  lemma EffectFailed(g: Graph<Tid>, log: seq<Event>, t: Tid)
    requires Legal(g, log) && t in Live(log)
    ensures Legal(g, log + [Failed(t)])
    ensures Begun(log + [Failed(t)]) == Begun(log)
    ensures Finished(log + [Failed(t)]) == Finished(log)
    ensures FailedIn(log + [Failed(t)]) == FailedIn(log) + {t}
    ensures Live(log + [Failed(t)]) == Live(log) - {t}
    ensures t in g && t !in FailedIn(log)
  {
    Kinds(g, log);
    LogSnoc(log, Failed(t));
    LegalSnoc(g, log, Failed(t));
    hide Begun, Finished, FailedIn, Legal;
  }

  predicate Begins(e: Event, t: Tid) {
    (e.Started? || e.Skipped?) && e.tid == t
  }

  predicate Ends(e: Event, t: Tid) {
    (e.Completed? || e.Skipped?) && e.tid == t
  }

  lemma {:induction false} BegunWitness(log: seq<Event>, t: Tid)
    ensures t in Begun(log) <==> exists i :: 0 <= i < |log| && Begins(log[i], t)
  {
    if log == [] {
    } else {
      BegunWitness(Front(log), t);
      assert forall i :: 0 <= i < |log| - 1 ==> Front(log)[i] == log[i];
      if Begins(Last(log), t) {
        assert Begins(log[|log| - 1], t);
      }
    }
  }

  lemma {:induction false} FinishedWitness(log: seq<Event>, t: Tid)
    ensures t in Finished(log) <==> exists i :: 0 <= i < |log| && Ends(log[i], t)
  {
    if log == [] {
    } else {
      FinishedWitness(Front(log), t);
      assert forall i :: 0 <= i < |log| - 1 ==> Front(log)[i] == log[i];
      if Ends(Last(log), t) {
        assert Ends(log[|log| - 1], t);
      }
    }
  }

  lemma LegalAt(g: Graph<Tid>, log: seq<Event>, i: nat)
    requires Legal(g, log) && i < |log|
    ensures Allowed(g, log[..i], log[i])
  {
    LegalPrefix(g, log, i + 1);
    assert Front(log[..i + 1]) == log[..i];
  }

  /** No task begins twice. */
  lemma BeginsOnce(g: Graph<Tid>, log: seq<Event>, i: nat, j: nat, t: Tid)
    requires Legal(g, log) && i < |log| && j < |log| && Begins(log[i], t) && Begins(log[j], t)
    ensures i == j
  {
    var a, b := if i < j then i else j, if i < j then j else i;
    LegalAt(g, log, b);
    BegunWitness(log[..b], t);
    assert forall x :: 0 <= x < b ==> log[..b][x] == log[x];
  }

  /** When a task begins, everything it depends on has ended. */
  lemma DependenciesEndFirst(g: Graph<Tid>, log: seq<Event>, i: nat, t: Tid, d: Tid) returns (j: nat)
    requires Legal(g, log) && i < |log| && Begins(log[i], t) && t in g && d in g[t]
    ensures j < i && Ends(log[j], d)
  {
    LegalAt(g, log, i);
    FinishedWitness(log[..i], d);
    j :| 0 <= j < |log[..i]| && Ends(log[..i][j], d);
  }

  /** The state in which the queue has nothing left to offer and nobody is working:
      every task all of whose dependencies are finished has finished or failed. */
  ghost predicate Quiescent(g: Graph<Tid>, log: seq<Event>) {
    && Live(log) == {}
    && forall t {:trigger t in Begun(log)} :: t in g && g[t] <= Finished(log) ==> t in Begun(log)
  }

  ghost predicate DependsOnFailed(g: Graph<Tid>, log: seq<Event>, t: Tid) {
    exists f :: f in FailedIn(log) && Reach(g, t, f)
  }

  lemma FinishedHasNoFailure(g: Graph<Tid>, log: seq<Event>, t: Tid)
    requires Closed(g) && Legal(g, log) && t in Finished(log)
    ensures !DependsOnFailed(g, log, t)
  {
    Kinds(g, log);
    forall x | x in Finished(log)
      ensures g[x] <= Finished(log)
    {
      FinishedIsClosed(g, log, x);
    }
    forall f | f in FailedIn(log)
      ensures !Reach(g, t, f)
    {
      if Reach(g, t, f) {
        ReachStaysInside(g, Finished(log), t, f);
        assert false;
      }
    }
  }

  /** At quiescence the finished tasks are exactly those that depend, directly or not,
      on no failed task and have not failed themselves. */
  lemma QuiescenceExact(g: Graph<Tid>, log: seq<Event>)
    requires Closed(g) && Acyclic(g) && Legal(g, log) && Quiescent(g, log)
    ensures forall t :: t in g ==> (t in Finished(log) <==> !DependsOnFailed(g, log, t))
  {
    Kinds(g, log);
    var stuck := set t | t in g && t !in Finished(log) && !DependsOnFailed(g, log, t);
    if stuck != {} {
      var t := MinimalNode(g, stuck);
      NotStuck(g, log, t, stuck);
      assert false;
    }
    forall t | t in g
      ensures t in Finished(log) <==> !DependsOnFailed(g, log, t)
    {
      assert t !in stuck;
      if t in Finished(log) {
        FinishedHasNoFailure(g, log, t);
      }
    }
  }

  lemma NotStuck(g: Graph<Tid>, log: seq<Event>, t: Tid, stuck: set<Tid>)
    requires Closed(g) && Legal(g, log) && Quiescent(g, log) && t in g
    requires stuck == set t | t in g && t !in Finished(log) && !DependsOnFailed(g, log, t)
    requires forall d :: d in g[t] ==> d !in stuck
    ensures t !in stuck
  {
    forall d | d in g[t] && DependsOnFailed(g, log, d)
      ensures DependsOnFailed(g, log, t)
    {
      var f :| f in FailedIn(log) && Reach(g, d, f);
      ReachCons(g, t, d, f);
    }
    if !DependsOnFailed(g, log, t) {
      assert t in Begun(log) && t !in Live(log);
      ReachRefl(g, t);
      assert t !in FailedIn(log);
    }
  }

  /** Without failures everything finishes: no task is left unbuildable, unstarted or
      incomplete. */
  lemma QuiescentWithoutFailure(g: Graph<Tid>, log: seq<Event>)
    requires Closed(g) && Acyclic(g) && Legal(g, log) && Quiescent(g, log) && FailedIn(log) == {}
    ensures Finished(log) == Begun(log) == g.Keys
  {
    QuiescenceExact(g, log);
    Kinds(g, log);
  }

  // ---- what the outside decides ----

  /** What a run is given: the tasks to skip, those that do nothing, whose stamp is current,
      and what each task's worker will answer. */
  datatype Inputs = Inputs(covered: set<Tid>, noexec: set<Tid>, stampCurrent: Tid -> bool, reply: Tid -> int)

  /** The inputs let the event happen: only what is covered or current is skipped and nothing
      of that is started, what does nothing is started without a worker, and a worker's
      answer alone makes a task fail or not. `busy` had been sent to workers before. */
  ghost predicate Caused(w: Inputs, busy: set<Tid>, e: Event) {
    match e
    case Skipped(t) => t in w.covered || w.stampCurrent(t)
    case Started(t, direct) => t !in w.covered && !w.stampCurrent(t) && (direct <==> t in w.noexec)
    case Completed(t) => (t in w.noexec && t !in busy) || w.reply(t) == 0
    case Failed(t) => (t !in w.noexec || t in busy) && w.reply(t) != 0
  }

  ghost predicate AllCaused(w: Inputs, busy: set<Tid>, log: seq<Event>, from: nat) {
    from <= |log| && forall i :: from <= i < |log| ==> Caused(w, busy, log[i])
  }

  lemma CausedMore(w: Inputs, busy: set<Tid>, log: seq<Event>, from: nat, more: seq<Event>)
    requires AllCaused(w, busy, log, from) && AllCaused(w, busy, more, 0)
    ensures AllCaused(w, busy, log + more, from)
  {
    hide Caused;
  }

  lemma {:induction false} FailedWitness(log: seq<Event>, t: Tid)
    ensures t in FailedIn(log) <==> Failed(t) in log
  {
    if log == [] {
    } else {
      FailedWitness(Front(log), t);
      assert log == Front(log) + [Last(log)];
    }
  }

  lemma FailedIsUnsafe(g: Graph<Tid>, w: Inputs, log: seq<Event>, t: Tid)
    requires Legal(g, log) && AllCaused(w, {}, log, 0) && t in FailedIn(log)
    ensures !(t in w.covered || w.stampCurrent(t) || t in w.noexec || w.reply(t) == 0)
  {
    hide Legal, FailedIn, Begun, Finished;
    FailedWitness(log, t);
    Kinds(g, log);
    BegunWitness(log, t);
    FinishedWitness(log, t);
    var i :| 0 <= i < |log| && Begins(log[i], t);
    assert !Ends(log[i], t);
    assert log[i].Started? && Caused(w, {}, log[i]);
    var j :| 0 <= j < |log| && log[j] == Failed(t);
    assert Caused(w, {}, log[j]);
  }

  lemma FinishedIsSafe(w: Inputs, log: seq<Event>, t: Tid)
    requires AllCaused(w, {}, log, 0) && t in Finished(log)
    ensures t in w.covered || w.stampCurrent(t) || t in w.noexec || w.reply(t) == 0
  {
    hide Finished;
    FinishedWitness(log, t);
    var i :| 0 <= i < |log| && Ends(log[i], t);
    assert Caused(w, {}, log[i]);
  }

  lemma FinishedReaches(g: Graph<Tid>, log: seq<Event>, t: Tid, u: Tid)
    requires Closed(g) && Legal(g, log) && t in Finished(log) && Reach(g, t, u)
    ensures u in Finished(log)
  {
    hide Begun, Finished, FailedIn, Legal;
    Kinds(g, log);
    forall x | x in Finished(log)
      ensures g[x] <= Finished(log)
    {
      FinishedIsClosed(g, log, x);
    }
    ReachStaysInside(g, Finished(log), t, u);
  }

  /** However a run went, its inputs alone tell how it ended: a task is finished exactly
      when nothing it depends on, itself among it, is run by a worker that reports a
      failure. */
  lemma OutcomeFromInputs(g: Graph<Tid>, w: Inputs, log: seq<Event>, t: Tid)
    requires Closed(g) && Acyclic(g) && Legal(g, log) && Quiescent(g, log) && AllCaused(w, {}, log, 0) && t in g
    ensures t in Finished(log) <==>
      forall u :: Reach(g, t, u) ==> u in w.covered || w.stampCurrent(u) || u in w.noexec || w.reply(u) == 0
  {
    hide Acyclic, Finished, FailedIn, Begun, Legal, AllCaused, Reach, Quiescent, Closed;
    QuiescenceExact(g, log);
    if t in Finished(log) {
      forall u | Reach(g, t, u)
        ensures u in w.covered || w.stampCurrent(u) || u in w.noexec || w.reply(u) == 0
      {
        FinishedReaches(g, log, t, u);
        FinishedIsSafe(w, log, u);
      }
    } else {
      var f :| f in FailedIn(log) && Reach(g, t, f);
      FailedIsUnsafe(g, w, log, f);
    }
  }

  lemma QuietHasEnded(g: Graph<Tid>, log: seq<Event>)
    requires Quiescent(g, log)
    ensures forall t :: t in g && g[t] <= Finished(log) ==> t in Finished(log) || t in FailedIn(log)
  {
    forall t | t in g && g[t] <= Finished(log)
      ensures t in Finished(log) || t in FailedIn(log)
    {
      assert t in Begun(log) && t !in Live(log);
    }
  }

  /** And it has failed exactly when it is such a task itself and all it depends on is
      finished. */
  lemma FailedFromInputs(g: Graph<Tid>, w: Inputs, log: seq<Event>, t: Tid)
    requires Closed(g) && Legal(g, log) && Quiescent(g, log) && AllCaused(w, {}, log, 0) && t in g
    ensures t in FailedIn(log) <==>
      && !(t in w.covered || w.stampCurrent(t) || t in w.noexec || w.reply(t) == 0)
      && g[t] <= Finished(log)
  {
    hide Finished, FailedIn, Begun, Legal, AllCaused, Quiescent;
    Kinds(g, log);
    QuietHasEnded(g, log);
    if t in FailedIn(log) {
      FailedIsUnsafe(g, w, log, t);
      FinishedIsClosed(g, log, t);
    } else if t in Finished(log) {
      FinishedIsSafe(w, log, t);
    }
  }
}
