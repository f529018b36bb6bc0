/** Which tasks the run queue may skip: the tasks the setscene pass covered, the tasks
    only covered tasks wait for, and the ones the metadata asks back. */
module CoveredSet {
  import opened Graphs
  import opened Sequences
  import opened Tasks

  /** `t` has dependants and all of them are in `s`. */
  predicate Implied(revdeps: Graph<Tid>, s: set<Tid>, t: Tid) {
    t in revdeps && revdeps[t] != {} && revdeps[t] <= s
  }

  /** `s` holds `covered` and every implied task that is not blocked. */
  ghost predicate Absorbs(revdeps: Graph<Tid>, covered: set<Tid>, blocked: set<Tid>, s: set<Tid>) {
    && covered <= s
    && (forall t {:trigger Implied(revdeps, s, t)} :: Implied(revdeps, s, t) ==> t in s || t in blocked)
  }

  /** The least such set. */
  ghost function Inferred(revdeps: Graph<Tid>, covered: set<Tid>, blocked: set<Tid>): set<Tid> {
    set t | t in covered + revdeps.Keys && forall s: set<Tid> :: Absorbs(revdeps, covered, blocked, s) ==> t in s
  }

  lemma InferredAbsorbs(revdeps: Graph<Tid>, covered: set<Tid>, blocked: set<Tid>)
    ensures Absorbs(revdeps, covered, blocked, Inferred(revdeps, covered, blocked))
  {
    var least := Inferred(revdeps, covered, blocked);
    forall t | Implied(revdeps, least, t)
      ensures t in least || t in blocked
    {
      if t !in blocked {
        forall s: set<Tid> | Absorbs(revdeps, covered, blocked, s)
          ensures t in s
        {
          assert Implied(revdeps, s, t);
        }
      }
    }
  }

  lemma InferredIsLeast(revdeps: Graph<Tid>, covered: set<Tid>, blocked: set<Tid>, s: set<Tid>)
    requires Absorbs(revdeps, covered, blocked, s)
    ensures Inferred(revdeps, covered, blocked) <= s
  {
  }

  /** One pass over the tasks that adds whatever is implied at that moment. */
  function Pass(revdeps: Graph<Tid>, order: seq<Tid>, covered: set<Tid>): set<Tid> {
    if order == [] then covered
    else Pass(revdeps, order[1..], if Implied(revdeps, covered, order[0]) then covered + {order[0]} else covered)
  }

  /** `covered` only grew by implied tasks, each implied by what it is in now. */
  ghost predicate Grown(revdeps: Graph<Tid>, covered: set<Tid>, now: set<Tid>) {
    && covered <= now <= Inferred(revdeps, covered, {})
    && (forall t :: t in now && t !in covered ==> Implied(revdeps, now, t))
  }

  lemma GrowOne(revdeps: Graph<Tid>, covered: set<Tid>, now: set<Tid>, t: Tid)
    requires Grown(revdeps, covered, now) && Implied(revdeps, now, t)
    ensures Grown(revdeps, covered, now + {t})
  {
    InferredAbsorbs(revdeps, covered, {});
    assert Implied(revdeps, Inferred(revdeps, covered, {}), t);
  }

  lemma GrownFromStart(revdeps: Graph<Tid>, covered: set<Tid>)
    ensures Grown(revdeps, covered, covered)
  {
    InferredAbsorbs(revdeps, covered, {});
  }

  lemma {:induction false} PassGrows(revdeps: Graph<Tid>, order: seq<Tid>, covered: set<Tid>, now: set<Tid>)
    requires Grown(revdeps, covered, now)
    ensures Grown(revdeps, covered, Pass(revdeps, order, now)) && now <= Pass(revdeps, order, now)
  {
    if order == [] {
    } else {
      if Implied(revdeps, now, order[0]) {
        GrowOne(revdeps, covered, now, order[0]);
        PassGrows(revdeps, order[1..], covered, now + {order[0]});
      } else {
        PassGrows(revdeps, order[1..], covered, now);
      }
    }
  }

  /** The pass over the tasks when the executor is created. It does not look at the
      tasks the setscene pass failed to cover. */
  method FirstPass(revdeps: Graph<Tid>, order: seq<Tid>, covered: set<Tid>) returns (now: set<Tid>)
    requires forall t :: t in order ==> t in revdeps
    ensures now == Pass(revdeps, order, covered)
  {
    now := covered;
    for k := 0 to |order|
      invariant Pass(revdeps, order[k..], now) == Pass(revdeps, order, covered)
    {
      var tid := order[k];
      if |revdeps[tid]| > 0 && revdeps[tid] <= now {
        now := now + {tid};
      }
    }
  }

  /** What the passes end with: the first one ignores `notcovered`, the later ones heed it. */
  ghost function Saturated(revdeps: Graph<Tid>, order: seq<Tid>, covered: set<Tid>, notcovered: set<Tid>): set<Tid> {
    Inferred(revdeps, Pass(revdeps, order, covered), notcovered)
  }

  /** Repeats the pass, now leaving out the tasks known not to be covered, until
      nothing is added. */
  method Saturate(revdeps: Graph<Tid>, order: seq<Tid>, covered: set<Tid>, notcovered: set<Tid>) returns (now: set<Tid>)
    requires forall t :: t in order <==> t in revdeps
    ensures now == Saturated(revdeps, order, covered, notcovered)
    ensures Grown(revdeps, covered, now)
  {
    hide Inferred, Grown, Absorbs, Pass;
    now := FirstPass(revdeps, order, covered);
    ghost var first := now;
    GrownFromStart(revdeps, covered);
    PassGrows(revdeps, order, covered, covered);
    InferredAbsorbs(revdeps, first, notcovered);
    var found := true;
    while found
      invariant Grown(revdeps, covered, now)
      invariant first <= now <= Inferred(revdeps, first, notcovered)
      invariant !found ==> Absorbs(revdeps, first, notcovered, now)
      decreases |revdeps.Keys - now|, found
    {
      now, found := RepeatPass(revdeps, order, covered, first, notcovered, now);
    }
    InferredIsLeast(revdeps, first, notcovered, now);
  }

  method RepeatPass(revdeps: Graph<Tid>, order: seq<Tid>, ghost start: set<Tid>, ghost first: set<Tid>,
                    notcovered: set<Tid>, covered: set<Tid>)
    returns (now: set<Tid>, found: bool)
    requires forall t :: t in order <==> t in revdeps
    requires Grown(revdeps, start, covered)
    requires first <= covered <= Inferred(revdeps, first, notcovered)
    ensures Grown(revdeps, start, now)
    ensures covered <= now <= Inferred(revdeps, first, notcovered)
    ensures if found then |revdeps.Keys - now| < |revdeps.Keys - covered| else now == covered
    ensures !found ==> Absorbs(revdeps, first, notcovered, now)
  {
    hide Inferred;
    now, found := covered, false;
    InferredAbsorbs(revdeps, first, notcovered);
    for k := 0 to |order|
      invariant Grown(revdeps, start, now) && now - covered <= revdeps.Keys
      invariant covered <= now <= Inferred(revdeps, first, notcovered)
      invariant found <==> now != covered
      invariant !found ==> forall t :: t in order[..k] && Implied(revdeps, now, t) ==> t in now || t in notcovered
    {
      var tid := order[k];
      assert order[..k + 1] == order[..k] + [tid];
      if tid !in now {
        if |revdeps[tid]| > 0 && revdeps[tid] <= now {
          if tid !in notcovered {
            found := true;
            GrowOne(revdeps, start, now, tid);
            assert Implied(revdeps, Inferred(revdeps, first, notcovered), tid);
            now := now + {tid};
          }
        }
      }
    }
    assert order[..|order|] == order;
    if found {
      SmallerSet(revdeps.Keys - now, revdeps.Keys - covered);
    }
  }

  /** Told by dependants alone: besides what was covered to begin with, exactly those tasks
      may be skipped that somebody waits for, whose dependants may all be skipped and that
      are not known to be uncovered, or were found by the first pass. */
  lemma SaturatedByDependants(revdeps: Graph<Tid>, order: seq<Tid>, covered: set<Tid>, notcovered: set<Tid>, t: Tid)
    ensures var now := Saturated(revdeps, order, covered, notcovered);
            && covered <= now
            && (t in now && t !in covered ==> t in revdeps && revdeps[t] != {} && revdeps[t] <= now)
            && (t in revdeps && revdeps[t] != {} && revdeps[t] <= now ==> t in now || t in notcovered)
            && (t in now && t !in covered && t in notcovered ==> t in order)
  {
    hide Inferred;
    var first, now := Pass(revdeps, order, covered), Saturated(revdeps, order, covered, notcovered);
    GrownFromStart(revdeps, covered);
    PassGrows(revdeps, order, covered, covered);
    InferredAbsorbs(revdeps, first, notcovered);
    if t in now && t !in first {
      InferredSupport(revdeps, first, notcovered, t);
    }
    PassFinds(revdeps, order, covered, t);
    if Implied(revdeps, first, t) {
      assert Implied(revdeps, now, t);
    }
    assert Implied(revdeps, now, t) <==> t in revdeps && revdeps[t] != {} && revdeps[t] <= now;
  }

  /** What the closure adds is implied by it, and not blocked. */
  lemma InferredSupport(revdeps: Graph<Tid>, covered: set<Tid>, blocked: set<Tid>, t: Tid)
    requires t in Inferred(revdeps, covered, blocked) && t !in covered
    ensures Implied(revdeps, Inferred(revdeps, covered, blocked), t) && t !in blocked
  {
    var all := Inferred(revdeps, covered, blocked);
    InferredAbsorbs(revdeps, covered, blocked);
    if !Implied(revdeps, all, t) || t in blocked {
      forall u | Implied(revdeps, all - {t}, u)
        ensures u in all - {t} || u in blocked
      {
        assert Implied(revdeps, all, u);
      }
      InferredIsLeast(revdeps, covered, blocked, all - {t});
      assert false;
    }
  }

  lemma {:induction false} PassFinds(revdeps: Graph<Tid>, order: seq<Tid>, covered: set<Tid>, t: Tid)
    ensures t in Pass(revdeps, order, covered) ==> t in covered || t in order
  {
    if order == [] {
    } else {
      assert order == [order[0]] + order[1..];
      PassFinds(revdeps, order[1..], if Implied(revdeps, covered, order[0]) then covered + {order[0]} else covered, t);
    }
  }

  // ---- when the iteration order does not matter ----

  /** Whatever the iteration order, the result lies between the two closures. */
  lemma SaturationBounds(revdeps: Graph<Tid>, order: seq<Tid>, covered: set<Tid>, notcovered: set<Tid>)
    ensures Inferred(revdeps, covered, notcovered) <= Saturated(revdeps, order, covered, notcovered)
      <= Inferred(revdeps, covered, {})
  {
    hide Inferred;
    var first := Pass(revdeps, order, covered);
    GrownFromStart(revdeps, covered);
    PassGrows(revdeps, order, covered, covered);
    InferredAbsorbs(revdeps, first, notcovered);
    InferredIsLeast(revdeps, covered, notcovered, Inferred(revdeps, first, notcovered));
    InferredAbsorbs(revdeps, covered, {});
    InferredIsLeast(revdeps, first, notcovered, Inferred(revdeps, covered, {}));
  }

  /** One order gives everything implied exactly when its first pass already adds all
      implied tasks that are known not to be covered. */
  lemma SaturatedIsAll(revdeps: Graph<Tid>, order: seq<Tid>, covered: set<Tid>, notcovered: set<Tid>)
    ensures Saturated(revdeps, order, covered, notcovered) == Inferred(revdeps, covered, {})
       <==> notcovered * Inferred(revdeps, covered, {}) <= Pass(revdeps, order, covered)
  {
    hide Inferred, Pass;
    var all := Inferred(revdeps, covered, {});
    var first := Pass(revdeps, order, covered);
    var now := Saturated(revdeps, order, covered, notcovered);
    SaturationBounds(revdeps, order, covered, notcovered);
    InferredAbsorbs(revdeps, covered, {});
    InferredAbsorbs(revdeps, first, notcovered);
    GrownFromStart(revdeps, covered);
    PassGrows(revdeps, order, covered, covered);
    if notcovered * all <= first {
      forall t | Implied(revdeps, now, t)
        ensures t in now
      {
        assert Implied(revdeps, all, t);
        assert t in notcovered ==> t in notcovered * all;
      }
      InferredIsLeast(revdeps, covered, {}, now);
    } else {
      var t :| t in notcovered * all && t !in first;
      forall u | Implied(revdeps, all - {t}, u)
        ensures u in all - {t} || u in notcovered
      {
        assert Implied(revdeps, all, u);
      }
      InferredIsLeast(revdeps, first, notcovered, all - {t});
    }
  }

  /** The tasks of the queue, each once. */
  ghost predicate Lists(revdeps: Graph<Tid>, order: seq<Tid>) {
    Distinct(order) && forall t :: t in order <==> t in revdeps
  }

  ghost predicate UsersFirst(revdeps: Graph<Tid>, order: seq<Tid>) {
    forall j, u :: 0 <= j < |order| && order[j] in revdeps && u in revdeps[order[j]] ==> u in order[..j]
  }

  ghost predicate UsersLast(revdeps: Graph<Tid>, order: seq<Tid>) {
    forall j, u :: 0 <= j < |order| && order[j] in revdeps && u in revdeps[order[j]] ==> u !in order[..j]
  }

  lemma DistinctParts(a: seq<Tid>, b: seq<Tid>)
    requires Distinct(a) && Distinct(b) && forall t :: t in a ==> t !in b
    ensures Distinct(a + b)
  {
    forall i, j | 0 <= i < j < |a + b|
      ensures (a + b)[i] != (a + b)[j]
    {
      if i < |a| <= j {
        assert a[i] in a && b[j - |a|] in b;
      }
    }
  }

  lemma UsersFirstSnoc(revdeps: Graph<Tid>, order: seq<Tid>, t: Tid)
    requires UsersFirst(revdeps, order) && t in revdeps && forall u :: u in revdeps[t] ==> u in order
    ensures UsersFirst(revdeps, order + [t])
  {
    forall j, u | 0 <= j < |order + [t]| && (order + [t])[j] in revdeps && u in revdeps[(order + [t])[j]]
      ensures u in (order + [t])[..j]
    {
      assert (order + [t])[..j] == order[..j];
      assert j == |order| ==> order[..j] == order;
    }
  }

  lemma UsersLastCons(revdeps: Graph<Tid>, order: seq<Tid>, t: Tid)
    requires UsersLast(revdeps, order) && forall x :: x in order && x in revdeps ==> t !in revdeps[x]
    ensures UsersLast(revdeps, [t] + order)
  {
    forall j, u | 0 <= j < |[t] + order| && ([t] + order)[j] in revdeps && u in revdeps[([t] + order)[j]]
      ensures u !in ([t] + order)[..j]
    {
      if j == 0 {
      } else {
        assert ([t] + order)[..j] == [t] + order[..j - 1];
        assert order[j - 1] in order;
      }
    }
  }

  /** The tasks of an acyclic queue can be listed with every task after the tasks that
      depend on it, and with every task before them. */
  lemma DependencyOrders(revdeps: Graph<Tid>) returns (down: seq<Tid>, up: seq<Tid>)
    requires Closed(revdeps) && Acyclic(revdeps)
    ensures Lists(revdeps, down) && UsersFirst(revdeps, down)
    ensures Lists(revdeps, up) && UsersLast(revdeps, up)
  {
    hide Acyclic;
    down, up := [], [];
    var left := revdeps.Keys;
    while left != {}
      invariant left <= revdeps.Keys
      invariant Distinct(down) && forall t :: t in down <==> t in revdeps && t !in left
      invariant Distinct(up) && forall t :: t in up <==> t in revdeps && t !in left
      invariant UsersFirst(revdeps, down) && UsersLast(revdeps, up)
      invariant forall x, u :: x in revdeps && x !in left && u in revdeps[x] ==> u !in left
      decreases left
    {
      var t := MinimalNode(revdeps, left);
      UsersFirstSnoc(revdeps, down, t);
      UsersLastCons(revdeps, up, t);
      DistinctParts(down, [t]);
      DistinctParts([t], up);
      down, up, left := down + [t], [t] + up, left - {t};
    }
  }

  /** With every task after the tasks that depend on it, one pass finds all that is implied. */
  lemma {:induction false} DownwardPass(revdeps: Graph<Tid>, covered: set<Tid>, done: seq<Tid>, order: seq<Tid>,
                                        now: set<Tid>)
    requires Distinct(done + order) && UsersFirst(revdeps, done + order)
    requires covered <= now && forall t :: t in done && Implied(revdeps, now, t) ==> t in now
    ensures var end := Pass(revdeps, order, now);
            covered <= end && forall t :: t in done + order && Implied(revdeps, end, t) ==> t in end
    decreases |order|
  {
    if order == [] {
      assert done + [] == done;
    } else {
      var t := order[0];
      var next := if Implied(revdeps, now, t) then now + {t} else now;
      assert done + order == (done + [t]) + order[1..];
      forall x | x in done + [t] && Implied(revdeps, next, x)
        ensures x in next
      {
        if x in done {
          NotUsedEarlier(revdeps, done, order, x);
          assert Implied(revdeps, now, x);
        } else {
          NotUsedEarlier(revdeps, done, order, t);
          assert Implied(revdeps, now, x);
        }
      }
      DownwardPass(revdeps, covered, done + [t], order[1..], next);
    }
  }

  lemma NotUsedEarlier(revdeps: Graph<Tid>, done: seq<Tid>, order: seq<Tid>, x: Tid)
    requires order != [] && Distinct(done + order) && UsersFirst(revdeps, done + order)
    requires x in revdeps && (x in done || x == order[0])
    ensures order[0] !in revdeps[x]
  {
    var all := done + order;
    assert all[|done|] == order[0];
    var j := |done|;
    if x in done {
      j :| 0 <= j < |done| && done[j] == x;
    }
    assert all[j] == x;
    forall i | 0 <= i < j
      ensures all[i] != order[0]
    {
    }
    assert order[0] !in all[..j];
  }

  /** With every task before them, one pass finds only what `covered` itself implies. */
  lemma {:induction false} UpwardPass(revdeps: Graph<Tid>, covered: set<Tid>, done: seq<Tid>, order: seq<Tid>,
                                      now: set<Tid>)
    requires UsersLast(revdeps, done + order)
    requires forall t :: t in now <==> t in covered || (t in done && Implied(revdeps, covered, t))
    ensures forall t :: t in Pass(revdeps, order, now) <==>
      t in covered || (t in done + order && Implied(revdeps, covered, t))
    decreases |order|
  {
    if order == [] {
      assert done + [] == done;
    } else {
      var t := order[0];
      assert done + order == (done + [t]) + order[1..];
      assert (done + order)[|done|] == t && (done + order)[..|done|] == done;
      assert t in revdeps ==> forall u :: u in revdeps[t] ==> u !in done;
      assert Implied(revdeps, now, t) <==> Implied(revdeps, covered, t);
      UpwardPass(revdeps, covered, done + [t], order[1..], if Implied(revdeps, now, t) then now + {t} else now);
    }
  }

  /** The tasks all of whose dependants are covered, with the covered ones. */
  ghost function ImpliedAtOnce(revdeps: Graph<Tid>, covered: set<Tid>): set<Tid> {
    covered + set t | t in revdeps && Implied(revdeps, covered, t)
  }

  lemma {:induction false} PassFindsAtOnce(revdeps: Graph<Tid>, order: seq<Tid>, covered: set<Tid>, now: set<Tid>)
    requires covered <= now
    ensures now <= Pass(revdeps, order, now)
    ensures forall t :: t in order && Implied(revdeps, covered, t) ==> t in Pass(revdeps, order, now)
  {
    if order == [] {
    } else {
      PassFindsAtOnce(revdeps, order[1..], covered, if Implied(revdeps, now, order[0]) then now + {order[0]} else now);
    }
  }

  lemma DownwardFindsAll(revdeps: Graph<Tid>, order: seq<Tid>, covered: set<Tid>)
    requires Lists(revdeps, order) && UsersFirst(revdeps, order)
    ensures Pass(revdeps, order, covered) == Inferred(revdeps, covered, {})
  {
    hide Inferred, Pass;
    assert [] + order == order;
    DownwardPass(revdeps, covered, [], order, covered);
    InferredIsLeast(revdeps, covered, {}, Pass(revdeps, order, covered));
    GrownFromStart(revdeps, covered);
    PassGrows(revdeps, order, covered, covered);
  }

  lemma UpwardFindsAtOnce(revdeps: Graph<Tid>, order: seq<Tid>, covered: set<Tid>)
    requires Lists(revdeps, order) && UsersLast(revdeps, order)
    ensures Pass(revdeps, order, covered) == ImpliedAtOnce(revdeps, covered)
  {
    assert [] + order == order;
    UpwardPass(revdeps, covered, [], order, covered);
  }

  /** The result does not depend on the iteration order exactly when every task that is
      implied but known not to be covered is covered or implied by the tasks given. */
  lemma OrderShowsIff(revdeps: Graph<Tid>, covered: set<Tid>, notcovered: set<Tid>)
    requires Closed(revdeps) && Acyclic(revdeps)
    ensures (forall a, b :: Lists(revdeps, a) && Lists(revdeps, b)
                       ==> Saturated(revdeps, a, covered, notcovered) == Saturated(revdeps, b, covered, notcovered))
       <==> notcovered * Inferred(revdeps, covered, {}) <= ImpliedAtOnce(revdeps, covered)
  {
    hide Inferred, Pass, Saturated, Acyclic, Closed, UsersFirst, UsersLast;
    var blocked := notcovered * Inferred(revdeps, covered, {});
    if blocked <= ImpliedAtOnce(revdeps, covered) {
      forall a | Lists(revdeps, a)
        ensures Saturated(revdeps, a, covered, notcovered) == Inferred(revdeps, covered, {})
      {
        PassFindsAtOnce(revdeps, a, covered, covered);
        SaturatedIsAll(revdeps, a, covered, notcovered);
      }
    } else {
      var down, up := DependencyOrders(revdeps);
      DownwardFindsAll(revdeps, down, covered);
      UpwardFindsAtOnce(revdeps, up, covered);
      SaturatedIsAll(revdeps, down, covered, notcovered);
      SaturatedIsAll(revdeps, up, covered, notcovered);
    }
  }

  /** Three tasks in a row of which the first is covered and the last failed its setscene
      variant: whether the last is skipped is left to the iteration order. */
  lemma OrderShows(a: Tid, b: Tid, c: Tid)
    requires a != b && b != c && a != c
    ensures Saturated(map[a := {}, b := {a}, c := {b}], [a, b, c], {a}, {c}) == {a, b, c}
    ensures Saturated(map[a := {}, b := {a}, c := {b}], [a, c, b], {a}, {c}) == {a, b}
  {
    var revdeps := map[a := {}, b := {a}, c := {b}];
    assert [a, b, c][1..] == [b, c] && [b, c][1..] == [c] && [c][1..] == [];
    assert [a, c, b][1..] == [c, b] && [c, b][1..] == [b] && [b][1..] == [];
    assert Pass(revdeps, [a, b, c], {a}) == Pass(revdeps, [b, c], {a}) == Pass(revdeps, [c], {a} + {b})
      == {a} + {b} + {c};
    assert Pass(revdeps, [a, c, b], {a}) == Pass(revdeps, [c, b], {a}) == Pass(revdeps, [b], {a}) == {a} + {b};
    NothingMore(revdeps, {a} + {b} + {c}, {c});
    NothingMore(revdeps, {a} + {b}, {c});
  }

  lemma NothingMore(revdeps: Graph<Tid>, covered: set<Tid>, blocked: set<Tid>)
    requires forall t :: t in revdeps && Implied(revdeps, covered, t) ==> t in covered || t in blocked
    ensures Inferred(revdeps, covered, blocked) == covered
  {
    assert Absorbs(revdeps, covered, blocked, covered);
  }

  // ---- taking tasks back ----

  /** Which covered dependencies go when `t` goes: those the setscene pass did not
      cover itself. */
  ghost function Dragged(depends: Graph<Tid>, covered: set<Tid>, initial: set<Tid>): Graph<Tid> {
    map t | t in depends :: set d | d in depends[t] && d in covered && d !in initial
  }

  ghost function TakenBack(depends: Graph<Tid>, covered: set<Tid>, initial: set<Tid>, asked: set<Tid>): set<Tid> {
    set t | t in covered && ReachFrom(Dragged(depends, covered, initial), asked, t)
  }

  /** Rounds of removal have removed `removed`; `queued` are to be removed next. */
  ghost predicate Removing(depends: Graph<Tid>, covered: set<Tid>, initial: set<Tid>, asked: set<Tid>,
                           removed: seq<Tid>, queued: seq<Tid>)
  {
    && Distinct(removed + queued)
    && (forall t :: t in removed || t in queued ==>
        t in covered && ReachFrom(Dragged(depends, covered, initial), asked, t))
    && (forall t :: t in asked ==> t in removed || t in queued)
    && (forall t, d :: t in removed && t in depends && d in depends[t] && d in covered && d !in initial ==>
        d in removed || d in queued)
  }

  /** Removes what the metadata asked for, and with it every covered dependency that was
      only inferred. `removed` lists the removals in order. */
  method RemoveCovered(depends: Graph<Tid>, covered: set<Tid>, initial: set<Tid>, asked: seq<Tid>)
    returns (left: set<Tid>, removed: seq<Tid>)
    requires Closed(depends) && covered <= depends.Keys
    requires Distinct(asked) && forall t :: t in asked ==> t in covered
    ensures Distinct(removed) && forall t :: t in removed ==> t in covered
    ensures left == covered - (set t | t in removed)
    ensures left == covered - TakenBack(depends, covered, initial, (set t | t in asked))
  {
    ghost var roots := set t | t in asked;
    left, removed := covered, [];
    var toremove := asked;
    StartRemoving(depends, covered, initial, asked);
    while toremove != []
      invariant left == covered - set t | t in removed
      invariant Removing(depends, covered, initial, roots, removed, toremove)
      decreases |left|
    {
      ghost var before := left;
      left, removed, toremove := RemoveRound(depends, covered, initial, roots, left, removed, toremove);
      SmallerSet(left, before);
    }
    RemovedAll(depends, covered, initial, roots, removed);
  }

  /** One round: every queued task is removed, and the dependencies it drags along are
      queued for the next round. */
  method RemoveRound(depends: Graph<Tid>, ghost covered: set<Tid>, initial: set<Tid>, ghost asked: set<Tid>,
                     left: set<Tid>, removed: seq<Tid>, toremove: seq<Tid>)
    returns (left': set<Tid>, removed': seq<Tid>, next: seq<Tid>)
    requires Closed(depends) && covered <= depends.Keys
    requires left == covered - (set t | t in removed) && toremove != []
    requires Removing(depends, covered, initial, asked, removed, toremove)
    ensures left' == covered - (set t | t in removed') && left' < left
    ensures Removing(depends, covered, initial, asked, removed', next)
  {
    hide Removing;
    left', removed', next := left, removed, [];
    assert toremove[0..] + next == toremove;
    for i := 0 to |toremove|
      invariant left' == covered - (set t | t in removed') && left' <= left && (i > 0 ==> left' < left)
      invariant forall t :: t in toremove[..i] ==> t in removed'
      invariant Removing(depends, covered, initial, asked, removed', toremove[i..] + next)
    {
      var task := toremove[i];
      assert toremove[i..] + next == [task] + (toremove[i + 1..] + next) == [task] + toremove[i + 1..] + next;
      assert toremove[..i + 1] == toremove[..i] + [task];
      QueuedIsCovered(depends, covered, initial, asked, removed', toremove[i + 1..] + next, task);
      assert task in left';
      ghost var was := removed';
      left' := left' - {task};
      removed' := removed' + [task];
      var more := NextToRemove(depends[task], left', toremove, next, initial);
      RemoveStep(depends, covered, initial, asked, was, task, toremove, i, next, more);
      next := next + more;
    }
    assert toremove[|toremove|..] + next == next;
  }

  method NextToRemove(deps: set<Tid>, left: set<Tid>, toremove: seq<Tid>, next: seq<Tid>, initial: set<Tid>)
    returns (more: seq<Tid>)
    ensures Distinct(more)
    ensures forall d :: d in more <==> d in deps && d in left && d !in toremove && d !in next && d !in initial
  {
    more := [];
    var todo := deps;
    while todo != {}
      invariant todo <= deps && Distinct(more)
      invariant forall d :: d in more <==>
        d in deps && d !in todo && d in left && d !in toremove && d !in next && d !in initial
    {
      var deptask :| deptask in todo;
      todo := todo - {deptask};
      if deptask in left {
        if deptask !in toremove && deptask !in next + more && deptask !in initial {
          more := more + [deptask];
        }
      }
    }
  }

  lemma QueuedIsCovered(depends: Graph<Tid>, covered: set<Tid>, initial: set<Tid>, asked: set<Tid>, removed: seq<Tid>,
                        queued: seq<Tid>, t: Tid)
    requires Removing(depends, covered, initial, asked, removed, [t] + queued)
    ensures t in covered && t !in removed
  {
    var all := removed + ([t] + queued);
    assert all[|removed|] == t;
    forall i | 0 <= i < |removed|
      ensures removed[i] != t
    {
      assert all[i] == removed[i];
    }
    assert t in [t] + queued;
  }

  lemma RemoveStep(depends: Graph<Tid>, covered: set<Tid>, initial: set<Tid>, asked: set<Tid>, removed: seq<Tid>,
                   task: Tid, toremove: seq<Tid>, i: nat, next: seq<Tid>, more: seq<Tid>)
    requires i < |toremove| && toremove[i] == task && task in depends
    requires forall t :: t in toremove[..i] ==> t in removed
    requires Removing(depends, covered, initial, asked, removed, [task] + toremove[i + 1..] + next)
    requires Distinct(more)
    requires forall d :: d in more <==>
      d in depends[task] && d in covered && d !in removed && d != task && d !in toremove && d !in next &&
      d !in initial
    ensures Removing(depends, covered, initial, asked, removed + [task], toremove[i + 1..] + (next + more))
  {
    var rest := toremove[i + 1..];
    var old', new' := [task] + rest + next, rest + (next + more);
    var g := Dragged(depends, covered, initial);
    assert toremove == toremove[..i] + ([task] + rest);
    assert removed + [task] + new' == (removed + old') + more;
    assert forall t :: t in old' <==> t == task || t in rest || t in next;
    DistinctParts(removed + old', more);
    forall t | t in more
      ensures ReachFrom(g, asked, t)
    {
      assert task in old' && t in g[task];
      ReachFromSnoc(g, asked, task, t);
    }
  }

  lemma StartRemoving(depends: Graph<Tid>, covered: set<Tid>, initial: set<Tid>, asked: seq<Tid>)
    requires Distinct(asked) && forall t :: t in asked ==> t in covered
    ensures Removing(depends, covered, initial, (set t | t in asked), [], asked)
  {
    assert [] + asked == asked;
    forall t | t in asked
      ensures ReachFrom(Dragged(depends, covered, initial), (set t | t in asked), t)
    {
      ReachRefl(Dragged(depends, covered, initial), t);
    }
  }

  lemma RemovedAll(depends: Graph<Tid>, covered: set<Tid>, initial: set<Tid>, asked: set<Tid>, removed: seq<Tid>)
    requires Removing(depends, covered, initial, asked, removed, [])
    ensures Distinct(removed) && forall t :: t in removed ==> t in covered
    ensures (set t | t in removed) == TakenBack(depends, covered, initial, asked)
  {
    assert removed + [] == removed;
    ExactlyReached(Dragged(depends, covered, initial), asked, (set t | t in removed));
  }

  // ---- what the two steps promise together ----

  /** No task that is going to run depends on a task that is skipped only because it was
      inferred: a skipped dependency of a task that runs was covered by the setscene
      pass itself. */
  lemma NoRunOnInferred(depends: Graph<Tid>, revdeps: Graph<Tid>, initial: set<Tid>, covered: set<Tid>, asked: set<Tid>,
                        u: Tid, d: Tid)
    requires Inverse(depends, revdeps) && Grown(revdeps, initial, covered)
    requires u in depends && d in depends[u]
    requires u !in covered - TakenBack(depends, covered, initial, asked)
    requires d in covered - TakenBack(depends, covered, initial, asked)
    ensures d in initial
  {
    if d !in initial {
      assert Implied(revdeps, covered, d) && u in revdeps[d];
      var g := Dragged(depends, covered, initial);
      assert u in covered && ReachFrom(g, asked, u);
      ReachFromSnoc(g, asked, u, d);
      assert false;
    }
  }

  /** Told by dependencies alone: taken back is what was asked for, and what was only
      inferred and a task that was taken back depends on. */
  lemma TakenBackByEdges(depends: Graph<Tid>, all: set<Tid>, initial: set<Tid>, asked: set<Tid>, t: Tid)
    requires asked <= all
    ensures var gone := TakenBack(depends, all, initial, asked);
            t in gone <==>
            t in asked
            || (t in all && t !in initial && exists u :: u in gone && u in depends && t in depends[u])
  {
    hide Reach;
    var g, gone := Dragged(depends, all, initial), TakenBack(depends, all, initial, asked);
    forall r | r in asked
      ensures r in gone
    {
      ReachRefl(g, r);
      assert r in asked && Reach(g, r, r);
    }
    forall u, d | u in gone && u in g && d in g[u]
      ensures d in gone
    {
      ReachFromSnoc(g, asked, u, d);
    }
    if t in gone && t !in asked {
      var r :| r in asked && Reach(g, r, t);
      if !ClosedUnder(g, gone - {t}) {
        var u :| u in gone - {t} && u in g && !(g[u] <= gone - {t});
        assert t in g[u];
      } else {
        ReachStaysInside(g, gone - {t}, r, t);
        assert false;
      }
    }
  }

  /** The whole computation of the set of tasks to skip. */
  method SkipSet(depends: Graph<Tid>, revdeps: Graph<Tid>, order: seq<Tid>, initial: set<Tid>, notcovered: set<Tid>,
                 ask: set<Tid> -> seq<Tid>)
    returns (covered: set<Tid>)
    requires Inverse(depends, revdeps) && initial <= depends.Keys && forall t :: t in order <==> t in depends
    // the hook answers with covered tasks, each once
    requires forall s: set<Tid> :: Distinct(ask(s)) && forall t :: t in ask(s) ==> t in s
    ensures var all := Saturated(revdeps, order, initial, notcovered);
            covered == all - TakenBack(depends, all, initial, (set t | t in ask(all)))
    ensures forall u, d :: u in depends && d in depends[u] && u !in covered && d in covered ==> d in initial
  {
    hide TakenBack, Saturated;
    var all := Saturate(revdeps, order, initial, notcovered);
    assert all <= depends.Keys;
    var removed;
    covered, removed := RemoveCovered(depends, all, initial, ask(all));
    forall u, d | u in depends && d in depends[u] && u !in covered && d in covered
      ensures d in initial
    {
      NoRunOnInferred(depends, revdeps, initial, all, (set t | t in ask(all)), u, d);
    }
  }
}
