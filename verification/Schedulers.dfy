/** The order in which buildable tasks are offered: the speed scheduler's priority map,
    the completion scheduler's regrouping of it, and the choice of the next task. */
module Schedulers {
  import opened Graphs
  import opened Sequences
  import opened Tasks
  import Weights

  /** Where `t` stands in `s`. */
  ghost function IndexOf(s: seq<Tid>, t: Tid): (i: nat)
    requires t in s
    ensures i < |s| && s[i] == t
  {
    var i :| 0 <= i < |s| && s[i] == t;
    i
  }

  // ---- the speed scheduler ----

  /** `a` is listed before `b` when weights are sorted upwards and tasks of one weight
      keep their order. */
  ghost predicate Lighter(tids: seq<Tid>, weight: map<Tid, int>, a: Tid, b: Tid)
    requires a in tids && b in tids && a in weight && b in weight
  {
    weight[a] < weight[b] || (weight[a] == weight[b] && IndexOf(tids, a) < IndexOf(tids, b))
  }

  ghost predicate Sorted(tids: seq<Tid>, weight: map<Tid, int>, s: seq<Tid>) {
    && (forall t :: t in s ==> t in tids && t in weight)
    && (forall i, j :: 0 <= i < j < |s| ==> Lighter(tids, weight, s[i], s[j]))
  }

  /** The priority map holds every task once, heavy tasks first, and among equals the
      task listed last first. */
  ghost predicate IsPriorityMap(tids: seq<Tid>, weight: map<Tid, int>, prio: seq<Tid>) {
    && (forall t :: t in prio <==> t in tids)
    && (forall t :: t in tids ==> t in weight)
    && (forall i, j :: 0 <= i < j < |prio| ==> Lighter(tids, weight, prio[j], prio[i]))
  }

  /** The tasks of weight `w` in `tids`, in order. */
  function OfWeight(tids: seq<Tid>, weight: map<Tid, int>, w: int): (s: seq<Tid>)
    requires forall t :: t in tids ==> t in weight
    ensures forall t :: t in s <==> t in tids && weight[t] == w
  {
    if tids == [] then []
    else
      var n := |tids| - 1;
      var rest := OfWeight(tids[..n], weight, w);
      assert forall t :: t in tids <==> t in tids[..n] || t == tids[n];
      if weight[tids[n]] == w then rest + [tids[n]] else rest
  }

  lemma {:induction false} OfWeightSorted(tids: seq<Tid>, weight: map<Tid, int>, w: int, k: nat)
    requires Distinct(tids) && k <= |tids|
    requires forall t :: t in tids ==> t in weight
    ensures Sorted(tids, weight, OfWeight(tids[..k], weight, w))
    decreases k
  {
    if k == 0 {
    } else {
      OfWeightSorted(tids, weight, w, k - 1);
      assert tids[..k][..k - 1] == tids[..k - 1];
      forall t | t in tids[..k - 1]
        ensures IndexOf(tids, t) < k - 1
      {
        var i :| 0 <= i < k - 1 && tids[i] == t;
        assert IndexOf(tids, t) == i;
      }
      assert IndexOf(tids, tids[k - 1]) == k - 1;
    }
  }

  /** Strictly increasing. */
  ghost predicate Increasing(s: seq<int>) {
    forall i, j :: 0 <= i < j < |s| ==> s[i] < s[j]
  }

  function Insert(s: seq<int>, w: int): (r: seq<int>)
    ensures forall v :: v in r <==> v == w || v in s
  {
    if s == [] || w < s[0] then [w] + s
    else
      assert s == [s[0]] + s[1..];
      [s[0]] + Insert(s[1..], w)
  }

  lemma {:induction false} InsertIncreasing(s: seq<int>, w: int)
    requires Increasing(s) && w !in s
    ensures Increasing(Insert(s, w))
  {
    if s != [] && s[0] <= w {
      InsertIncreasing(s[1..], w);
      var rest := Insert(s[1..], w);
      forall j | 0 <= j < |rest|
        ensures s[0] < rest[j]
      {
        assert rest[j] in rest;
        if rest[j] in s[1..] {
          var k :| 0 <= k < |s[1..]| && s[1..][k] == rest[j];
          assert s[0] < s[k + 1];
        }
      }
    }
  }

  /** Tasks bucketed by weight, buckets emptied from the lightest, the list reversed. */
  method SpeedPriorityMap(tids: seq<Tid>, weight: map<Tid, int>) returns (prio: seq<Tid>)
    requires Distinct(tids) && forall t :: t in tids ==> t in weight
    ensures IsPriorityMap(tids, weight, prio)
  {
    hide Bucketed, OfWeight, Increasing, Sorted, IsPriorityMap;
    var weights: map<int, seq<Tid>> := map[];
    var sorted: seq<int> := [];
    NothingBucketed(tids, weight);
    for k := 0 to |tids|
      invariant Bucketed(tids, weight, k, weights, sorted)
    {
      var tid := tids[k];
      var w := weight[tid];
      BucketOne(tids, weight, k, weights, sorted);
      if w !in weights {
        weights := weights[w := []];
        sorted := Insert(sorted, w);
      }
      weights := weights[w := weights[w] + [tid]];
    }
    AllBucketed(tids, weight, weights, sorted);
    var list := EmptyBuckets(tids, weight, weights, sorted);
    prio := Reverse(list);
    ReversedIsPriorityMap(tids, weight, list, prio);
  }

  /** The first `k` tasks are in the buckets of their weights. */
  ghost predicate Bucketed(tids: seq<Tid>, weight: map<Tid, int>, k: nat, weights: map<int, seq<Tid>>, sorted: seq<int>)
    requires k <= |tids| && forall t :: t in tids ==> t in weight
  {
    && (forall w {:trigger w in weights} :: w in weights <==> w in sorted)
    && (forall t :: t in tids[..k] ==> weight[t] in weights)
    && (forall w {:trigger weights[w]} :: w in weights ==> weights[w] == OfWeight(tids[..k], weight, w))
    && Increasing(sorted)
  }

  lemma NothingBucketed(tids: seq<Tid>, weight: map<Tid, int>)
    requires forall t :: t in tids ==> t in weight
    ensures Bucketed(tids, weight, 0, map[], [])
  {
  }

  lemma BucketOne(tids: seq<Tid>, weight: map<Tid, int>, k: nat, weights: map<int, seq<Tid>>, sorted: seq<int>)
    requires k < |tids| && (forall t :: t in tids ==> t in weight) && Bucketed(tids, weight, k, weights, sorted)
    ensures var w := weight[tids[k]];
            var open := if w in weights then weights else weights[w := []];
            Bucketed(tids, weight, k + 1, open[w := open[w] + [tids[k]]],
                     if w in weights then sorted else Insert(sorted, w))
  {
    hide OfWeight, Increasing;
    var w := weight[tids[k]];
    BucketStep(tids, weight, k);
    if w !in weights {
      NoneOfWeight(tids[..k], weight, w);
      InsertIncreasing(sorted, w);
    }
  }

  lemma AllBucketed(tids: seq<Tid>, weight: map<Tid, int>, weights: map<int, seq<Tid>>, sorted: seq<int>)
    requires (forall t :: t in tids ==> t in weight) && Bucketed(tids, weight, |tids|, weights, sorted)
    ensures (forall t :: t in tids ==> weight[t] in sorted) && Increasing(sorted)
    ensures forall w :: w in sorted ==> w in weights && weights[w] == OfWeight(tids, weight, w)
  {
    assert tids[..|tids|] == tids;
    forall t | t in tids
      ensures weight[t] in sorted
    {
      var w: int := weight[t];
      assert t in tids[..|tids|] && w in weights <==> w in sorted;
    }
    forall w | w in sorted
      ensures w in weights
    {
      assert w in weights <==> w in sorted;
    }
  }

  lemma ReversedIsPriorityMap(tids: seq<Tid>, weight: map<Tid, int>, s: seq<Tid>, r: seq<Tid>)
    requires Sorted(tids, weight, s) && (forall t :: t in s <==> t in tids) && (forall t :: t in tids ==> t in weight)
    requires |r| == |s| && forall i :: 0 <= i < |s| ==> r[i] == s[|s| - 1 - i]
    requires forall t :: t in r <==> t in s
    ensures IsPriorityMap(tids, weight, r)
  {
  }

  lemma NoneOfWeight(tids: seq<Tid>, weight: map<Tid, int>, w: int)
    requires forall t :: t in tids ==> t in weight && weight[t] != w
    ensures OfWeight(tids, weight, w) == []
  {
  }

  lemma BucketStep(tids: seq<Tid>, weight: map<Tid, int>, k: nat)
    requires k < |tids| && forall t :: t in tids ==> t in weight
    ensures forall t :: t in tids[..k + 1] <==> t in tids[..k] || t == tids[k]
    ensures forall w :: OfWeight(tids[..k + 1], weight, w)
                        == if weight[tids[k]] == w then OfWeight(tids[..k], weight, w) + [tids[k]]
                          else OfWeight(tids[..k], weight, w)
  {
    assert tids[..k + 1] == tids[..k] + [tids[k]];
    assert tids[..k + 1][..k] == tids[..k];
  }

  /** Empties the buckets in increasing order of weight. */
  method EmptyBuckets(tids: seq<Tid>, weight: map<Tid, int>, weights: map<int, seq<Tid>>, sorted: seq<int>)
    returns (s: seq<Tid>)
    requires Distinct(tids) && forall t :: t in tids ==> t in weight && weight[t] in sorted
    requires forall w :: w in sorted ==> w in weights && weights[w] == OfWeight(tids, weight, w)
    requires Increasing(sorted)
    ensures Sorted(tids, weight, s) && forall t :: t in s <==> t in tids
  {
    s := [];
    for k := 0 to |sorted|
      invariant Sorted(tids, weight, s)
      invariant forall t :: t in s <==> t in tids && weight[t] in sorted[..k]
    {
      assert sorted[k] in sorted;
      EmptyStep(tids, weight, weights, sorted, k, s);
      s := s + weights[sorted[k]];
    }
    assert sorted[..|sorted|] == sorted;
  }

  lemma EmptyStep(tids: seq<Tid>, weight: map<Tid, int>, weights: map<int, seq<Tid>>, sorted: seq<int>, k: nat,
                  s: seq<Tid>)
    requires Distinct(tids) && forall t :: t in tids ==> t in weight
    requires k < |sorted| && Increasing(sorted)
    requires sorted[k] in weights && weights[sorted[k]] == OfWeight(tids, weight, sorted[k])
    requires Sorted(tids, weight, s)
    requires forall t :: t in s <==> t in tids && weight[t] in sorted[..k]
    ensures Sorted(tids, weight, s + weights[sorted[k]])
    ensures forall t :: t in s + weights[sorted[k]] <==> t in tids && weight[t] in sorted[..k + 1]
  {
    assert tids[..|tids|] == tids;
    assert sorted[..k + 1] == sorted[..k] + [sorted[k]];
    OfWeightSorted(tids, weight, sorted[k], |tids|);
    SortedAppend(tids, weight, s, weights[sorted[k]], sorted[k]);
  }

  lemma SortedAppend(tids: seq<Tid>, weight: map<Tid, int>, s: seq<Tid>, bucket: seq<Tid>, w: int)
    requires Sorted(tids, weight, s) && Sorted(tids, weight, bucket)
    requires forall t :: t in s ==> weight[t] < w
    requires forall t :: t in bucket ==> weight[t] == w
    ensures Sorted(tids, weight, s + bucket)
  {
  }

  method Reverse(s: seq<Tid>) returns (r: seq<Tid>)
    ensures |r| == |s| && forall i :: 0 <= i < |s| ==> r[i] == s[|s| - 1 - i]
    ensures forall t :: t in r <==> t in s
  {
    r := [];
    for k := 0 to |s|
      invariant |r| == k && forall i :: 0 <= i < k ==> r[i] == s[k - 1 - i]
    {
      r := [s[k]] + r;
    }
    forall t | t in s
      ensures t in r
    {
      var i :| 0 <= i < |s| && s[i] == t;
      assert r[|s| - 1 - i] == t;
    }
  }

  /** There is only one such list, so the map does not depend on how it was computed. */
  lemma {:induction false} PriorityMapUnique(tids: seq<Tid>, weight: map<Tid, int>, p: seq<Tid>, q: seq<Tid>)
    requires Distinct(tids) && IsPriorityMap(tids, weight, p) && IsPriorityMap(tids, weight, q)
    ensures p == q
  {
    PrefixesAgree(tids, weight, p, q, |p|);
    PrefixesAgree(tids, weight, q, p, |q|);
  }

  lemma LaterIsLighter(tids: seq<Tid>, weight: map<Tid, int>, p: seq<Tid>, x: nat, y: nat)
    requires IsPriorityMap(tids, weight, p) && x <= y < |p|
    ensures p[x] in p && p[y] in p && p[x] in tids && p[y] in tids && p[x] in weight && p[y] in weight
    ensures p[x] == p[y] || Lighter(tids, weight, p[y], p[x])
  {
  }

  lemma {:induction false} PrefixesAgree(tids: seq<Tid>, weight: map<Tid, int>, p: seq<Tid>, q: seq<Tid>, k: nat)
    requires IsPriorityMap(tids, weight, p) && IsPriorityMap(tids, weight, q) && k <= |p|
    ensures k <= |q| && p[..k] == q[..k]
    decreases k
  {
    if k == 0 {
    } else {
      PrefixesAgree(tids, weight, p, q, k - 1);
      forall x | 0 <= x < k - 1
        ensures p[x] == q[x]
      {
        assert p[..k - 1][x] == q[..k - 1][x];
      }
      var a := p[k - 1];
      assert a in p && a in q;
      var j :| 0 <= j < |q| && q[j] == a;
      assert j >= k - 1;
      var b := q[k - 1];
      assert b in q && b in p;
      var i :| 0 <= i < |p| && p[i] == b;
      assert i >= k - 1;
      LaterIsLighter(tids, weight, p, k - 1, i);
      LaterIsLighter(tids, weight, q, k - 1, j);
      assert p[..k] == p[..k - 1] + [a] && q[..k] == q[..k - 1] + [b];
    }
  }

  /** On an acyclic queue the speed map lists every task after all it depends on. */
  lemma DependenciesFirst(depends: Graph<Tid>, revdeps: Graph<Tid>, tids: seq<Tid>, weight: map<Tid, int>,
                          prio: seq<Tid>, t: Tid, d: Tid)
    requires Inverse(depends, revdeps) && Acyclic(depends) && Weights.IsWeighting(revdeps, weight)
    requires IsPriorityMap(tids, weight, prio) && forall t :: t in tids <==> t in depends
    requires t in depends && d in depends[t]
    ensures t in prio && d in prio && IndexOf(prio, d) < IndexOf(prio, t)
  {
    AcyclicInverse(depends, revdeps);
    assert t in revdeps[d];
    Weights.HeavierThanDependants(revdeps, weight, d, t);
    var i, j := IndexOf(prio, t), IndexOf(prio, d);
    assert i < j ==> Lighter(tids, weight, d, t);
  }

  // ---- the completion scheduler ----

  function SameFile(s: seq<Tid>, fn: string): seq<Tid> {
    if s == [] then []
    else if s[0].fn == fn then [s[0]] + SameFile(s[1..], fn)
    else SameFile(s[1..], fn)
  }

  function OtherFiles(s: seq<Tid>, fn: string): (r: seq<Tid>)
    ensures |r| <= |s|
  {
    if s == [] then []
    else if s[0].fn != fn then [s[0]] + OtherFiles(s[1..], fn)
    else OtherFiles(s[1..], fn)
  }

  lemma {:induction false} FileMembers(s: seq<Tid>, fn: string)
    ensures forall t :: t in SameFile(s, fn) <==> t in s && t.fn == fn
    ensures forall t :: t in OtherFiles(s, fn) <==> t in s && t.fn != fn
  {
    if s == [] {
    } else {
      assert s == [s[0]] + s[1..];
      FileMembers(s[1..], fn);
    }
  }

  lemma {:induction false} SameOfConcat(a: seq<Tid>, b: seq<Tid>, fn: string)
    ensures SameFile(a + b, fn) == SameFile(a, fn) + SameFile(b, fn)
  {
    if a == [] {
      assert a + b == b;
    } else {
      assert (a + b)[1..] == a[1..] + b;
      SameOfConcat(a[1..], b, fn);
      ConcatAssoc([a[0]], SameFile(a[1..], fn), SameFile(b, fn));
    }
  }

  lemma {:induction false} OthersOfConcat(a: seq<Tid>, b: seq<Tid>, fn: string)
    ensures OtherFiles(a + b, fn) == OtherFiles(a, fn) + OtherFiles(b, fn)
  {
    if a == [] {
      assert a + b == b;
    } else {
      assert (a + b)[1..] == a[1..] + b;
      OthersOfConcat(a[1..], b, fn);
      ConcatAssoc([a[0]], OtherFiles(a[1..], fn), OtherFiles(b, fn));
    }
  }

  /** The first task's file first, all of it, then the rest in the same way. */
  function Grouped(s: seq<Tid>): seq<Tid>
    decreases |s|
  {
    if s == [] then []
    else [s[0]] + SameFile(s[1..], s[0].fn) + Grouped(OtherFiles(s[1..], s[0].fn))
  }

  /** Regroups the speed map so that a file, once started, is finished: matching tasks
      are moved behind the first one, and their indices, collected on the way, are
      deleted from the back. */
  method CompletionPriorityMap(speed: seq<Tid>) returns (prio: seq<Tid>)
    requires Distinct(speed)
    ensures prio == Grouped(speed)
  {
    var basemap := speed;
    prio := [];
    while |basemap| > 0
      invariant prio + Grouped(basemap) == Grouped(speed)
      invariant Distinct(basemap)
      decreases |basemap|
    {
      var entry := basemap[0];
      ghost var before := prio;
      ghost var grouped := Grouped(basemap);
      basemap := basemap[1..];
      var same, todel := CollectFile(basemap, entry.fn);
      prio := prio + [entry] + same;
      ghost var rest := basemap;
      basemap := DeleteAll(basemap, todel, entry.fn);
      DistinctOthers(rest, entry.fn);
      assert grouped == [entry] + same + Grouped(basemap);
      assert prio + Grouped(basemap) == before + grouped;
    }
  }

  /** The tasks of one file still in the list, and where they stand. */
  method CollectFile(basemap: seq<Tid>, fn: string) returns (same: seq<Tid>, todel: seq<nat>)
    requires Distinct(basemap)
    ensures same == SameFile(basemap, fn) && Positions(basemap, fn, |basemap|, todel)
  {
    same, todel := [], [];
    for i := 0 to |basemap|
      invariant same == SameFile(basemap[..i], fn)
      invariant Positions(basemap, fn, i, todel)
    {
      var entry := basemap[i];
      assert basemap[..i + 1] == basemap[..i] + [entry];
      SameOfConcat(basemap[..i], [entry], fn);
      if entry.fn == fn {
        var k := FirstIndex(basemap, entry);
        assert k == i;
        todel := todel + [k];
        same := same + [entry];
      }
    }
    assert basemap[..|basemap|] == basemap;
  }

  /** `todel` lists, in increasing order, where tasks of file `fn` stand before `i`. */
  ghost predicate Positions(s: seq<Tid>, fn: string, i: nat, todel: seq<nat>) {
    && i <= |s|
    && (forall a :: 0 <= a < |todel| ==> todel[a] < i && s[todel[a]].fn == fn)
    && (forall a, b :: 0 <= a < b < |todel| ==> todel[a] < todel[b])
    && (forall k :: 0 <= k < i && s[k].fn == fn ==> k in todel)
  }

  method FirstIndex(s: seq<Tid>, t: Tid) returns (k: nat)
    requires t in s
    ensures k < |s| && s[k] == t && t !in s[..k]
  {
    k := 0;
    while s[k] != t
      invariant k < |s| && t !in s[..k] && t in s[k..]
      decreases |s| - k
    {
      k := k + 1;
    }
  }

  lemma {:induction false} AllOthers(s: seq<Tid>, fn: string)
    requires forall k :: 0 <= k < |s| ==> s[k].fn != fn
    ensures OtherFiles(s, fn) == s
  {
    if s == [] {
    } else {
      AllOthers(s[1..], fn);
    }
  }

  method DeleteAll(s: seq<Tid>, todel: seq<nat>, fn: string) returns (r: seq<Tid>)
    requires Positions(s, fn, |s|, todel)
    ensures r == OtherFiles(s, fn)
  {
    hide OtherFiles;
    NoneOther(fn);
    r := s;
    var n := |todel|;
    ghost var cut := |s|;
    assert s[..cut] == s && s[cut..] == [];
    while n > 0
      invariant 0 <= n <= |todel| && cut <= |s|
      invariant forall a :: 0 <= a < n ==> todel[a] < cut
      invariant forall a :: n <= a < |todel| ==> todel[a] >= cut
      invariant r == s[..cut] + OtherFiles(s[cut..], fn)
    {
      n := n - 1;
      var idx := todel[n];
      DeleteStep(s, todel, fn, n, cut);
      assert r[..idx] == s[..idx] && r[idx + 1..] == s[idx + 1..cut] + OtherFiles(s[cut..], fn);
      r := r[..idx] + r[idx + 1..];
      cut := idx;
    }
    NothingListedBefore(s, todel, fn, cut);
    AllOthers(s[..cut], fn);
    OthersOfConcat(s[..cut], s[cut..], fn);
    assert s == s[..cut] + s[cut..];
  }

  lemma NoneOther(fn: string)
    ensures OtherFiles([], fn) == []
  {
  }

  lemma NothingListedBefore(s: seq<Tid>, todel: seq<nat>, fn: string, cut: nat)
    requires Positions(s, fn, |s|, todel) && cut <= |s|
    requires forall a :: 0 <= a < |todel| ==> todel[a] >= cut
    ensures forall k :: 0 <= k < cut ==> s[k].fn != fn
  {
  }

  lemma OthersBetween(s: seq<Tid>, todel: seq<nat>, fn: string, n: nat, cut: nat)
    requires Positions(s, fn, |s|, todel) && n < |todel| && todel[n] < cut <= |s|
    requires forall a :: n < a < |todel| ==> todel[a] >= cut
    ensures forall k :: todel[n] < k < cut ==> s[k].fn != fn
  {
  }

  lemma DeleteStep(s: seq<Tid>, todel: seq<nat>, fn: string, n: nat, cut: nat)
    requires Positions(s, fn, |s|, todel) && n < |todel| && todel[n] < cut <= |s|
    requires forall a :: n < a < |todel| ==> todel[a] >= cut
    ensures OtherFiles(s[todel[n]..], fn) == s[todel[n] + 1..cut] + OtherFiles(s[cut..], fn)
  {
    var idx := todel[n];
    var between := s[idx + 1..cut];
    OthersBetween(s, todel, fn, n, cut);
    AllOthers(between, fn);
    assert s[idx..][1..] == between + s[cut..];
    OthersOfConcat(between, s[cut..], fn);
  }

  lemma {:induction false} DistinctOthers(s: seq<Tid>, fn: string)
    requires Distinct(s)
    ensures Distinct(OtherFiles(s, fn))
  {
    if s == [] {
    } else {
      DistinctOthers(s[1..], fn);
      FileMembers(s[1..], fn);
      assert s == [s[0]] + s[1..];
      if s[0].fn != fn {
        assert s[0] !in s[1..];
      }
    }
  }

  // What the regrouping promises: a permutation, files kept together, order kept
  // within a file, and files in the order of their first task.

  lemma {:induction false} SplitByFile(s: seq<Tid>, fn: string)
    ensures multiset(s) == multiset(SameFile(s, fn)) + multiset(OtherFiles(s, fn))
  {
    if s == [] {
    } else {
      assert s == [s[0]] + s[1..];
      SplitByFile(s[1..], fn);
    }
  }

  lemma {:induction false} GroupedIsPermutation(s: seq<Tid>)
    ensures multiset(Grouped(s)) == multiset(s)
    decreases |s|
  {
    if s == [] {
    } else {
      var fn := s[0].fn;
      GroupedIsPermutation(OtherFiles(s[1..], fn));
      SplitByFile(s[1..], fn);
      assert s == [s[0]] + s[1..];
    }
  }

  lemma GroupedSameTasks(s: seq<Tid>, t: Tid)
    ensures t in Grouped(s) <==> t in s
  {
    GroupedIsPermutation(s);
    assert t in multiset(s) <==> t in s;
    assert t in multiset(Grouped(s)) <==> t in Grouped(s);
  }

  lemma {:induction false} FilterAgain(s: seq<Tid>, f: string, g: string)
    ensures SameFile(SameFile(s, f), g) == if f == g then SameFile(s, f) else []
    ensures f != g ==> SameFile(OtherFiles(s, f), g) == SameFile(s, g)
    ensures SameFile(OtherFiles(s, f), f) == []
  {
    if s == [] {
    } else {
      FilterAgain(s[1..], f, g);
    }
  }

  lemma {:induction false} GroupedKeepsOrder(s: seq<Tid>, f: string)
    ensures SameFile(Grouped(s), f) == SameFile(s, f)
    decreases |s|
  {
    if s == [] {
    } else {
      var fn := s[0].fn;
      var same, other := SameFile(s[1..], fn), OtherFiles(s[1..], fn);
      GroupedKeepsOrder(other, f);
      SameOfConcat([s[0]] + same, Grouped(other), f);
      SameOfConcat([s[0]], same, f);
      FilterAgain(s[1..], fn, f);
    }
  }

  /** In `Grouped(s)` the first file's tasks come first and none of them later. */
  lemma GroupedHeadTail(s: seq<Tid>) returns (n: nat)
    requires s != []
    ensures n <= |Grouped(s)| && Grouped(s)[n..] == Grouped(OtherFiles(s[1..], s[0].fn))
    ensures forall i :: 0 <= i < n ==> Grouped(s)[i].fn == s[0].fn
    ensures forall i :: n <= i < |Grouped(s)| ==> Grouped(s)[i].fn != s[0].fn
  {
    var fn := s[0].fn;
    var head, tail := [s[0]] + SameFile(s[1..], fn), Grouped(OtherFiles(s[1..], fn));
    n := |head|;
    assert Grouped(s) == head + tail;
    FileMembers(s[1..], fn);
    forall i | 0 <= i < n
      ensures Grouped(s)[i].fn == fn
    {
      assert i > 0 ==> head[i] in SameFile(s[1..], fn);
    }
    forall i | n <= i < |Grouped(s)|
      ensures Grouped(s)[i].fn != fn
    {
      assert tail[i - n] in tail;
      GroupedSameTasks(OtherFiles(s[1..], fn), tail[i - n]);
    }
  }

  lemma {:induction false} GroupedContiguous(s: seq<Tid>, i: nat, j: nat, k: nat)
    requires i < j < k < |Grouped(s)| && Grouped(s)[i].fn == Grouped(s)[k].fn
    ensures Grouped(s)[j].fn == Grouped(s)[i].fn
    decreases |s|
  {
    var n := GroupedHeadTail(s);
    if i >= n {
      var other := OtherFiles(s[1..], s[0].fn);
      assert forall x :: n <= x < |Grouped(s)| ==> Grouped(s)[x] == Grouped(other)[x - n];
      GroupedContiguous(other, i - n, j - n, k - n);
    }
  }

  /** The files of `s` in the order in which they first appear. */
  function FilesInOrder(s: seq<Tid>): seq<string>
    decreases |s|
  {
    if s == [] then [] else [s[0].fn] + FilesInOrder(OtherFiles(s[1..], s[0].fn))
  }

  lemma {:induction false} GroupedKeepsFileOrder(s: seq<Tid>)
    ensures FilesInOrder(Grouped(s)) == FilesInOrder(s)
    decreases |s|
  {
    if s == [] {
    } else {
      var fn := s[0].fn;
      var g := Grouped(s);
      OthersOfGrouped(s);
      assert g[0] == s[0];
      GroupedKeepsFileOrder(OtherFiles(s[1..], fn));
    }
  }

  lemma GroupedUnfolds(s: seq<Tid>)
    requires s != []
    ensures Grouped(s) != [] && Grouped(s)[1..] == SameFile(s[1..], s[0].fn) + Grouped(OtherFiles(s[1..], s[0].fn))
  {
  }

  lemma OthersOfGrouped(s: seq<Tid>)
    requires s != []
    ensures Grouped(s) != [] && OtherFiles(Grouped(s)[1..], s[0].fn) == Grouped(OtherFiles(s[1..], s[0].fn))
  {
    hide OtherFiles, SameFile, Grouped;
    var fn := s[0].fn;
    var same, rest := SameFile(s[1..], fn), OtherFiles(s[1..], fn);
    GroupedUnfolds(s);
    OthersOfConcat(same, Grouped(rest), fn);
    FileMembers(s[1..], fn);
    forall k | 0 <= k < |same|
      ensures same[k].fn == fn
    {
      assert same[k] in same;
    }
    NoOthers(same, fn);
    forall k | 0 <= k < |Grouped(rest)|
      ensures Grouped(rest)[k].fn != fn
    {
      GroupedSameTasks(rest, Grouped(rest)[k]);
    }
    AllOthers(Grouped(rest), fn);
    assert [] + Grouped(rest) == Grouped(rest);
  }

  lemma {:induction false} NoOthers(s: seq<Tid>, fn: string)
    requires forall k :: 0 <= k < |s| ==> s[k].fn == fn
    ensures OtherFiles(s, fn) == []
  {
    if s == [] {
    } else {
      NoOthers(s[1..], fn);
    }
  }

  lemma PriorityMapDistinct(tids: seq<Tid>, weight: map<Tid, int>, prio: seq<Tid>)
    requires IsPriorityMap(tids, weight, prio)
    ensures Distinct(prio)
  {
    forall i, j | 0 <= i < j < |prio|
      ensures prio[i] != prio[j]
    {
      assert Lighter(tids, weight, prio[j], prio[i]);
    }
  }

  lemma {:induction false} CountedOnce(s: seq<Tid>)
    ensures Distinct(s) <==> forall t :: multiset(s)[t] <= 1
  {
    if s == [] {
    } else {
      var front, last := s[..|s| - 1], s[|s| - 1];
      assert s == front + [last];
      CountedOnce(front);
      if Distinct(s) {
        assert last !in front;
      } else if Distinct(front) {
        var i :| 0 <= i < |front| && front[i] == last;
        assert multiset(s)[last] > 1;
      } else {
        var t :| multiset(front)[t] > 1;
        assert multiset(s)[t] > 1;
      }
    }
  }

  lemma GroupedDistinct(s: seq<Tid>)
    requires Distinct(s)
    ensures Distinct(Grouped(s))
  {
    GroupedIsPermutation(s);
    CountedOnce(s);
    CountedOnce(Grouped(s));
  }

  // ---- the next task to start ----

  function NotIn(s: seq<Tid>, gone: set<Tid>): (r: seq<Tid>)
    ensures forall t :: t in r <==> t in s && t !in gone
  {
    if s == [] then []
    else
      assert s == [s[0]] + s[1..];
      if s[0] in gone then NotIn(s[1..], gone) else [s[0]] + NotIn(s[1..], gone)
  }

  /** The scheduler's own state: the priority map, the tasks announced as buildable,
      the stamp of every task, and the reverse map, built on first use. */
  class Scheduler {
    const prioMap: seq<Tid>
    const stamps: map<Tid, string>
    var buildable: seq<Tid>
    var revPrioMap: map<Tid, nat>

    ghost predicate Valid()
      reads this
    {
      && Distinct(prioMap)
      && (forall t :: t in prioMap <==> t in stamps)
      && (forall t :: t in buildable ==> t in stamps)
      && (revPrioMap == map[] || revPrioMap.Keys == stamps.Keys)
      && (forall t :: t in revPrioMap ==> t in prioMap && revPrioMap[t] == IndexOf(prioMap, t))
    }

    constructor (prioMap: seq<Tid>, stamps: map<Tid, string>, initial: seq<Tid>)
      requires Distinct(prioMap) && forall t :: t in prioMap <==> t in stamps
      requires forall t :: t in initial ==> t in stamps
      ensures Valid() && buildable == initial && this.prioMap == prioMap && this.stamps == stamps
    {
      this.prioMap, this.stamps := prioMap, stamps;
      buildable, revPrioMap := initial, map[];
    }

    method NewBuildable(task: Tid)
      requires Valid() && task in stamps
      modifies this`buildable
      ensures Valid() && buildable == old(buildable) + [task]
    {
      buildable := buildable + [task];
    }

    method BuildReverseMap()
      requires Valid()
      modifies this`revPrioMap
      ensures Valid() && revPrioMap.Keys == stamps.Keys
    {
      if revPrioMap == map[] {
        var rev: map<Tid, nat> := map[];
        var todo := stamps.Keys;
        while todo != {}
          invariant todo <= stamps.Keys && rev.Keys == stamps.Keys - todo
          invariant forall t :: t in rev ==> t in prioMap && rev[t] == IndexOf(prioMap, t)
        {
          var tid :| tid in todo;
          todo := todo - {tid};
          var k := FirstIndex(prioMap, tid);
          rev := rev[tid := k];
        }
        revPrioMap := rev;
      }
    }

    /** Of the announced tasks that have not started and whose stamp is not in use,
        the one the priority map lists first; none if every such stamp is in use. */
    method NextBuildableTask(running: set<Tid>, busy: set<string>) returns (best: Option<Tid>)
      requires Valid()
      modifies this
      ensures Valid() && buildable == NotIn(old(buildable), running)
      ensures best.None? <==> forall t :: t in buildable ==> stamps[t] in busy
      ensures best.Some? ==> best.value in buildable && stamps[best.value] !in busy
      ensures best.Some? ==> forall t :: t in buildable && stamps[t] !in busy ==>
                IndexOf(prioMap, best.value) <= IndexOf(prioMap, t)
    {
      hide NotIn, IndexOf;
      buildable := NotIn(buildable, running);
      if buildable == [] {
        return None;
      }
      if |buildable| == 1 {
        assert forall t :: t in buildable ==> t == buildable[0];
        if stamps[buildable[0]] !in busy {
          return Some(buildable[0]);
        }
      }
      BuildReverseMap();
      best := None;
      for i := 0 to |buildable|
        invariant Valid() && buildable == NotIn(old(buildable), running) && revPrioMap.Keys == stamps.Keys
        invariant best.None? <==> forall t :: t in buildable[..i] ==> stamps[t] in busy
        invariant best.Some? ==> best.value in buildable && stamps[best.value] !in busy
        invariant best.Some? ==> forall t :: t in buildable[..i] && stamps[t] !in busy ==>
                    IndexOf(prioMap, best.value) <= IndexOf(prioMap, t)
      {
        var tid := buildable[i];
        assert buildable[..i + 1] == buildable[..i] + [tid];
        if best.None? || revPrioMap[best.value] > revPrioMap[tid] {
          if stamps[tid] !in busy {
            best := Some(tid);
          }
        }
      }
      assert buildable[..|buildable|] == buildable;
    }
  }
}
