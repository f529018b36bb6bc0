/** Task signatures: what goes into a task's base hash and its task hash, and whether the
    hashes worked out again from dumped data are the same. Hashing itself is a parameter,
    so hashes are compared through the text that is hashed. */
module Signatures {
  import opened Graphs
  import opened Tasks

  type Values = map<string, Option<string>>

  datatype Checksum = Checksum(file: string, sum: Option<string>)

  /** The data written to a signature file. */
  datatype SigData = SigData(task: string, taskdeps: seq<string>, basehash: string, gendeps: Graph<string>,
                             varvals: Values, runtime: Option<RuntimeData>, taint: Option<string>)

  datatype RuntimeData = RuntimeData(runtaskdeps: seq<Tid>, fileChecksumValues: seq<Checksum>,
                                     runtaskhashes: map<Tid, string>, taskhash: string)

  const NOSTAMP := "nostamp:"

  // ---- the text that is hashed ----

  /** A value that is missing adds nothing. */
  function Text(value: Option<string>): string {
    if value.None? then "" else value.value
  }

  function BaseText(values: Values, task: string, deps: seq<string>): string
    requires task in values && forall d :: d in deps ==> d in values
  {
    if deps == [] then Text(values[task])
    else
      var last := deps[|deps| - 1];
      BaseText(values, task, deps[..|deps| - 1]) + last + Text(values[last])
  }

  function HashesText(base: string, hashes: map<Tid, string>, deps: seq<Tid>): string
    requires forall d :: d in deps ==> d in hashes
  {
    if deps == [] then base else HashesText(base, hashes, deps[..|deps| - 1]) + hashes[deps[|deps| - 1]]
  }

  function ChecksumsText(text: string, checksums: seq<Checksum>): string {
    if checksums == [] then text
    else ChecksumsText(text, checksums[..|checksums| - 1]) + Text(checksums[|checksums| - 1].sum)
  }

  /** The text hashed for a task that is about to run. `uuid` is the random taint of a task
      without a stamp, `fileTaint` what its taint file holds. */
  function TaskText(base: string, hashes: map<Tid, string>, deps: seq<Tid>, checksums: seq<Checksum>,
                    uuid: Option<string>, fileTaint: Option<string>): string
    requires forall d :: d in deps ==> d in hashes
  {
    ChecksumsText(HashesText(base, hashes, deps), checksums) + Text(uuid) + Text(fileTaint)
  }

  predicate PartAt(s: string, part: string, i: nat) {
    i + |part| <= |s| && s[i..i + |part|] == part
  }

  predicate Contains(s: string, part: string) {
    exists i :: 0 <= i <= |s| && PartAt(s, part, i)
  }

  /** A taint that mentions the marker loses as many characters as the marker has, wherever
      the marker stands. */
  function Stripped(taint: string): string {
    if Contains(taint, NOSTAMP) then taint[|NOSTAMP|..] else taint
  }

  // ---- working the hashes out again ----

  type Md5 = string -> string

  method CalcBasehash(md5: Md5, sig: SigData) returns (hash: string)
    requires sig.task in sig.varvals && forall d :: d in sig.taskdeps ==> d in sig.varvals
    ensures hash == md5(BaseText(sig.varvals, sig.task, sig.taskdeps))
  {
    var basedata := if sig.varvals[sig.task].None? then "" else sig.varvals[sig.task].value;
    var alldeps := sig.taskdeps;
    assert alldeps[..0] == [];
    for i := 0 to |alldeps|
      invariant basedata == BaseText(sig.varvals, sig.task, alldeps[..i])
    {
      var dep := alldeps[i];
      assert alldeps[..i + 1][..i] == alldeps[..i];
      basedata := basedata + dep;
      if sig.varvals[dep].Some? {
        basedata := basedata + sig.varvals[dep].value;
      } else {
        assert basedata + "" == basedata;
      }
    }
    assert alldeps[..|alldeps|] == alldeps;
    hash := md5(basedata);
  }

  /** The text hashed again; none when a file had no checksum, which the source cannot add. */
  function CalcText(sig: SigData): Option<string>
    requires sig.runtime.Some? && forall d :: d in sig.runtime.value.runtaskdeps ==>
      d in sig.runtime.value.runtaskhashes
  {
    var r := sig.runtime.value;
    if exists c :: c in r.fileChecksumValues && c.sum.None? then None
    else Some(ChecksumsText(HashesText(sig.basehash, r.runtaskhashes, r.runtaskdeps), r.fileChecksumValues)
              + if sig.taint.None? then "" else Stripped(sig.taint.value))
  }

  method CalcTaskhash(md5: Md5, sig: SigData) returns (hash: Option<string>)
    requires sig.runtime.Some? && forall d :: d in sig.runtime.value.runtaskdeps ==>
      d in sig.runtime.value.runtaskhashes
    ensures hash == if CalcText(sig).None? then None else Some(md5(CalcText(sig).value))
  {
    var r := sig.runtime.value;
    var data := sig.basehash;
    var deps, checksums := r.runtaskdeps, r.fileChecksumValues;
    assert deps[..0] == [] && checksums[..0] == [];
    for i := 0 to |deps|
      invariant data == HashesText(sig.basehash, r.runtaskhashes, deps[..i])
    {
      assert deps[..i + 1][..i] == deps[..i];
      data := data + r.runtaskhashes[deps[i]];
    }
    assert deps[..|deps|] == deps;
    ghost var text := data;
    for i := 0 to |checksums|
      invariant data == ChecksumsText(text, checksums[..i])
      invariant forall c :: c in checksums[..i] ==> c.sum.Some?
    {
      var c := checksums[i];
      assert checksums[..i + 1] == checksums[..i] + [c] && checksums[..i + 1][..i] == checksums[..i];
      if c.sum.None? {
        assert c in checksums;
        return None;
      }
      data := data + c.sum.value;
    }
    assert checksums[..|checksums|] == checksums;
    if sig.taint.Some? {
      if Contains(sig.taint.value, NOSTAMP) {
        data := data + sig.taint.value[|NOSTAMP|..];
      } else {
        data := data + sig.taint.value;
      }
    } else {
      assert data + "" == data;
    }
    return Some(md5(data));
  }

  // ---- the generator ----

  /** The dependencies without the variables that never count. */
  function Trim(g: Graph<string>, whitelist: set<string>): Graph<string> {
    map v | v in g :: g[v] - whitelist
  }

  /** Some entries have been trimmed, those of `done` among them. */
  ghost predicate Trimmed(g: Graph<string>, whitelist: set<string>, gendeps: Graph<string>, done: set<string>) {
    && gendeps.Keys == g.Keys && done <= g.Keys
    && (forall v {:trigger gendeps[v]} :: v in gendeps ==> gendeps[v] == g[v] || gendeps[v] == Trim(g, whitelist)[v])
    && (forall v :: v in done ==> gendeps[v] == Trim(g, whitelist)[v])
  }

  lemma TrimOne(g: Graph<string>, whitelist: set<string>, gendeps: Graph<string>, done: set<string>, v: string)
    requires Trimmed(g, whitelist, gendeps, done) && v in g
    ensures v in gendeps && gendeps[v] - whitelist == Trim(g, whitelist)[v]
    ensures Trimmed(g, whitelist, gendeps[v := gendeps[v] - whitelist], done + {v})
  {
  }

  lemma TrimClosed(g: Graph<string>, whitelist: set<string>)
    requires Closed(g)
    ensures Closed(Trim(g, whitelist)) && Trim(g, whitelist).Keys == g.Keys
    ensures forall v, w :: v in g && w in Trim(g, whitelist)[v] ==> w !in whitelist
  {
  }

  /** One round: the entries of its variables are trimmed, and what they lead to is found. */
  method NextRound(ghost g: Graph<string>, whitelist: set<string>, round: set<string>, gendeps: Graph<string>,
                   ghost done: set<string>)
    returns (found: set<string>, gendeps': Graph<string>)
    requires Trimmed(g, whitelist, gendeps, done) && round <= g.Keys && round !! whitelist
    ensures Trimmed(g, whitelist, gendeps', done + round)
    ensures forall v :: v in round && v in Trim(g, whitelist) ==> Trim(g, whitelist)[v] <= found
    ensures forall w :: w in found ==> exists v :: v in round && v in Trim(g, whitelist) && w in Trim(g, whitelist)[v]
  {
    hide Trimmed;
    found, gendeps' := {}, gendeps;
    ghost var trimmed := {};
    assert done + {} == done;
    var todo := round;
    while todo != {}
      invariant todo <= round && trimmed == round - todo && Trimmed(g, whitelist, gendeps', done + trimmed)
      invariant forall v :: v in trimmed ==> Trim(g, whitelist)[v] <= found
      invariant forall w :: w in found ==>
        exists v :: v in round && v in Trim(g, whitelist) && w in Trim(g, whitelist)[v]
    {
      var dep :| dep in todo;
      todo := todo - {dep};
      if dep in whitelist {
        continue;
      }
      TrimOne(g, whitelist, gendeps', done + trimmed, dep);
      UnionAssoc(done, trimmed, {dep});
      trimmed := trimmed + {dep};
      gendeps' := gendeps'[dep := gendeps'[dep] - whitelist];
      found := found + gendeps'[dep];
    }
    assert trimmed == round;
  }

  /** What a task depends on: everything ahead of it, never going through a variable that
      does not count. */
  method CollectDeps(ghost g: Graph<string>, whitelist: set<string>, task: string, gendeps: Graph<string>,
                     ghost done: set<string>)
    returns (seen: set<string>, gendeps': Graph<string>)
    requires Closed(g) && task in g && Trimmed(g, whitelist, gendeps, done)
    ensures Trimmed(g, whitelist, gendeps', done + {task} + seen)
    ensures seen !! whitelist && seen <= g.Keys
    ensures forall v :: v in seen <==> ReachFrom(Trim(g, whitelist), Trim(g, whitelist)[task], v)
  {
    hide Trimmed, Closed, Collecting, ReachFrom, Trim;
    ghost var trim := Trim(g, whitelist);
    TrimClosed(g, whitelist);
    TrimOne(g, whitelist, gendeps, done, task);
    CollectStart(trim, task);
    gendeps' := gendeps[task := gendeps[task] - whitelist];
    ghost var start := done + {task};
    var newdeps := gendeps'[task];
    seen := {};
    assert start + {} == start;
    while newdeps != {}
      invariant Trimmed(g, whitelist, gendeps', start + seen) && Collecting(trim, task, seen, newdeps)
      invariant newdeps !! whitelist && seen !! whitelist
      decreases |trim.Keys - seen|
    {
      var nextdeps := newdeps;
      ghost var before := seen;
      CollectNext(trim, task, seen, newdeps);
      UnionAssoc(start, before, nextdeps);
      seen := seen + nextdeps;
      newdeps, gendeps' := NextRound(g, whitelist, nextdeps, gendeps', start + before);
      CollectStep(trim, task, before, nextdeps, newdeps);
      newdeps := newdeps - seen;
    }
    CollectDone(trim, task, seen);
    CollectedKeys(trim, task, seen);
  }

  lemma CollectedKeys(g: Graph<string>, task: string, seen: set<string>)
    requires Collecting(g, task, seen, {})
    ensures seen <= g.Keys
  {
  }

  /** For each task, everything ahead of it in the trimmed dependencies. */
  ghost predicate AreTaskDeps(g: Graph<string>, whitelist: set<string>, taskdeps: map<string, seq<string>>) {
    forall t :: t in taskdeps ==> t in g && DepsOf(g, whitelist, t, taskdeps[t])
  }

  ghost predicate DepsOf(g: Graph<string>, whitelist: set<string>, task: string, deps: seq<string>)
    requires task in g
  {
    && (forall v :: v in deps <==> ReachFrom(Trim(g, whitelist), Trim(g, whitelist)[task], v))
    && (forall v :: v in deps ==> v in g && v !in whitelist)
  }

  /** Told by references: the dependencies are what the task or one of them refers to, as far
      as it counts. */
  lemma DepsByReferences(g: Graph<string>, whitelist: set<string>, task: string, deps: seq<string>, w: string)
    requires Closed(g) && task in g && DepsOf(g, whitelist, task, deps)
    ensures w in deps <==> w !in whitelist && (w in g[task] || exists v :: v in deps && w in g[v])
  {
    hide Reach;
    var t := Trim(g, whitelist);
    if w in t[task] {
      ReachRefl(t, w);
      assert w in t[task] && Reach(t, w, w);
    }
    if v :| v in deps && w in g[v] && w !in whitelist {
      ReachFromSnoc(t, t[task], v, w);
    }
    if w in deps && w !in g[task] {
      var r :| r in t[task] && Reach(t, r, w);
      var all := set v | v in deps;
      if forall v :: v in deps ==> w !in g[v] {
        forall u, x | u in all - {w} && u in t && x in t[u]
          ensures x in all - {w}
        {
          ReachFromSnoc(t, t[task], u, x);
        }
        ReachRefl(t, r);
        assert r in t[task] && Reach(t, r, r);
        ReachStaysInside(t, all - {w}, r, w);
        assert false;
      }
    }
  }

  /** `sorter` lists the members of a set, in an order of its own. */
  ghost predicate Lists<T(!new)>(sorter: set<T> -> seq<T>) {
    forall s: set<T>, v :: v in sorter(s) <==> v in s
  }

  /** The base hashes of one file's tasks, and those of other files as they were. */
  ghost predicate BaseHashed(md5: Md5, fn: string, values: Values, taskdeps: map<string, seq<string>>,
                             before: map<Tid, string>, after: map<Tid, string>)
  {
    && (forall t :: t in taskdeps ==> t in values && forall d :: d in taskdeps[t] ==> d in values)
    && (forall t :: t in taskdeps ==> Tid(fn, t) in after && after[Tid(fn, t)] == md5(BaseText(values, t, taskdeps[t])))
    && (forall k :: k in after <==> k in before || (k.fn == fn && k.task in taskdeps))
    && (forall k :: k in before && !(k.fn == fn && k.task in taskdeps) ==> after[k] == before[k])
  }

  lemma HashOneMore(md5: Md5, fn: string, values: Values, taskdeps: map<string, seq<string>>, before: map<Tid, string>,
                    after: map<Tid, string>, task: string, deps: seq<string>)
    requires BaseHashed(md5, fn, values, taskdeps, before, after) && task in values
      && forall d :: d in deps ==> d in values
    ensures BaseHashed(md5, fn, values, taskdeps[task := deps], before,
                       after[Tid(fn, task) := md5(BaseText(values, task, deps))])
  {
    hide BaseText;
  }

  lemma TaskOneMore(g: Graph<string>, whitelist: set<string>, taskdeps: map<string, seq<string>>, done: set<string>,
                    task: string, seen: set<string>, deps: seq<string>)
    requires AreTaskDeps(g, whitelist, taskdeps) && AllIn(taskdeps, done) && task in g
    requires seen !! whitelist && seen <= g.Keys && forall v :: v in deps <==> v in seen
    requires forall v :: v in seen <==> ReachFrom(Trim(g, whitelist), Trim(g, whitelist)[task], v)
    ensures AreTaskDeps(g, whitelist, taskdeps[task := deps]) && AllIn(taskdeps[task := deps], done + {task} + seen)
  {
    hide ReachFrom, Trim;
  }

  /** Every list is in the order of `sorter`. */
  ghost predicate InOrder(sorter: set<string> -> seq<string>, taskdeps: map<string, seq<string>>) {
    forall t :: t in taskdeps ==> taskdeps[t] == sorter(set v | v in taskdeps[t])
  }

  lemma OneMoreInOrder(sorter: set<string> -> seq<string>, taskdeps: map<string, seq<string>>, task: string,
                       seen: set<string>)
    requires Lists(sorter) && InOrder(sorter, taskdeps)
    ensures InOrder(sorter, taskdeps[task := sorter(seen)])
  {
    assert seen == set v | v in sorter(seen);
  }

  predicate AllIn(taskdeps: map<string, seq<string>>, done: set<string>) {
    forall t :: t in taskdeps ==> forall d :: d in taskdeps[t] ==> d in done
  }

  function Kept(deps: seq<Tid>, keep: Tid -> bool): (r: seq<Tid>)
    ensures forall d :: d in r <==> d in deps && keep(d)
  {
    if deps == [] then []
    else
      var last := deps[|deps| - 1];
      assert deps == deps[..|deps| - 1] + [last];
      Kept(deps[..|deps| - 1], keep) + if keep(last) then [last] else []
  }

  lemma {:induction false} SameHashes(base: string, a: map<Tid, string>, b: map<Tid, string>, deps: seq<Tid>)
    requires forall d :: d in deps ==> d in a && d in b && a[d] == b[d]
    ensures HashesText(base, a, deps) == HashesText(base, b, deps)
  {
    if deps == [] {
    } else {
      SameHashes(base, a, b, deps[..|deps| - 1]);
    }
  }

  lemma {:induction false} SameValues(a: Values, b: Values, task: string, deps: seq<string>)
    requires task in a && task in b && a[task] == b[task]
    requires forall d :: d in deps ==> d in a && d in b && a[d] == b[d]
    ensures BaseText(a, task, deps) == BaseText(b, task, deps)
  {
    if deps == [] {
    } else {
      SameValues(a, b, task, deps[..|deps| - 1]);
    }
  }

  /** The hash of `k` is what the recorded data gives, with these taints. */
  ghost predicate HashRecorded(md5: Md5, basehash: map<Tid, string>, taskhash: map<Tid, string>,
                               runtaskdeps: map<Tid, seq<Tid>>, checksums: map<Tid, seq<Checksum>>, k: Tid,
                               uuid: Option<string>, fileTaint: Option<string>)
  {
    && k in taskhash && k in basehash && k in runtaskdeps && k in checksums
    && (forall d :: d in runtaskdeps[k] ==> d in taskhash)
    && taskhash[k] == md5(TaskText(basehash[k], taskhash, runtaskdeps[k], checksums[k], uuid, fileTaint))
  }

  lemma HashIsRecorded(md5: Md5, basehash: map<Tid, string>, taskhash: map<Tid, string>,
                       runtaskdeps: map<Tid, seq<Tid>>, checksums: map<Tid, seq<Checksum>>, k: Tid,
                       uuid: Option<string>, fileTaint: Option<string>, hash: string)
    requires k in basehash && k in runtaskdeps && k in checksums && forall d :: d in runtaskdeps[k] ==> d in taskhash
    requires hash == md5(TaskText(basehash[k], taskhash, runtaskdeps[k], checksums[k], uuid, fileTaint))
    ensures k !in runtaskdeps[k] ==> HashRecorded(md5, basehash, taskhash[k := hash], runtaskdeps, checksums, k, uuid,
                                                  fileTaint)
  {
    if k !in runtaskdeps[k] {
      SameHashes(basehash[k], taskhash, taskhash[k := hash], runtaskdeps[k]);
    }
  }

  /** Hashing another task leaves what is recorded for `other` as it was, unless `other`
      depends on it. */
  lemma HashingKeepsOthers(md5: Md5, basehash: map<Tid, string>, taskhash: map<Tid, string>,
                           runtaskdeps: map<Tid, seq<Tid>>, checksums: map<Tid, seq<Checksum>>, k: Tid, base: string,
                           hash: string, run: seq<Tid>, sums: seq<Checksum>, other: Tid, uuid: Option<string>,
                           fileTaint: Option<string>)
    requires HashRecorded(md5, basehash, taskhash, runtaskdeps, checksums, other, uuid, fileTaint)
    requires other != k && k !in runtaskdeps[other]
    ensures HashRecorded(md5, basehash[k := base], taskhash[k := hash], runtaskdeps[k := run], checksums[k := sums],
                         other, uuid, fileTaint)
  {
    SameHashes(basehash[other], taskhash, taskhash[k := hash], runtaskdeps[other]);
  }

  /** The entries for `k` are the same. */
  predicate SameAt<V(==)>(a: map<Tid, V>, b: map<Tid, V>, k: Tid) {
    (k in a <==> k in b) && (k in a ==> a[k] == b[k])
  }

  /** The entry of `fn` is the only one that differs. */
  predicate OnlyAt<V(==)>(fn: string, before: map<string, V>, after: map<string, V>) {
    fn in after && after == before[fn := after[fn]]
  }

  predicate Tainted(fileTaint: Option<string>) {
    fileTaint.Some? && fileTaint.value != ""
  }

  class SignatureGeneratorBasic {
    const md5: Md5
    const sorter: set<string> -> seq<string>
    const basewhitelist: set<string>
    var basehash: map<Tid, string>
    var taskhash: map<Tid, string>
    var taskdeps: map<string, map<string, seq<string>>>
    var gendeps: map<string, Graph<string>>
    var lookupcache: map<string, Values>
    var runtaskdeps: map<Tid, seq<Tid>>
    var fileChecksumValues: map<Tid, seq<Checksum>>
    var taints: map<Tid, string>

    constructor (md5: Md5, sorter: set<string> -> seq<string>, basewhitelist: set<string>)
      ensures this.md5 == md5 && this.sorter == sorter && this.basewhitelist == basewhitelist
      ensures basehash == taskhash == taints == map[] && taskdeps == map[] && gendeps == map[] && lookupcache == map[]
      ensures runtaskdeps == map[] && fileChecksumValues == map[]
    {
      this.md5, this.sorter, this.basewhitelist := md5, sorter, basewhitelist;
      basehash, taskhash, taints := map[], map[], map[];
      taskdeps, gendeps, lookupcache := map[], map[], map[];
      runtaskdeps, fileChecksumValues := map[], map[];
    }

    /** Takes in the variables of a recipe file: each task's dependencies and base hash. */
    method BuildData(fn: string, tasklist: seq<string>, g: Graph<string>, values: Values)
      requires Closed(g) && values.Keys == g.Keys && Lists(sorter) && forall t :: t in tasklist ==> t in g
      modifies this`basehash, this`taskdeps, this`gendeps, this`lookupcache
      ensures Built(fn, g, values, tasklist) && BaseHashed(md5, fn, values, taskdeps[fn], old(basehash), basehash)
      ensures OnlyAt(fn, old(taskdeps), taskdeps) && OnlyAt(fn, old(gendeps), gendeps)
        && OnlyAt(fn, old(lookupcache), lookupcache)
    {
      hide Closed, ReachFrom, Trimmed, Trim, BaseText, Lists, AreTaskDeps, AllIn, BaseHashed, InOrder, TrimmedFor;
      var taskdeps': map<string, seq<string>> := map[];
      var gendeps' := g;
      ghost var done := {};
      NothingDone(g, basewhitelist, md5, fn, values, basehash, sorter);
      for i := 0 to |tasklist|
        modifies this`basehash
        invariant taskdeps'.Keys == set t | t in tasklist[..i]
        invariant Trimmed(g, basewhitelist, gendeps', done)
        invariant AreTaskDeps(g, basewhitelist, taskdeps') && AllIn(taskdeps', done) && InOrder(sorter, taskdeps')
        invariant BaseHashed(md5, fn, values, taskdeps', old(basehash), basehash)
      {
        var task := tasklist[i];
        assert tasklist[..i + 1] == tasklist[..i] + [task];
        var seen;
        seen, gendeps' := CollectDeps(g, basewhitelist, task, gendeps', done);
        var alldeps := ListDeps(seen);
        OneMoreInOrder(sorter, taskdeps', task, seen);
        var datahash := HashBase(values, task, alldeps);
        TaskOneMore(g, basewhitelist, taskdeps', done, task, seen, alldeps);
        HashOneMore(md5, fn, values, taskdeps', old(basehash), basehash, task, alldeps);
        done := done + {task} + seen;
        basehash := basehash[Tid(fn, task) := datahash];
        taskdeps' := taskdeps'[task := alldeps];
      }
      assert tasklist[..|tasklist|] == tasklist;
      AllTrimmed(g, basewhitelist, gendeps', done, taskdeps');
      taskdeps := taskdeps[fn := taskdeps'];
      gendeps := gendeps[fn := gendeps'];
      lookupcache := lookupcache[fn := values];
    }

    /** The data of a recipe file: for every task, all that is ahead of it without ever
        passing a variable that does not count; the entries of what is ahead are trimmed. */
    ghost predicate Built(fn: string, g: Graph<string>, values: Values, tasklist: seq<string>)
      reads this
    {
      && fn in taskdeps && fn in gendeps && fn in lookupcache && lookupcache[fn] == values
      && taskdeps[fn].Keys == (set t | t in tasklist) && AreTaskDeps(g, basewhitelist, taskdeps[fn])
      && TrimmedFor(g, basewhitelist, gendeps[fn], taskdeps[fn]) && InOrder(sorter, taskdeps[fn])
    }

    function ListDeps(seen: set<string>): (r: seq<string>)
      requires Lists(sorter)
      ensures forall v :: v in r <==> v in seen
    {
      sorter(seen)
    }

    /** The hash of a task's own value and, one after the other, the names and values of
        what it depends on. */
    method HashBase(values: Values, task: string, alldeps: seq<string>) returns (datahash: string)
      requires task in values && forall d :: d in alldeps ==> d in values
      ensures datahash == md5(BaseText(values, task, alldeps))
    {
      var data := if values[task].None? then "" else values[task].value;
      assert alldeps[..0] == [];
      for i := 0 to |alldeps|
        invariant data == BaseText(values, task, alldeps[..i])
      {
        var dep := alldeps[i];
        assert alldeps[..i + 1][..i] == alldeps[..i];
        data := data + dep;
        if values[dep].Some? {
          data := data + values[dep].value;
        } else {
          assert data + "" == data;
        }
      }
      assert alldeps[..|alldeps|] == alldeps;
      datahash := md5(data);
    }

    ghost predicate Recorded(k: Tid, uuid: Option<string>, fileTaint: Option<string>)
      reads this
    {
      HashRecorded(md5, basehash, taskhash, runtaskdeps, fileChecksumValues, k, uuid, fileTaint)
    }

    /** Works out the hash of a task that is about to run from the hashes of what it depends
        on. `keep` drops dependencies, `checksums` are there for tasks that look at files,
        `uuid` for tasks without a stamp. None when a dependency has not been hashed, which
        is fatal. */
    method GetTaskhash(k: Tid, basetaskhash: string, deps: seq<Tid>, keep: Tid -> bool,
                       checksums: Option<seq<Checksum>>, uuid: Option<string>, fileTaint: Option<string>)
      returns (hash: Option<string>)
      modifies this`basehash, this`taskhash, this`runtaskdeps, this`fileChecksumValues, this`taints
      ensures hash.None? <==> exists d :: d in deps && keep(d) && d !in old(taskhash)
      ensures hash.None? ==> taskhash == old(taskhash) && taints == old(taints)
      ensures hash.Some? ==> basehash == old(basehash)[k := basetaskhash] && taskhash == old(taskhash)[k := hash.value]
      ensures hash.Some? ==> runtaskdeps == old(runtaskdeps)[k := Kept(deps, keep)]
      ensures hash.Some? ==>
        fileChecksumValues == old(fileChecksumValues)[k := if checksums.Some? then checksums.value else []]
      ensures hash.Some? ==> taints == TaintsAfter(old(taints), k, uuid, fileTaint)
      ensures hash.Some? && k !in Kept(deps, keep) ==> Recorded(k, uuid, fileTaint)
    {
      hide HashesText, ChecksumsText, Tainted, HashRecorded;
      basehash := basehash[k := basetaskhash];
      fileChecksumValues := fileChecksumValues[k := []];
      var data := AddDeps(k, basetaskhash, deps, keep);
      if data.None? {
        return None;
      }
      if checksums.Some? {
        fileChecksumValues := fileChecksumValues[k := checksums.value];
      }
      var text := AddChecksums(data.value, fileChecksumValues[k]);
      text := AddTaints(k, text, uuid, fileTaint);
      var h := md5(text);
      HashIsRecorded(md5, basehash, taskhash, runtaskdeps, fileChecksumValues, k, uuid, fileTaint, h);
      taskhash := taskhash[k := h];
      return Some(h);
    }

    /** Adds the hashes of the dependencies that are kept; none when one is missing. */
    method AddDeps(k: Tid, base: string, deps: seq<Tid>, keep: Tid -> bool) returns (data: Option<string>)
      modifies this`runtaskdeps
      ensures data.None? <==> exists d :: d in deps && keep(d) && d !in taskhash
      ensures data.Some? ==> runtaskdeps == old(runtaskdeps)[k := Kept(deps, keep)]
      ensures data.Some? ==> data.value == HashesText(base, taskhash, Kept(deps, keep))
    {
      hide HashesText;
      var text, run: seq<Tid> := base, [];
      runtaskdeps := runtaskdeps[k := []];
      NoHashes(base, taskhash);
      assert deps[..0] == [];
      for i := 0 to |deps|
        invariant run == Kept(deps[..i], keep)
        invariant forall d :: d in deps[..i] && keep(d) ==> d in taskhash
        invariant text == HashesText(base, taskhash, run)
        invariant runtaskdeps == old(runtaskdeps)[k := run]
      {
        var dep := deps[i];
        assert deps[..i + 1] == deps[..i] + [dep] && deps[..i + 1][..i] == deps[..i];
        if !keep(dep) {
          continue;
        }
        if dep !in taskhash {
          assert dep in deps;
          return None;
        }
        OneMoreHash(base, taskhash, run, dep);
        text := text + taskhash[dep];
        run := run + [dep];
        runtaskdeps := runtaskdeps[k := run];
      }
      assert deps[..|deps|] == deps;
      return Some(text);
    }

    method AddTaints(k: Tid, text: string, uuid: Option<string>, fileTaint: Option<string>) returns (data: string)
      modifies this`taints
      ensures data == text + Text(uuid) + Text(fileTaint) && taints == TaintsAfter(old(taints), k, uuid, fileTaint)
    {
      data := text;
      if uuid.Some? {
        data := data + uuid.value;
        taints := taints[k := NOSTAMP + uuid.value];
      } else {
        assert data + "" == data;
      }
      if fileTaint.Some? && fileTaint.value != "" {
        data := data + fileTaint.value;
        taints := taints[k := fileTaint.value];
      } else {
        assert data + "" == data;
      }
    }

    method AddChecksums(text: string, checksums: seq<Checksum>) returns (data: string)
      ensures data == ChecksumsText(text, checksums)
    {
      data := text;
      assert checksums[..0] == [];
      for i := 0 to |checksums|
        invariant data == ChecksumsText(text, checksums[..i])
      {
        var cs := checksums[i].sum;
        assert checksums[..i + 1][..i] == checksums[..i];
        if cs.Some? && cs.value != "" {
          data := data + cs.value;
        } else {
          assert data + "" == data;
        }
      }
      assert checksums[..|checksums|] == checksums;
    }

    /** The data dumped for a task: everything the hashes are made of. `fileTaint` is what
        the taint file holds now. */
    function DumpSigtask(fn: string, task: string, runtime: bool, fileTaint: Option<string>): (sig: SigData)
      requires fn in taskdeps && task in taskdeps[fn] && fn in gendeps && fn in lookupcache && task in lookupcache[fn]
      requires forall d :: d in taskdeps[fn][task] ==> d in gendeps[fn] && d in lookupcache[fn]
      requires Tid(fn, task) in basehash
      requires runtime && Tid(fn, task) in taskhash
        ==> Tid(fn, task) in runtaskdeps && Tid(fn, task) in fileChecksumValues
      requires runtime && Tid(fn, task) in taskhash ==> forall d :: d in runtaskdeps[Tid(fn, task)] ==> d in taskhash
      reads this
    {
      var k := Tid(fn, task);
      var deps := taskdeps[fn][task];
      SigData(task, deps, basehash[k],
              map d | d in deps && d !in basewhitelist :: gendeps[fn][d],
              map v | v in [task] + deps && (v == task || v !in basewhitelist) :: lookupcache[fn][v],
              if runtime && k in taskhash then
                Some(RuntimeData(runtaskdeps[k], BaseNames(fileChecksumValues[k]),
                                 map d | d in runtaskdeps[k] :: taskhash[d], taskhash[k]))
              else None,
              if runtime && k in taints && Contains(taints[k], NOSTAMP) then Some(taints[k])
              else if Tainted(fileTaint) then fileTaint
              else None)
    }

    /** The dumped values, none of which is missing, give the base hash back exactly when it
        was made of the values in hand. */
    lemma BasehashReproduced(fn: string, g: Graph<string>, values: Values, tasklist: seq<string>, task: string,
                             runtime: bool, fileTaint: Option<string>)
      requires Built(fn, g, values, tasklist) && values.Keys == g.Keys && task in tasklist && Tid(fn, task) in basehash
      requires runtime && Tid(fn, task) in taskhash
        ==> Tid(fn, task) in runtaskdeps && Tid(fn, task) in fileChecksumValues
      requires runtime && Tid(fn, task) in taskhash ==> forall d :: d in runtaskdeps[Tid(fn, task)] ==> d in taskhash
      ensures task in taskdeps[fn] && task in values
        && forall d :: d in taskdeps[fn][task] ==> d in gendeps[fn] && d in values
      ensures var sig := DumpSigtask(fn, task, runtime, fileTaint);
              && sig.task == task && sig.task in sig.varvals && (forall d :: d in sig.taskdeps ==> d in sig.varvals)
              && (md5(BaseText(sig.varvals, sig.task, sig.taskdeps)) == basehash[Tid(fn, task)]
                  <==> basehash[Tid(fn, task)] == md5(BaseText(values, task, taskdeps[fn][task])))
    {
      hide ReachFrom, Trim;
      assert task in taskdeps[fn] && DepsOf(g, basewhitelist, task, taskdeps[fn][task]);
      SameValues(DumpSigtask(fn, task, runtime, fileTaint).varvals, values, task, taskdeps[fn][task]);
    }

    /** The dumped data of a task whose hash and taint are as recorded gives its hash back exactly when
        no file lacks a checksum and the taint is one the dump can tell apart: a task
        without a stamp must not have a taint file as well, a taint file must not mention
        the marker of the other kind, and no such marker may be left from before. */
    lemma TaskhashReproduced(fn: string, task: string, before: map<Tid, string>, uuid: Option<string>,
                             fileTaint: Option<string>)
      requires fn in taskdeps && task in taskdeps[fn] && fn in gendeps && fn in lookupcache && task in lookupcache[fn]
      requires forall d :: d in taskdeps[fn][task] ==> d in gendeps[fn] && d in lookupcache[fn]
      requires Recorded(Tid(fn, task), uuid, fileTaint)
        && SameAt(taints, TaintsAfter(before, Tid(fn, task), uuid, fileTaint), Tid(fn, task))
      requires uuid.Some? ==> uuid.value != ""
      ensures var k, sig := Tid(fn, task), DumpSigtask(fn, task, true, fileTaint);
              && sig.runtime.Some? && (forall d :: d in sig.runtime.value.runtaskdeps ==>
                                       d in sig.runtime.value.runtaskhashes)
              && (CalcText(sig) == Some(TaskText(basehash[k], taskhash, runtaskdeps[k], fileChecksumValues[k], uuid,
                                                 fileTaint))
                  <==> (forall c :: c in fileChecksumValues[k] ==> c.sum.Some?)
                       && TaintsTellApart(before, k, uuid, fileTaint))
    {
      hide HashesText, ChecksumsText, Contains, Recorded;
      RecordedFacts(Tid(fn, task), uuid, fileTaint);
      var k, sig := Tid(fn, task), DumpSigtask(fn, task, true, fileTaint);
      var r := sig.runtime.value;
      SameHashes(basehash[k], r.runtaskhashes, taskhash, runtaskdeps[k]);
      SameSums(HashesText(basehash[k], taskhash, runtaskdeps[k]), fileChecksumValues[k]);
      var text := ChecksumsText(HashesText(basehash[k], taskhash, runtaskdeps[k]), fileChecksumValues[k]);
      DumpedTaint(text, before, k, uuid, fileTaint, sig.taint);
    }

    lemma RecordedFacts(k: Tid, uuid: Option<string>, fileTaint: Option<string>)
      requires Recorded(k, uuid, fileTaint)
      ensures k in taskhash && k in basehash && k in runtaskdeps && k in fileChecksumValues
      ensures forall d :: d in runtaskdeps[k] ==> d in taskhash
    {
    }
  }

  lemma NoHashes(base: string, hashes: map<Tid, string>)
    ensures HashesText(base, hashes, []) == base
  {
  }

  lemma OneMoreHash(base: string, hashes: map<Tid, string>, run: seq<Tid>, dep: Tid)
    requires dep in hashes && forall d :: d in run ==> d in hashes
    ensures HashesText(base, hashes, run + [dep]) == HashesText(base, hashes, run) + hashes[dep]
  {
  }

  function TaintsAfter(taints: map<Tid, string>, k: Tid, uuid: Option<string>,
                       fileTaint: Option<string>): map<Tid, string>
  {
    if Tainted(fileTaint) then taints[k := fileTaint.value]
    else if uuid.Some? then taints[k := NOSTAMP + uuid.value]
    else taints
  }

  predicate TaintsTellApart(before: map<Tid, string>, k: Tid, uuid: Option<string>, fileTaint: Option<string>) {
    if uuid.Some? then !Tainted(fileTaint)
    else if Tainted(fileTaint) then !Contains(fileTaint.value, NOSTAMP)
    else k in before && Contains(before[k], NOSTAMP) ==> before[k] == NOSTAMP
  }

  function BaseName(path: string): string {
    if '/' !in path then path else BaseName(path[1..])
  }

  function BaseNames(checksums: seq<Checksum>): (r: seq<Checksum>)
    ensures |r| == |checksums|
  {
    if checksums == [] then []
    else
      var last := checksums[|checksums| - 1];
      BaseNames(checksums[..|checksums| - 1]) + [Checksum(BaseName(last.file), last.sum)]
  }

  /** Only the sums count, not the file names. */
  lemma {:induction false} SameSums(text: string, checksums: seq<Checksum>)
    ensures ChecksumsText(text, BaseNames(checksums)) == ChecksumsText(text, checksums)
    ensures (exists c :: c in BaseNames(checksums) && c.sum.None?) <==> exists c :: c in checksums && c.sum.None?
  {
    if checksums == [] {
    } else {
      var front, last := checksums[..|checksums| - 1], checksums[|checksums| - 1];
      SameSums(text, front);
      assert checksums == front + [last];
      assert BaseNames(checksums)[..|front|] == BaseNames(front);
      if exists c :: c in checksums && c.sum.None? {
        if last.sum.None? {
          assert BaseNames(checksums)[|front|].sum.None?;
          assert BaseNames(checksums)[|front|] in BaseNames(checksums);
        }
      }
    }
  }

  lemma SameTail(text: string, a: string, b: string)
    ensures text + a == text + b <==> a == b
  {
    if text + a == text + b {
      assert a == (text + a)[|text|..] == (text + b)[|text|..] == b;
    }
  }

  lemma MarkerInFront(s: string)
    ensures Contains(NOSTAMP + s, NOSTAMP) && Stripped(NOSTAMP + s) == s
  {
    assert PartAt(NOSTAMP + s, NOSTAMP, 0);
  }

  lemma StrippedLength(s: string)
    ensures Contains(s, NOSTAMP) ==> |s| >= |NOSTAMP| && |Stripped(s)| == |s| - |NOSTAMP|
    ensures !Contains(s, NOSTAMP) ==> Stripped(s) == s
  {
  }

  lemma OnlyMarker(s: string)
    requires Contains(s, NOSTAMP)
    ensures Stripped(s) == "" <==> s == NOSTAMP
  {
  }

  /** The taint that is dumped, stripped, is the taint that was hashed. */
  lemma DumpedTaint(text: string, before: map<Tid, string>, k: Tid, uuid: Option<string>, fileTaint: Option<string>,
                    dumped: Option<string>)
    requires uuid.Some? ==> uuid.value != ""
    requires var taints := TaintsAfter(before, k, uuid, fileTaint);
             dumped == if k in taints && Contains(taints[k], NOSTAMP) then Some(taints[k]) else if Tainted(fileTaint)
               then fileTaint else None
    ensures text + (if dumped.None? then "" else Stripped(dumped.value)) == text + Text(uuid) + Text(fileTaint)
            <==> TaintsTellApart(before, k, uuid, fileTaint)
  {
    hide Contains, Stripped;
    var again := if dumped.None? then "" else Stripped(dumped.value);
    assert text + Text(uuid) + Text(fileTaint) == text + (Text(uuid) + Text(fileTaint));
    SameTail(text, again, Text(uuid) + Text(fileTaint));
    if Tainted(fileTaint) {
      StrippedLength(fileTaint.value);
      assert dumped == fileTaint;
      if uuid.None? {
        assert Text(uuid) + Text(fileTaint) == fileTaint.value;
      }
    } else if uuid.Some? {
      MarkerInFront(uuid.value);
      assert Text(uuid) + Text(fileTaint) == uuid.value;
    } else {
      assert Text(uuid) + Text(fileTaint) == "";
      if dumped.Some? {
        OnlyMarker(before[k]);
      }
    }
  }

  ghost predicate TrimmedFor(g: Graph<string>, whitelist: set<string>, gendeps: Graph<string>,
                             taskdeps: map<string, seq<string>>)
  {
    gendeps.Keys == g.Keys && forall t :: t in taskdeps ==> forall d :: d in taskdeps[t] ==>
      d in g && gendeps[d] == g[d] - whitelist
  }

  lemma NothingDone(g: Graph<string>, whitelist: set<string>, md5: Md5, fn: string, values: Values,
                    before: map<Tid, string>, sorter: set<string> -> seq<string>)
    ensures InOrder(sorter, map[]) && Trimmed(g, whitelist, g, {}) && AreTaskDeps(g, whitelist, map[])
      && AllIn(map[], {})
    ensures BaseHashed(md5, fn, values, map[], before, before)
  {
  }

  lemma AllTrimmed(g: Graph<string>, whitelist: set<string>, gendeps: Graph<string>, done: set<string>,
                   taskdeps: map<string, seq<string>>)
    requires Trimmed(g, whitelist, gendeps, done) && AllIn(taskdeps, done)
    ensures TrimmedFor(g, whitelist, gendeps, taskdeps)
  {
  }
}
