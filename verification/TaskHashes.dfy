/** Hashing the tasks of a queue in dependency order, and the signature files written
    afterwards: after every task has been hashed, the files are parsed again, and for each
    task the hashes are worked out again from the data that is dumped. */
module TaskHashes {
  import opened Graphs
  import opened Sequences
  import opened Tasks
  import opened Signatures

  /** What a task's hash is made of besides the hashes of its dependencies: the base hash
      in the parse cache, which dependencies count, the checksums of a task that looks at
      files, the random taint of a task without a stamp, and its taint file. */
  datatype TaskInput = TaskInput(base: string, keep: Tid -> bool, checksums: Option<seq<Checksum>>,
                                 uuid: Option<string>, fileTaint: Option<string>)

  /** `sorter` puts dependencies in order. */
  datatype Signing = Signing(md5: Md5, sorter: set<Tid> -> seq<Tid>, inputs: map<Tid, TaskInput>)

  ghost predicate Signs(s: Signing, tids: set<Tid>) {
    && Lists(s.sorter) && tids <= s.inputs.Keys
    && forall t :: t in s.inputs && s.inputs[t].uuid.Some? ==> s.inputs[t].uuid.value != ""
  }

  lemma SignsFewer(s: Signing, tids: set<Tid>, fewer: set<Tid>)
    requires Signs(s, tids) && fewer <= tids
    ensures Signs(s, fewer)
  {
  }

  function RunDeps(s: Signing, depends: Graph<Tid>, t: Tid): seq<Tid>
    requires t in depends && t in s.inputs
  {
    Kept(s.sorter(depends[t]), s.inputs[t].keep)
  }

  /** Exactly the dependencies that are kept, in the order of the sorter. */
  lemma RunDepsAre(s: Signing, depends: Graph<Tid>, t: Tid, d: Tid)
    requires t in depends && t in s.inputs && Lists(s.sorter)
    ensures d in RunDeps(s, depends, t) <==> d in depends[t] && s.inputs[t].keep(d)
  {
  }

  function Sums(s: Signing, t: Tid): seq<Checksum>
    requires t in s.inputs
  {
    if s.inputs[t].checksums.Some? then s.inputs[t].checksums.value else []
  }

  /** The text hashed for `t`, given the hashes of its dependencies. */
  function HashedText(s: Signing, depends: Graph<Tid>, hashes: map<Tid, string>, t: Tid): string
    requires t in depends && t in s.inputs && forall d :: d in RunDeps(s, depends, t) ==> d in hashes
  {
    TaskText(s.inputs[t].base, hashes, RunDeps(s, depends, t), Sums(s, t), s.inputs[t].uuid, s.inputs[t].fileTaint)
  }

  /** The hash of `t` comes from the hashes of its dependencies. */
  ghost predicate Hashed(s: Signing, depends: Graph<Tid>, hashes: map<Tid, string>, t: Tid) {
    && t in depends && t in s.inputs && t in hashes && (forall d :: d in RunDeps(s, depends, t) ==> d in hashes)
    && hashes[t] == s.md5(HashedText(s, depends, hashes, t))
  }

  /** Told by the inputs: the hash is that of the base hash, the hashes of the dependencies
      that are kept, the checksums and the taints. */
  lemma HashedFromInputs(s: Signing, depends: Graph<Tid>, hashes: map<Tid, string>, t: Tid)
    requires Hashed(s, depends, hashes, t)
    ensures var i := s.inputs[t];
            && (forall d :: d in Kept(s.sorter(depends[t]), i.keep) ==> d in hashes)
            && hashes[t] == s.md5(TaskText(i.base, hashes, Kept(s.sorter(depends[t]), i.keep),
                                           if i.checksums.Some? then i.checksums.value else [], i.uuid, i.fileTaint))
  {
  }

  // ---- what the generator holds ----

  datatype Held = Held(basehash: map<Tid, string>, taskhash: map<Tid, string>, runtaskdeps: map<Tid, seq<Tid>>,
                       checksums: map<Tid, seq<Checksum>>, taints: map<Tid, string>)

  ghost function HeldBy(gen: SignatureGeneratorBasic): Held
    reads gen
  {
    Held(gen.basehash, gen.taskhash, gen.runtaskdeps, gen.fileChecksumValues, gen.taints)
  }

  /** All that was recorded when `t` was hashed; `before` are the taints from before. */
  ghost predicate Entry(s: Signing, depends: Graph<Tid>, before: map<Tid, string>, v: Held, t: Tid) {
    && t in depends && t in s.inputs
    && HashRecorded(s.md5, v.basehash, v.taskhash, v.runtaskdeps, v.checksums, t, s.inputs[t].uuid,
                    s.inputs[t].fileTaint)
    && v.basehash[t] == s.inputs[t].base && v.runtaskdeps[t] == RunDeps(s, depends, t) && v.checksums[t] == Sums(s, t)
    && SameAt(v.taints, TaintsAfter(before, t, s.inputs[t].uuid, s.inputs[t].fileTaint), t)
  }

  /** No task twice, and every task after all its dependencies. */
  ghost predicate DependencyOrder(depends: Graph<Tid>, order: seq<Tid>) {
    && Distinct(order)
    && forall i :: 0 <= i < |order| ==> order[i] in depends && forall d :: d in depends[order[i]] ==> d in order[..i]
  }

  lemma OrderSnoc(depends: Graph<Tid>, order: seq<Tid>, t: Tid)
    requires DependencyOrder(depends, order) && t in depends && t !in order
    requires forall d :: d in depends[t] ==> d in order
    ensures DependencyOrder(depends, order + [t])
  {
    var more := order + [t];
    forall i | 0 <= i < |more|
      ensures more[i] in depends && forall d :: d in depends[more[i]] ==> d in more[..i]
    {
      if i < |order| {
        assert more[..i] == order[..i];
      } else {
        assert more[..i] == order;
      }
    }
  }

  /** The tasks dealt with are hashed, and nothing is known of the others yet. */
  ghost predicate HashState(s: Signing, depends: Graph<Tid>, before: map<Tid, string>, v: Held, dealtwith: set<Tid>,
                            calls: seq<Tid>)
  {
    && dealtwith <= depends.Keys
    && (forall t :: t in dealtwith ==> depends[t] <= dealtwith && Entry(s, depends, before, v, t))
    && (forall t :: t !in dealtwith ==> SameAt(v.taints, before, t))
    && (forall t :: t in calls <==> t in dealtwith)
    && DependencyOrder(depends, calls)
  }

  /** What hashing `t` changes. */
  ghost predicate Rehashed(s: Signing, depends: Graph<Tid>, v: Held, v': Held, t: Tid, hash: string)
    requires t in depends && t in s.inputs
  {
    && v' == Held(v.basehash[t := s.inputs[t].base], v.taskhash[t := hash], v.runtaskdeps[t := RunDeps(s, depends, t)],
                  v.checksums[t := Sums(s, t)], TaintsAfter(v.taints, t, s.inputs[t].uuid, s.inputs[t].fileTaint))
    && HashRecorded(s.md5, v'.basehash, v'.taskhash, v'.runtaskdeps, v'.checksums, t, s.inputs[t].uuid,
                    s.inputs[t].fileTaint)
  }

  /** Hashing one more task leaves what is recorded for the others as it was. */
  lemma EntryKept(s: Signing, depends: Graph<Tid>, before: map<Tid, string>, v: Held, v': Held, t: Tid, hash: string,
                  other: Tid)
    requires Entry(s, depends, before, v, other) && t in depends && t in s.inputs
      && Rehashed(s, depends, v, v', t, hash)
    requires Lists(s.sorter) && t != other && t !in depends[other]
    ensures Entry(s, depends, before, v', other)
  {
    hide HashRecorded;
    HashingKeepsOthers(s.md5, v.basehash, v.taskhash, v.runtaskdeps, v.checksums, t, s.inputs[t].base, hash,
                       RunDeps(s, depends, t), Sums(s, t), other, s.inputs[other].uuid, s.inputs[other].fileTaint);
    TaintsElsewhere(v.taints, t, s.inputs[t].uuid, s.inputs[t].fileTaint, other);
    RecordedHas(s, v, other);
    RecordedHas(s, v', other);
  }

  lemma RecordedHas(s: Signing, v: Held, t: Tid)
    requires t in s.inputs && HashRecorded(s.md5, v.basehash, v.taskhash, v.runtaskdeps, v.checksums, t,
                                           s.inputs[t].uuid, s.inputs[t].fileTaint)
    ensures t in v.basehash && t in v.taskhash && t in v.runtaskdeps && t in v.checksums
  {
  }

  lemma TaintsElsewhere(taints: map<Tid, string>, t: Tid, uuid: Option<string>, fileTaint: Option<string>, other: Tid)
    requires t != other
    ensures SameAt(TaintsAfter(taints, t, uuid, fileTaint), taints, other)
  {
  }

  lemma TaintsHere(taints: map<Tid, string>, before: map<Tid, string>, t: Tid, uuid: Option<string>,
                   fileTaint: Option<string>)
    requires SameAt(taints, before, t)
    ensures SameAt(TaintsAfter(taints, t, uuid, fileTaint), TaintsAfter(before, t, uuid, fileTaint), t)
  {
  }

  lemma HashStep(s: Signing, depends: Graph<Tid>, before: map<Tid, string>, v: Held, v': Held, dealtwith: set<Tid>,
                 calls: seq<Tid>, t: Tid, hash: string)
    requires HashState(s, depends, before, v, dealtwith, calls) && Lists(s.sorter)
    requires t in depends && t in s.inputs && t !in dealtwith && depends[t] <= dealtwith
    requires Rehashed(s, depends, v, v', t, hash)
    ensures HashState(s, depends, before, v', dealtwith + {t}, calls + [t])
  {
    hide Entry, Rehashed, DependencyOrder, SameAt;
    forall other | other in dealtwith
      ensures Entry(s, depends, before, v', other)
    {
      EntryKept(s, depends, before, v, v', t, hash, other);
    }
    NewEntry(s, depends, before, v, v', t, hash);
    OrderSnoc(depends, calls, t);
  }

  lemma NewEntry(s: Signing, depends: Graph<Tid>, before: map<Tid, string>, v: Held, v': Held, t: Tid, hash: string)
    requires t in depends && t in s.inputs && Rehashed(s, depends, v, v', t, hash) && SameAt(v.taints, before, t)
    ensures Entry(s, depends, before, v', t)
    ensures forall other :: other != t && SameAt(v.taints, before, other) ==> SameAt(v'.taints, before, other)
  {
    hide HashRecorded;
    TaintsHere(v.taints, before, t, s.inputs[t].uuid, s.inputs[t].fileTaint);
  }

  // ---- the passes ----

  /** The generator has a hash for the tasks dealt with, and besides only those it had before. */
  ghost predicate Agree(taskhash: map<Tid, string>, before: map<Tid, string>, hash: map<Tid, string>,
                        dealtwith: set<Tid>)
  {
    && taskhash.Keys == before.Keys + dealtwith && hash.Keys == dealtwith
    && forall t :: t in dealtwith ==> taskhash[t] == hash[t]
  }

  lemma NothingHashed(s: Signing, depends: Graph<Tid>, v: Held)
    ensures HashState(s, depends, v.taints, v, {}, []) && Agree(v.taskhash, v.taskhash, map[], {})
  {
  }

  lemma NothingOutside(deps: set<Tid>, dealtwith: set<Tid>)
    requires deps - dealtwith == {}
    ensures deps <= dealtwith
  {
    forall d | d in deps
      ensures d in dealtwith
    {
      assert d !in deps - dealtwith;
    }
  }

  lemma FirstIsReady(depends: Graph<Tid>, first: Tid, todeal: set<Tid>, dealtwith: set<Tid>)
    requires Closed(depends) && todeal == depends.Keys - dealtwith && first in todeal
    requires forall u :: u in depends[first] ==> u !in todeal
    ensures depends[first] <= dealtwith
  {
  }

  /** No dependency is missing, and no task depends on itself. */
  lemma InOrder(s: Signing, depends: Graph<Tid>, dealtwith: set<Tid>, taskhash: map<Tid, string>, tid: Tid)
    requires Signs(s, depends.Keys) && tid in depends && tid !in dealtwith && depends[tid] <= dealtwith <= taskhash.Keys
    ensures Lists(s.sorter) && tid in s.inputs && tid !in RunDeps(s, depends, tid)
    ensures forall d :: d in s.sorter(depends[tid]) ==> d in taskhash
  {
  }

  /** One call of the generator, for a task whose dependencies have been hashed. */
  method CallGenerator(depends: Graph<Tid>, s: Signing, gen: SignatureGeneratorBasic, ghost dealtwith: set<Tid>,
                       tid: Tid)
    returns (h: string)
    requires Signs(s, depends.Keys) && gen.md5 == s.md5
    requires tid in depends && tid !in dealtwith && depends[tid] <= dealtwith <= gen.taskhash.Keys
    modifies gen`basehash, gen`taskhash, gen`runtaskdeps, gen`fileChecksumValues, gen`taints
    ensures tid in s.inputs && Rehashed(s, depends, old(HeldBy(gen)), HeldBy(gen), tid, h)
  {
    hide HashRecorded, TaintsAfter, Kept, Signs, Lists;
    InOrder(s, depends, dealtwith, gen.taskhash, tid);
    var i := s.inputs[tid];
    var r := gen.GetTaskhash(tid, i.base, s.sorter(depends[tid]), i.keep, i.checksums, i.uuid, i.fileTaint);
    h := r.value;
  }

  method HashOne(depends: Graph<Tid>, s: Signing, gen: SignatureGeneratorBasic, ghost dealtwith: set<Tid>,
                 ghost hash: map<Tid, string>, ghost calls: seq<Tid>, tid: Tid, ghost before: map<Tid, string>,
                 ghost start: map<Tid, string>)
    returns (h: string)
    requires Signs(s, depends.Keys) && gen.md5 == s.md5
    requires tid in depends && tid !in dealtwith && depends[tid] <= dealtwith
    requires HashState(s, depends, before, HeldBy(gen), dealtwith, calls) && Agree(gen.taskhash, start, hash, dealtwith)
    modifies gen`basehash, gen`taskhash, gen`runtaskdeps, gen`fileChecksumValues, gen`taints
    ensures HashState(s, depends, before, HeldBy(gen), dealtwith + {tid}, calls + [tid])
    ensures Agree(gen.taskhash, start, hash[tid := h], dealtwith + {tid})
  {
    hide HashState, Rehashed;
    ghost var was := HeldBy(gen);
    h := CallGenerator(depends, s, gen, dealtwith, tid);
    HashStep(s, depends, before, was, HeldBy(gen), dealtwith, calls, tid, h);
    AgreeStep(s, depends, was, HeldBy(gen), start, hash, dealtwith, tid, h);
  }

  lemma AgreeStep(s: Signing, depends: Graph<Tid>, v: Held, v': Held, start: map<Tid, string>, hash: map<Tid, string>,
                  dealtwith: set<Tid>, t: Tid, h: string)
    requires Agree(v.taskhash, start, hash, dealtwith) && t in depends && t in s.inputs
      && Rehashed(s, depends, v, v', t, h)
    ensures Agree(v'.taskhash, start, hash[t := h], dealtwith + {t})
  {
    hide HashRecorded;
  }

  lemma AllHashed(s: Signing, depends: Graph<Tid>, before: map<Tid, string>, v: Held, start: map<Tid, string>,
                  hash: map<Tid, string>, calls: seq<Tid>)
    requires HashState(s, depends, before, v, depends.Keys, calls) && Agree(v.taskhash, start, hash, depends.Keys)
      && Signs(s, depends.Keys)
    ensures hash.Keys == depends.Keys && v.taskhash.Keys == start.Keys + depends.Keys
    ensures forall t :: t in depends ==>
      Entry(s, depends, before, v, t) && Hashed(s, depends, hash, t) && v.taskhash[t] == hash[t]
    ensures DependencyOrder(depends, calls) && forall t :: t in calls <==> t in depends
  {
    hide DependencyOrder;
    forall t | t in depends
      ensures Hashed(s, depends, hash, t)
    {
      assert Entry(s, depends, before, v, t);
      SameHashes(s.inputs[t].base, v.taskhash, hash, RunDeps(s, depends, t));
    }
  }

  /** Passes over the tasks still to hash, until none is left; `calls` lists the tasks in
      the order in which their hashes were asked for. The generator never misses the hash
      of a dependency, and in the end all that it recorded stands. */
  method HashTasks(depends: Graph<Tid>, s: Signing, gen: SignatureGeneratorBasic)
    returns (hash: map<Tid, string>, calls: seq<Tid>)
    requires Closed(depends) && Acyclic(depends) && Signs(s, depends.Keys) && gen.md5 == s.md5
    modifies gen`basehash, gen`taskhash, gen`runtaskdeps, gen`fileChecksumValues, gen`taints
    ensures hash.Keys == depends.Keys && forall t :: t in depends ==> Hashed(s, depends, hash, t)
    ensures gen.taskhash.Keys == old(gen.taskhash.Keys) + depends.Keys
    ensures forall t :: t in depends ==>
      Entry(s, depends, old(gen.taints), HeldBy(gen), t) && gen.taskhash[t] == hash[t]
    ensures DependencyOrder(depends, calls) && forall t :: t in calls <==> t in depends
  {
    hide Acyclic, Closed, Entry, Signs, HashState, Hashed, Agree, DependencyOrder;
    ghost var before, start := gen.taints, gen.taskhash;
    var dealtwith, todeal := {}, depends.Keys;
    hash, calls := map[], [];
    NothingHashed(s, depends, HeldBy(gen));
    while |todeal| > 0
      invariant todeal == depends.Keys - dealtwith && dealtwith <= depends.Keys
      invariant HashState(s, depends, before, HeldBy(gen), dealtwith, calls)
        && Agree(gen.taskhash, start, hash, dealtwith)
      decreases |todeal|
    {
      dealtwith, hash, calls := HashPass(depends, s, gen, dealtwith, hash, calls, before, start);
      todeal := depends.Keys - dealtwith;
    }
    assert dealtwith == depends.Keys;
    AllHashed(s, depends, before, HeldBy(gen), start, hash, calls);
  }

  /** One pass over the tasks that were left when it began. It hashes at least one. */
  method HashPass(depends: Graph<Tid>, s: Signing, gen: SignatureGeneratorBasic, dealtwith: set<Tid>,
                  hash: map<Tid, string>, calls: seq<Tid>, ghost before: map<Tid, string>,
                  ghost start: map<Tid, string>)
    returns (dealtwith': set<Tid>, hash': map<Tid, string>, calls': seq<Tid>)
    requires Closed(depends) && Acyclic(depends) && Signs(s, depends.Keys) && gen.md5 == s.md5
    requires dealtwith <= depends.Keys && depends.Keys - dealtwith != {}
    requires HashState(s, depends, before, HeldBy(gen), dealtwith, calls) && Agree(gen.taskhash, start, hash, dealtwith)
    modifies gen`basehash, gen`taskhash, gen`runtaskdeps, gen`fileChecksumValues, gen`taints
    ensures dealtwith' <= depends.Keys && |depends.Keys - dealtwith'| < |depends.Keys - dealtwith|
    ensures HashState(s, depends, before, HeldBy(gen), dealtwith', calls')
      && Agree(gen.taskhash, start, hash', dealtwith')
  {
    hide Acyclic, Closed, Entry, Signs, HashState, Hashed, Agree;
    dealtwith', hash', calls' := dealtwith, hash, calls;
    ghost var first := MinimalNode(depends, depends.Keys - dealtwith);
    FirstIsReady(depends, first, depends.Keys - dealtwith, dealtwith);
    var pass := depends.Keys - dealtwith;
    while pass != {}
      invariant dealtwith <= dealtwith' <= depends.Keys && pass <= depends.Keys - dealtwith'
        && (first in pass || first in dealtwith')
      invariant HashState(s, depends, before, HeldBy(gen), dealtwith', calls')
        && Agree(gen.taskhash, start, hash', dealtwith')
    {
      var tid :| tid in pass;
      pass := pass - {tid};
      if depends[tid] - dealtwith' == {} {
        NothingOutside(depends[tid], dealtwith');
        var h := HashOne(depends, s, gen, dealtwith', hash', calls', tid, before, start);
        dealtwith', hash', calls' := dealtwith' + {tid}, hash'[tid := h], calls' + [tid];
      }
    }
    SmallerSet(depends.Keys - dealtwith', depends.Keys - dealtwith);
  }

  /** The hash equations have one solution on an acyclic graph: the order of the passes
      does not show in the hashes. */
  lemma HashesUnique(s: Signing, depends: Graph<Tid>, a: map<Tid, string>, b: map<Tid, string>)
    requires Closed(depends) && Acyclic(depends) && Lists(s.sorter) && a.Keys == b.Keys == depends.Keys
    requires forall t :: t in depends ==> Hashed(s, depends, a, t) && Hashed(s, depends, b, t)
    ensures a == b
  {
    hide Hashed, Acyclic;
    var bad := set t | t in depends && a[t] != b[t];
    if bad != {} {
      var t := MinimalNode(depends, bad);
      SameHash(s, depends, a, b, t);
      assert false;
    }
    forall t | t in depends
      ensures a[t] == b[t]
    {
      assert t !in bad;
    }
  }

  lemma SameHash(s: Signing, depends: Graph<Tid>, a: map<Tid, string>, b: map<Tid, string>, t: Tid)
    requires Lists(s.sorter) && Hashed(s, depends, a, t) && Hashed(s, depends, b, t)
    requires forall d :: d in depends[t] && d in a && d in b ==> a[d] == b[d]
    ensures a[t] == b[t]
  {
    SameHashes(s.inputs[t].base, a, b, RunDeps(s, depends, t));
  }

  // ---- the signature files ----

  /** What parsing a recipe file again yields. */
  datatype Parsed = Parsed(tasklist: seq<string>, g: Graph<string>, values: Values)

  ghost predicate Parses(p: Parsed) {
    Closed(p.g) && p.values.Keys == p.g.Keys && forall t :: t in p.tasklist ==> t in p.g
  }

  /** The generator has taken the file in, and its base hash of `task` comes from it. */
  ghost predicate TakenIn(gen: SignatureGeneratorBasic, fn: string, p: Parsed)
    reads gen
  {
    && gen.Built(fn, p.g, p.values, p.tasklist)
    && forall t :: t in gen.taskdeps[fn] ==> BasedOn(gen.md5, gen.basehash, fn, t, p.values, gen.taskdeps[fn][t])
  }

  ghost predicate BasedOn(md5: Md5, basehash: map<Tid, string>, fn: string, task: string, values: Values,
                          deps: seq<string>)
  {
    && task in values && (forall d :: d in deps ==> d in values)
    && Tid(fn, task) in basehash && basehash[Tid(fn, task)] == md5(BaseText(values, task, deps))
  }

  /** Parses the files again; the base hashes of their tasks are worked out anew. */
  method Reparse(gen: SignatureGeneratorBasic, parsed: map<string, Parsed>)
    requires Lists(gen.sorter) && forall fn :: fn in parsed ==> Parses(parsed[fn])
    modifies gen`basehash, gen`taskdeps, gen`gendeps, gen`lookupcache
    ensures forall fn :: fn in parsed ==> TakenIn(gen, fn, parsed[fn])
    ensures old(gen.basehash.Keys) <= gen.basehash.Keys
  {
    var todo := parsed.Keys;
    while todo != {}
      invariant todo <= parsed.Keys && forall fn :: fn in parsed && fn !in todo ==> TakenIn(gen, fn, parsed[fn])
      invariant old(gen.basehash.Keys) <= gen.basehash.Keys
    {
      var fn :| fn in todo;
      todo := todo - {fn};
      TakeIn(gen, fn, parsed[fn]);
    }
  }

  method TakeIn(gen: SignatureGeneratorBasic, fn: string, p: Parsed)
    requires Lists(gen.sorter) && Parses(p)
    modifies gen`basehash, gen`taskdeps, gen`gendeps, gen`lookupcache
    ensures TakenIn(gen, fn, p) && old(gen.basehash.Keys) <= gen.basehash.Keys
    ensures forall other, q {:trigger TakenIn(gen, other, q)} :: other != fn && old(TakenIn(gen, other, q)) ==>
      TakenIn(gen, other, q)
  {
    hide AreTaskDeps, TrimmedFor, BaseText, Closed, Lists;
    gen.BuildData(fn, p.tasklist, p.g, p.values);
  }

  /** The hashes worked out again for a task. */
  datatype Report = Report(basehash: string, taskhash: string)

  /** No two texts have the same hash. */
  ghost predicate Injective(md5: Md5) {
    forall a, b :: md5(a) == md5(b) ==> a == b
  }

  /** All that hashing `t` recorded stands, whatever its base hash is now. */
  ghost predicate Stands(s: Signing, depends: Graph<Tid>, before: map<Tid, string>, v: Held, t: Tid) {
    t in s.inputs && Entry(s, depends, before, v.(basehash := v.basehash[t := s.inputs[t].base]), t)
  }

  /** The base hash is found again. Where it is the one in the parse cache, so is the task
      hash, exactly when the taint that was hashed can be told from what is dumped. */
  ghost predicate Reproduces(s: Signing, before: map<Tid, string>, v: Held, t: Tid, r: Report) {
    && t in s.inputs && t in v.basehash && t in v.taskhash && r.basehash == v.basehash[t]
    && (v.basehash[t] == s.inputs[t].base ==>
          var told := TaintsTellApart(before, t, s.inputs[t].uuid, s.inputs[t].fileTaint);
          && (told ==> r.taskhash == v.taskhash[t])
          && (Injective(s.md5) && r.taskhash == v.taskhash[t] ==> told))
  }

  ghost predicate AllSummed(s: Signing, t: Tid) {
    t in s.inputs ==> forall c :: c in Sums(s, t) ==> c.sum.Some?
  }

  ghost predicate Dumpable(gen: SignatureGeneratorBasic, s: Signing, depends: Graph<Tid>, before: map<Tid, string>,
                           p: Parsed, t: Tid)
    reads gen
  {
    && gen.md5 == s.md5 && Signs(s, depends.Keys) && Parses(p) && TakenIn(gen, t.fn, p) && t.task in p.tasklist
    && Stands(s, depends, before, HeldBy(gen), t)
  }

  /** The generator holds all that is dumped for `t`. */
  ghost predicate CanDump(gen: SignatureGeneratorBasic, t: Tid)
    reads gen
  {
    && t.fn in gen.taskdeps && t.task in gen.taskdeps[t.fn] && t.fn in gen.gendeps && t.fn in gen.lookupcache
       && t.task in gen.lookupcache[t.fn]
    && (forall d :: d in gen.taskdeps[t.fn][t.task] ==> d in gen.gendeps[t.fn] && d in gen.lookupcache[t.fn])
    && t in gen.basehash && t in gen.taskhash && t in gen.runtaskdeps && t in gen.fileChecksumValues
    && (forall d :: d in gen.runtaskdeps[t] ==> d in gen.taskhash)
  }

  function DumpOf(gen: SignatureGeneratorBasic, t: Tid, fileTaint: Option<string>): SigData
    requires CanDump(gen, t)
    reads gen
  {
    gen.DumpSigtask(t.fn, t.task, true, fileTaint)
  }

  /** The dumped data misses nothing that working the hashes out again needs. */
  ghost predicate Complete(sig: SigData) {
    && sig.task in sig.varvals && (forall d :: d in sig.taskdeps ==> d in sig.varvals)
    && sig.runtime.Some? && (forall d :: d in sig.runtime.value.runtaskdeps ==> d in sig.runtime.value.runtaskhashes)
  }

  /** Works the hashes of one task out again from what is dumped for it; none when a file
      has no checksum, which the source cannot add. Taint files are as they were. */
  method DumpTask(gen: SignatureGeneratorBasic, s: Signing, ghost depends: Graph<Tid>, ghost before: map<Tid, string>,
                  ghost p: Parsed, t: Tid)
    returns (r: Option<Report>)
    requires Dumpable(gen, s, depends, before, p, t)
    ensures r.Some? <==> AllSummed(s, t)
    ensures r.Some? ==> Reproduces(s, before, HeldBy(gen), t, r.value)
  {
    hide Dumpable, AllSummed, Reproduces, Signs, CanDump, DumpOf, BaseText, Told;
    DumpFacts(gen, s, depends, before, p, t);
    SigIsComplete(gen, s, depends, before, p, t);
    var sig := DumpOf(gen, t, s.inputs[t].fileTaint);
    var basehash := CalcBasehash(gen.md5, sig);
    var taskhash := CalcTaskhash(gen.md5, sig);
    TextIsTold(gen, s, depends, before, p, t);
    if taskhash.None? {
      return None;
    }
    Verdict(s, before, HeldBy(gen), t, sig, basehash, taskhash.value);
    return Some(Report(basehash, taskhash.value));
  }

  lemma DumpFacts(gen: SignatureGeneratorBasic, s: Signing, depends: Graph<Tid>, before: map<Tid, string>, p: Parsed,
                  t: Tid)
    requires Dumpable(gen, s, depends, before, p, t)
    ensures t in s.inputs && t in gen.basehash && t in gen.taskhash && t in gen.runtaskdeps
      && t in gen.fileChecksumValues
    ensures gen.fileChecksumValues[t] == Sums(s, t) && forall d :: d in gen.runtaskdeps[t] ==> d in gen.taskhash
    ensures SameAt(gen.taints, TaintsAfter(before, t, s.inputs[t].uuid, s.inputs[t].fileTaint), t)
    ensures gen.basehash[t] == s.inputs[t].base ==> gen.Recorded(t, s.inputs[t].uuid, s.inputs[t].fileTaint)
    ensures s.inputs[t].uuid.Some? ==> s.inputs[t].uuid.value != ""
    ensures gen.md5 == s.md5
  {
    hide BaseText, TaskText, Lists;
  }

  lemma SigIsComplete(gen: SignatureGeneratorBasic, s: Signing, depends: Graph<Tid>, before: map<Tid, string>,
                      p: Parsed, t: Tid)
    requires Dumpable(gen, s, depends, before, p, t)
    ensures CanDump(gen, t) && t in s.inputs && t in gen.basehash
    ensures var sig := DumpOf(gen, t, s.inputs[t].fileTaint);
            Complete(sig) && gen.md5(BaseText(sig.varvals, sig.task, sig.taskdeps)) == gen.basehash[t]
  {
    hide BaseText, Stands, Signs, AreTaskDeps, TrimmedFor;
    DumpFacts(gen, s, depends, before, p, t);
    gen.BasehashReproduced(t.fn, p.g, p.values, p.tasklist, t.task, true, s.inputs[t].fileTaint);
  }

  /** When the base hash is the one in the parse cache, the text hashed again is the text
      that was hashed exactly when the taint can be told. */
  ghost predicate Told(s: Signing, before: map<Tid, string>, v: Held, t: Tid, text: Option<string>) {
    t in s.inputs && t in v.basehash && t in v.taskhash && v.basehash[t] == s.inputs[t].base && text.Some? ==>
      exists was :: v.taskhash[t] == s.md5(was)
        && (text.value == was <==> TaintsTellApart(before, t, s.inputs[t].uuid, s.inputs[t].fileTaint))
  }

  lemma TextIsTold(gen: SignatureGeneratorBasic, s: Signing, depends: Graph<Tid>, before: map<Tid, string>, p: Parsed,
                   t: Tid)
    requires Dumpable(gen, s, depends, before, p, t)
    ensures CanDump(gen, t) && t in s.inputs && Complete(DumpOf(gen, t, s.inputs[t].fileTaint))
    ensures CalcText(DumpOf(gen, t, s.inputs[t].fileTaint)).Some? <==> AllSummed(s, t)
    ensures Told(s, before, HeldBy(gen), t, CalcText(DumpOf(gen, t, s.inputs[t].fileTaint)))
  {
    hide Dumpable, BaseText, TaskText, TaintsTellApart, Signs, HashesText, ChecksumsText, Contains, Stripped;
    DumpFacts(gen, s, depends, before, p, t);
    SigIsComplete(gen, s, depends, before, p, t);
    var i := s.inputs[t];
    SameSums("", gen.fileChecksumValues[t]);
    if gen.basehash[t] == i.base {
      gen.TaskhashReproduced(t.fn, t.task, before, i.uuid, i.fileTaint);
      var was := TaskText(gen.basehash[t], gen.taskhash, gen.runtaskdeps[t], gen.fileChecksumValues[t], i.uuid,
                          i.fileTaint);
      assert gen.taskhash[t] == s.md5(was);
    }
  }

  lemma Verdict(s: Signing, before: map<Tid, string>, v: Held, t: Tid, sig: SigData, basehash: string, taskhash: string)
    requires t in s.inputs && t in v.basehash && t in v.taskhash && basehash == v.basehash[t]
    requires Complete(sig) && Told(s, before, v, t, CalcText(sig)) && CalcText(sig).Some?
      && taskhash == s.md5(CalcText(sig).value)
    ensures Reproduces(s, before, v, t, Report(basehash, taskhash))
  {
    hide TaintsTellApart, CalcText;
  }

  /** What came of the dump: the reports, and the task it stopped at for want of a checksum. */
  datatype Dump = Dump(reports: map<Tid, Report>, stopped: Option<Tid>)

  /** The tasks of the queue that the files parsed again still have. */
  ghost function Found(depends: Graph<Tid>, parsed: map<string, Parsed>): set<Tid> {
    set t | t in depends && t.fn in parsed && t.task in parsed[t.fn].tasklist
  }

  ghost predicate DumpedSoFar(gen: SignatureGeneratorBasic, s: Signing, before: map<Tid, string>, d: Dump)
    reads gen
  {
    && (forall t :: t in d.reports ==> AllSummed(s, t) && Reproduces(s, before, HeldBy(gen), t, d.reports[t]))
    && (d.stopped.Some? ==> !AllSummed(s, d.stopped.value))
  }

  /** Dumps the tasks of one file that have been hashed. */
  method DumpFile(gen: SignatureGeneratorBasic, s: Signing, ghost depends: Graph<Tid>, ghost before: map<Tid, string>,
                  ghost p: Parsed, fn: string, sofar: Dump)
    returns (d: Dump)
    requires fn in gen.taskdeps
    requires forall t :: t in gen.taskhash && t.fn == fn && t.task in gen.taskdeps[fn] ==>
      Dumpable(gen, s, depends, before, p, t)
    requires DumpedSoFar(gen, s, before, sofar) && sofar.stopped.None?
    ensures DumpedSoFar(gen, s, before, d)
    ensures d.stopped.None? ==>
      d.reports.Keys == sofar.reports.Keys + set t | t in gen.taskhash && t.fn == fn && t.task in gen.taskdeps[fn]
    ensures d.stopped.Some? ==>
      d.stopped.value in gen.taskhash && d.stopped.value.fn == fn && d.stopped.value.task in gen.taskdeps[fn]
  {
    hide Dumpable, AllSummed, Reproduces;
    d := sofar;
    var todo := gen.taskdeps[fn].Keys;
    while todo != {}
      invariant todo <= gen.taskdeps[fn].Keys && DumpedSoFar(gen, s, before, d) && d.stopped.None?
      invariant d.reports.Keys == sofar.reports.Keys + set t | t in gen.taskhash && t.fn == fn
        && t.task in gen.taskdeps[fn] && t.task !in todo
    {
      var task :| task in todo;
      todo := todo - {task};
      if Tid(fn, task) in gen.taskhash {
        var r := DumpTask(gen, s, depends, before, p, Tid(fn, task));
        if r.None? {
          return Dump(d.reports, Some(Tid(fn, task)));
        }
        d := Dump(d.reports[Tid(fn, task) := r.value], None);
      }
    }
  }

  lemma StandsAfter(s: Signing, depends: Graph<Tid>, before: map<Tid, string>, v: Held, v': Held, t: Tid)
    requires Entry(s, depends, before, v, t) && v' == v.(basehash := v'.basehash)
    ensures Stands(s, depends, before, v', t)
  {
    hide TaskText, SameAt, RunDeps, Sums;
  }

  /** What all the files hold when they have been parsed again. */
  ghost predicate ReadyToDump(gen: SignatureGeneratorBasic, s: Signing, depends: Graph<Tid>, before: map<Tid, string>,
                              parsed: map<string, Parsed>)
    reads gen
  {
    && gen.taskhash.Keys == depends.Keys && (forall t :: t in depends ==> t.fn in parsed)
    && (forall fn :: fn in parsed ==> fn in gen.taskdeps && gen.taskdeps[fn].Keys == set t | t in parsed[fn].tasklist)
    && (forall t :: t in depends && t.task in parsed[t.fn].tasklist ==>
        Dumpable(gen, s, depends, before, parsed[t.fn], t))
  }

  /** Parses the files of a queue whose tasks have been hashed again, and dumps every task
      they still have. Only a missing checksum stops the dump. */
  method DumpSignatures(gen: SignatureGeneratorBasic, s: Signing, ghost depends: Graph<Tid>,
                        ghost before: map<Tid, string>, parsed: map<string, Parsed>)
    returns (d: Dump)
    requires Lists(gen.sorter) && gen.md5 == s.md5 && Signs(s, depends.Keys)
      && forall fn :: fn in parsed ==> Parses(parsed[fn])
    requires gen.taskhash.Keys == depends.Keys
    requires forall t :: t in depends ==> t.fn in parsed && Entry(s, depends, before, HeldBy(gen), t)
    modifies gen`basehash, gen`taskdeps, gen`gendeps, gen`lookupcache
    ensures forall t :: t in d.reports ==> Reproduces(s, before, HeldBy(gen), t, d.reports[t])
    ensures d.stopped.None? <==> forall t :: t in Found(depends, parsed) ==> AllSummed(s, t)
    ensures d.stopped.None? ==> d.reports.Keys == Found(depends, parsed)
  {
    hide Entry, Lists, Signs, Parses, Reproduces, AllSummed, Stands, ReadyToDump;
    ghost var v := HeldBy(gen);
    Reparse(gen, parsed);
    forall t | t in depends
      ensures Stands(s, depends, before, HeldBy(gen), t)
    {
      StandsAfter(s, depends, before, v, HeldBy(gen), t);
    }
    NowReady(gen, s, depends, before, parsed);
    d := DumpSigs(gen, s, depends, before, parsed);
  }

  lemma NowReady(gen: SignatureGeneratorBasic, s: Signing, depends: Graph<Tid>, before: map<Tid, string>,
                 parsed: map<string, Parsed>)
    requires gen.md5 == s.md5 && Signs(s, depends.Keys) && gen.taskhash.Keys == depends.Keys
    requires forall fn :: fn in parsed ==> Parses(parsed[fn]) && TakenIn(gen, fn, parsed[fn])
    requires forall t :: t in depends ==> t.fn in parsed && Stands(s, depends, before, HeldBy(gen), t)
    ensures ReadyToDump(gen, s, depends, before, parsed)
  {
    hide Stands, Parses, Signs, BasedOn, AreTaskDeps, TrimmedFor;
  }

  method DumpSigs(gen: SignatureGeneratorBasic, s: Signing, ghost depends: Graph<Tid>, ghost before: map<Tid, string>,
                  ghost parsed: map<string, Parsed>)
    returns (d: Dump)
    requires ReadyToDump(gen, s, depends, before, parsed)
    ensures forall t :: t in d.reports ==> Reproduces(s, before, HeldBy(gen), t, d.reports[t])
    ensures d.stopped.None? <==> forall t :: t in Found(depends, parsed) ==> AllSummed(s, t)
    ensures d.stopped.None? ==> d.reports.Keys == Found(depends, parsed)
  {
    hide Dumpable, AllSummed, Reproduces;
    d := Dump(map[], None);
    var todo := gen.taskdeps.Keys;
    ghost var none := Parsed([], map[], map[]);
    while todo != {}
      invariant todo <= gen.taskdeps.Keys && DumpedSoFar(gen, s, before, d) && d.stopped.None?
      invariant d.reports.Keys == set t | t in gen.taskhash && t.fn in gen.taskdeps && t.fn !in todo
        && t.task in gen.taskdeps[t.fn]
    {
      var fn :| fn in todo;
      todo := todo - {fn};
      d := DumpFile(gen, s, depends, before, if fn in parsed then parsed[fn] else none, fn, d);
      if d.stopped.Some? {
        assert d.stopped.value in Found(depends, parsed);
        return;
      }
    }
    assert d.reports.Keys == Found(depends, parsed);
  }
}
