/** What a task's hashes depend on: every piece of the text that is hashed shows in it. */
module HashedTexts {
  import opened Graphs
  import opened Tasks
  import opened Signatures

  // ---- texts with gaps ----

  /** The pieces one after the other, with `x` wherever there is a gap. */
  function Fill(pieces: seq<Option<string>>, x: string): string {
    if pieces == [] then ""
    else
      var last := pieces[|pieces| - 1];
      Fill(pieces[..|pieces| - 1], x) + if last.Some? then last.value else x
  }

  lemma FillOne(pieces: seq<Option<string>>, piece: Option<string>, x: string)
    ensures Fill(pieces + [piece], x) == Fill(pieces, x) + if piece.Some? then piece.value else x
  {
    assert (pieces + [piece])[..|pieces|] == pieces;
  }

  lemma {:induction false} LongerFill(pieces: seq<Option<string>>, x: string, y: string)
    requires |x| <= |y|
    ensures |Fill(pieces, x)| <= |Fill(pieces, y)|
    ensures None in pieces ==> |Fill(pieces, y)| >= |Fill(pieces, x)| + |y| - |x|
  {
    if pieces == [] {
    } else {
      var front, last := pieces[..|pieces| - 1], pieces[|pieces| - 1];
      assert pieces == front + [last];
      LongerFill(front, x, y);
    }
  }

  /** What fills the gaps can be told from the text. */
  lemma {:induction false} GapShows(pieces: seq<Option<string>>, x: string, y: string)
    requires None in pieces
    ensures Fill(pieces, x) == Fill(pieces, y) <==> x == y
  {
    if Fill(pieces, x) == Fill(pieces, y) {
      LongerFill(pieces, if |x| <= |y| then x else y, if |x| <= |y| then y else x);
      SameLength(pieces, x, y);
    }
  }

  lemma {:induction false} SameLength(pieces: seq<Option<string>>, x: string, y: string)
    requires None in pieces && |x| == |y| && Fill(pieces, x) == Fill(pieces, y)
    ensures x == y
  {
    var front, last := pieces[..|pieces| - 1], pieces[|pieces| - 1];
    assert pieces == front + [last];
    LongerFill(front, x, y);
    LongerFill(front, y, x);
    var n := |Fill(front, x)|;
    assert Fill(pieces, x)[..n] == Fill(front, x) && Fill(pieces, y)[..n] == Fill(front, y);
    assert Fill(pieces, x)[n..] == Fill(pieces, y)[n..];
    if last.Some? {
      SameLength(front, x, y);
    }
  }

  // ---- the base hash ----

  /** What a task's base text is made of, with gaps for the value of `d`. */
  function BasePieces(values: Values, task: string, deps: seq<string>, d: string): (r: seq<Option<string>>)
    requires task in values && forall x :: x in deps ==> x in values
    ensures d == task || d in deps ==> None in r
  {
    if deps == [] then [if d == task then None else Some(Text(values[task]))]
    else
      var front, last := deps[..|deps| - 1], deps[|deps| - 1];
      assert deps == front + [last];
      BasePieces(values, task, front, d) + [Some(last)] + [if last == d then None else Some(Text(values[last]))]
  }

  lemma {:induction false} BaseFills(values: Values, task: string, deps: seq<string>, d: string)
    requires task in values && d in values && forall x :: x in deps ==> x in values
    ensures BaseText(values, task, deps) == Fill(BasePieces(values, task, deps, d), Text(values[d]))
  {
    var x := Text(values[d]);
    if deps == [] {
    } else {
      var front, last := deps[..|deps| - 1], deps[|deps| - 1];
      assert deps == front + [last];
      BaseFills(values, task, front, d);
      var pieces := BasePieces(values, task, front, d);
      FillOne(pieces, Some(last), x);
      FillOne(pieces + [Some(last)], if last == d then None else Some(Text(values[last])), x);
    }
  }

  lemma {:induction false} SamePieces(a: Values, b: Values, task: string, deps: seq<string>, d: string)
    requires task in a && task in b && forall x :: x in deps ==> x in a && x in b
    requires forall x :: (x == task || x in deps) && x != d ==> a[x] == b[x]
    ensures BasePieces(a, task, deps, d) == BasePieces(b, task, deps, d)
  {
    if deps == [] {
    } else {
      var front, last := deps[..|deps| - 1], deps[|deps| - 1];
      assert deps == front + [last];
      SamePieces(a, b, task, front, d);
    }
  }

  /** Of two sets of values that differ at `d` only, a task that depends on `d`, or is `d`,
      has the same base text exactly when the value of `d` reads the same; a missing value
      reads as an empty one. */
  lemma ValueShows(a: Values, b: Values, task: string, deps: seq<string>, d: string)
    requires task in a && task in b && d in a && d in b && (forall x :: x in deps ==> x in a && x in b)
    requires (forall x :: (x == task || x in deps) && x != d ==> a[x] == b[x]) && (d == task || d in deps)
    ensures BaseText(a, task, deps) == BaseText(b, task, deps) <==>
      (if a[d].Some? then a[d].value else "") == (if b[d].Some? then b[d].value else "")
  {
    BaseFills(a, task, deps, d);
    BaseFills(b, task, deps, d);
    SamePieces(a, b, task, deps, d);
    GapShows(BasePieces(a, task, deps, d), Text(a[d]), Text(b[d]));
  }

  /** What is added to the text for some more dependencies. */
  function Added(values: Values, deps: seq<string>): string
    requires forall x :: x in deps ==> x in values
  {
    if deps == [] then ""
    else
      var last := deps[|deps| - 1];
      Added(values, deps[..|deps| - 1]) + last + Text(values[last])
  }

  lemma OneMore(values: Values, task: string, deps: seq<string>, d: string)
    requires task in values && (forall x :: x in deps ==> x in values) && d in values
    ensures BaseText(values, task, deps + [d]) == BaseText(values, task, deps) + (d + Text(values[d]))
    ensures Added(values, deps + [d]) == Added(values, deps) + (d + Text(values[d]))
  {
    assert (deps + [d])[..|deps|] == deps;
  }

  lemma {:induction false} TextSplits(values: Values, task: string, before: seq<string>, after: seq<string>)
    requires task in values && (forall x :: x in before ==> x in values) && forall x :: x in after ==> x in values
    ensures forall x :: x in before + after ==> x in values
    ensures BaseText(values, task, before + after) == BaseText(values, task, before) + Added(values, after)
    decreases |after|
  {
    hide Added, BaseText;
    if after == [] {
      assert before + after == before;
      NothingAdded(values);
    } else {
      var front, last := after[..|after| - 1], after[|after| - 1];
      assert after == front + [last] && before + after == before + front + [last];
      TextSplits(values, task, before, front);
      OneMore(values, task, before + front, last);
      OneMore(values, task, front, last);
    }
  }

  lemma NothingAdded(values: Values)
    ensures Added(values, []) == ""
  {
  }

  /** A dependency's name shows as well as its value, wherever it stands. */
  lemma NameShows(values: Values, task: string, before: seq<string>, d: string, e: string, after: seq<string>)
    requires task in values && d in values && e in values && values[d] == values[e]
    requires (forall x :: x in before ==> x in values) && forall x :: x in after ==> x in values
    ensures forall x :: x in before + [d] + after || x in before + [e] + after ==> x in values
    ensures BaseText(values, task, before + [d] + after) == BaseText(values, task, before + [e] + after) <==> d == e
  {
    hide Added;
    TextSplits(values, task, before + [d], after);
    TextSplits(values, task, before + [e], after);
    assert (before + [d])[..|before|] == before && (before + [e])[..|before|] == before;
    MiddleShows(BaseText(values, task, before), d, e, Text(values[d]), Added(values, after));
  }

  lemma MiddleShows(a: string, d: string, e: string, b: string, c: string)
    ensures a + d + b + c == a + e + b + c <==> d == e
  {
    if a + d + b + c == a + e + b + c {
      assert |d| == |e|;
      assert d == (a + d + b + c)[|a|..|a| + |d|] == (a + e + b + c)[|a|..|a| + |d|] == e;
    }
  }

  /** The parts of two tasks' texts, in order. */
  lemma BaseTextInOrder(make: string, one: string)
    ensures var values: Values := map["do_make" := Some(make), "FOO" := Some(one), "BAR" := None];
            BaseText(values, "do_make", ["BAR", "FOO"]) == make + "BAR" + "FOO" + one
  {
    var values: Values := map["do_make" := Some(make), "FOO" := Some(one), "BAR" := None];
    var deps := ["BAR", "FOO"];
    assert deps[..1] == ["BAR"] && ["BAR"][..0] == [];
    assert BaseText(values, "do_make", []) == make;
    assert BaseText(values, "do_make", ["BAR"]) == make + "BAR" + "" == make + "BAR";
  }

  /** The same file taken in with other values: `md5` being injective, a task's base hash
      is another exactly when the value that changed reads otherwise and is the task's own
      or that of a variable the task leads to, past none that does not count. */
  method BuildTwice(gen: SignatureGeneratorBasic, fn: string, tasklist: seq<string>, g: Graph<string>, a: Values,
                    b: Values, task: string, d: string)
    returns (first: string, second: string)
    requires Closed(g) && a.Keys == b.Keys == g.Keys && Lists(gen.sorter) && (forall t :: t in tasklist ==> t in g)
    requires task in tasklist && d in g && (forall x :: x in g && x != d ==> a[x] == b[x])
    requires forall x, y :: gen.md5(x) == gen.md5(y) ==> x == y
    modifies gen`basehash, gen`taskdeps, gen`gendeps, gen`lookupcache
    ensures first != second <==>
      && (if a[d].Some? then a[d].value else "") != (if b[d].Some? then b[d].value else "")
      && (d == task || ReachFrom(Trim(g, gen.basewhitelist), Trim(g, gen.basewhitelist)[task], d))
  {
    hide Closed, Trim, ReachFrom, BaseText, Lists, AreTaskDeps, InOrder, BaseHashed, TrimmedFor;
    gen.BuildData(fn, tasklist, g, a);
    ghost var deps := gen.taskdeps[fn];
    BuiltHash(gen.md5, gen.basewhitelist, fn, g, a, deps, gen.basehash, task);
    first := gen.basehash[Tid(fn, task)];
    gen.BuildData(fn, tasklist, g, b);
    BuiltHash(gen.md5, gen.basewhitelist, fn, g, b, gen.taskdeps[fn], gen.basehash, task);
    second := gen.basehash[Tid(fn, task)];
    SameLists(gen.sorter, gen.basewhitelist, g, deps, gen.taskdeps[fn], task);
    if d == task || d in deps[task] {
      ValueShows(a, b, task, deps[task], d);
    } else {
      SameValues(a, b, task, deps[task]);
    }
  }

  lemma BuiltHash(md5: Md5, whitelist: set<string>, fn: string, g: Graph<string>, values: Values,
                  taskdeps: map<string, seq<string>>, basehash: map<Tid, string>, task: string)
    requires values.Keys == g.Keys && AreTaskDeps(g, whitelist, taskdeps) && task in taskdeps
    requires exists before :: BaseHashed(md5, fn, values, taskdeps, before, basehash)
    ensures task in g && Tid(fn, task) in basehash && forall x :: x in taskdeps[task] ==> x in values
    ensures basehash[Tid(fn, task)] == md5(BaseText(values, task, taskdeps[task]))
    ensures forall x :: x in taskdeps[task] <==> ReachFrom(Trim(g, whitelist), Trim(g, whitelist)[task], x)
  {
    hide BaseText, Trim, ReachFrom;
  }

  /** The order of a list is a matter of what is in it. */
  lemma SameLists(sorter: set<string> -> seq<string>, whitelist: set<string>, g: Graph<string>,
                  a: map<string, seq<string>>, b: map<string, seq<string>>, task: string)
    requires AreTaskDeps(g, whitelist, a) && AreTaskDeps(g, whitelist, b) && task in a && task in b
    requires InOrder(sorter, a) && InOrder(sorter, b)
    ensures a[task] == b[task]
  {
    hide Trim, ReachFrom;
    assert (set v | v in a[task]) == (set v | v in b[task]);
  }

  // ---- the task hash ----

  /** What the hashes of dependencies add, with gaps for the hash of `d`. */
  function HashPieces(hashes: map<Tid, string>, deps: seq<Tid>, d: Tid): (r: seq<Option<string>>)
    requires forall x :: x in deps ==> x in hashes
    ensures d in deps ==> None in r
  {
    if deps == [] then []
    else
      var front, last := deps[..|deps| - 1], deps[|deps| - 1];
      assert deps == front + [last];
      HashPieces(hashes, front, d) + [if last == d then None else Some(hashes[last])]
  }

  lemma {:induction false} HashesFill(base: string, hashes: map<Tid, string>, deps: seq<Tid>, d: Tid)
    requires d in hashes && forall x :: x in deps ==> x in hashes
    ensures HashesText(base, hashes, deps) == base + Fill(HashPieces(hashes, deps, d), hashes[d])
  {
    if deps == [] {
      assert base + "" == base;
    } else {
      var front, last := deps[..|deps| - 1], deps[|deps| - 1];
      assert deps == front + [last];
      HashesFill(base, hashes, front, d);
      FillOne(HashPieces(hashes, front, d), if last == d then None else Some(hashes[last]), hashes[d]);
      Assoc(base, Fill(HashPieces(hashes, front, d), hashes[d]), hashes[last]);
    }
  }

  lemma {:induction false} SameHashPieces(a: map<Tid, string>, b: map<Tid, string>, deps: seq<Tid>, d: Tid)
    requires forall x :: x in deps ==> x in a && x in b && (x != d ==> a[x] == b[x])
    ensures HashPieces(a, deps, d) == HashPieces(b, deps, d)
  {
    if deps == [] {
    } else {
      var front, last := deps[..|deps| - 1], deps[|deps| - 1];
      assert deps == front + [last];
      SameHashPieces(a, b, front, d);
    }
  }

  lemma Assoc(a: string, b: string, c: string)
    ensures a + (b + c) == a + b + c
  {
  }

  lemma OneMoreSum(text: string, checksums: seq<Checksum>, c: Checksum)
    ensures ChecksumsText(text, checksums + [c]) == ChecksumsText(text, checksums) + Text(c.sum)
  {
    assert (checksums + [c])[..|checksums|] == checksums;
  }

  /** The checksums, whatever comes before and after them. */
  lemma {:induction false} SumsSplit(text: string, before: seq<Checksum>, after: seq<Checksum>)
    ensures ChecksumsText(text, before + after) == ChecksumsText(text, before) + ChecksumsText("", after)
    decreases |after|
  {
    hide ChecksumsText;
    NoSums("");
    if after == [] {
      assert before + after == before;
    } else {
      var front, last := after[..|after| - 1], after[|after| - 1];
      assert after == front + [last] && before + after == before + front + [last];
      SumsSplit(text, before, front);
      OneMoreSum(text, before + front, last);
      OneMoreSum("", front, last);
      Assoc(ChecksumsText(text, before), ChecksumsText("", front), Text(last.sum));
    }
  }

  /** The text of a task whose hash of one dependency is another is the same exactly when
      the two hashes are. */
  lemma DependencyShows(base: string, a: map<Tid, string>, b: map<Tid, string>, deps: seq<Tid>, d: Tid,
                        checksums: seq<Checksum>, uuid: Option<string>, fileTaint: Option<string>)
    requires d in deps && (forall x :: x in deps ==> x in a && x in b && (x != d ==> a[x] == b[x]))
    ensures TaskText(base, a, deps, checksums, uuid, fileTaint) == TaskText(base, b, deps, checksums, uuid, fileTaint)
       <==> a[d] == b[d]
  {
    hide ChecksumsText, HashesText;
    HashesFill(base, a, deps, d);
    HashesFill(base, b, deps, d);
    SameHashPieces(a, b, deps, d);
    GapShows(HashPieces(a, deps, d), a[d], b[d]);
    var x, y := Fill(HashPieces(a, deps, d), a[d]), Fill(HashPieces(b, deps, d), b[d]);
    SumsSplit(HashesText(base, a, deps), [], checksums);
    SumsSplit(HashesText(base, b, deps), [], checksums);
    NoSums(HashesText(base, a, deps));
    NoSums(HashesText(base, b, deps));
    assert [] + checksums == checksums;
    EndShows(base, x, y, ChecksumsText("", checksums), Text(uuid), Text(fileTaint));
  }

  lemma NoSums(text: string)
    ensures ChecksumsText(text, []) == text
  {
  }

  lemma EndShows(a: string, x: string, y: string, b: string, c: string, d: string)
    ensures a + x + b + c + d == a + y + b + c + d <==> x == y
  {
    assert a + x + b + c + d == a + x + b + (c + d) && a + y + b + c + d == a + y + b + (c + d);
    MiddleShows(a, x, y, b, c + d);
  }

  /** So it is with a file's checksum; a file without one adds nothing. */
  lemma ChecksumShows(base: string, hashes: map<Tid, string>, deps: seq<Tid>, before: seq<Checksum>, c: Checksum,
                      c': Checksum, after: seq<Checksum>, uuid: Option<string>, fileTaint: Option<string>)
    requires forall x :: x in deps ==> x in hashes
    ensures TaskText(base, hashes, deps, before + [c] + after, uuid, fileTaint)
         == TaskText(base, hashes, deps, before + [c'] + after, uuid, fileTaint)
       <==> (if c.sum.Some? then c.sum.value else "") == (if c'.sum.Some? then c'.sum.value else "")
  {
    hide HashesText;
    var text := HashesText(base, hashes, deps);
    SumsSplit(text, before + [c], after);
    SumsSplit(text, before + [c'], after);
    assert (before + [c])[..|before|] == before && (before + [c'])[..|before|] == before;
    EndShows(ChecksumsText(text, before), Text(c.sum), Text(c'.sum), ChecksumsText("", after), Text(uuid),
             Text(fileTaint));
  }

  /** And with both kinds of taint. */
  lemma TaintShows(base: string, hashes: map<Tid, string>, deps: seq<Tid>, checksums: seq<Checksum>,
                   a: Option<string>, b: Option<string>, other: Option<string>)
    requires forall x :: x in deps ==> x in hashes
    ensures TaskText(base, hashes, deps, checksums, a, other) == TaskText(base, hashes, deps, checksums, b, other)
       <==> (if a.Some? then a.value else "") == (if b.Some? then b.value else "")
    ensures TaskText(base, hashes, deps, checksums, other, a) == TaskText(base, hashes, deps, checksums, other, b)
       <==> (if a.Some? then a.value else "") == (if b.Some? then b.value else "")
  {
    hide ChecksumsText, HashesText;
    var text := ChecksumsText(HashesText(base, hashes, deps), checksums);
    EndShows(text, Text(a), Text(b), "", Text(other), "");
    EndShows(text + Text(other), Text(a), Text(b), "", "", "");
    assert text + Text(a) + "" + Text(other) + "" == text + Text(a) + Text(other);
    assert text + Text(b) + "" + Text(other) + "" == text + Text(b) + Text(other);
    assert text + Text(other) + Text(a) + "" + "" + "" == text + Text(other) + Text(a);
    assert text + Text(other) + Text(b) + "" + "" + "" == text + Text(other) + Text(b);
  }

  /** What is remembered of a taint: a taint file that is not empty, or else the random taint
      with its marker. */
  lemma TaintRemembered(taints: map<Tid, string>, k: Tid, uuid: Option<string>, fileTaint: Option<string>)
    ensures var after := TaintsAfter(taints, k, uuid, fileTaint);
            && after - {k} == taints - {k}
            && (fileTaint.Some? && fileTaint.value != "" ==> k in after && after[k] == fileTaint.value)
            && (fileTaint.None? || fileTaint.value == "" ==>
                if uuid.Some? then k in after && after[k] == "nostamp:" + uuid.value else after == taints)
  {
  }

  /** And with the base hash. */
  lemma BaseShows(a: string, b: string, hashes: map<Tid, string>, deps: seq<Tid>, checksums: seq<Checksum>,
                  uuid: Option<string>, fileTaint: Option<string>)
    requires forall x :: x in deps ==> x in hashes
    ensures TaskText(a, hashes, deps, checksums, uuid, fileTaint)
         == TaskText(b, hashes, deps, checksums, uuid, fileTaint)
       <==> a == b
  {
    hide ChecksumsText, HashesText;
    SumsSplit(HashesText(a, hashes, deps), [], checksums);
    SumsSplit(HashesText(b, hashes, deps), [], checksums);
    NoSums(HashesText(a, hashes, deps));
    NoSums(HashesText(b, hashes, deps));
    assert [] + checksums == checksums;
    AfterBase(a, hashes, deps);
    AfterBase(b, hashes, deps);
    var tail := HashesText("", hashes, deps) + ChecksumsText("", checksums);
    assert "" + a == a && "" + b == b;
    Assoc(a, HashesText("", hashes, deps), ChecksumsText("", checksums));
    Assoc(b, HashesText("", hashes, deps), ChecksumsText("", checksums));
    EndShows("", a, b, tail, Text(uuid), Text(fileTaint));
  }

  lemma {:induction false} AfterBase(base: string, hashes: map<Tid, string>, deps: seq<Tid>)
    requires forall x :: x in deps ==> x in hashes
    ensures HashesText(base, hashes, deps) == base + HashesText("", hashes, deps)
  {
    if deps == [] {
    } else {
      AfterBase(base, hashes, deps[..|deps| - 1]);
      Assoc(base, HashesText("", hashes, deps[..|deps| - 1]), hashes[deps[|deps| - 1]]);
    }
  }

  /** The parts of a task's text, in order. */
  lemma TaskTextInOrder(base: string, a: Tid, b: Tid, hashes: map<Tid, string>, c: Checksum, uuid: string,
                        taint: string)
    requires a in hashes && b in hashes && c.sum.Some?
    ensures TaskText(base, hashes, [a, b], [c], Some(uuid), Some(taint))
         == base + hashes[a] + hashes[b] + c.sum.value + uuid + taint
  {
    assert [a, b][..1] == [a] && [a][..0] == [] && [c][..0] == [];
    assert HashesText(base, hashes, []) == base;
    assert HashesText(base, hashes, [a]) == base + hashes[a];
    var text := HashesText(base, hashes, [a, b]);
    assert text == base + hashes[a] + hashes[b];
    NoSums(text);
    OneMoreSum(text, [], c);
    assert [] + [c] == [c];
  }

  lemma KeptOne(deps: seq<Tid>, d: Tid, keep: Tid -> bool)
    ensures Kept(deps + [d], keep) == Kept(deps, keep) + if keep(d) then [d] else []
    ensures Kept([d], keep) == if keep(d) then [d] else []
  {
    assert (deps + [d])[..|deps|] == deps && [d][..0] == [];
  }

  /** Of a task's dependencies those that are kept count, in their order. */
  lemma {:induction false} KeptInOrder(a: seq<Tid>, b: seq<Tid>, keep: Tid -> bool)
    ensures Kept(a + b, keep) == Kept(a, keep) + Kept(b, keep)
    ensures forall d :: Kept([d], keep) == if keep(d) then [d] else []
    decreases |b|
  {
    hide Kept;
    forall d
      ensures Kept([d], keep) == if keep(d) then [d] else []
    {
      KeptOne([], d, keep);
    }
    if b == [] {
      assert a + b == a;
      NothingKept(keep);
    } else {
      var front, last := b[..|b| - 1], b[|b| - 1];
      assert b == front + [last] && a + b == a + front + [last];
      KeptInOrder(a, front, keep);
      KeptOne(a + front, last, keep);
      KeptOne(front, last, keep);
    }
  }

  lemma NothingKept(keep: Tid -> bool)
    ensures Kept([], keep) == []
  {
  }
}
