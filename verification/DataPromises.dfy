/** What setting a variable means for whoever reads it next: appending, prepending and
    removing, under overrides or not, told by the values read before and after. */
module DataPromises {
  import opened Sequences
  import opened Tasks
  import opened DataStore
  import DataLayers

  // ---- names with a keyword at the end ----

  predicate IsKeyword(keyword: string) {
    keyword == APPEND || keyword == PREPEND || keyword == REMOVE
  }

  lemma KeywordShape(keyword: string)
    requires IsKeyword(keyword)
    ensures |keyword| > 1 && keyword[0] == '_' && forall i :: 0 < i < |keyword| ==> keyword[i] != '_'
  {
  }

  lemma {:induction false} NothingBefore(s: string, from: nat, n: nat)
    requires from <= n <= |s| && forall i, k :: from <= i < n && IsKeyword(k) ==> !KeywordAt(s, k, i)
    ensures ParseName(s, from) == ParseName(s, n)
    decreases n - from
  {
    if from < n {
      assert IsKeyword(APPEND) && IsKeyword(PREPEND) && IsKeyword(REMOVE);
      assert !KeywordAt(s, APPEND, from) && !KeywordAt(s, PREPEND, from) && !KeywordAt(s, REMOVE, from);
      NothingBefore(s, from + 1, n);
    }
  }

  lemma {:induction false} PlainHasNone(s: string, from: nat, i: nat, keyword: string)
    requires from <= i <= |s| && ParseName(s, from).Plain? && IsKeyword(keyword)
    ensures !KeywordAt(s, keyword, i)
    decreases i - from
  {
    if from < i {
      PlainHasNone(s, from + 1, i, keyword);
    }
  }

  /** A plain name with a keyword and an override after it is read as just that. */
  lemma KeywordName(v: string, keyword: string, rest: string)
    requires ParseName(v, 0).Plain? && IsKeyword(keyword) && (rest == "" || rest[0] == '_')
    ensures ParseName(v + keyword + rest, 0) == Keyword(v, keyword, if rest == "" then None else Some(rest[1..]))
  {
    var s := v + keyword + rest;
    KeywordShape(keyword);
    assert s[|v|] == '_';
    forall i, k | 0 <= i < |v| && IsKeyword(k)
      ensures !KeywordAt(s, k, i)
    {
      KeywordShape(k);
      PlainHasNone(v, 0, i, k);
      if i + |k| <= |s| {
        var part := s[i..i + |k|];
        if i + |k| <= |v| {
          assert part == v[i..i + |k|];
        } else {
          assert part[|v| - i] == '_';
        }
      }
    }
    NothingBefore(s, 0, |v|);
    AtTheKeyword(s, v, keyword, rest);
  }

  lemma AtTheKeyword(s: string, v: string, keyword: string, rest: string)
    requires s == v + keyword + rest && IsKeyword(keyword) && (rest == "" || rest[0] == '_')
    ensures ParseName(s, |v|) == Keyword(v, keyword, if rest == "" then None else Some(rest[1..]))
  {
    var at := s[|v|..|v| + |keyword|];
    assert at == keyword && s[..|v|] == v;
    assert KeywordAt(s, keyword, |v|);
    assert rest != "" ==> s[|v| + |keyword| + 1..] == rest[1..];
    assert s[|v| + 1] == keyword[1];
    forall k | IsKeyword(k) && k != keyword
      ensures !KeywordAt(s, k, |v|)
    {
      if |v| + |k| <= |s| {
        assert s[|v|..|v| + |k|][1] == s[|v| + 1];
      }
    }
  }

  // ---- what changes below a name does not matter above it ----

  /** The two stores say the same about names longer than `v`. */
  ghost predicate SameAbove(a: Store, b: Store, v: string) {
    && (forall n :: |n| > |v| ==> (n in a.over <==> n in b.over) && DataOf(a, n) == DataOf(b, n))
    && (forall n :: |n| > |v| && n in a.over ==> a.over[n] == b.over[n])
  }

  lemma {:induction false} ReadsAbove(a: Store, b: Store, words: ToWords, overrides: seq<string>, v: string, n: string,
                                      value: Option<string>)
    requires LongerNames(a.over) && LongerNames(b.over) && SameAbove(a, b, v) && |n| > |v|
    requires Reads(a, words, overrides, n, value)
    ensures Reads(b, words, overrides, n, value)
    decreases Ahead(a.over, n)
  {
    hide Finish, Selects, Active, LongerNames;
    if n in a.over {
      var active := Active(overrides, a.over[n]);
      if !(Selects(overrides, active, None) && value == Finish(words, overrides, DataOf(a, n), None)) {
        var e, x :| e in a.over[n] && Selects(overrides, active, Some(e.name))
          && ReadsAhead(a, words, overrides, n, e, x) && value == Finish(words, overrides, DataOf(a, n), x);
        LongerEntry(a.over, n, e);
        AheadShrinks(a.over, n, e);
        ReadsAbove(a, b, words, overrides, v, e.name, x);
        assert ReadsAhead(b, words, overrides, n, e, x);
      }
    }
  }

  lemma LongerEntry(over: map<string, seq<Entry>>, v: string, e: Entry)
    requires LongerNames(over) && v in over && e in over[v]
    ensures |e.name| > |v|
  {
  }

  /** What the selected variant, if any, supplies. */
  ghost predicate SuppliedBy(st: Store, words: ToWords, overrides: seq<string>, v: string, x: Option<string>)
    requires LongerNames(st.over)
  {
    if v !in st.over then x == None
    else
      var active := Active(overrides, st.over[v]);
      || (Selects(overrides, active, None) && x == None)
      || exists e :: e in st.over[v] && Selects(overrides, active, Some(e.name))
           && ReadsAhead(st, words, overrides, v, e, x)
  }

  lemma ReadsSupplied(st: Store, words: ToWords, overrides: seq<string>, v: string, value: Option<string>)
    requires LongerNames(st.over)
    ensures Reads(st, words, overrides, v, value)
       <==> exists x :: SuppliedBy(st, words, overrides, v, x) && value == Finish(words, overrides, DataOf(st, v), x)
  {
    hide Finish, Selects, Active, LongerNames;
    if Reads(st, words, overrides, v, value) {
      if v !in st.over || (Selects(overrides, Active(overrides, st.over[v]), None)
                           && value == Finish(words, overrides, DataOf(st, v), None)) {
        assert SuppliedBy(st, words, overrides, v, None);
      } else {
        var e, x :| e in st.over[v] && Selects(overrides, Active(overrides, st.over[v]), Some(e.name))
          && ReadsAhead(st, words, overrides, v, e, x) && value == Finish(words, overrides, DataOf(st, v), x);
        assert SuppliedBy(st, words, overrides, v, x);
      }
    }
  }

  lemma SuppliedSame(a: Store, b: Store, words: ToWords, overrides: seq<string>, v: string, x: Option<string>)
    requires LongerNames(a.over) && LongerNames(b.over) && SameAbove(a, b, v) && SameAbove(b, a, v)
    requires (v in a.over <==> v in b.over) && (v in a.over ==> a.over[v] == b.over[v])
    ensures SuppliedBy(a, words, overrides, v, x) <==> SuppliedBy(b, words, overrides, v, x)
  {
    SuppliedToo(a, b, words, overrides, v, x);
    SuppliedToo(b, a, words, overrides, v, x);
  }

  lemma SuppliedToo(a: Store, b: Store, words: ToWords, overrides: seq<string>, v: string, x: Option<string>)
    requires LongerNames(a.over) && LongerNames(b.over) && SameAbove(a, b, v)
    requires (v in a.over <==> v in b.over) && (v in a.over ==> a.over[v] == b.over[v])
    ensures SuppliedBy(a, words, overrides, v, x) ==> SuppliedBy(b, words, overrides, v, x)
  {
    hide Selects, Active, LongerNames, SameAbove;
    if SuppliedBy(a, words, overrides, v, x) && v in a.over
       && !(Selects(overrides, Active(overrides, a.over[v]), None) && x == None) {
      var e :| e in a.over[v] && Selects(overrides, Active(overrides, a.over[v]), Some(e.name))
        && ReadsAhead(a, words, overrides, v, e, x);
      LongerEntry(a.over, v, e);
      ReadsAbove(a, b, words, overrides, v, e.name, x);
      assert ReadsAhead(b, words, overrides, v, e, x);
    }
  }

  // ---- operations ----

  lemma {:induction false} AddEntriesSame(over: map<string, seq<Entry>>, name: string, bases: seq<(string, string)>,
                                          n: string)
    requires forall b :: b in bases ==> b.0 != n
    ensures (n in AddEntries(over, name, bases) <==> n in over)
      && (n in over ==> AddEntries(over, name, bases)[n] == over[n])
    decreases |bases|
  {
    if bases == [] {
    } else {
      assert bases[0] in bases;
      AddEntriesSame(AddEntry(over, bases[0].0, Entry(name, bases[0].1)), name, bases[1..], n);
    }
  }

  /** Adding an operation to a variable changes nothing for longer names. */
  lemma AddOpBelow(st: Store, v: string, keyword: string, op: Op)
    requires LongerNames(st.over)
    ensures var st' := AddOp(st, v, keyword, op);
            && LongerNames(st'.over) && SameAbove(st, st', v) && SameAbove(st', st, v)
            && (v in st.over <==> v in st'.over) && (v in st.over ==> st.over[v] == st'.over[v])
            && DataOf(st', v) == DataOf(st,
                                        v).(ops := DataOf(st, v).ops[keyword := OpsOf(DataOf(st, v), keyword) + [op]])
  {
    hide AddEntries, BasesOf;
    BasesOfShorter(v);
    AddEntriesKeepsLonger(st.over, v, BasesOf(v));
    forall n | |n| >= |v|
      ensures (n in AddEntries(st.over, v, BasesOf(v)) <==> n in st.over)
        && (n in st.over ==> AddEntries(st.over, v, BasesOf(v))[n] == st.over[n])
    {
      AddEntriesSame(st.over, v, BasesOf(v), n);
    }
  }

  /** What is read after an operation comes from what was supplied before it. */
  lemma ReadsAfterOp(st: Store, words: ToWords, overrides: seq<string>, v: string, keyword: string, op: Op,
                     value: Option<string>)
    requires LongerNames(st.over)
    ensures var st' := AddOp(st, v, keyword, op);
            && LongerNames(st'.over)
            && (Reads(st', words, overrides, v, value)
                <==> exists x :: SuppliedBy(st, words, overrides, v, x)
                                 && value == Finish(words, overrides, DataOf(st', v), x))
  {
    hide AddOp, SuppliedBy, Finish, Reads, DataOf;
    var st' := AddOp(st, v, keyword, op);
    AddOpBelow(st, v, keyword, op);
    ReadsSupplied(st', words, overrides, v, value);
    forall x
      ensures SuppliedBy(st', words, overrides, v, x) <==> SuppliedBy(st, words, overrides, v, x)
    {
      SuppliedSame(st, st', words, overrides, v, x);
    }
  }

  /** An operation that turns what was supplied by `f`, turns what is read by `f`. */
  lemma ReadsThrough(st: Store, words: ToWords, overrides: seq<string>, v: string, keyword: string, op: Op,
                     value: Option<string>, f: Option<string> -> Option<string>)
    requires LongerNames(st.over)
    requires forall x :: Finish(words, overrides, DataOf(AddOp(st, v, keyword, op), v), x)
                         == f(Finish(words, overrides, DataOf(st, v), x))
    ensures LongerNames(AddOp(st, v, keyword, op).over)
    ensures Reads(AddOp(st, v, keyword, op), words, overrides, v, value)
       <==> exists was :: Reads(st, words, overrides, v, was) && value == f(was)
  {
    hide Finish, SuppliedBy, Reads, AddOp, DataOf;
    ReadsAfterOp(st, words, overrides, v, keyword, op, value);
    forall was
      ensures Reads(st, words, overrides, v, was)
         <==> exists x :: SuppliedBy(st, words, overrides, v, x) && was == Finish(words, overrides, DataOf(st, v), x)
    {
      ReadsSupplied(st, words, overrides, v, was);
    }
  }

  // ---- what appends and prepends add ----

  /** The text is added, or not: an operation under an override counts when every word of
      the override is in the list. */
  lemma {:induction false} AppendedAfter(overrides: seq<string>, ops: seq<Op>, a: string, b: string)
    ensures Prepended(overrides, ops, a + b) == Prepended(overrides, ops, a) + b
  {
    if ops == [] {
    } else {
      AppendedAfter(overrides, ops[..|ops| - 1], a, b);
      var text, rest := ops[|ops| - 1].text, Prepended(overrides, ops[..|ops| - 1], a);
      assert text + (rest + b) == text + rest + b;
    }
  }

  lemma OneMoreOp(overrides: seq<string>, ops: seq<Op>, op: Op, value: string)
    ensures Appended(overrides, ops + [op], value)
         == Appended(overrides, ops, value) + if Applies(overrides, op) then op.text else ""
    ensures Prepended(overrides, ops + [op], value)
         == (if Applies(overrides, op) then op.text else "") + Prepended(overrides, ops, value)
  {
    assert (ops + [op])[..|ops|] == ops;
    assert Appended(overrides, ops, value) + "" == Appended(overrides, ops, value);
    assert "" + Prepended(overrides, ops, value) == Prepended(overrides, ops, value);
  }

  lemma KeywordsDiffer()
    ensures APPEND != PREPEND && APPEND != REMOVE && PREPEND != REMOVE
  {
    assert APPEND[1] == 'a' && PREPEND[1] == 'p' && REMOVE[1] == 'r';
  }

  /** `Finish` without removals, in one expression. */
  lemma FinishIs(words: ToWords, overrides: seq<string>, d: VarData, x: Option<string>)
    requires REMOVE !in d.ops
    ensures var own := if x.Some? then x else OwnValue(d);
            Finish(words, overrides, d, x)
            == if APPEND !in d.ops && PREPEND !in d.ops then own
               else Some(Prepended(overrides, OpsOf(d, PREPEND),
                                   Appended(overrides, OpsOf(d, APPEND), if own.Some? then own.value else "")))
  {
    hide Appended, Prepended, OwnValue;
    var own := if x.Some? then x else OwnValue(d);
    var base := if own.Some? then own.value else "";
    NoOps(overrides, base);
    NoOps(overrides, Appended(overrides, OpsOf(d, APPEND), base));
  }

  lemma FinishAppended(words: ToWords, overrides: seq<string>, d: VarData, op: Op, x: Option<string>)
    requires REMOVE !in d.ops
    ensures var was := Finish(words, overrides, d, x);
            Finish(words, overrides, d.(ops := d.ops[APPEND := OpsOf(d, APPEND) + [op]]), x)
            == Some((if was.Some? then was.value else "") + if Applies(overrides, op) then op.text else "")
  {
    hide Applies, Finish, Appended, Prepended;
    KeywordsDiffer();
    var d' := d.(ops := d.ops[APPEND := OpsOf(d, APPEND) + [op]]);
    FinishIs(words, overrides, d, x);
    FinishIs(words, overrides, d', x);
    var own := if x.Some? then x else OwnValue(d);
    var base := if own.Some? then own.value else "";
    var appended := Appended(overrides, OpsOf(d, APPEND), base);
    OneMoreOp(overrides, OpsOf(d, APPEND), op, base);
    NoOps(overrides, base);
    AppendedAfter(overrides, OpsOf(d, PREPEND), appended, if Applies(overrides, op) then op.text else "");
  }

  lemma FinishPrepended(words: ToWords, overrides: seq<string>, d: VarData, op: Op, x: Option<string>)
    requires REMOVE !in d.ops
    ensures var was := Finish(words, overrides, d, x);
            Finish(words, overrides, d.(ops := d.ops[PREPEND := OpsOf(d, PREPEND) + [op]]), x)
            == Some((if Applies(overrides, op) then op.text else "") + if was.Some? then was.value else "")
  {
    hide Applies, Finish, Appended, Prepended;
    KeywordsDiffer();
    var d' := d.(ops := d.ops[PREPEND := OpsOf(d, PREPEND) + [op]]);
    FinishIs(words, overrides, d, x);
    FinishIs(words, overrides, d', x);
    var own := if x.Some? then x else OwnValue(d);
    var base := if own.Some? then own.value else "";
    OneMoreOp(overrides, OpsOf(d, PREPEND), op, Appended(overrides, OpsOf(d, APPEND), base));
    NoOps(overrides, base);
  }

  lemma NoOps(overrides: seq<string>, value: string)
    ensures Appended(overrides, [], value) == Prepended(overrides, [], value) == value
  {
  }

  /** The override an operation stands under, as it is written after the keyword. */
  function Under(o: Option<string>): string {
    if o.Some? then "_" + o.value else ""
  }

  lemma AppendOp(st: Store, words: ToWords, overrides: seq<string>, v: string, op: Op, value: Option<string>)
    requires LongerNames(st.over) && REMOVE !in DataOf(st, v).ops
    ensures LongerNames(AddOp(st, v, APPEND, op).over)
    ensures Reads(AddOp(st, v, APPEND, op), words, overrides, v, value)
       <==> exists was :: Reads(st, words, overrides, v, was)
                          && value == Some((if was.Some? then was.value else "") + if Applies(overrides, op)
                                           then op.text else "")
  {
    hide Finish, Reads, AddOp, Applies, RemoveWords;
    var f := (was: Option<string>) => Some((if was.Some? then was.value else "") + if Applies(overrides, op)
                                           then op.text else "");
    AddOpBelow(st, v, APPEND, op);
    forall x
      ensures Finish(words, overrides, DataOf(AddOp(st, v, APPEND, op), v), x)
           == f(Finish(words, overrides, DataOf(st, v), x))
    {
      FinishAppended(words, overrides, DataOf(st, v), op, x);
    }
    ReadsThrough(st, words, overrides, v, APPEND, op, value, f);
  }

  /** After text is appended to a variable without removals, reading gives what it could
      give before with the text at its end, whatever overrides, appends and prepends there
      are; a variable without a value counts as empty. Under an override the text is added
      exactly when every word of the override is in the list. */
  lemma AppendThenRead(st: Store, words: ToWords, overrides: seq<string>, v: string, o: Option<string>, text: string,
                       value: Option<string>)
    requires LongerNames(st.over) && ParseName(v, 0).Plain? && REMOVE !in DataOf(st, v).ops
    ensures var st' := SetVar(st, overrides, v + APPEND + Under(o), text, true);
            var added := if o.None? || o.value == "" || (forall w :: w in Split(o.value, '_') ==> w in overrides)
                         then text else "";
            && LongerNames(st'.over)
            && (Reads(st', words, overrides, v, value)
                <==> exists was :: Reads(st, words, overrides, v, was)
                                   && value == Some((if was.Some? then was.value else "") + added))
  {
    hide Reads, AddOp, DataOf, ParseName, RemoveWords;
    KeywordName(v, APPEND, Under(o));
    AppendOp(st, words, overrides, v, Op(text, o), value);
  }

  lemma PrependOp(st: Store, words: ToWords, overrides: seq<string>, v: string, op: Op, value: Option<string>)
    requires LongerNames(st.over) && REMOVE !in DataOf(st, v).ops
    ensures LongerNames(AddOp(st, v, PREPEND, op).over)
    ensures Reads(AddOp(st, v, PREPEND, op), words, overrides, v, value)
       <==> exists was :: Reads(st, words, overrides, v, was)
                          && value == Some((if Applies(overrides, op) then op.text else "") + if was.Some?
                                           then was.value else "")
  {
    hide Finish, Reads, AddOp, Applies, RemoveWords;
    var f := (was: Option<string>) => Some((if Applies(overrides, op) then op.text else "") + if was.Some?
                                           then was.value else "");
    AddOpBelow(st, v, PREPEND, op);
    forall x
      ensures Finish(words, overrides, DataOf(AddOp(st, v, PREPEND, op), v), x)
           == f(Finish(words, overrides, DataOf(st, v), x))
    {
      FinishPrepended(words, overrides, DataOf(st, v), op, x);
    }
    ReadsThrough(st, words, overrides, v, PREPEND, op, value, f);
  }

  /** And after text is prepended, with the text in front. */
  lemma PrependThenRead(st: Store, words: ToWords, overrides: seq<string>, v: string, o: Option<string>, text: string,
                        value: Option<string>)
    requires LongerNames(st.over) && ParseName(v, 0).Plain? && REMOVE !in DataOf(st, v).ops
    ensures var st' := SetVar(st, overrides, v + PREPEND + Under(o), text, true);
            var added := if o.None? || o.value == "" || (forall w :: w in Split(o.value, '_') ==> w in overrides)
                         then text else "";
            && LongerNames(st'.over)
            && (Reads(st', words, overrides, v, value)
                <==> exists was :: Reads(st, words, overrides, v, was)
                                   && value == Some(added + if was.Some? then was.value else ""))
  {
    hide Reads, AddOp, DataOf, ParseName, RemoveWords;
    KeywordName(v, PREPEND, Under(o));
    PrependOp(st, words, overrides, v, Op(text, o), value);
  }

  // ---- what removals take away ----

  lemma {:induction false} OneWord(w: string, begun: string)
    requires forall i :: 0 <= i < |w| ==> w[i] !in " \t\n\r"
    ensures WordsOf(w, begun) == if begun + w == "" then [] else [begun + w]
    decreases |w|
  {
    if w == "" {
      assert begun + w == begun;
    } else {
      OneWord(w[1..], begun + [w[0]]);
      assert begun + [w[0]] + w[1..] == begun + w;
    }
  }

  /** White space separates words, however much of it there is. */
  lemma {:induction false} WordsSplit(a: string, c: char, b: string, begun: string)
    requires c in " \t\n\r"
    ensures WordsOf(a + [c] + b, begun) == WordsOf(a, begun) + WordsOf(b, "")
    decreases |a|
  {
    var s := a + [c] + b;
    if a == "" {
      assert s[0] == c && s[1..] == b;
    } else {
      assert s[0] == a[0] && s[1..] == a[1..] + [c] + b;
      WordsSplit(a[1..], c, b, if IsSpace(a[0]) then "" else begun + [a[0]]);
    }
  }

  predicate AreWords(ws: seq<string>) {
    forall w :: w in ws ==> w != "" && forall i :: 0 <= i < |w| ==> w[i] !in " \t\n\r"
  }

  lemma {:induction false} WordsAreWords(s: string, begun: string)
    requires forall i :: 0 <= i < |begun| ==> begun[i] !in " \t\n\r"
    ensures AreWords(WordsOf(s, begun))
    decreases |s|
  {
    if s == "" {
    } else if IsSpace(s[0]) {
      WordsAreWords(s[1..], "");
    } else {
      WordsAreWords(s[1..], begun + [s[0]]);
    }
  }

  lemma {:induction false} JoinedWords(ws: seq<string>)
    requires AreWords(ws)
    ensures WordsOf(Join(ws), "") == ws
  {
    if ws == [] {
    } else {
      assert ws[0] in ws && ws == [ws[0]] + ws[1..];
      OneWord(ws[0], "");
      assert "" + ws[0] == ws[0];
      if |ws| > 1 {
        JoinedWords(ws[1..]);
        assert ws[0] + " " + Join(ws[1..]) == ws[0] + [' '] + Join(ws[1..]);
        WordsSplit(ws[0], ' ', Join(ws[1..]), "");
      }
    }
  }

  /** What is left are the words that are not to go, in their order. */
  lemma {:induction false} KeptWords(a: seq<string>, w: string, b: seq<string>, gone: seq<string>)
    ensures Keep(a + b, gone) == Keep(a, gone) + Keep(b, gone)
    ensures Keep([w], gone) == if w in gone then [] else [w]
    decreases |a|
  {
    if a == [] {
      assert a + b == b;
    } else {
      assert (a + b)[1..] == a[1..] + b;
      KeptWords(a[1..], w, b, gone);
    }
  }

  /** Taking words out of a text leaves exactly its other words, with single blanks between
      them. */
  lemma RemovedWords(value: string, gone: seq<string>)
    requires gone != []
    ensures WordsOf(RemoveWords(value, gone), "") == Keep(WordsOf(value, ""), gone)
    ensures RemoveWords(value, gone) == Join(WordsOf(RemoveWords(value, gone), ""))
  {
    hide Keep;
    WordsAreWords(value, "");
    JoinedWords(Keep(WordsOf(value, ""), gone));
  }

  lemma RemovalIsLast(words: ToWords, overrides: seq<string>, d: VarData, x: Option<string>)
    ensures Finish(words, overrides, d, x)
         == AfterRemoval(words, overrides, d, Finish(words, overrides, d.(ops := d.ops - {REMOVE}), x))
  {
    hide Appended, Prepended, OwnValue, WordsToRemove, RemoveWords;
    KeywordsDiffer();
    var kept := d.(ops := d.ops - {REMOVE});
    assert (APPEND in kept.ops <==> APPEND in d.ops) && (PREPEND in kept.ops <==> PREPEND in d.ops);
    assert APPEND in d.ops ==> kept.ops[APPEND] == d.ops[APPEND];
    assert PREPEND in d.ops ==> kept.ops[PREPEND] == d.ops[PREPEND];
    assert OwnValue(kept) == OwnValue(d) by {
      SameFlags(kept, d);
    }
  }

  lemma SameFlags(a: VarData, b: VarData)
    requires a.flags == b.flags
    ensures OwnValue(a) == OwnValue(b)
  {
  }

  lemma OneRemoval(words: ToWords, overrides: seq<string>, d: VarData, op: Op, was: Option<string>)
    requires REMOVE in d.ops && d.ops[REMOVE] == [op]
    ensures AfterRemoval(words, overrides, d, was)
         == if was.None? || was.value == "" || !Applies(overrides, op) || words(op.text) == [] then was
            else Some(RemoveWords(was.value, words(op.text)))
  {
    hide Applies;
    assert [op][..0] == [];
    assert WordsToRemove(words, overrides, [op]) == if Applies(overrides, op) then words(op.text) else [];
  }

  lemma FinishRemoved(words: ToWords, overrides: seq<string>, d: VarData, op: Op, x: Option<string>)
    requires REMOVE !in d.ops
    ensures var was := Finish(words, overrides, d, x);
            Finish(words, overrides, d.(ops := d.ops[REMOVE := OpsOf(d, REMOVE) + [op]]), x)
            == if was.None? || was.value == "" || !Applies(overrides, op) || words(op.text) == [] then was
               else Some(RemoveWords(was.value, words(op.text)))
  {
    hide Applies, OwnValue, Finish, AfterRemoval, RemoveWords;
    var d' := d.(ops := d.ops[REMOVE := OpsOf(d, REMOVE) + [op]]);
    RemovalIsLast(words, overrides, d', x);
    assert d'.ops - {REMOVE} == d.ops;
    OneRemoval(words, overrides, d', op, Finish(words, overrides, d, x));
  }

  lemma RemoveOp(st: Store, words: ToWords, overrides: seq<string>, v: string, op: Op, value: Option<string>)
    requires LongerNames(st.over) && REMOVE !in DataOf(st, v).ops
    ensures LongerNames(AddOp(st, v, REMOVE, op).over)
    ensures Reads(AddOp(st, v, REMOVE, op), words, overrides, v, value)
       <==> exists was :: Reads(st, words, overrides, v, was)
                          && value == if was.None? || was.value == "" || !Applies(overrides, op)
                             || words(op.text) == [] then was
                                      else Some(RemoveWords(was.value, words(op.text)))
  {
    hide Finish, Reads, AddOp, Applies, RemoveWords;
    var f := (was: Option<string>) => if was.None? || was.value == "" || !Applies(overrides, op)
      || words(op.text) == [] then was
                                      else Some(RemoveWords(was.value, words(op.text)));
    AddOpBelow(st, v, REMOVE, op);
    forall x
      ensures Finish(words, overrides, DataOf(AddOp(st, v, REMOVE, op), v), x)
           == f(Finish(words, overrides, DataOf(st, v), x))
    {
      FinishRemoved(words, overrides, DataOf(st, v), op, x);
    }
    ReadsThrough(st, words, overrides, v, REMOVE, op, value, f);
  }

  /** After words are removed from a variable that had none removed before, reading gives
      what it could give before, without these words where there is a text. */
  lemma RemoveThenRead(st: Store, words: ToWords, overrides: seq<string>, v: string, o: Option<string>, text: string,
                       value: Option<string>)
    requires LongerNames(st.over) && ParseName(v, 0).Plain? && REMOVE !in DataOf(st, v).ops
    ensures var st' := SetVar(st, overrides, v + REMOVE + Under(o), text, true);
            var gone := if o.None? || o.value == "" || (forall w :: w in Split(o.value, '_') ==> w in overrides)
                        then words(text) else [];
            && LongerNames(st'.over)
            && (Reads(st', words, overrides, v, value)
                <==> exists was :: Reads(st, words, overrides, v, was)
                                   && value == if was.None? || was.value == "" || gone == [] then was
                                               else Some(RemoveWords(was.value, gone)))
  {
    hide Reads, AddOp, DataOf, ParseName, RemoveWords;
    KeywordName(v, REMOVE, Under(o));
    RemoveOp(st, words, overrides, v, Op(text, o), value);
  }

  // ---- which names count as variants of which ----

  /** The override of the cut at `i` is lower case: it has a small letter and no capital. */
  ghost predicate LowerAfter(name: string, i: nat) {
    && (exists k :: i < k < |name| && 'a' <= name[k] <= 'z')
    && forall k :: i < k < |name| ==> !('A' <= name[k] <= 'Z')
  }

  lemma LowerIs(name: string, i: nat)
    requires i < |name|
    ensures IsLower(name[i + 1..]) <==> LowerAfter(name, i)
    ensures LowerAfter(name, i) ==> name[i + 1..] != ""
  {
    var o := name[i + 1..];
    assert forall k :: 0 <= k < |o| ==> o[k] == name[k + i + 1];
    if LowerAfter(name, i) {
      var k :| i < k < |name| && 'a' <= name[k] <= 'z';
      assert IsLowerChar(o[k - i - 1]);
      assert forall j :: 0 <= j < |o| ==> !IsUpperChar(o[j]);
    }
    if IsLower(o) {
      var k :| 0 <= k < |o| && IsLowerChar(o[k]);
      assert 'a' <= name[k + i + 1] <= 'z';
      forall j | i < j < |name|
        ensures !('A' <= name[j] <= 'Z')
      {
        assert !IsUpperChar(o[j - i - 1]);
      }
    }
  }

  /** A cut at an underscore counts when the overrides of it and of all later cuts are lower
      case; one at the front of the name does not, unless it is the only one. */
  ghost predicate CutCounts(name: string, i: nat) {
    && i < |name| && name[i] == '_'
    && (forall j :: i <= j < |name| && name[j] == '_' ==> LowerAfter(name, j))
    && (i > 0 || forall j :: 0 < j < |name| ==> name[j] != '_')
  }

  lemma {:induction false} BasesFrom(name: string, i: nat, b: (string, string))
    requires i < |name| && name[i] == '_'
    requires forall j :: i < j < |name| && name[j] == '_' ==> LowerAfter(name, j)
    requires i == 0 ==> forall j :: 0 < j < |name| ==> name[j] != '_'
    ensures b in Bases(name, name[..i], name[i + 1..])
       <==> exists j :: 0 <= j <= i && CutCounts(name, j) && b == (name[..j], name[j + 1..])
    decreases i
  {
    hide LowerAfter, IsLower;
    var short, override := name[..i], name[i + 1..];
    LowerIs(name, i);
    if LowerAfter(name, i) {
      assert CutCounts(name, i);
      var k := RFind(short);
      if k > 0 {
        assert name[..k] == short[..k] && name[k] == '_';
        assert forall j :: k < j < i ==> name[j] == short[j] != '_';
        BasesFrom(name, k, b);
        forall j | 0 <= j <= i && CutCounts(name, j)
          ensures j <= k || j == i
        {
        }
        assert Bases(name, short, override) == [(short, override)] + Bases(name, name[..k], name[k + 1..]);
      } else {
        assert forall j :: 0 < j < i ==> name[j] == short[j] != '_';
        assert NextCut(name, short) == (short, "");
        assert Bases(name, short, override) == [(short, override)] + [];
        forall j | 0 <= j < i
          ensures !CutCounts(name, j)
        {
          assert j == 0 ==> 0 < i && name[i] == '_';
        }
      }
    } else {
      forall j | 0 <= j <= i
        ensures !CutCounts(name, j)
      {
      }
    }
  }

  /** The shorter names a name is a variant of, with the overrides: the cuts that count. A
      name without an underscore counts as a variant of itself without its last letter. */
  lemma BasesAre(name: string, b: (string, string))
    ensures '_' in name ==>
      (b in BasesOf(name) <==> exists i: nat :: CutCounts(name, i) && b == (name[..i], name[i + 1..]))
    ensures '_' !in name ==>
      (b in BasesOf(name) <==> IsLower(name) && name != "" && b == (name[..|name| - 1], name))
  {
    hide IsLower, CutCounts, Bases;
    var i := RFind(name);
    if i >= 0 {
      BasesFrom(name, i, b);
      CutsUpTo(name, i);
    } else {
      WholeName(name);
    }
  }

  lemma CutsUpTo(name: string, i: nat)
    requires forall j :: i < j < |name| ==> name[j] != '_'
    ensures forall j: nat :: CutCounts(name, j) ==> j <= i
  {
  }

  lemma WholeName(name: string)
    requires '_' !in name
    ensures BasesOf(name) == if name != "" && IsLower(name) then [(name[..|name| - 1], name)] else []
  {
    hide IsLower;
    assert RFind(name) == -1;
    if name == "" {
      return;
    }
    var short := name[..|name| - 1];
    assert RFind(short) == -1;
    assert NextCut(name, short) == (short, "");
    assert Bases(name, short, "") == [];
  }

  lemma {:induction false} EntryAdded(over: map<string, seq<Entry>>, name: string, bases: seq<(string, string)>,
                                      v: string, o: string)
    requires v !in over || over[v] == [Entry(name, o)]
    requires forall b :: b in bases && b.0 == v ==> b.1 == o
    ensures v in over || (v, o) in bases ==>
      v in AddEntries(over, name, bases) && AddEntries(over, name, bases)[v] == [Entry(name, o)]
    decreases |bases|
  {
    if bases == [] {
    } else {
      assert bases[0] in bases && bases == [bases[0]] + bases[1..];
      EntryAdded(AddEntry(over, bases[0].0, Entry(name, bases[0].1)), name, bases[1..], v, o);
    }
  }

  lemma VariantCut(v: string, o: string)
    requires v != "" && o != "" && forall i :: 0 <= i < |o| ==> 'a' <= o[i] <= 'z'
    ensures var name := v + "_" + o;
            '_' in name && CutCounts(name, |v|) && name[..|v|] == v && name[|v| + 1..] == o
  {
    var name := v + "_" + o;
    assert name[|v|] == '_';
    assert forall j :: |v| < j < |name| ==> name[j] == o[j - |v| - 1];
    assert 'a' <= name[|v| + 1] <= 'z';
    assert LowerAfter(name, |v|);
  }

  /** A name made of a variable and a small word counts as the variable's variant for that
      word, and as no other variant of it. */
  lemma VariantName(v: string, o: string)
    requires v != "" && o != "" && forall i :: 0 <= i < |o| ==> 'a' <= o[i] <= 'z'
    ensures (v, o) in BasesOf(v + "_" + o)
    ensures forall b :: b in BasesOf(v + "_" + o) && b.0 == v ==> b.1 == o
  {
    hide CutCounts, BasesOf;
    var name := v + "_" + o;
    VariantCut(v, o);
    BasesAre(name, (v, o));
    forall b | b in BasesOf(name) && b.0 == v
      ensures b.1 == o
    {
      BasesAre(name, b);
      OneCut(name, b, |v|);
    }
  }

  lemma OneCut(name: string, b: (string, string), n: nat)
    requires n < |name| && |b.0| == n && exists i: nat :: CutCounts(name, i) && b == (name[..i], name[i + 1..])
    ensures b == (name[..n], name[n + 1..])
  {
  }

  /** What setting a plain name leaves of a variable with a shorter name. */
  lemma SetBelow(st: Store, overrides: seq<string>, v: string, o: string, text: string)
    requires LongerNames(st.over) && v != "" && o != "" && (forall i :: 0 <= i < |o| ==> 'a' <= o[i] <= 'z')
    requires v !in st.over
    ensures var st' := SetPlain(st, overrides, v + "_" + o, text, false);
            && LongerNames(st'.over) && v in st'.over && st'.over[v] == [Entry(v + "_" + o, o)]
            && DataOf(st', v) == DataOf(st, v)
  {
    hide BasesOf, AddEntries, LongerNames;
    var name := v + "_" + o;
    var pending := DropPending(st, name);
    var cleared := DropVariants(pending, overrides, name);
    DropVariantsFacts(pending, overrides, name);
    DroppedBelow(pending, overrides, name, v);
    PutFlagKeepsLonger(cleared, name, CONTENT, text, true);
    VariantName(v, o);
    EntryAdded(cleared.over, name, BasesOf(name), v, o);
    assert name[|v|] == '_';
  }

  lemma DroppedBelow(st: Store, overrides: seq<string>, name: string, v: string)
    requires LongerNames(st.over) && |v| < |name| && v !in st.over
    ensures v !in DropVariants(st, overrides, name).over
      && DataOf(DropVariants(st, overrides, name), v) == DataOf(st, v)
  {
    if name in st.over {
      var names := ActiveNames(overrides, st.over[name]);
      forall n | n in names
        ensures n != v
      {
        var e :| e in st.over[name] && e.name == n;
      }
      DelVarsKeepsLonger(st, names);
      NotListed(st, names, v);
    }
  }

  lemma {:induction false} NotListed(st: Store, names: seq<string>, v: string)
    requires LongerNames(st.over) && v !in st.over
    ensures v !in DelVars(st, names).over
    decreases |names|
  {
    if names == [] {
    } else {
      DelVarKeepsLonger(st, names[0]);
      NotListed(DelVar(st, names[0]), names[1..], v);
    }
  }

  /** A value set under an override is what the variable reads as exactly when the override
      is in the list; otherwise its own value is. */
  lemma OverrideThenRead(st: Store, words: ToWords, overrides: seq<string>, v: string, o: string, text: string,
                         value: Option<string>)
    requires LongerNames(st.over) && v !in st.over && v != ""
    requires o != "" && forall i :: 0 <= i < |o| ==> 'a' <= o[i] <= 'z'
    requires ParseName(v + "_" + o, 0).Plain? && DataOf(st, v).ops == map[] && DataOf(st, v + "_" + o).ops == map[]
    ensures var st' := SetVar(st, overrides, v + "_" + o, text, false);
            && LongerNames(st'.over)
            && (Reads(st', words, overrides, v, value) ==>
                value == if o in overrides then Some(text) else OwnValue(DataOf(st, v)))
  {
    hide SetPlain, Selects, DataOf, OwnValue, ParseName, Wins, FirstIndex, LongerNames;
    var name := v + "_" + o;
    var st' := SetVar(st, overrides, name, text, false);
    SetVarKeepsLonger(st, overrides, name, text, false);
    SetBelow(st, overrides, v, o, text);
    OneVariant(overrides, name, o);
    if Reads(st', words, overrides, v, value) {
      if o in overrides {
        OnlyOneWins(overrides, name, o);
        SingleWordOverride(st', words, overrides, v, o, value);
        forall x
          ensures Reads(st', words, overrides, name, x) ==> x == Some(text)
        {
          SetThenRead(st, words, overrides, name, text, x);
        }
      } else {
        NothingSelected(overrides);
        SuppliedOrOwn(words, overrides, DataOf(st', v), None);
      }
    }
  }

  lemma OneVariant(overrides: seq<string>, name: string, o: string)
    requires forall i :: 0 <= i < |o| ==> 'a' <= o[i] <= 'z'
    ensures Active(overrides, [Entry(name, o)]) == if o in overrides then map[o := name] else map[]
    ensures SingleWords(Active(overrides, [Entry(name, o)]))
  {
    assert [Entry(name, o)][..0] == [];
    assert Active(overrides, []) == map[];
  }

  lemma OnlyOneWins(overrides: seq<string>, name: string, o: string)
    requires o in overrides
    ensures Wins(overrides, map[o := name], o)
  {
  }

  lemma NothingSelected(overrides: seq<string>)
    ensures forall m :: Selects(overrides, map[], m) ==> m == None
  {
  }

  /** While files are still being parsed, a plain value takes the place of the variable's own
      value only: what was appended and prepended stays. */
  lemma SetWhileParsing(st: Store, words: ToWords, overrides: seq<string>, v: string, text: string,
                        value: Option<string>)
    requires LongerNames(st.over) && v !in st.over && ParseName(v, 0).Plain? && REMOVE !in DataOf(st, v).ops
    ensures var st' := SetVar(st, overrides, v, text, true);
            && LongerNames(st'.over)
            && (Reads(st', words, overrides, v, value) <==>
                value == Some(Prepended(overrides, OpsOf(DataOf(st, v), PREPEND),
                                        Appended(overrides, OpsOf(DataOf(st, v), APPEND), text))))
  {
    hide AddEntries, BasesOf, LongerNames, Appended, Prepended, Finish;
    SetVarKeepsLonger(st, overrides, v, text, true);
    BasesOfShorter(v);
    AddEntriesElsewhere(st.over, v, BasesOf(v), v);
    var d := DataOf(SetVar(st, overrides, v, text, true), v);
    assert d == DataOf(st, v).(flags := DataOf(st, v).flags[CONTENT := text]);
    FinishIs(words, overrides, d, None);
    NoOps(overrides, text);
  }

  /** Afterwards it deletes exactly the variants in force, and leaves all other variables
      as they were. */
  lemma SetDeletesActive(st: Store, overrides: seq<string>, v: string, text: string, n: string)
    requires LongerNames(st.over) && n != v
    ensures var gone := v in st.over && exists e ::
                          e in st.over[v] && e.name == n
                          && (e.override in overrides
                              || ('_' in e.override && forall w :: w in Split(e.override, '_') ==> w in overrides));
            DataOf(SetPlain(st, overrides, v, text, false), n) == if gone then VarData(map[], map[]) else DataOf(st, n)
  {
    hide AddEntries, BasesOf, LongerNames, DropEntries;
    var pending := DropPending(st, v);
    assert DataOf(pending, n) == DataOf(st, n) && pending.over == st.over;
    if v in st.over {
      var names := ActiveNames(overrides, st.over[v]);
      ActiveNamesAre(overrides, st.over[v], n);
      DeletedNames(pending, names, n);
    }
  }

  lemma {:induction false} ActiveNamesAre(overrides: seq<string>, entries: seq<Entry>, n: string)
    ensures n in ActiveNames(overrides, entries)
      <==> exists e :: e in entries && e.name == n && InForce(overrides, e.override)
  {
    hide InForce;
    if entries == [] {
    } else {
      var front, last := entries[..|entries| - 1], entries[|entries| - 1];
      assert entries == front + [last];
      ActiveNamesAre(overrides, front, n);
      if n == last.name && InForce(overrides, last.override) {
        assert last in entries;
      }
    }
  }

  lemma {:induction false} DeletedNames(st: Store, names: seq<string>, n: string)
    ensures DataOf(DelVars(st, names), n) == if n in names then EMPTY else DataOf(st, n)
    decreases |names|
  {
    hide DropEntries, BasesOf;
    if names == [] {
    } else {
      assert names == [names[0]] + names[1..];
      DeletedNames(DelVar(st, names[0]), names[1..], n);
    }
  }

  /** Deleting a variable's only variant gives it its own value back. */
  lemma DeleteVariantThenRead(st: Store, words: ToWords, overrides: seq<string>, v: string, o: string,
                              value: Option<string>)
    requires LongerNames(st.over) && v != "" && o != "" && (forall i :: 0 <= i < |o| ==> 'a' <= o[i] <= 'z')
    requires v in st.over && st.over[v] == [Entry(v + "_" + o, o)] && DataOf(st, v).ops == map[]
    ensures var st' := DelVar(st, v + "_" + o);
            LongerNames(st'.over) && (Reads(st', words, overrides, v, value) ==> value == OwnValue(DataOf(st, v)))
  {
    hide BasesOf, DropEntries, LongerNames, OwnValue, Selects;
    var name := v + "_" + o;
    var st' := DelVar(st, name);
    DelVarKeepsLonger(st, name);
    VariantName(v, o);
    assert name[|v|] == '_';
    EntryDropped(st.over - {name}, name, BasesOf(name), v, o);
    assert Active(overrides, []) == map[];
    NothingSelected(overrides);
    SuppliedOrOwn(words, overrides, DataOf(st', v), None);
  }

  lemma {:induction false} EntryDropped(over: map<string, seq<Entry>>, name: string, bases: seq<(string, string)>,
                                        v: string, o: string)
    requires v in over && (over[v] == [Entry(name, o)] || over[v] == [])
    requires forall b :: b in bases && b.0 == v ==> b.1 == o
    ensures v in DropEntries(over, name, bases)
    ensures (v, o) in bases || over[v] == [] ==> DropEntries(over, name, bases)[v] == []
    decreases |bases|
  {
    if bases == [] {
    } else {
      assert bases[0] in bases && bases == [bases[0]] + bases[1..];
      var next := DropEntry(over, bases[0].0, Entry(name, bases[0].1));
      assert next[v] == if bases[0].0 == v then [] else over[v];
      EntryDropped(next, name, bases[1..], v, o);
    }
  }

  /** A default counts until the variable has a value of its own. */
  lemma DefaultThenRead(st: Store, words: ToWords, overrides: seq<string>, v: string, text: string,
                        value: Option<string>)
    requires LongerNames(st.over) && v !in st.over && DataOf(st, v).ops == map[]
    ensures var st' := SetVarFlag(st, v, "_defaultval", text);
            && LongerNames(st'.over)
            && (Reads(st', words, overrides, v, value) <==>
                value == Some(if "_content" in DataOf(st, v).flags then DataOf(st, v).flags["_content"] else text))
  {
    hide AddEntries, BasesOf, LongerNames;
    BasesOfShorter(v);
    PutFlagKeepsLonger(st, v, "_defaultval", text, '_' in v);
    AddEntriesElsewhere(st.over, v, BasesOf(v), v);
    assert "_content"[1] == 'c' && "_defaultval"[1] == 'd';
  }

  /** A variable that was deleted reads as nothing, whatever variants it had. */
  lemma DeleteThenRead(st: Store, words: ToWords, overrides: seq<string>, v: string, value: Option<string>)
    requires LongerNames(st.over)
    ensures LongerNames(DelVar(st, v).over) && (Reads(DelVar(st, v), words, overrides, v, value) <==> value == None)
  {
    DelVarKeepsLonger(st, v);
  }

  /** The variants in force are those whose override is in the list, or has all its words
      there. */
  lemma {:induction false} ActiveIs(overrides: seq<string>, entries: seq<Entry>, o: string)
    ensures o in Active(overrides, entries) <==>
      (exists e :: e in entries && e.override == o)
      && (o in overrides || ('_' in o && forall w :: w in Split(o, '_') ==> w in overrides))
  {
    if entries == [] {
    } else {
      var front, last := entries[..|entries| - 1], entries[|entries| - 1];
      assert entries == front + [last];
      ActiveIs(overrides, front, o);
    }
  }

  // ---- overrides of two words ----

  /** The variant for `a_b` has not been met, has been cut down to `a`, or was found. */
  ghost predicate OnTheWay(a: string, b: string, name: string, r: Reduction) {
    || r == Reduction(map[a + "_" + b := name], None)
    || r == Reduction(map[a := name], None)
    || r == Reduction(map[], Some(name))
  }

  lemma CutDown(a: string, b: string, o: string)
    requires a != "" && b != "" && '_' !in a && '_' !in b
    ensures EndsWith(a + "_" + b, "_" + o) <==> o == b
    ensures !EndsWith(a, "_" + o) && Removed(a + "_" + b, "_" + b) == a
  {
    var s := a + "_" + b;
    assert s[|a|] == '_' && forall i :: 0 <= i < |s| && i != |a| ==> s[i] != '_';
    if |o| + 1 <= |s| {
      var end := s[|s| - (|o| + 1)..];
      assert end[0] == s[|s| - (|o| + 1)];
      assert s[|a|..] == "_" + b;
      assert ("_" + o)[0] == '_' && ("_" + o)[1..] == o && ("_" + b)[1..] == b;
    }
    if |o| + 1 <= |a| {
      assert a[|a| - (|o| + 1)..][0] == a[|a| - (|o| + 1)];
    }
    CutEnd(a, b);
  }

  lemma {:induction false} CutEnd(a: string, b: string)
    requires '_' !in a && '_' !in b && b != ""
    ensures Removed(a + "_" + b, "_" + b) == a
    decreases |a|
  {
    var s, part := a + "_" + b, "_" + b;
    if a == "" {
      assert s == part && s[..|part|] == part && s[|part|..] == "";
    } else {
      assert s[..|part|][0] == a[0] != '_';
      assert s[1..] == a[1..] + "_" + b;
      CutEnd(a[1..], b);
    }
  }

  lemma MeetOnTheWay(a: string, b: string, name: string, r: Reduction, o: string, k: string)
    requires a != "" && b != "" && '_' !in a && '_' !in b && OnTheWay(a, b, name, r)
    ensures OnTheWay(a, b, name, Meet(r, o, k))
  {
    hide Removed, EndsWith;
    CutDown(a, b, o);
    assert map[a + "_" + b := name] - {a + "_" + b} == map[] && map[a := name] - {a} == map[];
  }

  lemma {:induction false} MeetAllOnTheWay(a: string, b: string, name: string, r: Reduction, o: string,
                                           keys: seq<string>)
    requires a != "" && b != "" && '_' !in a && '_' !in b && OnTheWay(a, b, name, r)
    ensures OnTheWay(a, b, name, MeetAll(r, o, keys))
  {
    hide Meet, OnTheWay;
    if keys == [] {
    } else {
      MeetAllOnTheWay(a, b, name, r, o, keys[..|keys| - 1]);
      MeetOnTheWay(a, b, name, MeetAll(r, o, keys[..|keys| - 1]), o, keys[|keys| - 1]);
    }
  }

  lemma {:induction false} RoundOnTheWay(a: string, b: string, name: string, overrides: seq<string>, r: Reduction,
                                         s: Reduction)
    requires a != "" && b != "" && '_' !in a && '_' !in b && OnTheWay(a, b, name, r) && Round(overrides, r, s)
    ensures OnTheWay(a, b, name, s)
    decreases |overrides|
  {
    hide MeetAll, OnTheWay;
    if overrides == [] {
    } else {
      var before, o := overrides[..|overrides| - 1], overrides[|overrides| - 1];
      var mid :| Round(before, r, mid) && MeetsEach(mid, o, s);
      RoundOnTheWay(a, b, name, before, r, mid);
      var keys :| s == MeetAll(mid, o, keys);
      MeetAllOnTheWay(a, b, name, mid, o, keys);
    }
  }

  lemma {:induction false} RoundsOnTheWay(a: string, b: string, name: string, overrides: seq<string>, r: Reduction,
                                          s: Reduction, n: nat)
    requires a != "" && b != "" && '_' !in a && '_' !in b && OnTheWay(a, b, name, r) && Rounds(overrides, r, s, n)
    ensures OnTheWay(a, b, name, s)
    decreases n
  {
    hide Round, OnTheWay;
    if n > 0 {
      var mid :| Rounds(overrides, r, mid, n - 1) && Round(overrides, mid, s);
      RoundsOnTheWay(a, b, name, overrides, r, mid, n - 1);
      RoundOnTheWay(a, b, name, overrides, mid, s);
    }
  }

  /** A variant for two words that are both in the list, in whatever order, is selected. */
  lemma TwoWordOverride(overrides: seq<string>, a: string, b: string, name: string, m: Option<string>)
    requires a != "" && b != "" && '_' !in a && '_' !in b && a in overrides && b in overrides
    requires Selects(overrides, map[a + "_" + b := name], m)
    ensures m == Some(name)
  {
    hide Rounds, Supplies;
    var left, n: nat :| Rounds(overrides, Reduction(map[a + "_" + b := name], None), Reduction(left, m), n)
      && Irreducible(overrides, left);
    RoundsOnTheWay(a, b, name, overrides, Reduction(map[a + "_" + b := name], None), Reduction(left, m), n);
    CutDown(a, b, b);
    assert a !in left && a + "_" + b !in left;
    assert a in map[a := name] && a + "_" + b in map[a + "_" + b := name];
  }

  /** Appending through all the layers, and reading it back. */
  method AppendAndRead(d: DataLayers.DataSmart, v: string, text: string) returns (value: Option<string>)
    requires d.Valid() && ParseName(v, 0).Plain? && REMOVE !in DataOf(d.View(), v).ops
    modifies d`overridedata, d.dict, d.dict.vars.Values
    ensures d.Valid() && exists was :: Reads(old(d.View()), d.words, d.overrides, v, was)
                                       && value == Some((if was.Some? then was.value else "") + text)
  {
    hide DataLayers.Layer.Valid, DataLayers.Layer.Flat, DataStore.SetVar, Reads, ParseName;
    ghost var before := d.View();
    d.AppendVar(v, text);
    value := d.GetVar(v);
    assert v + APPEND + Under(None) == v + APPEND;
    AppendThenRead(before, d.words, d.overrides, v, None, text, value);
  }

  /** Prepending through all the layers, and reading it back. */
  method PrependAndRead(d: DataLayers.DataSmart, v: string, text: string) returns (value: Option<string>)
    requires d.Valid() && ParseName(v, 0).Plain? && REMOVE !in DataOf(d.View(), v).ops
    modifies d`overridedata, d.dict, d.dict.vars.Values
    ensures d.Valid() && exists was :: Reads(old(d.View()), d.words, d.overrides, v, was)
                                       && value == Some(text + if was.Some? then was.value else "")
  {
    hide DataLayers.Layer.Valid, DataLayers.Layer.Flat, DataStore.SetVar, Reads, ParseName;
    ghost var before := d.View();
    d.PrependVar(v, text);
    value := d.GetVar(v);
    assert v + PREPEND + Under(None) == v + PREPEND;
    PrependThenRead(before, d.words, d.overrides, v, None, text, value);
  }
}
