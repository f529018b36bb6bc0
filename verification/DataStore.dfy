/** The datastore as a flat map, and how a variable's unexpanded value comes from it: the
    variant an override selects, the value itself, appends, prepends and removals. */
module DataStore {
  import opened Sequences
  import opened Tasks

  /** Text added by an append or prepend, or words to remove, under an optional override. */
  datatype Op = Op(text: string, override: Option<string>)

  /** The variable `name` is the variant of another for `override`. */
  datatype Entry = Entry(name: string, override: string)

  datatype VarData = VarData(flags: map<string, string>, ops: map<string, seq<Op>>)

  datatype Store = Store(vars: map<string, VarData>, over: map<string, seq<Entry>>)

  const CONTENT := "_content"
  const DEFAULTVAL := "_defaultval"
  const APPEND := "_append"
  const PREPEND := "_prepend"
  const REMOVE := "_remove"
  const EMPTY := VarData(map[], map[])

  // ---- names ----

  /** The last underscore, or -1. */
  function RFind(s: string): (i: int)
    ensures -1 <= i < |s| && (i >= 0 ==> s[i] == '_') && (forall j :: i < j < |s| ==> s[j] != '_')
  {
    if s == "" then -1 else if s[|s| - 1] == '_' then |s| - 1 else RFind(s[..|s| - 1])
  }

  predicate IsUpperChar(c: char) { 'A' <= c <= 'Z' }

  predicate IsLowerChar(c: char) { 'a' <= c <= 'z' }

  /** Some letter, and no upper case one. */
  predicate IsLower(s: string) {
    (exists i :: 0 <= i < |s| && IsLowerChar(s[i])) && forall i :: 0 <= i < |s| ==> !IsUpperChar(s[i])
  }

  datatype Name = Plain | Keyword(base: string, keyword: string, add: Option<string>)

  /** The keyword stands at `i`, at the end or followed by an underscore. */
  predicate KeywordAt(s: string, keyword: string, i: nat) {
    i + |keyword| <= |s| && s[i..i + |keyword|] == keyword && (i + |keyword| == |s| || s[i + |keyword|] == '_')
  }

  function NameAt(s: string, keyword: string, i: nat): Name
    requires KeywordAt(s, keyword, i)
  {
    var end := i + |keyword|;
    Keyword(s[..i], keyword, if end == |s| then None else Some(s[end + 1..]))
  }

  /** How a name is read when it is set: the shortest base that a keyword follows. */
  function ParseName(s: string, from: nat): Name
    requires from <= |s|
    decreases |s| - from
  {
    if KeywordAt(s, APPEND, from) then NameAt(s, APPEND, from)
    else if KeywordAt(s, PREPEND, from) then NameAt(s, PREPEND, from)
    else if KeywordAt(s, REMOVE, from) then NameAt(s, REMOVE, from)
    else if from == |s| then Plain
    else ParseName(s, from + 1)
  }

  // ---- variants ----

  /** A name cut at its last underscore, and what follows that; a name without one loses
      its last letter. */
  function FirstCut(name: string): (string, string) {
    var i := RFind(name);
    if i >= 0 then (name[..i], name[i + 1..]) else (if name == "" then "" else name[..|name| - 1], name)
  }

  /** The same name cut one underscore further back, if there is one. */
  function NextCut(name: string, short: string): (r: (string, string))
    ensures |r.0| < |short| || r == (short, "")
  {
    var i := RFind(short);
    if i > 0 && i < |name| then (name[..i], name[i + 1..]) else (short, "")
  }

  /** The shorter names `name` counts as a variant of, with the override each time: from
      the last underscore backwards, as long as the override is lower case. */
  function Bases(name: string, short: string, override: string): (r: seq<(string, string)>)
    decreases |short|, |override|
  {
    if override == "" || !IsLower(override) then []
    else
      var (s, o) := NextCut(name, short);
      [(short, override)] + Bases(name, s, o)
  }

  function BasesOf(name: string): seq<(string, string)> {
    var (s, o) := FirstCut(name);
    Bases(name, s, o)
  }

  function Listed(over: map<string, seq<Entry>>, base: string): seq<Entry> {
    if base in over then over[base] else []
  }

  function AddEntry(over: map<string, seq<Entry>>, base: string, e: Entry): map<string, seq<Entry>> {
    over[base := if e in Listed(over, base) then Listed(over, base) else Listed(over, base) + [e]]
  }

  function AddEntries(over: map<string, seq<Entry>>, name: string,
                      bases: seq<(string, string)>): map<string, seq<Entry>>
    decreases |bases|
  {
    if bases == [] then over
    else AddEntries(AddEntry(over, bases[0].0, Entry(name, bases[0].1)), name, bases[1..])
  }

  /** The list without the first occurrence of `e`. */
  function Without(list: seq<Entry>, e: Entry): (r: seq<Entry>)
    ensures forall x :: x in r ==> x in list
  {
    if list == [] then [] else if list[0] == e then list[1..] else [list[0]] + Without(list[1..], e)
  }

  function DropEntry(over: map<string, seq<Entry>>, base: string, e: Entry): map<string, seq<Entry>> {
    if base in over then over[base := Without(over[base], e)] else over
  }

  function DropEntries(over: map<string, seq<Entry>>, name: string,
                       bases: seq<(string, string)>): map<string, seq<Entry>>
    decreases |bases|
  {
    if bases == [] then over
    else DropEntries(DropEntry(over, bases[0].0, Entry(name, bases[0].1)), name, bases[1..])
  }

  /** Variants have longer names than what they are variants of. */
  predicate LongerNames(over: map<string, seq<Entry>>) {
    forall v :: v in over ==> forall e :: e in over[v] ==> |e.name| > |v|
  }

  lemma {:induction false} BasesShorter(name: string, short: string, override: string)
    requires |short| < |name|
    ensures forall b :: b in Bases(name, short, override) ==> |b.0| < |name|
    decreases |short|
  {
    if override != "" && IsLower(override) {
      var i := RFind(short);
      if i > 0 && i < |name| {
        BasesShorter(name, name[..i], name[i + 1..]);
      }
    }
  }

  lemma BasesOfShorter(name: string)
    ensures forall b :: b in BasesOf(name) ==> |b.0| < |name|
  {
    var i := RFind(name);
    if i >= 0 {
      BasesShorter(name, name[..i], name[i + 1..]);
    } else if name != "" {
      BasesShorter(name, name[..|name| - 1], name);
    }
  }

  lemma {:induction false} AddEntriesKeepsLonger(over: map<string, seq<Entry>>, name: string,
                                                 bases: seq<(string, string)>)
    requires LongerNames(over) && forall b :: b in bases ==> |b.0| < |name|
    ensures LongerNames(AddEntries(over, name, bases))
    decreases |bases|
  {
    if bases == [] {
    } else {
      assert bases[0] in bases;
      AddEntriesKeepsLonger(AddEntry(over, bases[0].0, Entry(name, bases[0].1)), name, bases[1..]);
    }
  }

  lemma {:induction false} DropEntriesKeepsLonger(over: map<string, seq<Entry>>, name: string,
                                                  bases: seq<(string, string)>)
    requires LongerNames(over)
    ensures LongerNames(DropEntries(over, name, bases)) && DropEntries(over, name, bases).Keys == over.Keys
    decreases |bases|
  {
    if bases == [] {
    } else {
      DropEntriesKeepsLonger(DropEntry(over, bases[0].0, Entry(name, bases[0].1)), name, bases[1..]);
    }
  }

  lemma {:induction false} AddEntriesElsewhere(over: map<string, seq<Entry>>, name: string,
                                               bases: seq<(string, string)>, v: string)
    requires forall b :: b in bases ==> b.0 != v
    ensures v in AddEntries(over, name, bases) <==> v in over
    decreases |bases|
  {
    if bases == [] {
    } else {
      assert bases[0] in bases;
      AddEntriesElsewhere(AddEntry(over, bases[0].0, Entry(name, bases[0].1)), name, bases[1..], v);
    }
  }

  // ---- what the operations do to the flat store ----

  function DataOf(st: Store, v: string): VarData {
    if v in st.vars then st.vars[v] else EMPTY
  }

  /** The override is in force: it or all its words are among the overrides. */
  predicate InForce(overrides: seq<string>, o: string) {
    o in overrides || ('_' in o && forall w :: w in Split(o, '_') ==> w in overrides)
  }

  function ActiveNames(overrides: seq<string>, entries: seq<Entry>): (r: seq<string>)
    ensures forall n :: n in r ==> exists e :: e in entries && e.name == n
  {
    if entries == [] then []
    else
      var last := entries[|entries| - 1];
      assert entries == entries[..|entries| - 1] + [last];
      ActiveNames(overrides, entries[..|entries| - 1]) + if InForce(overrides, last.override) then [last.name] else []
  }

  function DelVar(st: Store, v: string): Store {
    var over := st.over - {v};
    Store(st.vars[v := EMPTY], if '_' in v then DropEntries(over, v, BasesOf(v)) else over)
  }

  function DelVars(st: Store, names: seq<string>): Store
    decreases |names|
  {
    if names == [] then st else DelVars(DelVar(st, names[0]), names[1..])
  }

  /** One flag is written; with `listed` the name counts as a variant from now on. */
  function PutFlag(st: Store, v: string, flag: string, value: string, listed: bool): Store {
    var d := DataOf(st, v);
    Store(st.vars[v := d.(flags := d.flags[flag := value])],
          if listed then AddEntries(st.over, v, BasesOf(v)) else st.over)
  }

  function SetVarFlag(st: Store, v: string, flag: string, value: string): Store {
    PutFlag(st, v, flag, value, flag == DEFAULTVAL && '_' in v)
  }

  function DelVarFlag(st: Store, v: string, flag: string): Store {
    if v in st.vars then
      var d := st.vars[v];
      st.(vars := st.vars[v := VarData(d.flags - {flag}, d.ops - {flag})])
    else st
  }

  function OpsOf(d: VarData, keyword: string): seq<Op> {
    if keyword in d.ops then d.ops[keyword] else []
  }

  function AddOp(st: Store, v: string, keyword: string, op: Op): Store {
    var d := DataOf(st, v);
    Store(st.vars[v := d.(ops := d.ops[keyword := OpsOf(d, keyword) + [op]])], AddEntries(st.over, v, BasesOf(v)))
  }

  function DropPending(st: Store, v: string): Store {
    var d := DataOf(st, v);
    st.(vars := st.vars[v := d.(ops := d.ops - {APPEND, PREPEND})])
  }

  function DropVariants(st: Store, overrides: seq<string>, v: string): Store {
    if v !in st.over then st
    else
      var gone := DelVars(st, ActiveNames(overrides, st.over[v]));
      gone.(over := gone.over - {v})
  }

  /** A plain value takes the place of appends, prepends and active variants, unless the
      files are still being parsed. */
  function SetPlain(st: Store, overrides: seq<string>, v: string, value: string, parsing: bool): Store {
    PutFlag(if parsing then st else DropVariants(DropPending(st, v), overrides, v), v, CONTENT, value, '_' in v)
  }

  function SetVar(st: Store, overrides: seq<string>, v: string, value: string, parsing: bool): Store {
    match ParseName(v, 0)
    case Plain => SetPlain(st, overrides, v, value, parsing)
    case Keyword(base, keyword, add) => AddOp(st, base, keyword, Op(value, add))
  }

  lemma DelVarKeepsLonger(st: Store, v: string)
    requires LongerNames(st.over)
    ensures LongerNames(DelVar(st, v).over) && DelVar(st, v).over.Keys == st.over.Keys - {v}
  {
    DropEntriesKeepsLonger(st.over - {v}, v, BasesOf(v));
  }

  lemma {:induction false} DelVarsKeepsLonger(st: Store, names: seq<string>)
    requires LongerNames(st.over)
    ensures LongerNames(DelVars(st, names).over)
    ensures forall v :: v !in names ==> (v in DelVars(st, names).vars <==> v in st.vars)
    ensures forall v :: v !in names && v in st.vars ==> DelVars(st, names).vars[v] == st.vars[v]
    decreases |names|
  {
    if names == [] {
    } else {
      DelVarKeepsLonger(st, names[0]);
      DelVarsKeepsLonger(DelVar(st, names[0]), names[1..]);
    }
  }

  lemma PutFlagKeepsLonger(st: Store, v: string, flag: string, value: string, listed: bool)
    requires LongerNames(st.over)
    ensures LongerNames(PutFlag(st, v, flag, value, listed).over)
  {
    BasesOfShorter(v);
    AddEntriesKeepsLonger(st.over, v, BasesOf(v));
  }

  lemma DropVariantsFacts(st: Store, overrides: seq<string>, v: string)
    requires LongerNames(st.over)
    ensures var st' := DropVariants(st, overrides, v);
            LongerNames(st'.over) && v !in st'.over && DataOf(st', v) == DataOf(st, v)
  {
    if v in st.over {
      var names := ActiveNames(overrides, st.over[v]);
      forall n | n in names
        ensures n != v
      {
        var e :| e in st.over[v] && e.name == n;
      }
      DelVarsKeepsLonger(st, names);
    }
  }

  /** Every operation keeps the variants' names longer. */
  lemma SetVarKeepsLonger(st: Store, overrides: seq<string>, v: string, value: string, parsing: bool)
    requires LongerNames(st.over)
    ensures LongerNames(SetVar(st, overrides, v, value, parsing).over)
  {
    match ParseName(v, 0)
    case Keyword(base, keyword, add) =>
      BasesOfShorter(base);
      AddEntriesKeepsLonger(st.over, base, BasesOf(base));
    case Plain =>
      var st' := if parsing then st else DropVariants(DropPending(st, v), overrides, v);
      if !parsing {
        DropVariantsFacts(DropPending(st, v), overrides, v);
      }
      PutFlagKeepsLonger(st', v, CONTENT, value, '_' in v);
  }

  // ---- which variant the overrides select ----

  /** The variants in force, by override; a later entry takes the place of an earlier one. */
  function Active(overrides: seq<string>, entries: seq<Entry>): map<string, string> {
    if entries == [] then map[]
    else
      var last := entries[|entries| - 1];
      var before := Active(overrides, entries[..|entries| - 1]);
      if InForce(overrides, last.override) then before[last.override := last.name] else before
  }

  lemma {:induction false} ActiveFrom(overrides: seq<string>, entries: seq<Entry>, o: string)
    requires o in Active(overrides, entries)
    ensures InForce(overrides, o) && Entry(Active(overrides, entries)[o], o) in entries
  {
    var front, last := entries[..|entries| - 1], entries[|entries| - 1];
    assert entries == front + [last];
    if !InForce(overrides, last.override) || o != last.override {
      ActiveFrom(overrides, front, o);
    }
  }

  /** How much the reduction has left to do. */
  ghost function Size(keys: set<string>): nat {
    if keys == {} then 0
    else
      var k :| k in keys;
      |k| + 1 + Size(keys - {k})
  }

  lemma {:induction false} SizeWithout(keys: set<string>, k: string)
    requires k in keys
    ensures Size(keys) == |k| + 1 + Size(keys - {k})
    decreases |keys|
  {
    var j :| j in keys && Size(keys) == |j| + 1 + Size(keys - {j});
    if j == k {
    } else {
      SizeWithout(keys - {j}, k);
      SizeWithout(keys - {k}, j);
      assert keys - {j} - {k} == keys - {k} - {j};
    }
  }

  /** Replacing a key by a shorter one, which may be there already, leaves less to do. */
  lemma SizeShorter(keys: set<string>, a: string, b: string)
    requires a in keys && |b| < |a|
    ensures Size(keys - {a} + {b}) < Size(keys)
  {
    SizeWithout(keys, a);
    if b in keys - {a} {
      assert keys - {a} + {b} == keys - {a};
    } else {
      SizeWithout(keys - {a} + {b}, b);
      assert keys - {a} + {b} - {b} == keys - {a};
    }
  }

  predicate SingleWords(active: map<string, string>) {
    forall o :: o in active ==> '_' !in o
  }

  /** The override whose first mention in the list comes last. */
  ghost predicate Wins(overrides: seq<string>, active: map<string, string>, o: string) {
    && o in active && o in overrides
    && forall p :: p in active && p in overrides ==> FirstIndex(overrides, p) <= FirstIndex(overrides, o)
  }

  function FirstIndex(s: seq<string>, x: string): (i: nat)
    requires x in s
    ensures i < |s| && s[i] == x && forall j :: 0 <= j < i ==> s[j] != x
  {
    if s[0] == x then 0 else
      assert forall j :: 0 < j < |s| ==> s[j] == s[1..][j - 1];
      FirstIndex(s[1..], x) + 1
  }

  datatype Reduction = Reduction(left: map<string, string>, found: Option<string>)

  /** One variant's override `k` met by the override `o`: cut down where `o` ends it, or
      taken out as the match when it is `o`. */
  function Meet(r: Reduction, o: string, k: string): Reduction {
    if k !in r.left then r
    else if EndsWith(k, "_" + o) then Reduction((r.left - {k})[Removed(k, "_" + o) := r.left[k]], r.found)
    else if k == o then Reduction(r.left - {k}, Some(r.left[k]))
    else r
  }

  function MeetAll(r: Reduction, o: string, keys: seq<string>): Reduction {
    if keys == [] then r else Meet(MeetAll(r, o, keys[..|keys| - 1]), o, keys[|keys| - 1])
  }

  /** `o` has met all the variants there were, each once, in some order. */
  ghost predicate MeetsEach(r: Reduction, o: string, s: Reduction) {
    exists keys :: Distinct(keys) && (forall k :: k in keys <==> k in r.left) && s == MeetAll(r, o, keys)
  }

  /** A round: the overrides take their turns in the order of the list. */
  ghost predicate Round(overrides: seq<string>, r: Reduction, s: Reduction)
    decreases |overrides|, 0
  {
    if overrides == [] then r == s else Turn(overrides[..|overrides| - 1], overrides[|overrides| - 1], r, s)
  }

  /** `o` takes its turn after the overrides `before` it. */
  ghost predicate Turn(before: seq<string>, o: string, r: Reduction, s: Reduction)
    decreases |before|, 1
  {
    exists mid :: Round(before, r, mid) && MeetsEach(mid, o, s)
  }

  ghost predicate Rounds(overrides: seq<string>, r: Reduction, s: Reduction, n: nat)
    decreases n
  {
    if n == 0 then r == s else exists mid :: Rounds(overrides, r, mid, n - 1) && Round(overrides, mid, s)
  }

  /** No override in force has anything left to meet. */
  ghost predicate Irreducible(overrides: seq<string>, left: map<string, string>) {
    forall k, o :: k in left && o in overrides ==> k != o && !EndsWith(k, "_" + o)
  }

  /** `m` is what rounds over the variants find, until nothing is left to meet. */
  ghost predicate ReducesTo(overrides: seq<string>, active: map<string, string>, m: Option<string>) {
    exists left, n: nat :: Rounds(overrides, Reduction(active, None), Reduction(left, m), n)
      && Irreducible(overrides, left)
  }

  lemma MeetMore(r: Reduction, o: string, keys: seq<string>, k: string)
    ensures MeetAll(r, o, keys + [k]) == Meet(MeetAll(r, o, keys), o, k)
  {
    assert (keys + [k])[..|keys|] == keys;
  }

  lemma RoundMore(overrides: seq<string>, r: Reduction, mid: Reduction, s: Reduction, o: string)
    requires Round(overrides, r, mid) && MeetsEach(mid, o, s)
    ensures Round(overrides + [o], r, s)
  {
    assert (overrides + [o])[..|overrides|] == overrides;
    assert Turn(overrides, o, r, s);
  }

  lemma RoundsMore(overrides: seq<string>, r: Reduction, mid: Reduction, s: Reduction, n: nat)
    requires Rounds(overrides, r, mid, n) && Round(overrides, mid, s)
    ensures Rounds(overrides, r, s, n + 1)
  {
  }

  /** One override against all the variants that are left: an override that ends with it is
      cut down, one that is equal to it is the match. The variants are met in any order. */
  method ReduceBy(o: string, active: map<string, string>, match0: Option<string>)
    returns (active': map<string, string>, match': Option<string>, mod: bool)
    ensures MeetsEach(Reduction(active, match0), o, Reduction(active', match'))
    ensures !mod ==> active'.Keys <= active.Keys && forall k :: k in active' ==> k != o && !EndsWith(k, "_" + o)
    ensures Size(active'.Keys) <= Size(active.Keys) && (mod ==> Size(active'.Keys) < Size(active.Keys))
    ensures active'.Values <= active.Values && (match' == match0 || (match'.Some? && match'.value in active.Values))
    ensures SingleWords(active) ==> active' == active - {o} && !mod
    ensures SingleWords(active) ==> match' == if o in active then Some(active[o]) else match0
  {
    hide MeetAll;
    active', match', mod := active, match0, false;
    ghost var r, keys := Reduction(active, match0), [];
    NothingMet(r, o);
    var todo := active.Keys;
    while todo != {}
      invariant Distinct(keys) && (forall k :: k in keys <==> k in active && k !in todo)
      invariant Reduction(active', match') == MeetAll(r, o, keys)
      invariant !mod ==>
        active'.Keys <= active.Keys && forall k :: k in active' && k !in todo ==> k != o && !EndsWith(k, "_" + o)
      invariant todo <= active'.Keys && todo <= active.Keys && active'.Values <= active.Values
      invariant Size(active'.Keys) <= Size(active.Keys) && (mod ==> Size(active'.Keys) < Size(active.Keys))
      invariant match' == match0 || (match'.Some? && match'.value in active.Values)
      invariant SingleWords(active) ==> !mod && active' == if o in active && o !in todo then active - {o} else active
      invariant SingleWords(active) ==> match' == if o in active && o !in todo then Some(active[o]) else match0
    {
      var a :| a in todo;
      todo := todo - {a};
      MeetMore(r, o, keys, a);
      keys := keys + [a];
      if EndsWith(a, "_" + o) {
        var short := Removed(a, "_" + o);
        SizeShorter(active'.Keys, a, short);
        assert a[|a| - |"_" + o|..][0] == '_';
        var t := active'[a];
        active' := active' - {a};
        assert active'[short := t].Keys == active'.Keys + {short};
        active' := active'[short := t];
        mod := true;
      } else if a == o {
        match' := Some(active'[a]);
        SizeWithout(active'.Keys, a);
        active' := active' - {a};
      }
    }
  }

  lemma NothingMet(r: Reduction, o: string)
    ensures MeetAll(r, o, []) == r
  {
  }

  /** What the reduction may come to: the name of a variant in force, found by reducing all
      of them as far as they go; and when no override in force has several words, the
      variant of the override that wins. */
  ghost predicate Selects(overrides: seq<string>, active: map<string, string>, m: Option<string>) {
    && (m.Some? ==> m.value in active.Values)
    && ReducesTo(overrides, active, m)
    && (SingleWords(active) ==>
          if m.None? then forall o :: o in active ==> o !in overrides else Supplies(overrides, active, m.value))
  }

  /** `name` is the variant of the override that wins. */
  ghost predicate Supplies(overrides: seq<string>, active: map<string, string>, name: string) {
    exists o :: Wins(overrides, active, o) && active[o] == name
  }

  /** Where the reduction stands after the overrides before `i`, when they are single words. */
  ghost predicate Reducing(overrides: seq<string>, active: map<string, string>, i: nat, left: map<string, string>,
                           m: Option<string>, w: Option<string>)
    requires i <= |overrides|
  {
    && left == active - (set o | o in overrides[..i])
    && (m.None? <==> w.None?)
    && (w.None? ==> forall p :: p in active ==> p !in overrides[..i])
    && (w.Some? ==> w.value in active && w.value in overrides[..i] && m == Some(active[w.value])
                    && forall p :: p in active && p in overrides[..i] ==>
                       FirstIndex(overrides, p) <= FirstIndex(overrides, w.value))
  }

  lemma ReduceOne(overrides: seq<string>, active: map<string, string>, i: nat, left: map<string, string>,
                  m: Option<string>, w: Option<string>)
    requires i < |overrides| && Reducing(overrides, active, i, left, m, w)
    ensures var o := overrides[i];
            Reducing(overrides, active, i + 1, left - {o}, if o in left then Some(left[o]) else m,
                     if o in left then Some(o) else w)
  {
  }

  lemma ReducedAll(overrides: seq<string>, active: map<string, string>, left: map<string, string>, m: Option<string>,
                   w: Option<string>)
    requires Reducing(overrides, active, |overrides|, left, m, w)
    ensures if m.None? then forall o :: o in active ==> o !in overrides else Supplies(overrides, active, m.value)
  {
  }

  /** Reduces the variants in force to a match, round after round while any was cut down. */
  method SelectVariant(overrides: seq<string>, active: map<string, string>) returns (m: Option<string>)
    ensures Selects(overrides, active, m)
  {
    hide Supplies, FirstIndex, Reducing, Rounds, Round, MeetsEach;
    m := None;
    var left, mod := active, true;
    ghost var n: nat, start := 0, Reduction(active, None);
    NotReducedYet(overrides, start);
    ghost var first := true;
    while mod
      invariant left.Values <= active.Values && (m.Some? ==> m.value in active.Values)
      invariant first ==> mod && left == active && m == None
      invariant Rounds(overrides, start, Reduction(left, m), n)
      invariant !mod ==> Irreducible(overrides, left)
      invariant SingleWords(active) && !first ==>
                  if m.None? then forall o :: o in active ==> o !in overrides else Supplies(overrides, active, m.value)
      invariant SingleWords(active) && !first ==> !mod
      decreases Size(left.Keys), mod
    {
      mod := false;
      ghost var w: Option<string> := None;
      ghost var size := Size(left.Keys);
      ghost var begin := Reduction(left, m);
      StartReducing(overrides, active);
      NoTurnYet(begin);
      assert overrides[..0] == [];
      for i := 0 to |overrides|
        invariant left.Values <= active.Values && (m.Some? ==> m.value in active.Values)
        invariant Size(left.Keys) <= size && (mod ==> Size(left.Keys) < size)
        invariant Round(overrides[..i], begin, Reduction(left, m))
        invariant !mod ==> forall k, j :: k in left && 0 <= j < i ==>
          k != overrides[j] && !EndsWith(k, "_" + overrides[j])
        invariant SingleWords(active) && first
          ==> SingleWords(left) && !mod && Reducing(overrides, active, i, left, m, w)
      {
        var cut;
        if SingleWords(active) && first {
          ReduceOne(overrides, active, i, left, m, w);
          w := if overrides[i] in left then Some(overrides[i]) else w;
        }
        ghost var before := Reduction(left, m);
        left, m, cut := ReduceBy(overrides[i], left, m);
        RoundMore(overrides[..i], begin, before, Reduction(left, m), overrides[i]);
        assert overrides[..i] + [overrides[i]] == overrides[..i + 1];
        mod := mod || cut;
      }
      assert overrides[..|overrides|] == overrides;
      RoundsMore(overrides, start, begin, Reduction(left, m), n);
      n := n + 1;
      if SingleWords(active) && first {
        ReducedAll(overrides, active, left, m, w);
      }
      first := false;
    }
  }

  lemma NotReducedYet(overrides: seq<string>, r: Reduction)
    ensures Rounds(overrides, r, r, 0)
  {
  }

  lemma NoTurnYet(r: Reduction)
    ensures Round([], r, r)
  {
  }

  lemma StartReducing(overrides: seq<string>, active: map<string, string>)
    ensures Reducing(overrides, active, 0, active, None, None)
  {
  }

  // ---- reading a variable ----

  /** The words to remove a piece of text stands for, once expanded. */
  type ToWords = string -> seq<string>

  /** The operation's override, if it has one, is in force word by word. */
  predicate Applies(overrides: seq<string>, op: Op) {
    op.override.None? || op.override.value == "" || forall w :: w in Split(op.override.value, '_') ==> w in overrides
  }

  function Appended(overrides: seq<string>, ops: seq<Op>, value: string): string {
    if ops == [] then value
    else
      var before := Appended(overrides, ops[..|ops| - 1], value);
      if Applies(overrides, ops[|ops| - 1]) then before + ops[|ops| - 1].text else before
  }

  function Prepended(overrides: seq<string>, ops: seq<Op>, value: string): string {
    if ops == [] then value
    else
      var before := Prepended(overrides, ops[..|ops| - 1], value);
      if Applies(overrides, ops[|ops| - 1]) then ops[|ops| - 1].text + before else before
  }

  function WordsToRemove(words: ToWords, overrides: seq<string>, ops: seq<Op>): seq<string> {
    if ops == [] then []
    else
      var before := WordsToRemove(words, overrides, ops[..|ops| - 1]);
      if Applies(overrides, ops[|ops| - 1]) then before + words(ops[|ops| - 1].text) else before
  }

  predicate IsSpace(c: char) { c == ' ' || c == '\t' || c == '\n' || c == '\r' }

  /** The words of a text, cut at white space. */
  function WordsOf(s: string, word: string): seq<string>
    decreases |s|
  {
    if s == "" then if word == "" then [] else [word]
    else if IsSpace(s[0]) then (if word == "" then [] else [word]) + WordsOf(s[1..], "")
    else WordsOf(s[1..], word + [s[0]])
  }

  function Join(ws: seq<string>): string {
    if ws == [] then "" else if |ws| == 1 then ws[0] else ws[0] + " " + Join(ws[1..])
  }

  function Keep(ws: seq<string>, gone: seq<string>): (r: seq<string>)
    ensures forall w :: w in r <==> w in ws && w !in gone
  {
    if ws == [] then []
    else
      assert ws == [ws[0]] + ws[1..];
      (if ws[0] in gone then [] else [ws[0]]) + Keep(ws[1..], gone)
  }

  function RemoveWords(value: string, gone: seq<string>): string {
    if gone == [] then value else Join(Keep(WordsOf(value, ""), gone))
  }

  /** Removals only touch a value that is there and not empty. */
  function AfterRemoval(words: ToWords, overrides: seq<string>, d: VarData, value: Option<string>): Option<string> {
    if value.None? || value.value == "" || REMOVE !in d.ops then value
    else Some(RemoveWords(value.value, WordsToRemove(words, overrides, d.ops[REMOVE])))
  }

  function OwnValue(d: VarData): Option<string> {
    if CONTENT in d.flags then Some(d.flags[CONTENT])
    else if DEFAULTVAL in d.flags then Some(d.flags[DEFAULTVAL])
    else None
  }

  /** The value, given what the selected variant supplied. Appends and prepends, even ones
      that do not apply, make an empty value out of none. */
  function Finish(words: ToWords, overrides: seq<string>, d: VarData, variant: Option<string>): Option<string> {
    var own := if variant.Some? then variant else OwnValue(d);
    var appended := if APPEND in d.ops
      then Some(Appended(overrides, d.ops[APPEND], if own.Some? then own.value else "")) else own;
    var prepended := if PREPEND in d.ops
      then Some(Prepended(overrides, d.ops[PREPEND], if appended.Some? then appended.value else "")) else appended;
    AfterRemoval(words, overrides, d, prepended)
  }

  /** Names of variants longer than `v`. */
  ghost function Ahead(over: map<string, seq<Entry>>, v: string): set<string> {
    set b, e | b in over && e in over[b] && |e.name| > |v| :: e.name
  }

  lemma AheadShrinks(over: map<string, seq<Entry>>, v: string, e: Entry)
    requires v in over && e in over[v] && |e.name| > |v|
    ensures Ahead(over, e.name) < Ahead(over, v)
  {
    assert e.name in Ahead(over, v) && e.name !in Ahead(over, e.name);
  }

  /** `value` is a value that reading `v` may give. */
  ghost predicate Reads(st: Store, words: ToWords, overrides: seq<string>, v: string, value: Option<string>)
    requires LongerNames(st.over)
    decreases Ahead(st.over, v)
  {
    if v !in st.over then value == Finish(words, overrides, DataOf(st, v), None)
    else
      var active := Active(overrides, st.over[v]);
      || (Selects(overrides, active, None) && value == Finish(words, overrides, DataOf(st, v), None))
      || exists e, x :: e in st.over[v] && Selects(overrides, active, Some(e.name))
           && ReadsAhead(st, words, overrides, v, e, x) && value == Finish(words, overrides, DataOf(st, v), x)
  }

  ghost predicate ReadsAhead(st: Store, words: ToWords, overrides: seq<string>, v: string, e: Entry, x: Option<string>)
    requires LongerNames(st.over) && v in st.over && e in st.over[v]
    decreases Ahead(st.over, v), 0
  {
    AheadShrinks(st.over, v, e);
    Reads(st, words, overrides, e.name, x)
  }

  lemma {:induction false} SelectedEntry(overrides: seq<string>, entries: seq<Entry>, name: string) returns (e: Entry)
    requires Selects(overrides, Active(overrides, entries), Some(name))
    ensures e in entries && e.name == name
  {
    var o :| o in Active(overrides, entries) && Active(overrides, entries)[o] == name;
    ActiveFrom(overrides, entries, o);
    e := Entry(name, o);
  }

  /** The value of the selected variant, finished, is a value of the variable. */
  lemma ReadsSelected(st: Store, words: ToWords, overrides: seq<string>, v: string, m: Option<string>,
                      x: Option<string>)
    requires LongerNames(st.over) && v in st.over && Selects(overrides, Active(overrides, st.over[v]), m)
    requires if m.None? then x == None else Reads(st, words, overrides, m.value, x)
    ensures Reads(st, words, overrides, v, Finish(words, overrides, DataOf(st, v), x))
  {
    hide Selects, Finish;
    if m.Some? {
      var e := SelectedEntry(overrides, st.over[v], m.value);
      assert ReadsAhead(st, words, overrides, v, e, x);
    }
  }

  lemma ReadsOwn(st: Store, words: ToWords, overrides: seq<string>, v: string)
    requires LongerNames(st.over) && v !in st.over
    ensures Reads(st, words, overrides, v, Finish(words, overrides, DataOf(st, v), None))
  {
  }

  lemma SelectedIsAhead(over: map<string, seq<Entry>>, overrides: seq<string>, v: string, name: string)
    requires LongerNames(over) && v in over && Selects(overrides, Active(overrides, over[v]), Some(name))
    ensures Ahead(over, name) < Ahead(over, v)
  {
    var e := SelectedEntry(overrides, over[v], name);
    AheadShrinks(over, v, e);
  }

  // ---- what reading promises ----

  /** A plain value is all there is of a variable: nothing is left to append or prepend,
      and nothing counts as a variant of it. */
  lemma SetPlainFacts(st: Store, overrides: seq<string>, v: string, x: string)
    requires LongerNames(st.over)
    ensures var st' := SetPlain(st, overrides, v, x, false);
            var d := DataOf(st, v);
            v !in st'.over && DataOf(st', v) == VarData(d.flags[CONTENT := x], d.ops - {APPEND, PREPEND})
  {
    var cleared := DropVariants(DropPending(st, v), overrides, v);
    DropVariantsFacts(DropPending(st, v), overrides, v);
    BasesOfShorter(v);
    AddEntriesElsewhere(cleared.over, v, BasesOf(v), v);
  }

  /** After a plain value is set, reading gives it back, whatever variants, appends and
      prepends there were; only removals, which setting leaves alone, still apply. */
  lemma SetThenRead(st: Store, words: ToWords, overrides: seq<string>, v: string, x: string, value: Option<string>)
    requires LongerNames(st.over) && ParseName(v, 0).Plain?
    ensures var st' := SetVar(st, overrides, v, x, false);
            && LongerNames(st'.over)
            && (Reads(st', words, overrides, v, value)
                <==> value == AfterRemoval(words, overrides, DataOf(st, v), Some(x)))
            && (REMOVE !in DataOf(st, v).ops ==> (Reads(st', words, overrides, v, value) <==> value == Some(x)))
  {
    hide SetPlain, DataOf, RemoveWords, WordsToRemove;
    SetVarKeepsLonger(st, overrides, v, x, false);
    SetPlainFacts(st, overrides, v, x);
  }

  lemma OneWinner(overrides: seq<string>, active: map<string, string>, o: string, p: string)
    requires Wins(overrides, active, o) && Wins(overrides, active, p)
    ensures o == p
  {
  }

  /** With single words there is nothing else to select than the winner's variant. */
  lemma SelectedIsWinner(overrides: seq<string>, active: map<string, string>, o: string, m: Option<string>)
    requires SingleWords(active) && Wins(overrides, active, o) && Selects(overrides, active, m)
    ensures m == Some(active[o])
  {
    hide ReducesTo, FirstIndex;
    WinnerIsListed(overrides, active, o);
    if m.Some? {
      var p :| Wins(overrides, active, p) && active[p] == m.value;
      OneWinner(overrides, active, o, p);
    }
  }

  lemma WinnerIsListed(overrides: seq<string>, active: map<string, string>, o: string)
    requires Wins(overrides, active, o)
    ensures o in active && o in overrides
  {
  }

  /** When the overrides in force are single words, the variant of the one that wins
      supplies the value; the variable's own value counts only if that one has none, and
      nothing else does when nothing is appended, prepended or removed. */
  lemma SingleWordOverride(st: Store, words: ToWords, overrides: seq<string>, v: string, o: string,
                           value: Option<string>)
    requires LongerNames(st.over) && v in st.over && SingleWords(Active(overrides, st.over[v]))
    requires Wins(overrides, Active(overrides, st.over[v]), o) && Reads(st, words, overrides, v, value)
    ensures exists x ::
      Reads(st, words, overrides, Active(overrides, st.over[v])[o], x)
      && value == Finish(words, overrides, DataOf(st, v), x)
      && (DataOf(st, v).ops == map[] ==> value == if x.Some? then x else OwnValue(DataOf(st, v)))
  {
    hide Selects, Wins, Finish, OwnValue;
    var active := Active(overrides, st.over[v]);
    if Selects(overrides, active, None) {
      SelectedIsWinner(overrides, active, o, None);
    }
    var e, x :| e in st.over[v] && Selects(overrides, active, Some(e.name))
      && ReadsAhead(st, words, overrides, v, e, x) && value == Finish(words, overrides, DataOf(st, v), x);
    SelectedIsWinner(overrides, active, o, Some(e.name));
    if DataOf(st, v).ops == map[] {
      SuppliedOrOwn(words, overrides, DataOf(st, v), x);
    }
  }

  lemma SuppliedOrOwn(words: ToWords, overrides: seq<string>, d: VarData, variant: Option<string>)
    requires d.ops == map[]
    ensures Finish(words, overrides, d, variant) == if variant.Some? then variant else OwnValue(d)
  {
  }

  /** The rightmost override that has a variant wins exactly when, once it has been
      mentioned, no other that has one is mentioned for the first time; so it does when it
      is listed once. */
  lemma RightmostWins(overrides: seq<string>, active: map<string, string>, i: nat)
    requires i < |overrides| && overrides[i] in active && forall j :: i < j < |overrides| ==> overrides[j] !in active
    ensures Wins(overrides, active, overrides[i])
       <==> forall j :: 0 <= j < i && overrides[j] in active && overrides[j] !in overrides[..j] ==>
         overrides[i] !in overrides[..j]
    ensures overrides[i] !in overrides[..i] ==> Wins(overrides, active, overrides[i])
  {
    hide FirstIndex;
    var o := overrides[i];
    if Wins(overrides, active, o) {
      forall j | 0 <= j < i && overrides[j] in active && overrides[j] !in overrides[..j]
        ensures o !in overrides[..j]
      {
        FirstIndexAt(overrides, j);
        NotBefore(overrides, o, j);
      }
    } else {
      var j := LaterMention(overrides, active, i);
    }
  }

  /** An override that does not win although it is the rightmost was mentioned before
      another was for the first time. */
  lemma LaterMention(overrides: seq<string>, active: map<string, string>, i: nat) returns (j: nat)
    requires i < |overrides| && overrides[i] in active && forall j :: i < j < |overrides| ==> overrides[j] !in active
    requires !Wins(overrides, active, overrides[i])
    ensures j < i && overrides[j] in active && overrides[j] !in overrides[..j] && overrides[i] in overrides[..j]
  {
    hide FirstIndex;
    var o := overrides[i];
    var p :| p in active && p in overrides && FirstIndex(overrides, p) > FirstIndex(overrides, o);
    j := FirstIndex(overrides, p);
    NotBefore(overrides, p, j);
    assert overrides[..j][FirstIndex(overrides, o)] == o;
  }

  lemma FirstIndexAt(s: seq<string>, i: nat)
    requires i < |s| && s[i] !in s[..i]
    ensures FirstIndex(s, s[i]) == i
  {
  }

  lemma NotBefore(s: seq<string>, x: string, j: nat)
    requires x in s && j <= FirstIndex(s, x)
    ensures x !in s[..j]
  {
    hide FirstIndex;
  }

  /** Listing an override twice can make an earlier one win: the last of the three, though
      it has a variant, never supplies the value. */
  lemma FirstMentionCounts(a: string, b: string, va: string, vb: string, m: Option<string>)
    requires a != b && '_' !in a && '_' !in b && Selects([a, b, a], map[a := va, b := vb], m)
    ensures m == Some(vb)
  {
    hide Selects;
    var overrides, active := [a, b, a], map[a := va, b := vb];
    assert overrides[1] == b;
    assert overrides[1] !in overrides[..1];
    assert overrides[0] == a && overrides[0] !in overrides[..0];
    FirstIndexAt(overrides, 0);
    FirstIndexAt(overrides, 1);
    SelectedIsWinner(overrides, active, b, m);
  }
}
