/** The datastore as it is kept: layers of dictionaries, each over the one it was copied
    from, and lists that copies share. Every operation acts on the flat store, and none
    writes to anything but the copy's own dictionaries and lists it has just made. */
module DataLayers {
  import opened Sequences
  import opened Tasks
  import opened DataStore

  class OpList {
    var items: seq<Op>

    constructor (items: seq<Op>)
      ensures this.items == items
    {
      this.items := items;
    }
  }

  class EntryList {
    var items: seq<Entry>

    constructor (items: seq<Entry>)
      ensures this.items == items
    {
      this.items := items;
    }
  }

  /** The flags of one variable in one layer. */
  class FlagDict {
    var flags: map<string, string>
    var ops: map<string, OpList>

    ghost function View(): VarData
      reads this, set k | k in ops :: ops[k]
    {
      VarData(flags, map k | k in ops :: ops[k].items)
    }

    constructor ()
      ensures flags == map[] && ops == map[] && View() == EMPTY
    {
      flags, ops := map[], map[];
    }

    /** A shallow copy: the lists are shared. */
    constructor Copy(d: FlagDict)
      ensures flags == d.flags && ops == d.ops && View() == d.View()
    {
      flags, ops := d.flags, d.ops;
    }
  }

  /** What lookups in a layer, if there is one, find. */
  ghost function FlatOf(l: Layer?): map<string, VarData>
    requires ValidOf(l)
    reads l, if l == null then {} else l.Repr
    decreases if l == null then {} else l.Repr, 2
  {
    if l == null then map[] else l.Flat()
  }

  ghost predicate ValidOf(l: Layer?)
    reads l, if l == null then {} else l.Repr
    decreases if l == null then {} else l.Repr, 2
  {
    l != null ==> l.Valid()
  }

  ghost function ReprOf(l: Layer?): set<object>
    reads l
  {
    if l == null then {} else l.Repr + {l}
  }

  class Layer {
    const data: Layer?
    var vars: map<string, FlagDict>
    ghost var Repr: set<object>

    /** The layer's own dictionaries are nobody else's, and each is one variable's. */
    ghost predicate Mine()
      reads this, Repr
    {
      && this in Repr && (data != null ==> data in Repr && ReprOf(data) <= Repr && this !in ReprOf(data))
      && (forall v :: v in vars ==> vars[v] in Repr && (data != null ==> vars[v] !in ReprOf(data)))
      && (forall v, k :: v in vars && k in vars[v].ops ==> vars[v].ops[k] in Repr)
      && (forall v, w :: v in vars && w in vars && v != w ==> vars[v] != vars[w])
    }

    ghost predicate Valid()
      reads this, Repr
      decreases Repr, 0
    {
      this in Repr && Mine() && ValidOf(data)
    }

    ghost function Own(): map<string, VarData>
      requires Mine()
      reads this, Repr
    {
      map v | v in vars :: vars[v].View()
    }

    /** What a lookup through the layers finds. */
    ghost function Flat(): map<string, VarData>
      requires Valid()
      reads this, Repr
      decreases Repr, 1
    {
      FlatOf(data) + Own()
    }

    constructor (data: Layer?)
      requires ValidOf(data)
      ensures Valid() && this.data == data && vars == map[] && Repr == ReprOf(data) + {this}
      ensures Flat() == FlatOf(data)
    {
      this.data, vars := data, map[];
      Repr := ReprOf(data) + {this};
    }

    /** The nearest dictionary that has the variable. */
    method FindVar(v: string) returns (d: FlagDict?)
      requires Valid()
      ensures d == null <==> v !in Flat()
      ensures d != null ==> d in Repr && (forall k :: k in d.ops ==> d.ops[k] in Repr) && d.View() == Flat()[v]
      ensures d != null && v !in vars ==> d !in vars.Values
    {
      var dest: Layer? := this;
      while dest != null
        invariant dest != null ==> dest.Valid() && dest.Repr <= Repr
        invariant
          if dest == null then v !in Flat()
          else (v in Flat() <==> v in dest.Flat()) && (v in Flat() ==> Flat()[v] == dest.Flat()[v])
        invariant dest != this ==> v !in vars && (dest != null ==> forall w :: w in vars ==> vars[w] !in dest.Repr)
        decreases if dest == null then {} else dest.Repr
      {
        if v in dest.vars {
          return dest.vars[v];
        }
        dest := dest.data;
      }
      return null;
    }

    /** Only the dictionary of `v` is another or has changed. */
    twostate predicate OnlyChanges(v: string, new d: FlagDict)
      reads *
    {
      && old(Valid()) && vars == old(vars)[v := d] && old(Repr) + {d} <= Repr
      && ((v in old(vars) && d == old(vars)[v]) || d !in old(Repr))
      && (forall k :: k in d.ops ==> d.ops[k] in Repr)
      && (forall o :: o in old(Repr) && o != this && o != d ==> unchanged(o))
    }

    twostate lemma StillValid(v: string, new d: FlagDict)
      requires OnlyChanges(v, d)
      ensures this in Repr && Mine() && ValidOf(data) && old(Valid()) && old(Mine())
        && FlatOf(data) == old(FlatOf(data))
    {
      hide ValidOf, FlatOf;
    }

    twostate lemma FlatChanges(v: string, new d: FlagDict)
      requires OnlyChanges(v, d)
      ensures Valid() && Flat() == old(Flat())[v := d.View()]
    {
      hide ValidOf, FlatOf, Own, Mine, FlagDict.View, OnlyChanges;
      StillValid(v, d);
      OwnChanges(v, d);
    }

    twostate lemma OwnChanges(v: string, new d: FlagDict)
      requires OnlyChanges(v, d) && old(Mine()) && Mine()
      ensures Own() == old(Own())[v := d.View()]
    {
      hide ValidOf, FlatOf;
      forall w | w in vars && w != v
        ensures vars[w].View() == old(vars[w].View())
      {
      }
    }

    /** A dictionary of the variable's own takes the place of what lookups found. */
    method Install(v: string, d: FlagDict)
      requires Valid() && d !in Repr && (forall k :: k in d.ops ==> d.ops[k] in Repr)
      modifies this
      ensures Valid() && vars == old(vars)[v := d] && Repr == old(Repr) + {d}
      ensures Flat() == old(Flat())[v := d.View()]
    {
      hide ValidOf, FlatOf, Mine, Own, Valid, Flat;
      vars := vars[v := d];
      Repr := Repr + {d};
      FlatChanges(v, d);
    }

    lemma OwnFirst(v: string)
      requires Valid() && v in vars
      ensures v in Flat() && Flat()[v] == vars[v].View() && Flat()[v := Flat()[v]] == Flat()
    {
      hide ValidOf, FlatOf;
    }

    /** Before a variable is written, it gets a dictionary in this layer. */
    method MakeShadowCopy(v: string)
      requires Valid()
      modifies this
      ensures Valid() && v in vars && vars == old(vars)[v := vars[v]]
      ensures v in old(vars) ==> vars == old(vars) && Repr == old(Repr)
      ensures v !in old(vars) ==> fresh(vars[v]) && Repr == old(Repr) + {vars[v]}
      ensures Flat() == old(Flat())[v := if v in old(Flat()) then old(Flat())[v] else EMPTY]
    {
      hide ValidOf, FlatOf, Mine, Flat, Valid, Own;
      if v in vars {
        OwnFirst(v);
        return;
      }
      var local := FindVar(v);
      var d;
      if local != null {
        d := new FlagDict.Copy(local);
      } else {
        d := new FlagDict();
      }
      Install(v, d);
    }

    /** Writes the dictionary a variable has in this layer. */
    method Write(v: string, flags: map<string, string>, gone: set<string>)
      requires Valid() && v in vars
      modifies vars[v]
      ensures Valid()
      ensures Flat() == old(Flat())[v := VarData(flags, old(vars[v].View()).ops - gone)]
    {
      hide ValidOf, FlatOf, Own, Flat;
      ghost var ops := vars[v].View().ops;
      vars[v].flags := flags;
      vars[v].ops := vars[v].ops - gone;
      assert vars[v].View().ops == ops - gone;
      FlatChanges(v, vars[v]);
    }

    /** Sets one list of operations, a list made for the purpose. */
    method WriteOps(v: string, keyword: string, l: OpList)
      requires Valid() && v in vars && l !in Repr
      modifies this`Repr, vars[v]
      ensures Valid() && Repr == old(Repr) + {l}
      ensures var d := old(vars[v].View()); Flat() == old(Flat())[v := d.(ops := d.ops[keyword := l.items])]
    {
      hide ValidOf, FlatOf, Own, Flat;
      ghost var d := vars[v].View();
      vars[v].ops := vars[v].ops[keyword := l];
      Repr := Repr + {l};
      assert vars[v].View() == d.(ops := d.ops[keyword := l.items]);
      FlatChanges(v, vars[v]);
    }

    /** The layer's dictionaries are the ones there were, or new. */
    twostate predicate KeepsDicts()
      reads this
    {
      forall v :: v in vars ==> fresh(vars[v]) || (v in old(vars) && vars[v] == old(vars)[v])
    }

    ghost function DataAt(v: string): VarData
      requires Valid()
      reads this, Repr
    {
      if v in Flat() then Flat()[v] else EMPTY
    }

    /** Sets a flag and drops lists of operations, in this layer only. */
    method Change(v: string, flag: Option<string>, value: string, gone: set<string>)
      requires Valid()
      modifies this, vars.Values
      ensures Valid() && KeepsDicts() && v in vars && fresh(Repr - old(Repr))
      ensures var d := old(DataAt(v));
              Flat() == old(Flat())[v := VarData(if flag.Some? then d.flags[flag.value := value] else d.flags,
                                                 d.ops - gone)]
    {
      hide ValidOf, FlatOf, Own, Flat, Mine, Valid;
      MakeShadowCopy(v);
      OwnFirst(v);
      Write(v, if flag.Some? then vars[v].flags[flag.value := value] else vars[v].flags, gone);
    }

    /** Takes a flag or a list of operations away, in this layer only. */
    method DropFlag(v: string, flag: string)
      requires Valid()
      modifies this, vars.Values
      ensures Valid() && KeepsDicts() && v in vars && fresh(Repr - old(Repr))
      ensures var d := old(DataAt(v)); Flat() == old(Flat())[v := VarData(d.flags - {flag}, d.ops - {flag})]
    {
      hide ValidOf, FlatOf, Own, Flat, Mine, Valid;
      MakeShadowCopy(v);
      OwnFirst(v);
      Write(v, vars[v].flags - {flag}, {flag});
    }

    method CopyOps(v: string, keyword: string) returns (l: OpList)
      requires Valid()
      ensures fresh(l) && l.items == OpsOf(DataAt(v), keyword)
    {
      hide ValidOf, FlatOf, Own, Flat, Mine, Valid;
      var local := FindVar(v);
      l := new OpList(if local != null && keyword in local.ops then local.ops[keyword].items else []);
    }

    /** Adds to a list of operations: the list is copied first. */
    method AddOp(v: string, keyword: string, op: Op)
      requires Valid()
      modifies this, vars.Values
      ensures Valid() && KeepsDicts() && v in vars && fresh(Repr - old(Repr))
      ensures var d := old(DataAt(v));
              Flat() == old(Flat())[v := d.(ops := d.ops[keyword := OpsOf(d, keyword) + [op]])]
    {
      hide ValidOf, FlatOf, Own, Flat, Mine, Valid, OpsOf, FlagDict.View;
      var l := CopyOps(v, keyword);
      l.items := l.items + [op];
      MakeShadowCopy(v);
      OwnFirst(v);
      WriteOps(v, keyword, l);
    }
  }

  /** One shorter name is dealt with, and the rest are those of the next. */
  lemma NextBase(over: map<string, seq<Entry>>, name: string, short: string, override: string)
    requires override != "" && IsLower(override)
    ensures var (s, o) := NextCut(name, short);
            && AddEntries(over, name, Bases(name, short, override))
               == AddEntries(AddEntry(over, short, Entry(name, override)), name, Bases(name, s, o))
            && DropEntries(over, name, Bases(name, short, override))
               == DropEntries(DropEntry(over, short, Entry(name, override)), name, Bases(name, s, o))
  {
    hide IsLower, AddEntry, DropEntry, NextCut;
    var (s, o) := NextCut(name, short);
    assert Bases(name, short, override) == [(short, override)] + Bases(name, s, o);
    assert Bases(name, short, override)[1..] == Bases(name, s, o);
  }

  lemma NoMoreBases(over: map<string, seq<Entry>>, name: string, short: string, override: string)
    requires override == "" || !IsLower(override)
    ensures AddEntries(over, name, Bases(name, short, override)) == over
      && DropEntries(over, name, Bases(name, short, override)) == over
  {
    hide IsLower;
  }

  class DataSmart {
    const dict: Layer
    const overrides: seq<string>
    const words: ToWords
    var overridedata: map<string, EntryList>

    ghost function Over(): map<string, seq<Entry>>
      reads this, set b | b in overridedata :: overridedata[b]
    {
      map b | b in overridedata :: overridedata[b].items
    }

    ghost predicate Valid()
      reads this, dict, dict.Repr, set b | b in overridedata :: overridedata[b]
    {
      dict.Valid() && this !in dict.Repr && LongerNames(Over())
    }

    /** The flat store the layers and lists stand for. */
    ghost function View(): Store
      requires dict.Valid()
      reads this, dict, dict.Repr, set b | b in overridedata :: overridedata[b]
    {
      Store(dict.Flat(), Over())
    }

    /** An empty store. */
    constructor (overrides: seq<string>, words: ToWords)
      ensures Valid() && View() == Store(map[], map[])
      ensures this.overrides == overrides && this.words == words && fresh(dict) && dict.vars == map[]
    {
      this.overrides, this.words := overrides, words;
      dict := new Layer(null);
      overridedata := map[];
    }

    /** A layer over another store, which shares the other's lists. */
    constructor CreateCopy(parent: DataSmart)
      requires parent.Valid()
      ensures Valid() && View() == parent.View() && dict.data == parent.dict && overridedata == parent.overridedata
      ensures overrides == parent.overrides && words == parent.words && fresh(dict) && dict.vars == map[]
    {
      hide Layer.Valid, Layer.Flat, LongerNames;
      overrides, words := parent.overrides, parent.words;
      dict := new Layer(parent.dict);
      overridedata := parent.overridedata;
      new;
      assert Over() == parent.Over();
    }

    /** One list of variants is made anew before it grows. */
    method AddOverride(base: string, e: Entry)
      modifies this`overridedata
      ensures Over() == AddEntry(old(Over()), base, e)
    {
      ghost var over := Over();
      if base !in overridedata {
        var none := new EntryList([]);
        overridedata := overridedata[base := none];
      }
      assert Over() == over[base := Listed(over, base)];
      if e !in overridedata[base].items {
        var l := new EntryList(overridedata[base].items);
        overridedata := overridedata[base := l];
        l.items := l.items + [e];
        assert Over() == over[base := Listed(over, base) + [e]];
      }
    }

    method DropOverride(base: string, e: Entry)
      modifies this`overridedata
      ensures Over() == DropEntry(old(Over()), base, e)
    {
      ghost var over := Over();
      if base in overridedata {
        var l := new EntryList(overridedata[base].items);
        overridedata := overridedata[base := l];
        l.items := DataStore.Without(l.items, e);
      }
    }

    /** Lists the name as a variant of its shorter names. */
    method SetvarUpdateOverrides(name: string)
      modifies this`overridedata
      ensures Over() == AddEntries(old(Over()), name, BasesOf(name))
    {
      hide IsLower, AddEntry, AddEntries, Bases, FirstCut, NextCut, Over;
      var (short, override) := FirstCut(name);
      while override != "" && IsLower(override)
        invariant AddEntries(Over(), name, Bases(name, short, override)) == AddEntries(old(Over()), name, BasesOf(name))
        decreases |short|, |override|
      {
        NextBase(Over(), name, short, override);
        AddOverride(short, Entry(name, override));
        var next := NextCut(name, short);
        short, override := next.0, next.1;
      }
      NoMoreBases(Over(), name, short, override);
    }

    /** Takes the name off the lists of its shorter names. */
    method DropFromOverrides(name: string)
      modifies this`overridedata
      ensures Over() == DropEntries(old(Over()), name, BasesOf(name))
    {
      hide IsLower, DropEntry, DropEntries, Bases, FirstCut, NextCut, Over;
      var (short, override) := FirstCut(name);
      while override != "" && IsLower(override)
        invariant DropEntries(Over(), name, Bases(name, short, override))
          == DropEntries(old(Over()), name, BasesOf(name))
        decreases |short|, |override|
      {
        NextBase(Over(), name, short, override);
        DropOverride(short, Entry(name, override));
        var next := NextCut(name, short);
        short, override := next.0, next.1;
      }
      NoMoreBases(Over(), name, short, override);
    }

    /** Masks the variable in all layers below. */
    method DelVar(v: string)
      requires Valid()
      modifies this`overridedata, dict
      ensures Valid() && View() == DataStore.DelVar(old(View()), v) && dict.KeepsDicts()
      ensures overridedata.Keys == old(overridedata).Keys - {v}
    {
      hide Layer.Valid, Layer.Flat, LongerNames, DropEntries, BasesOf;
      ghost var before := View();
      var d := new FlagDict();
      dict.Install(v, d);
      overridedata := overridedata - {v};
      assert Over() == before.over - {v};
      if '_' in v {
        DropFromOverrides(v);
      }
      DelVarKeepsLonger(before, v);
      assert Over().Keys == overridedata.Keys;
    }

    /** Writes a flag in this layer; `listed` makes the name a variant of its shorter names. */
    method PutFlag(v: string, flag: string, value: string, listed: bool)
      requires Valid()
      modifies this`overridedata, dict, dict.vars.Values
      ensures Valid() && View() == DataStore.PutFlag(old(View()), v, flag, value, listed) && dict.KeepsDicts()
    {
      hide Layer.Valid, Layer.Flat, LongerNames, AddEntries, BasesOf;
      ghost var before := View();
      ghost var d := dict.DataAt(v);
      assert d.ops - {} == d.ops;
      dict.Change(v, Some(flag), value, {});
      assert Over() == before.over;
      PutFlagKeepsLonger(before, v, flag, value, listed);
      if listed {
        SetvarUpdateOverrides(v);
      }
    }

    method SetVarFlag(v: string, flag: string, value: string)
      requires Valid()
      modifies this`overridedata, dict, dict.vars.Values
      ensures Valid() && View() == DataStore.SetVarFlag(old(View()), v, flag, value) && dict.KeepsDicts()
    {
      hide Valid, DataStore.PutFlag;
      PutFlag(v, flag, value, flag == DEFAULTVAL && '_' in v);
    }

    method DelVarFlag(v: string, flag: string)
      requires Valid()
      modifies dict, dict.vars.Values
      ensures Valid() && View() == DataStore.DelVarFlag(old(View()), v, flag) && dict.KeepsDicts()
    {
      hide Layer.Valid, Layer.Flat, LongerNames;
      ghost var before := View();
      var local := dict.FindVar(v);
      if local == null || (local.flags == map[] && local.ops == map[]) {
        NothingToDelete(before, v, flag);
        return;
      }
      dict.DropFlag(v, flag);
      assert Over() == before.over;
    }

    /** A name with a keyword adds to the base's operations. */
    method AddKeyword(base: string, keyword: string, op: Op)
      requires Valid()
      modifies this`overridedata, dict, dict.vars.Values
      ensures Valid() && View() == DataStore.AddOp(old(View()), base, keyword, op) && dict.KeepsDicts()
    {
      hide Layer.Valid, Layer.Flat, LongerNames, AddEntries, BasesOf;
      ghost var before := View();
      dict.AddOp(base, keyword, op);
      assert Over() == before.over;
      BasesOfShorter(base);
      AddEntriesKeepsLonger(before.over, base, BasesOf(base));
      SetvarUpdateOverrides(base);
    }

    /** Deletes variants one after the other. */
    method DelVars(names: seq<string>)
      requires Valid()
      modifies this`overridedata, dict
      ensures Valid() && View() == DataStore.DelVars(old(View()), names) && dict.KeepsDicts()
    {
      hide Layer.Valid, Layer.Flat, LongerNames, DataStore.DelVar;
      for i := 0 to |names|
        invariant Valid() && dict.KeepsDicts()
        invariant DataStore.DelVars(View(), names[i..]) == DataStore.DelVars(old(View()), names)
      {
        DelVar(names[i]);
      }
    }

    /** The variants of `v` in force. */
    method ActiveVariants(v: string) returns (names: seq<string>)
      requires v in overridedata
      ensures names == ActiveNames(overrides, overridedata[v].items)
    {
      names := [];
      var entries := overridedata[v].items;
      assert entries[..0] == [];
      for i := 0 to |entries|
        invariant names == ActiveNames(overrides, entries[..i])
      {
        assert entries[..i + 1][..i] == entries[..i];
        var e := entries[i];
        if e.override in overrides {
          names := names + [e.name];
        } else if '_' in e.override {
          if forall w :: w in Split(e.override, '_') ==> w in overrides {
            names := names + [e.name];
          }
        }
      }
      assert entries[..|entries|] == entries;
    }

    method DropPending(v: string)
      requires Valid()
      modifies dict, dict.vars.Values
      ensures Valid() && View() == DataStore.DropPending(old(View()), v) && dict.KeepsDicts()
        && overridedata == old(overridedata)
    {
      hide Layer.Valid, Layer.Flat, LongerNames;
      ghost var before := View();
      dict.Change(v, None, "", {APPEND, PREPEND});
      assert Over() == before.over;
    }

    method DropVariants(v: string)
      requires Valid()
      modifies this`overridedata, dict
      ensures Valid() && View() == DataStore.DropVariants(old(View()), overrides, v) && dict.KeepsDicts()
    {
      hide Layer.Valid, Layer.Flat, LongerNames, DataStore.DelVars, ActiveNames;
      ghost var before := View();
      DropVariantsFacts(before, overrides, v);
      if v in overridedata {
        var active := ActiveVariants(v);
        DelVars(active);
        ghost var gone := Over();
        overridedata := overridedata - {v};
        assert Over() == gone - {v};
      }
    }

    /** Sets a plain value; outside parsing it takes the place of everything else there
        was to the variable. */
    method SetPlain(v: string, value: string, parsing: bool)
      requires Valid()
      modifies this`overridedata, dict, dict.vars.Values
      ensures Valid() && View() == DataStore.SetPlain(old(View()), overrides, v, value, parsing) && dict.KeepsDicts()
    {
      hide Valid, DataStore.DropPending, DataStore.DropVariants, DataStore.PutFlag;
      if !parsing {
        DropPending(v);
        DropVariants(v);
      }
      PutFlag(v, CONTENT, value, '_' in v);
    }

    /** Sets a variable, or adds to one, depending on the name. */
    method SetVar(v: string, value: string, parsing: bool)
      requires Valid()
      modifies this`overridedata, dict, dict.vars.Values
      ensures Valid() && View() == DataStore.SetVar(old(View()), overrides, v, value, parsing) && dict.KeepsDicts()
    {
      hide Valid, DataStore.SetPlain, DataStore.AddOp, Layer.KeepsDicts;
      match ParseName(v, 0)
      case Plain => SetPlain(v, value, parsing);
      case Keyword(base, keyword, add) => AddKeyword(base, keyword, Op(value, add));
    }

    method AppendVar(v: string, value: string)
      requires Valid()
      modifies this`overridedata, dict, dict.vars.Values
      ensures Valid() && View() == DataStore.SetVar(old(View()), overrides, v + APPEND, value, true)
        && dict.KeepsDicts()
    {
      SetVar(v + APPEND, value, true);
    }

    method PrependVar(v: string, value: string)
      requires Valid()
      modifies this`overridedata, dict, dict.vars.Values
      ensures Valid() && View() == DataStore.SetVar(old(View()), overrides, v + PREPEND, value, true)
        && dict.KeepsDicts()
    {
      SetVar(v + PREPEND, value, true);
    }

    /** The variants in force, by override. */
    method ActiveByOverride(v: string) returns (active: map<string, string>)
      requires v in overridedata
      ensures active == Active(overrides, overridedata[v].items)
    {
      active := map[];
      var entries := overridedata[v].items;
      assert entries[..0] == [];
      for i := 0 to |entries|
        invariant active == Active(overrides, entries[..i])
      {
        assert entries[..i + 1][..i] == entries[..i];
        var e := entries[i];
        if e.override in overrides {
          active := active[e.override := e.name];
        } else if '_' in e.override {
          if forall w :: w in Split(e.override, '_') ==> w in overrides {
            active := active[e.override := e.name];
          }
        }
      }
      assert entries[..|entries|] == entries;
    }

    /** Reads a variable's value without expanding it. */
    method GetVar(v: string) returns (value: Option<string>)
      requires Valid()
      ensures Reads(View(), words, overrides, v, value)
      decreases Ahead(Over(), v)
    {
      hide Layer.Valid, Layer.Flat, Finish, Selects, Active, Ahead, LongerNames, FlagDict.View, Reads;
      var local := dict.FindVar(v);
      ghost var st := View();
      assert DataOf(st, v) == if local == null then EMPTY else local.View();
      var variant: Option<string> := None;
      if v in overridedata {
        var active := ActiveByOverride(v);
        var m := SelectVariant(overrides, active);
        if m.Some? {
          SelectedIsAhead(Over(), overrides, v, m.value);
          variant := GetVar(m.value);
        }
        ReadsSelected(st, words, overrides, v, m, variant);
      } else {
        ReadsOwn(st, words, overrides, v);
      }
      value := FinishValue(local, variant);
    }

    /** The value the variable's own dictionary makes of what the variant supplied. */
    method FinishValue(local: FlagDict?, variant: Option<string>) returns (value: Option<string>)
      ensures value == Finish(words, overrides, if local == null then EMPTY else local.View(), variant)
    {
      hide Appended, Prepended, WordsToRemove, RemoveWords;
      value := variant;
      if local != null && value.None? {
        if CONTENT in local.flags {
          value := Some(local.flags[CONTENT]);
        } else if DEFAULTVAL in local.flags {
          value := Some(local.flags[DEFAULTVAL]);
        }
      }
      if local != null && APPEND in local.ops {
        var text := AppendAll(local.ops[APPEND].items, if value.None? then "" else value.value);
        value := Some(text);
      }
      if local != null && PREPEND in local.ops {
        var text := PrependAll(local.ops[PREPEND].items, if value.None? then "" else value.value);
        value := Some(text);
      }
      if value.Some? && value.value != "" && local != null && REMOVE in local.ops {
        var gone := CollectRemovals(local.ops[REMOVE].items);
        value := Some(RemoveWords(value.value, gone));
      }
    }

    method AppendAll(ops: seq<Op>, text: string) returns (value: string)
      ensures value == Appended(overrides, ops, text)
    {
      value := text;
      assert ops[..0] == [];
      for i := 0 to |ops|
        invariant value == Appended(overrides, ops[..i], text)
      {
        assert ops[..i + 1][..i] == ops[..i];
        if Applies(overrides, ops[i]) {
          value := value + ops[i].text;
        }
      }
      assert ops[..|ops|] == ops;
    }

    method PrependAll(ops: seq<Op>, text: string) returns (value: string)
      ensures value == Prepended(overrides, ops, text)
    {
      value := text;
      assert ops[..0] == [];
      for i := 0 to |ops|
        invariant value == Prepended(overrides, ops[..i], text)
      {
        assert ops[..i + 1][..i] == ops[..i];
        if Applies(overrides, ops[i]) {
          value := ops[i].text + value;
        }
      }
      assert ops[..|ops|] == ops;
    }

    method CollectRemovals(ops: seq<Op>) returns (gone: seq<string>)
      ensures gone == WordsToRemove(words, overrides, ops)
    {
      gone := [];
      assert ops[..0] == [];
      for i := 0 to |ops|
        invariant gone == WordsToRemove(words, overrides, ops[..i])
      {
        assert ops[..i + 1][..i] == ops[..i];
        if Applies(overrides, ops[i]) {
          gone := gone + words(ops[i].text);
        }
      }
      assert ops[..|ops|] == ops;
    }
  }

  // ---- copies ----

  datatype Command =
    | Set(v: string, value: string, parsing: bool)
    | Append(v: string, value: string)
    | Prepend(v: string, value: string)
    | Delete(v: string)
    | SetFlag(v: string, flag: string, value: string)
    | DeleteFlag(v: string, flag: string)

  /** What one command does to a flat store. */
  function Apply(st: Store, overrides: seq<string>, c: Command): Store {
    match c
    case Set(v, value, parsing) => DataStore.SetVar(st, overrides, v, value, parsing)
    case Append(v, value) => DataStore.SetVar(st, overrides, v + APPEND, value, true)
    case Prepend(v, value) => DataStore.SetVar(st, overrides, v + PREPEND, value, true)
    case Delete(v) => DataStore.DelVar(st, v)
    case SetFlag(v, flag, value) => DataStore.SetVarFlag(st, v, flag, value)
    case DeleteFlag(v, flag) => DataStore.DelVarFlag(st, v, flag)
  }

  function ApplyAll(st: Store, overrides: seq<string>, cs: seq<Command>): Store {
    if cs == [] then st else Apply(ApplyAll(st, overrides, cs[..|cs| - 1]), overrides, cs[|cs| - 1])
  }

  method Perform(d: DataSmart, c: Command)
    requires d.Valid()
    modifies d`overridedata, d.dict, d.dict.vars.Values
    ensures d.Valid() && d.View() == Apply(old(d.View()), d.overrides, c) && d.dict.KeepsDicts()
  {
    hide DataSmart.Valid, DataStore.SetVar, DataStore.DelVar, DataStore.SetVarFlag, DataStore.DelVarFlag;
    match c
    case Set(v, value, parsing) => d.SetVar(v, value, parsing);
    case Append(v, value) => d.AppendVar(v, value);
    case Prepend(v, value) => d.PrependVar(v, value);
    case Delete(v) => d.DelVar(v);
    case SetFlag(v, flag, value) => d.SetVarFlag(v, flag, value);
    case DeleteFlag(v, flag) => d.DelVarFlag(v, flag);
  }

  /** A copy, whatever is done to it, acts as a flat store that started as the parent's;
      the parent, and what it shares with the copy, stays as it was. */
  method WorkOnCopy(parent: DataSmart, cs: seq<Command>) returns (copy: DataSmart)
    requires parent.Valid()
    ensures fresh(copy) && copy.Valid() && copy.View() == ApplyAll(old(parent.View()), parent.overrides, cs)
    ensures parent.Valid() && parent.View() == old(parent.View()) && parent.overridedata == old(parent.overridedata)
  {
    hide Layer.Valid, Layer.Flat, LongerNames, Apply;
    copy := new DataSmart.CreateCopy(parent);
    assert cs[..0] == [];
    for i := 0 to |cs|
      invariant copy.Valid() && copy.View() == ApplyAll(old(parent.View()), parent.overrides, cs[..i])
      invariant forall v :: v in copy.dict.vars ==> fresh(copy.dict.vars[v])
    {
      assert cs[..i + 1][..i] == cs[..i];
      Perform(copy, cs[i]);
    }
    assert cs[..|cs|] == cs;
  }

  /** Setting a plain value and reading it back, through all the layers. */
  method SetAndRead(d: DataSmart, v: string, x: string) returns (value: Option<string>)
    requires d.Valid() && ParseName(v, 0).Plain?
    modifies d`overridedata, d.dict, d.dict.vars.Values
    ensures d.Valid() && value == AfterRemoval(d.words, d.overrides, DataOf(old(d.View()), v), Some(x))
    ensures REMOVE !in DataOf(old(d.View()), v).ops ==> value == Some(x)
  {
    hide Layer.Valid, Layer.Flat, DataStore.SetVar, Reads, AfterRemoval;
    ghost var before := d.View();
    d.SetVar(v, x, false);
    value := d.GetVar(v);
    SetThenRead(before, d.words, d.overrides, v, x, value);
  }

  lemma NothingToDelete(st: Store, v: string, flag: string)
    requires v !in st.vars || st.vars[v] == EMPTY
    ensures DataStore.DelVarFlag(st, v, flag) == st
  {
  }
}
