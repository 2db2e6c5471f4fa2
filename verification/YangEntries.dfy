/** One table entry: which list accepts it, what it becomes, and how it is read back. */
module YangEntries {
  import opened Sequences
  import opened Text
  import opened YangModel
  import opened YangValues
  import opened YangKeys

  // ----- database to YANG -----

  /** The fields of an entry. Iterating over an empty text or list finds none; any other text or list
      fails as soon as it is indexed by what was iterated. */
  function Fields(v: Value): Option<map<string, Value>> {
    match v
    case Obj(fields) => Some(fields)
    case Str(s) => if s == "" then Some(map[]) else None
    case Arr(items) => if items == [] then Some(map[]) else None
  }

  /** A leaf value as the forward direction writes it, or as the data tree then holds it. */
  function Sent(loaded: bool, table: TableName, field: string, leaf: Leaf, v: Value): Option<Yang> {
    var y := Forward(table, field, leaf, v);
    if loaded && y.Some? then Some(LoadValue(leaf, y.value)) else y
  }

  /** The value of a field under the leaf of its name. */
  function Writer(loaded: bool, table: TableName, leaves: Leaves): (string, Value) -> Option<Yang> {
    (f: string, v: Value) => if f in leaves then Sent(loaded, table, f, leaves[f], v) else None
  }

  predicate IsMapList(l: ListModel) {
    l.name in MAP_LISTS
  }

  /** The fields that become leaves: a field named like the container inside the list is passed over. */
  function Plain(l: ListModel, m: map<string, Value>): map<string, Value> {
    map f | f in m && l.nested != Some(f) :: m[f]
  }

  /** A dictionary under the name of the container inside the list raises no error; nor does anything
      that is not empty, because only empty containers are looked into. */
  predicate NestedPasses(l: ListModel, m: map<string, Value>) {
    l.nested.Some? && l.nested.value in m ==> m[l.nested.value] != Str("") && m[l.nested.value] != Arr([])
  }

  /** An entry as the data tree holds it; key leaves stay texts. */
  function LoadEntry(l: ListModel, e: map<string, Yang>): map<string, Yang> {
    if IsMapList(l) then e
    else map f | f in e :: if f !in l.keys && f in l.leaves then LoadValue(l.leaves[f], e[f]) else e[f]
  }

  predicate AcceptsPairs(inner: Option<InnerList>, m: map<string, Value>) {
    inner.Some? && forall f :: f in m ==> PairValue(inner.value).Some? && TextOf(m[f]).Some?
  }

  /** Whether list `l` takes the entry: its key has the right number of parts and its leaves take
      every field. */
  predicate Accepts(l: ListModel, table: TableName, key: string, v: Value) {
    && ExtractKey(key, l.keys).Some? && Fields(v).Some?
    && if IsMapList(l) then AcceptsPairs(l.inner, Fields(v).value)
       else NestedPasses(l, Fields(v).value) && Collect(Writer(false, table, l.leaves), Plain(l, Fields(v).value)).Some?
  }

  /** `names` lists the keys of a dictionary, each once, in the order of some iteration over it. */
  ghost predicate Enumerates(names: seq<string>, keys: set<string>) {
    Distinct(names) && (forall k :: k in names <==> k in keys)
  }

  function Pair(inner: InnerList, f: string, v: Value): Yang
    requires PairValue(inner).Some? && TextOf(v).Some?
  {
    YObj(map[inner.key := YStr(f), PairValue(inner).value := YStr(TextOf(v).value)])
  }

  ghost predicate PairsAre(inner: InnerList, m: map<string, Value>, names: seq<string>, ys: seq<Yang>)
    requires AcceptsPairs(Some(inner), m)
  {
    && Enumerates(names, m.Keys) && |ys| == |names|
    && forall i :: 0 <= i < |names| ==> ys[i] == Pair(inner, names[i], m[names[i]])
  }

  ghost predicate IsPairs(inner: InnerList, m: map<string, Value>, ys: seq<Yang>)
    requires AcceptsPairs(Some(inner), m)
  {
    exists names :: PairsAre(inner, m, names, ys)
  }

  /** `e` is the YANG entry for the accepted database entry. */
  ghost predicate IsEntry(loaded: bool, l: ListModel, table: TableName, key: string, v: Value, e: map<string, Yang>) {
    && Accepts(l, table, key, v)
    && var kd, m := ExtractKey(key, l.keys).value, Fields(v).value;
       if IsMapList(l) then
         var name := l.inner.value.name;
         name in e && e[name].YArr? && IsPairs(l.inner.value, m, e[name].items) && e == kd[name := e[name]]
       else
         var sent := kd + Collect(Writer(false, table, l.leaves), Plain(l, m)).value;
         e == if loaded then LoadEntry(l, sent) else sent
  }

  // ----- YANG to database -----

  function Reader(table: string, leaves: Leaves): (string, Yang) -> Option<Value> {
    (f: string, y: Yang) => if f in leaves then Backward(table, f, leaves[f], y) else None
  }

  /** The fields of a YANG entry: all but its key leaves. */
  function BackFields(table: string, l: ListModel, e: map<string, Yang>): Option<map<string, Value>> {
    Collect(Reader(table, l.leaves), map f | f in e && f !in l.keys :: e[f])
  }

  /** The field and value of one pair. */
  function PairBack(inner: InnerList, y: Yang): Option<(string, Value)> {
    if !y.YObj? || PairValue(inner).None? then None
    else
      var value := PairValue(inner).value;
      if inner.key !in y.fields || value !in y.fields then None
      else
        var f, v := Printed(y.fields[inner.key]), Printed(y.fields[value]);
        if f.Some? && v.Some? then Some((f.value, Str(v.value))) else None
  }

  function PairsBack(inner: InnerList, ys: seq<Yang>): Option<map<string, Value>> {
    if ys == [] then Some(map[])
    else
      var init, last := PairsBack(inner, ys[..|ys| - 1]), PairBack(inner, ys[|ys| - 1]);
      if init.Some? && last.Some? then Some(init.value[last.value.0 := last.value.1]) else None
  }

  function BackPairs(inner: Option<InnerList>, e: map<string, Yang>): Option<map<string, Value>> {
    if inner.None? || inner.value.name !in e || !e[inner.value.name].YArr? then None
    else PairsBack(inner.value, e[inner.value.name].items)
  }

  /** The table key and fields of a YANG entry. */
  function EntryBack(l: ListModel, table: string, e: map<string, Yang>): Option<(string, map<string, Value>)> {
    var key := CreateKey(e, l.keys);
    var fields := if IsMapList(l) then BackPairs(l.inner, e) else BackFields(table, l, e);
    if key.Some? && fields.Some? then Some((key.value, fields.value)) else None
  }

  // ----- which entries survive -----

  ghost predicate FieldsClean(table: TableName, leaves: Leaves, m: map<string, Value>) {
    forall f :: f in m ==> f in leaves && ValueClean(table, f, leaves[f], m[f])
  }

  /** Entries that come back as they were: parts of the key non-empty and trimmed, a dictionary of
      clean values, no field named like a key leaf, and no container inside the entry. */
  ghost predicate EntryClean(l: ListModel, table: TableName, key: string, v: Value) {
    && KeyClean(key) && v.Obj?
    && if IsMapList(l) then forall f :: f in v.fields ==> v.fields[f].Str?
       else
         && FieldsClean(table, l.leaves, v.fields) && (forall f :: f in v.fields ==> f !in l.keys)
         && (l.nested.Some? ==> l.nested.value !in v.fields)
  }

  predicate ListWellFormed(l: ListModel) {
    && Distinct(l.keys) && (l.inner.Some? ==> l.inner.value.name !in l.keys)
    && (l.nested.Some? ==> l.nested.value !in l.keys && l.nested.value !in l.leaves)
  }

  /** A field that was written comes back exactly when its value is clean. */
  lemma FieldExact(table: TableName, leaves: Leaves, f: string, v: Value, y: Yang)
    requires Writer(true, table, leaves)(f, v) == Some(y)
    ensures Reader(table.read, leaves)(f, y) == Some(v) <==> f in leaves && ValueClean(table, f, leaves[f], v)
  {
    ValueExact(table, f, leaves[f], v);
  }

  lemma FieldsExact(table: TableName, leaves: Leaves, m: map<string, Value>, ys: map<string, Yang>)
    requires Collect(Writer(true, table, leaves), m) == Some(ys)
    ensures Collect(Reader(table.read, leaves), ys) == Some(m) <==> FieldsClean(table, leaves, m)
  {
    CollectExact(Writer(true, table, leaves), m, ys);
    CollectExact(Reader(table.read, leaves), ys, m);
    forall f | f in m
      ensures Reader(table.read, leaves)(f, ys[f]) == Some(m[f]) <==> f in leaves && ValueClean(table, f, leaves[f], m[f])
    {
      FieldExact(table, leaves, f, m[f], ys[f]);
    }
  }

  ghost predicate ComesBack(l: ListModel, table: TableName, key: string, v: Value, e: map<string, Yang>) {
    v.Obj? && EntryBack(l, table.read, e) == Some((key, v.fields))
  }

  lemma PlainFieldsBack(l: ListModel, table: TableName, kd: map<string, Yang>, m: map<string, Value>, ys: map<string, Yang>)
    requires Collect(Writer(true, table, l.leaves), m) == Some(ys) && forall k :: k in kd <==> k in l.keys
    ensures BackFields(table.read, l, kd + ys) == Some(m) <==>
            FieldsClean(table, l.leaves, m) && forall f :: f in m ==> f !in l.keys
  {
    CollectExact(Writer(true, table, l.leaves), m, ys);
    var e := kd + ys;
    var plain := map f | f in e && f !in l.keys :: e[f];
    if forall f :: f in m ==> f !in l.keys {
      assert plain == ys;
      FieldsExact(table, l.leaves, m, ys);
    } else {
      CollectExact(Reader(table.read, l.leaves), plain, m);
      var f :| f in m && f in l.keys;
      assert f !in plain;
    }
  }

  function LoadLeaves(leaves: Leaves, ys: map<string, Yang>): map<string, Yang> {
    map f | f in ys :: if f in leaves then LoadValue(leaves[f], ys[f]) else ys[f]
  }

  lemma LoadFields(table: TableName, leaves: Leaves, m: map<string, Value>, ys: map<string, Yang>)
    requires Collect(Writer(false, table, leaves), m) == Some(ys)
    ensures Collect(Writer(true, table, leaves), m) == Some(LoadLeaves(leaves, ys))
    ensures forall f :: f in ys ==> f in leaves
  {
    CollectExact(Writer(false, table, leaves), m, ys);
    forall f | f in ys ensures f in leaves && Writer(true, table, leaves)(f, m[f]) == Some(LoadValue(leaves[f], ys[f])) {
      assert Writer(false, table, leaves)(f, m[f]) == Some(ys[f]);
    }
    CollectExact(Writer(true, table, leaves), m, LoadLeaves(leaves, ys));
  }

  lemma LoadEntryParts(l: ListModel, kd: map<string, Yang>, ys: map<string, Yang>)
    requires !IsMapList(l) && (forall k :: k in kd <==> k in l.keys) && forall f :: f in ys ==> f !in l.keys
    ensures LoadEntry(l, kd + ys) == kd + LoadLeaves(l.leaves, ys)
  {
  }

  /** The fields of an entry that its translation loses: those named like a key leaf or like the
      container inside the list. */
  predicate Loses(l: ListModel, m: map<string, Value>, f: string) {
    !IsMapList(l) && f in m && (f in l.keys || l.nested == Some(f))
  }

  /** The plain case: what the entry holds, with names for its parts. */
  lemma PlainParts(l: ListModel, table: TableName, key: string, v: Value, e: map<string, Yang>)
    returns (kd: map<string, Yang>, m: map<string, Value>, ys: map<string, Yang>)
    requires !IsMapList(l) && ListWellFormed(l) && IsEntry(true, l, table, key, v, e)
    ensures ExtractKey(key, l.keys) == Some(kd) && (forall k :: k in kd <==> k in l.keys)
    ensures m == Plain(l, Fields(v).value) && Collect(Writer(false, table, l.leaves), m) == Some(ys) && ys.Keys == m.Keys
    ensures e == LoadEntry(l, kd + ys)
  {
    kd, m := ExtractKey(key, l.keys).value, Plain(l, Fields(v).value);
    ys := Collect(Writer(false, table, l.leaves), m).value;
    KeyDictKeys(l.keys, Split(key, '|'));
    CollectExact(Writer(false, table, l.leaves), m, ys);
  }

  /** What is read back has only fields of the entry, and none that is lost. */
  lemma PlainBackKeys(l: ListModel, table: TableName, key: string, v: Value, e: map<string, Yang>)
    requires !IsMapList(l) && ListWellFormed(l) && IsEntry(true, l, table, key, v, e) && BackFields(table.read, l, e).Some?
    ensures forall f :: f in BackFields(table.read, l, e).value <==> f in Fields(v).value && !Loses(l, Fields(v).value, f)
  {
    var kd, m, ys := PlainParts(l, table, key, v, e);
    var back := BackFields(table.read, l, e).value;
    CollectExact(Reader(table.read, l.leaves), map f | f in e && f !in l.keys :: e[f], back);
  }

  lemma PlainWhole(l: ListModel, table: TableName, key: string, v: Value, e: map<string, Yang>)
    requires !IsMapList(l) && ListWellFormed(l) && IsEntry(true, l, table, key, v, e)
    requires forall f :: !Loses(l, Fields(v).value, f)
    ensures HasKey(e, l.keys, key)
    ensures BackFields(table.read, l, e) == Some(Fields(v).value) <==> FieldsClean(table, l.leaves, Fields(v).value)
  {
    var kd, m, ys := PlainParts(l, table, key, v, e);
    forall f | f in Fields(v).value ensures f !in l.keys && l.nested != Some(f) {
      assert !Loses(l, Fields(v).value, f);
    }
    assert m == Fields(v).value;
    LoadEntryParts(l, kd, ys);
    LoadFields(table, l.leaves, m, ys);
    CollectExact(Writer(true, table, l.leaves), m, LoadLeaves(l.leaves, ys));
    PlainFieldsBack(l, table, kd, m, LoadLeaves(l.leaves, ys));
  }

  lemma PlainEntryExact(l: ListModel, table: TableName, key: string, v: Value, e: map<string, Yang>)
    requires !IsMapList(l) && ListWellFormed(l) && IsEntry(true, l, table, key, v, e)
    ensures ComesBack(l, table, key, v, e) <==> EntryClean(l, table, key, v)
  {
    var m := Fields(v).value;
    if f :| Loses(l, m, f) {
      if BackFields(table.read, l, e).Some? { PlainBackKeys(l, table, key, v, e); }
    } else {
      PlainWhole(l, table, key, v, e);
      KeyExact(e, l.keys, key);
      assert forall f :: f in m ==> !Loses(l, m, f);
    }
  }

  /** The printed fields of `names`. */
  function Printouts(m: map<string, Value>, names: seq<string>): map<string, Value>
    requires forall f :: f in names ==> f in m && TextOf(m[f]).Some?
  {
    if names == [] then map[]
    else
      var init, f := names[..|names| - 1], names[|names| - 1];
      Printouts(m, init)[f := Str(TextOf(m[f]).value)]
  }

  lemma {:induction false} PrintoutsAt(m: map<string, Value>, names: seq<string>)
    requires forall f :: f in names ==> f in m && TextOf(m[f]).Some?
    ensures forall f :: f in Printouts(m, names) <==> f in names
    ensures forall f :: f in names ==> Printouts(m, names)[f] == Str(TextOf(m[f]).value)
  {
    if names != [] {
      PrintoutsAt(m, names[..|names| - 1]);
      assert forall f :: f in names <==> f in names[..|names| - 1] || f == names[|names| - 1];
    }
  }

  lemma {:induction false} PairsBackOf(inner: InnerList, m: map<string, Value>, names: seq<string>, ys: seq<Yang>)
    requires PairValue(inner).Some? && |ys| == |names|
    requires forall f :: f in names ==> f in m && TextOf(m[f]).Some?
    requires forall i :: 0 <= i < |names| ==> ys[i] == Pair(inner, names[i], m[names[i]])
    ensures PairsBack(inner, ys) == Some(Printouts(m, names))
  {
    if names != [] {
      var n := |names| - 1;
      PairsBackOf(inner, m, names[..n], ys[..n]);
      assert PairBack(inner, ys[n]) == Some((names[n], Str(TextOf(m[names[n]]).value)));
    }
  }

  lemma {:induction false} PrintoutsExact(m: map<string, Value>, names: seq<string>)
    requires Enumerates(names, m.Keys) && forall f :: f in m ==> TextOf(m[f]).Some?
    ensures Printouts(m, names) == m <==> forall f :: f in m ==> m[f].Str?
  {
    PrintoutsAt(m, names);
    var back := Printouts(m, names);
    assert back.Keys == m.Keys;
    if forall f :: f in m ==> m[f].Str? {
      assert forall f :: f in m ==> back[f] == m[f];
    } else {
      var f :| f in m && !m[f].Str?;
      assert back[f] != m[f];
    }
  }

  lemma {:induction false} NamedFieldsBack(inner: InnerList, m: map<string, Value>, names: seq<string>, ys: seq<Yang>)
    requires AcceptsPairs(Some(inner), m) && PairsAre(inner, m, names, ys)
    ensures PairsBack(inner, ys) == Some(Printouts(m, names))
  {
    if names != [] {
      assert names[0] in names;
      PairsBackOf(inner, m, names, ys);
    }
  }

  lemma {:induction false} MapFieldsBack(inner: InnerList, m: map<string, Value>, ys: seq<Yang>)
    requires AcceptsPairs(Some(inner), m) && IsPairs(inner, m, ys)
    ensures PairsBack(inner, ys) == Some(m) <==> forall f :: f in m ==> m[f].Str?
  {
    var names :| PairsAre(inner, m, names, ys);
    NamedFieldsBack(inner, m, names, ys);
    PrintoutsExact(m, names);
  }

  lemma MapEntryExact(l: ListModel, table: TableName, key: string, v: Value, e: map<string, Yang>)
    requires IsMapList(l) && ListWellFormed(l) && IsEntry(true, l, table, key, v, e)
    ensures ComesBack(l, table, key, v, e) <==> EntryClean(l, table, key, v)
  {
    var inner, m := l.inner.value, Fields(v).value;
    KeyDictKeys(l.keys, Split(key, '|'));
    MapFieldsBack(inner, m, e[inner.name].items);
    KeyExact(e, l.keys, key);
  }

  /** An accepted entry is read back as it was exactly when it is clean. */
  lemma EntryExact(l: ListModel, table: TableName, key: string, v: Value, e: map<string, Yang>)
    requires ListWellFormed(l) && IsEntry(true, l, table, key, v, e)
    ensures ComesBack(l, table, key, v, e) <==> EntryClean(l, table, key, v)
  {
    if IsMapList(l) { MapEntryExact(l, table, key, v, e); } else { PlainEntryExact(l, table, key, v, e); }
  }
}
