/** The translator: an object with a path stack that walks tables in place, with failures as values. */
module YangTranslator {
  import opened Sequences
  import opened Text
  import opened YangModel
  import opened YangValues
  import opened YangKeys
  import opened YangEntries
  import opened YangContainers

  /** The keys of a dictionary in the order of one iteration over it. */
  method IterationOrder(keys: set<string>) returns (names: seq<string>)
    ensures Enumerates(names, keys)
  {
    names := [];
    var todo := keys;
    while todo != {}
      invariant todo <= keys && Distinct(names)
      invariant forall k :: k in names <==> k in keys && k !in todo
      decreases todo
    {
      var k :| k in todo;
      names := names + [k];
      todo := todo - {k};
    }
  }

  method ExtractKeyOf(tableKey: string, keys: seq<string>) returns (r: Option<map<string, Yang>>)
    ensures r == ExtractKey(tableKey, keys)
  {
    var value := Split(tableKey, '|');
    if |keys| != |value| {
      return None;
    }
    var keyDict: map<string, Yang> := map[];
    for i := 0 to |keys|
      invariant keyDict == KeyDict(keys[..i], value[..i])
    {
      keyDict := keyDict[keys[i] := YStr(Strip(value[i]))];
      assert keys[..i + 1][..i] == keys[..i] && value[..i + 1][..i] == value[..i];
    }
    assert keys[..|keys|] == keys && value[..|keys|] == value;
    r := Some(keyDict);
  }

  method CreateKeyOf(entry: map<string, Yang>, keys: seq<string>) returns (r: Option<string>)
    ensures r == CreateKey(entry, keys)
  {
    var keyV := "";
    for i := 0 to |keys|
      invariant KeyText(entry, keys[..i]) == Some(keyV)
    {
      assert keys[..i + 1][..i] == keys[..i];
      if keys[i] !in entry || !Truthy(entry[keys[i]]) || Printed(entry[keys[i]]).None? {
        KeyTextPrefix(entry, keys, i + 1);
        return None;
      }
      keyV := keyV + Printed(entry[keys[i]]).value + "|";
    }
    assert keys[..|keys|] == keys;
    r := Some(StripBars(keyV));
  }

  class Translator {
    var elementPath: seq<string>

    constructor ()
      ensures elementPath == []
    {
      elementPath := [];
    }

    /** Whether the path leads through `table`. */
    predicate Within(table: string)
      reads this
    {
      elementPath != [] && elementPath[0] == table
    }

    /** The typed value of a field at the end of the path. */
    method FindTypedValue(key: string, value: Value, leaves: Leaves, ghost table: TableName) returns (r: Option<Yang>)
      requires Within(table.written) && elementPath[|elementPath| - 1] == key
      ensures r == Writer(false, table, leaves)(key, value)
    {
      if key !in leaves {
        return None;
      }
      var leaf := leaves[key];
      if leaf.isList {
        var items := Items(elementPath[0], elementPath[|elementPath| - 1], value);
        if items.None? {
          return None;
        }
        r := ConvertEach(leaf, items.value);
      } else {
        var text := TextOf(value);
        r := if text.Some? then Convert(leaf, text.value) else None;
      }
    }

    /** The fields of an entry; the first field without a value ends the attempt. The path is as before, but
        for the name of the container inside the list if looking into that failed. */
    method XlateFields(l: ListModel, m: Config, ghost table: TableName) returns (r: Option<map<string, Yang>>)
      requires Within(table.written)
      modifies this`elementPath
      ensures elementPath == old(elementPath) || (!NestedPasses(l, m) && elementPath == old(elementPath) + [l.nested.value])
      ensures r == if NestedPasses(l, m) then Collect(Writer(false, table, l.leaves), Plain(l, m)) else None
    {
      ghost var write, plain := Writer(false, table, l.leaves), Plain(l, m);
      var fields: map<string, Yang> := map[];
      var names := IterationOrder(m.Keys);
      ghost var done := [];
      for i := 0 to |names|
        invariant elementPath == old(elementPath)
        invariant WrittenAs(write, plain, done, fields)
        invariant forall k :: k in done <==> k in names[..i] && l.nested != Some(k)
        invariant l.nested.Some? && l.nested.value in names[..i] ==> NestedPasses(l, m)
      {
        var vKey := names[i];
        assert vKey in names;
        TakeNext(names, i);
        if l.nested == Some(vKey) {
          var ok := XlateContainerInList(vKey, m[vKey]);
          if !ok {
            return None;
          }
        } else {
          var y := XlateField(vKey, m[vKey], l.leaves, table);
          if y.None? {
            assert vKey in plain && write(vKey, plain[vKey]).None?;
            return None;
          }
          WrittenNext(write, plain, done, fields, vKey, y.value);
          fields := fields[vKey := y.value];
          done := done + [vKey];
        }
      }
      assert names[..|names|] == names;
      CollectExact(write, plain, fields);
      r := Some(fields);
    }

    method XlateField(vKey: string, v: Value, leaves: Leaves, ghost table: TableName) returns (y: Option<Yang>)
      requires Within(table.written)
      modifies this`elementPath
      ensures elementPath == old(elementPath) && y == Writer(false, table, leaves)(vKey, v)
    {
      elementPath := elementPath + [vKey];
      y := FindTypedValue(vKey, v, leaves, table);
      elementPath := elementPath[..|elementPath| - 1];
    }

    /** Looks into the container inside a list entry only if that is empty, which fails unless it is a
        dictionary; a failure leaves the name of the container on the path. */
    method XlateContainerInList(name: string, v: Value) returns (ok: bool)
      modifies this`elementPath
      ensures ok <==> v != Str("") && v != Arr([])
      ensures elementPath == if ok then old(elementPath) else old(elementPath) + [name]
    {
      if !IsEmpty(v) {
        return true;
      }
      elementPath := elementPath + [name];
      if !v.Obj? {
        return false;
      }
      elementPath := elementPath[..|elementPath| - 1];
      ok := true;
    }

    /** The fields of a map-list entry as a list of pairs. */
    static method XlatePairs(m: Config, inner: InnerList) returns (r: Option<seq<Yang>>)
      ensures r.Some? <==> AcceptsPairs(Some(inner), m)
      ensures r.Some? ==> IsPairs(inner, m, r.value)
    {
      var pairs: seq<Yang> := [];
      var names := IterationOrder(m.Keys);
      for i := 0 to |names|
        invariant |pairs| == i
        invariant forall j :: 0 <= j < i ==>
          PairValue(inner).Some? && TextOf(m[names[j]]).Some? && pairs[j] == Pair(inner, names[j], m[names[j]])
      {
        var vKey := names[i];
        assert vKey in names;
        if PairValue(inner).None? || TextOf(m[vKey]).None? {
          return None;
        }
        pairs := pairs + [Pair(inner, vKey, m[vKey])];
      }
      assert forall f :: f in m ==> f in names;
      assert PairsAre(inner, m, names, pairs);
      r := Some(pairs);
    }

    /** One entry under one list; None is the source's caught exception. The path is as before, unless looking
        into the container inside the list failed: the name of that is removed in place of the key. */
    method XlateEntry(l: ListModel, pkey: string, v: Value, ghost table: TableName) returns (r: Option<map<string, Yang>>)
      requires Within(table.written)
      modifies this`elementPath
      ensures elementPath == old(elementPath) || (NestedFails(l, v) && elementPath == old(elementPath) + [pkey])
      ensures r.Some? <==> Accepts(l, table, pkey, v)
      ensures r.Some? ==> IsEntry(false, l, table, pkey, v, r.value)
    {
      if IsMapList(l) {
        r := XlateMapEntry(l, pkey, v, table);
      } else {
        elementPath := elementPath + [pkey];
        r := XlatePlainEntry(l, pkey, v, table);
        elementPath := elementPath[..|elementPath| - 1];
      }
    }

    method XlatePlainEntry(l: ListModel, pkey: string, v: Value, ghost table: TableName) returns (r: Option<map<string, Yang>>)
      requires Within(table.written) && !IsMapList(l)
      modifies this`elementPath
      ensures elementPath == old(elementPath) || (NestedFails(l, v) && elementPath == old(elementPath) + [l.nested.value])
      ensures r.Some? <==> Accepts(l, table, pkey, v)
      ensures r.Some? ==> IsEntry(false, l, table, pkey, v, r.value)
    {
      var keyDict := ExtractKeyOf(pkey, l.keys);
      var fields := Fields(v);
      if keyDict.None? || fields.None? {
        return None;
      }
      var ys := XlateFields(l, fields.value, table);
      r := if ys.Some? then Some(keyDict.value + ys.value) else None;
    }

    static method XlateMapEntry(l: ListModel, pkey: string, v: Value, ghost table: TableName)
      returns (r: Option<map<string, Yang>>)
      requires IsMapList(l)
      ensures r.Some? <==> Accepts(l, table, pkey, v)
      ensures r.Some? ==> IsEntry(false, l, table, pkey, v, r.value)
    {
      var keyDict := ExtractKeyOf(pkey, l.keys);
      var fields := Fields(v);
      if keyDict.None? || fields.None? || l.inner.None? {
        return None;
      }
      var pairs := XlatePairs(fields.value, l.inner.value);
      r := if pairs.Some? then Some(keyDict.value[l.inner.value.name := YArr(pairs.value)]) else None;
    }

    /** Moves every entry that the list accepts from `config` to `yang`; failed attempts leave nothing
        behind, and the path is as before or, if looking into a container inside the list failed, longer. */
    method XlateList(l: ListModel, config: Config, ghost table: TableName) returns (yang: seq<Yang>, left: Config)
      requires Within(table.written)
      modifies this`elementPath
      ensures old(elementPath) <= elementPath
      ensures (forall k :: k in config ==> !NestedFails(l, config[k])) ==> elementPath == old(elementPath)
      ensures left == Rejected(l, table, config)
      ensures IsListing(false, l, table, Accepted(l, table, config), yang)
    {
      yang, left := [], config;
      ghost var safe := forall k :: k in config ==> !NestedFails(l, config[k]);
      var primaryKeys := IterationOrder(config.Keys);
      ghost var taken := [];
      for i := 0 to |primaryKeys|
        invariant old(elementPath) <= elementPath && (safe ==> elementPath == old(elementPath))
        invariant Moved(l, table, config, primaryKeys[..i], taken, left)
        invariant Listed(l, table, config, taken, yang)
      {
        var pkey := primaryKeys[i];
        assert pkey in primaryKeys;
        TakeNext(primaryKeys, i);
        assert pkey !in primaryKeys[..i];
        var e := XlateEntry(l, pkey, config[pkey], table);
        OneMoved(l, table, config, primaryKeys[..i], taken, left, yang, pkey, e);
        if e.Some? {
          yang := yang + [YObj(e.value)];
          left := left - {pkey};
          taken := taken + [pkey];
        }
      }
      assert primaryKeys[..|primaryKeys|] == primaryKeys;
      AllMoved(l, table, config, primaryKeys, taken, left, yang);
    }

    /** Tries the lists in order; each gets what the lists in front of it left. */
    method XlateLists(lists: seq<ListModel>, config: Config, ghost table: TableName) returns (yang: map<string, Yang>, left: Config)
      requires Within(table.written) && forall i, j :: 0 <= i < j < |lists| ==> lists[i].name != lists[j].name
      modifies this`elementPath
      ensures old(elementPath) <= elementPath && (NoNested(lists) ==> elementPath == old(elementPath))
      ensures left == Leftover(lists, table, config) && ListsDone(lists, |lists|, table, config, yang)
    {
      yang, left := map[], config;
      for n := 0 to |lists|
        invariant old(elementPath) <= elementPath && (NoNested(lists) ==> elementPath == old(elementPath))
        invariant left == Leftover(lists[..n], table, config) && ListsDone(lists, n, table, config, yang)
      {
        var ys, rest := XlateList(lists[n], left, table);
        ListsNext(lists, n, table, config, left, ys, yang);
        NextLeaves(lists, n, table, config, left);
        yang := XlateListInContainer(lists[n].name, yang, ys);
        left := rest;
      }
      assert lists[..|lists|] == lists;
    }

    /** Stores the items of a list and cleans the list up again if it is empty. */
    static method XlateListInContainer(name: string, yang: map<string, Yang>, ys: seq<Yang>) returns (r: map<string, Yang>)
      ensures r == WithItems(yang, name, ys)
    {
      r := yang[name := YArr(ys)];
      if ys == [] {
        r := r - {name};
      }
    }

    /** The leaves of a container: keys that are no leaf stay behind. */
    method XlateLeaves(leaves: Leaves, config: Config, ghost table: TableName)
      returns (ok: bool, fields: map<string, Yang>, left: Config)
      requires Within(table.written)
      modifies this`elementPath
      ensures ok && left == map[] <==> Collect(Writer(false, table, leaves), config).Some?
      ensures ok && left == map[] ==> Collect(Writer(false, table, leaves), config) == Some(fields)
      ensures Within(table.written) && (ok ==> elementPath == old(elementPath))
    {
      ghost var write := Writer(false, table, leaves);
      ok, fields, left := true, map[], config;
      var vKeys := IterationOrder(config.Keys);
      for i := 0 to |vKeys|
        invariant elementPath == old(elementPath)
        invariant LeavesDone(write, leaves, config, vKeys[..i], fields, left)
      {
        var vKey := vKeys[i];
        assert vKey in vKeys;
        TakeNext(vKeys, i);
        if vKey in leaves {
          elementPath := elementPath + [vKey];
          var y := FindTypedValue(vKey, config[vKey], leaves, table);
          if y.None? {
            ok := false;
            return;
          }
          elementPath := elementPath[..|elementPath| - 1];
          LeavesNext(write, leaves, config, vKeys[..i], fields, left, vKey, y.value);
          fields := fields[vKey := y.value];
          left := left - {vKey};
        }
      }
      assert vKeys[..|vKeys|] == vKeys;
      AllLeavesDone(write, leaves, config, vKeys, fields, left);
    }

    /** Translates one table or inner container. None is an exception that reaches the caller; it is
        raised exactly when some key cannot be placed. */
    method XlateContainer(c: Container, config: Config, ghost table: TableName) returns (r: Option<map<string, Yang>>)
      requires Within(table.written) && WellFormed(c)
      modifies this`elementPath
      ensures r.Some? <==> CanTranslate(c, table, config)
      ensures r.Some? ==> Translated(false, c, table, config, r.value) && old(elementPath) <= elementPath
      ensures r.Some? && NoNestedIn(c) ==> elementPath == old(elementPath)
      ensures Within(table.written)
      decreases c, 2
    {
      var lists, rest := XlateLists(ActiveLists(c), config, table);
      var ok, yang, left := XlateInners(c, rest, lists, table);
      InnersCanEach(c, |c.containers|, table, rest);
      if !ok {
        return None;
      }
      var placed, fields, unparsed := XlateLeaves(c.leaves, left, table);
      if !placed || unparsed != map[] {
        return None;
      }
      Assembled(c, table, config, lists, yang, fields);
      r := Some(yang + fields);
    }

    /** The inner containers, tried only if the lists left something over. */
    method XlateInners(c: Container, rest: Config, lists: map<string, Yang>, ghost table: TableName)
      returns (ok: bool, yang: map<string, Yang>, left: Config)
      requires Within(table.written) && WellFormed(c)
      modifies this`elementPath
      ensures ok <==> InnersCan(c, |c.containers|, table, rest)
      ensures ok ==> old(elementPath) <= elementPath && left == Outside(rest, c.containers)
      ensures ok && NoNestedIn(c) ==> elementPath == old(elementPath)
      ensures ok && rest != map[] ==> InnersDone(c, |c.containers|, table, rest, lists, yang)
      ensures ok && rest == map[] ==> yang == lists
      ensures Within(table.written)
      decreases c, 1
    {
      ok, yang, left := true, lists, rest;
      if rest == map[] {
        InnersCanEach(c, |c.containers|, table, rest);
        return;
      }
      for n := 0 to |c.containers|
        invariant ok && old(elementPath) <= elementPath && (NoNestedIn(c) ==> elementPath == old(elementPath))
        invariant left == Outside(rest, c.containers[..n]) && InnersDone(c, n, table, rest, lists, yang)
        invariant InnersCan(c, n, table, rest)
      {
        var inner := c.containers[n];
        InnerLeft(c, n, rest);
        var t: map<string, Yang>;
        ok, t := XlateInner(inner, left, table);
        if !ok {
          InnersCannot(c, n + 1, |c.containers|, table, rest);
          return;
        }
        InnersStep(c, n, table, rest, lists, yang, t);
        yang, left := yang[inner.name := YObj(t)], left - {inner.name};
      }
      assert c.containers[..|c.containers|] == c.containers;
    }

    /** One inner container: empty if the configuration does not have it or has it empty. */
    method XlateInner(c: Container, config: Config, ghost table: TableName) returns (ok: bool, t: map<string, Yang>)
      requires Within(table.written) && WellFormed(c)
      modifies this`elementPath
      ensures ok <==> (c.name in config ==> CanTranslateInner(c, table, config[c.name]))
      ensures ok ==> old(elementPath) <= elementPath && InnerResult(c, table, config, t)
      ensures ok && NoNestedIn(c) ==> elementPath == old(elementPath)
      ensures Within(table.written)
      decreases c, 3
    {
      ok, t := true, map[];
      if c.name !in config || IsEmpty(config[c.name]) {
        return;
      }
      elementPath := elementPath + [c.name];
      if !config[c.name].Obj? {
        ok := false;
        return;
      }
      var r := XlateContainer(c, config[c.name].fields, table);
      if r.None? {
        ok := false;
        return;
      }
      elementPath := elementPath[..|elementPath| - 1];
      t := r.value;
    }

    // ----- YANG to database -----

    /** The database value of a leaf at the end of the path. */
    method RevFindTypedValue(key: string, y: Yang, leaves: Leaves, ghost table: string) returns (r: Option<Value>)
      requires Within(table) && elementPath[|elementPath| - 1] == key
      ensures r == Reader(table, leaves)(key, y)
    {
      if key !in leaves {
        return None;
      }
      var leaf := leaves[key];
      if leaf.isList {
        if !y.YArr? {
          return None;
        }
        var texts := PrintEach(y.items);
        var sep := Separator(elementPath[0], elementPath[|elementPath| - 1]);
        r := if texts.None? then None
             else if sep.Some? then Some(Str(Join(texts.value, [sep.value])))
             else Some(Arr(texts.value));
      } else if IsBoolean(leaf) {
        r := Some(Str(if Truthy(y) then "true" else "false"));
      } else {
        var text := Printed(y);
        r := if text.Some? then Some(Str(text.value)) else None;
      }
    }

    /** The leaves of an entry or a container. */
    method RevXlateFields(m: map<string, Yang>, leaves: Leaves, ghost table: string) returns (r: Option<Config>)
      requires Within(table)
      modifies this`elementPath
      ensures r == Collect(Reader(table, leaves), m)
      ensures r.Some? ==> elementPath == old(elementPath)
    {
      ghost var read := Reader(table, leaves);
      var fields: Config := map[];
      var names := IterationOrder(m.Keys);
      for i := 0 to |names|
        invariant elementPath == old(elementPath)
        invariant WrittenAs(read, m, names[..i], fields)
      {
        var key := names[i];
        assert key in names;
        elementPath := elementPath + [key];
        var v := RevFindTypedValue(key, m[key], leaves, table);
        if v.None? {
          return None;
        }
        elementPath := elementPath[..|elementPath| - 1];
        fields := fields[key := v.value];
        assert names[..i + 1] == names[..i] + [key];
      }
      assert names[..|names|] == names;
      CollectExact(read, m, fields);
      r := Some(fields);
    }

    static method RevXlatePairs(inner: InnerList, ys: seq<Yang>) returns (r: Option<Config>)
      ensures r == PairsBack(inner, ys)
    {
      var fields: Config := map[];
      for i := 0 to |ys|
        invariant PairsBack(inner, ys[..i]) == Some(fields)
      {
        assert ys[..i + 1][..i] == ys[..i];
        var pair := PairBack(inner, ys[i]);
        if pair.None? {
          PairsBackPrefix(inner, ys, i + 1);
          return None;
        }
        fields := fields[pair.value.0 := pair.value.1];
      }
      assert ys[..|ys|] == ys;
      r := Some(fields);
    }

    method RevXlateEntry(l: ListModel, e: map<string, Yang>, ghost table: string) returns (r: Option<(string, Config)>)
      requires Within(table)
      modifies this`elementPath
      ensures r == EntryBack(l, table, e)
      ensures r.Some? ==> elementPath == old(elementPath)
    {
      var pkey := CreateKeyOf(e, l.keys);
      if pkey.None? {
        return None;
      }
      var fields: Option<Config>;
      if IsMapList(l) {
        if l.inner.None? || l.inner.value.name !in e || !e[l.inner.value.name].YArr? {
          return None;
        }
        fields := RevXlatePairs(l.inner.value, e[l.inner.value.name].items);
      } else {
        elementPath := elementPath + [pkey.value];
        fields := RevXlateFields(map f | f in e && f !in l.keys :: e[f], l.leaves, table);
        if fields.None? {
          return None;
        }
        elementPath := elementPath[..|elementPath| - 1];
      }
      r := if fields.Some? then Some((pkey.value, fields.value)) else None;
    }

    method RevXlateList(l: ListModel, ys: seq<Yang>, config: Config, ghost table: string) returns (r: Option<Config>)
      requires Within(table)
      modifies this`elementPath
      ensures r == EntriesBack(EntryReader(l, table), ys, config)
      ensures r.Some? ==> elementPath == old(elementPath)
    {
      ghost var read := EntryReader(l, table);
      var rows := config;
      for i := 0 to |ys|
        invariant elementPath == old(elementPath) && EntriesBack(read, ys[..i], config) == Some(rows)
      {
        assert ys[..i + 1][..i] == ys[..i];
        var e: Option<(string, Config)> := None;
        if ys[i].YObj? {
          e := RevXlateEntry(l, ys[i].fields, table);
        }
        if e.None? {
          EntriesBackPrefix(read, ys, config, i + 1);
          return None;
        }
        rows := rows[e.value.0 := Obj(e.value.1)];
      }
      assert ys[..|ys|] == ys;
      r := Some(rows);
    }

    method RevXlateListInContainer(l: ListModel, y: map<string, Yang>, config: Config, ghost table: string)
      returns (r: Option<Config>)
      requires Within(table)
      modifies this`elementPath
      ensures r == ListBack(l, table, y, config)
      ensures r.Some? ==> elementPath == old(elementPath)
    {
      if l.name !in y || !Truthy(y[l.name]) || !Contains(l.name, "_LIST") {
        r := Some(config);
      } else if y[l.name].YArr? {
        r := RevXlateList(l, y[l.name].items, config, table);
      } else {
        r := None;
      }
    }

    method RevXlateLists(lists: seq<ListModel>, y: map<string, Yang>, ghost table: string) returns (r: Option<Config>)
      requires Within(table)
      modifies this`elementPath
      ensures r == ListsBack(lists, table, y)
      ensures r.Some? ==> elementPath == old(elementPath)
    {
      var config: Config := map[];
      for n := 0 to |lists|
        invariant elementPath == old(elementPath) && ListsBack(lists[..n], table, y) == Some(config)
      {
        assert lists[..n + 1][..n] == lists[..n];
        r := RevXlateListInContainer(lists[n], y, config, table);
        if r.None? {
          ListsBackPrefix(lists, table, y, n + 1);
          return;
        }
        config := r.value;
      }
      assert lists[..|lists|] == lists;
      r := Some(config);
    }

    method RevXlateInners(c: Container, y: map<string, Yang>, config: Config, ghost table: string) returns (r: Option<Config>)
      requires Within(table)
      modifies this`elementPath
      ensures r == InnersBack(c, |c.containers|, table, y, config)
      ensures r.Some? ==> elementPath == old(elementPath)
      decreases c, 1
    {
      var rows := config;
      for n := 0 to |c.containers|
        invariant elementPath == old(elementPath) && InnersBack(c, n, table, y, config) == Some(rows)
      {
        var inner := c.containers[n];
        if inner.name in y && Truthy(y[inner.name]) {
          if !y[inner.name].YObj? {
            InnersBackPrefix(c, table, y, config, n + 1);
            return None;
          }
          elementPath := elementPath + [inner.name];
          var back := RevXlateContainer(inner, y[inner.name].fields, table);
          if back.None? {
            InnersBackPrefix(c, table, y, config, n + 1);
            return None;
          }
          elementPath := elementPath[..|elementPath| - 1];
          rows := rows[inner.name := Obj(back.value)];
        }
      }
      r := Some(rows);
    }

    /** Reads one container back into a table; None is an exception. */
    method RevXlateContainer(c: Container, y: map<string, Yang>, ghost table: string) returns (r: Option<Config>)
      requires Within(table)
      modifies this`elementPath
      ensures r == ContainerBack(c, table, y)
      ensures r.Some? ==> elementPath == old(elementPath)
      decreases c, 2
    {
      r := RevXlateLists(c.lists, y, table);
      if r.None? {
        return;
      }
      r := RevXlateInners(c, y, r.value, table);
      if r.None? {
        return;
      }
      var leaves := RevXlateFields(map f | f in y && f in c.leaves :: y[f], c.leaves, table);
      r := if leaves.Some? then Some(r.value + leaves.value) else None;
    }

    static method PrintEach(ys: seq<Yang>) returns (r: Option<seq<string>>)
      ensures r == MapAll(Printed, ys)
    {
      var texts: seq<string> := [];
      for i := 0 to |ys|
        invariant MapAll(Printed, ys[..i]) == Some(texts)
      {
        assert ys[..i + 1][..i] == ys[..i];
        var text := Printed(ys[i]);
        if text.None? {
          MapAllPrefix(Printed, ys, i + 1);
          return None;
        }
        texts := texts + [text.value];
      }
      assert ys[..|ys|] == ys;
      r := Some(texts);
    }

    static method ConvertEach(leaf: Leaf, items: seq<string>) returns (r: Option<Yang>)
      ensures var ys := MapAll(Converter(leaf), items); r == if ys.Some? then Some(YArr(ys.value)) else None
    {
      var vValue: seq<Yang> := [];
      ghost var f := Converter(leaf);
      for i := 0 to |items|
        invariant MapAll(f, items[..i]) == Some(vValue)
      {
        assert items[..i + 1][..i] == items[..i];
        var y := Convert(leaf, items[i]);
        if y.None? {
          MapAllPrefix(f, items, i + 1);
          return None;
        }
        vValue := vValue + [y.value];
      }
      assert items[..|items|] == items;
      r := Some(YArr(vValue));
    }
  }

  /** Looking into the container inside the list entry raises an error. */
  predicate NestedFails(l: ListModel, v: Value) {
    !IsMapList(l) && Fields(v).Some? && !NestedPasses(l, Fields(v).value)
  }

  predicate NoNested(lists: seq<ListModel>) {
    forall i :: 0 <= i < |lists| ==> lists[i].nested.None?
  }

  /** No list of the container or of a container in it has a container in its entries. */
  predicate NoNestedIn(c: Container) {
    NoNested(c.lists) && forall j :: 0 <= j < |c.containers| ==> NoNestedIn(c.containers[j])
  }

  /** The entries of `config` that the list takes. */
  function Accepted(l: ListModel, table: TableName, config: Config): Config {
    map k | k in config && Accepts(l, table, k, config[k]) :: config[k]
  }

  function Rejected(l: ListModel, table: TableName, config: Config): Config {
    map k | k in config && !Accepts(l, table, k, config[k]) :: config[k]
  }

  /** Of the keys tried so far, `taken` are those accepted; everything else is left. */
  ghost predicate Moved(l: ListModel, table: TableName, config: Config, tried: seq<string>, taken: seq<string>, left: Config) {
    && Distinct(taken)
    && (forall k :: k in taken <==> k in tried && k in config && Accepts(l, table, k, config[k]))
    && (forall k :: k in left <==> k in config && k !in taken)
    && (forall k :: k in left ==> left[k] == config[k])
  }

  ghost predicate Listed(l: ListModel, table: TableName, config: Config, taken: seq<string>, ys: seq<Yang>) {
    && |ys| == |taken|
    && forall i :: 0 <= i < |taken| ==>
         taken[i] in config && ys[i].YObj? && IsEntry(false, l, table, taken[i], config[taken[i]], ys[i].fields)
  }

  /** One more key: its entry goes to the list, or stays. */
  lemma OneMoved(l: ListModel, table: TableName, config: Config, tried: seq<string>, taken: seq<string>, left: Config,
                 ys: seq<Yang>, key: string, e: Option<map<string, Yang>>)
    requires Moved(l, table, config, tried, taken, left) && Listed(l, table, config, taken, ys)
    requires key in config && key !in tried && (e.Some? <==> Accepts(l, table, key, config[key]))
    requires e.Some? ==> IsEntry(false, l, table, key, config[key], e.value)
    ensures e.Some? ==> Moved(l, table, config, tried + [key], taken + [key], left - {key})
                        && Listed(l, table, config, taken + [key], ys + [YObj(e.value)])
    ensures e.None? ==> Moved(l, table, config, tried + [key], taken, left)
  {
  }

  lemma AllMoved(l: ListModel, table: TableName, config: Config, tried: seq<string>, taken: seq<string>, left: Config,
                 ys: seq<Yang>)
    requires Enumerates(tried, config.Keys) && Moved(l, table, config, tried, taken, left)
    requires Listed(l, table, config, taken, ys)
    ensures left == Rejected(l, table, config) && IsListing(false, l, table, Accepted(l, table, config), ys)
  {
    assert ListingIs(false, l, table, Accepted(l, table, config), taken, ys);
  }

  /** The output holds what the first `n` lists took, and nothing else. */
  ghost predicate ListsDone(lists: seq<ListModel>, n: nat, table: TableName, config: Config, y: map<string, Yang>) {
    && n <= |lists|
    && (forall i :: 0 <= i < n ==> ListPart(false, lists[i], table, Assigned(lists, table, config, i), y))
    && forall f :: f in y ==> exists i :: 0 <= i < n && lists[i].name == f
  }

  lemma {:induction false} FirstAcceptingPrefix(lists: seq<ListModel>, n: nat, table: TableName, key: string, v: Value)
    requires n <= |lists|
    ensures FirstAccepting(lists[..n], table, key, v).Some? ==>
              FirstAccepting(lists, table, key, v) == FirstAccepting(lists[..n], table, key, v)
    ensures FirstAccepting(lists[..n], table, key, v).None? && FirstAccepting(lists, table, key, v).Some? ==>
              FirstAccepting(lists, table, key, v).value >= n
    decreases |lists|
  {
    if n < |lists| {
      var init := lists[..|lists| - 1];
      assert init[..n] == lists[..n];
      FirstAcceptingPrefix(init, n, table, key, v);
    } else {
      assert lists[..n] == lists;
    }
  }

  /** The first `n` inner containers can be translated. */
  ghost predicate InnersCan(c: Container, n: nat, table: TableName, rest: Config)
    requires n <= |c.containers|
  {
    n > 0 ==>
      && (c.containers[n - 1].name in rest ==> CanTranslateInner(c.containers[n - 1], table, rest[c.containers[n - 1].name]))
      && InnersCan(c, n - 1, table, rest)
  }

  lemma {:induction false} InnersCanEach(c: Container, n: nat, table: TableName, rest: Config)
    requires n <= |c.containers|
    ensures InnersCan(c, n, table, rest) <==>
            forall j :: 0 <= j < n && c.containers[j].name in rest ==>
              CanTranslateInner(c.containers[j], table, rest[c.containers[j].name])
  {
    if n > 0 { InnersCanEach(c, n - 1, table, rest); }
  }

  lemma {:induction false} InnersCannot(c: Container, n: nat, k: nat, table: TableName, rest: Config)
    requires n <= k <= |c.containers| && !InnersCan(c, n, table, rest)
    ensures !InnersCan(c, k, table, rest)
  {
    if n < k { InnersCannot(c, n, k - 1, table, rest); }
  }

  lemma {:induction false} FirstAcceptingNext(lists: seq<ListModel>, n: nat, table: TableName, key: string, v: Value)
    requires n < |lists|
    ensures FirstAccepting(lists, table, key, v) == Some(n) <==>
            FirstAccepting(lists[..n], table, key, v).None? && Accepts(lists[n], table, key, v)
    ensures FirstAccepting(lists[..n + 1], table, key, v).None? <==>
            FirstAccepting(lists[..n], table, key, v).None? && !Accepts(lists[n], table, key, v)
  {
    assert lists[..n + 1][..n] == lists[..n];
    FirstAcceptingPrefix(lists, n, table, key, v);
    FirstAcceptingPrefix(lists, n + 1, table, key, v);
  }

  /** A key goes to the first list that accepts it, and to none exactly when no list does. */
  lemma {:induction false} FirstAcceptingExact(lists: seq<ListModel>, table: TableName, key: string, v: Value, i: nat)
    requires i < |lists|
    ensures FirstAccepting(lists, table, key, v) == Some(i) <==>
            Accepts(lists[i], table, key, v) && forall j :: 0 <= j < i ==> !Accepts(lists[j], table, key, v)
    ensures FirstAccepting(lists, table, key, v).None? <==> forall j :: 0 <= j < |lists| ==> !Accepts(lists[j], table, key, v)
    decreases |lists|
  {
    NoneAccepting(lists, table, key, v);
    FirstAcceptingNext(lists, i, table, key, v);
    NoneAccepting(lists[..i], table, key, v);
    assert forall j :: 0 <= j < i ==> lists[..i][j] == lists[j];
  }

  lemma {:induction false} NoneAccepting(lists: seq<ListModel>, table: TableName, key: string, v: Value)
    ensures FirstAccepting(lists, table, key, v).None? <==> forall j :: 0 <= j < |lists| ==> !Accepts(lists[j], table, key, v)
  {
    if lists != [] { NoneAccepting(lists[..|lists| - 1], table, key, v); }
  }

  /** What the next list takes of the rest is its share of the whole. */
  lemma NextTakes(lists: seq<ListModel>, n: nat, table: TableName, config: Config, left: Config)
    requires n < |lists| && left == Leftover(lists[..n], table, config)
    ensures Accepted(lists[n], table, left) == Assigned(lists, table, config, n)
  {
    forall k | k in config
      ensures k in left && Accepts(lists[n], table, k, config[k]) <==> FirstAccepting(lists, table, k, config[k]) == Some(n)
    {
      FirstAcceptingNext(lists, n, table, k, config[k]);
    }
  }

  lemma NextLeaves(lists: seq<ListModel>, n: nat, table: TableName, config: Config, left: Config)
    requires n < |lists| && left == Leftover(lists[..n], table, config)
    ensures Rejected(lists[n], table, left) == Leftover(lists[..n + 1], table, config)
  {
    forall k | k in config
      ensures k in left && !Accepts(lists[n], table, k, config[k]) <==> FirstAccepting(lists[..n + 1], table, k, config[k]).None?
    {
      FirstAcceptingNext(lists, n, table, k, config[k]);
    }
  }

  /** The output with the items of one list, or without the list if it has none. */
  function WithItems(y: map<string, Yang>, name: string, ys: seq<Yang>): map<string, Yang> {
    if ys == [] then y - {name} else y[name := YArr(ys)]
  }

  lemma ListPartKept(l: ListModel, table: TableName, cfg: Config, y: map<string, Yang>, name: string, ys: seq<Yang>)
    requires l.name != name && ListPart(false, l, table, cfg, y)
    ensures ListPart(false, l, table, cfg, WithItems(y, name, ys))
  {
  }

  lemma ListsNext(lists: seq<ListModel>, n: nat, table: TableName, config: Config, left: Config, ys: seq<Yang>, y: map<string, Yang>)
    requires n < |lists| && forall i, j :: 0 <= i < j < |lists| ==> lists[i].name != lists[j].name
    requires left == Leftover(lists[..n], table, config) && ListsDone(lists, n, table, config, y)
    requires IsListing(false, lists[n], table, Accepted(lists[n], table, left), ys)
    ensures ListsDone(lists, n + 1, table, config, WithItems(y, lists[n].name, ys))
  {
    NextTakes(lists, n, table, config, left);
    var w := WithItems(y, lists[n].name, ys);
    ListingEmpty(lists[n], table, Assigned(lists, table, config, n), ys);
    forall i | 0 <= i < n + 1 ensures ListPart(false, lists[i], table, Assigned(lists, table, config, i), w) {
      if i < n {
        ListPartKept(lists[i], table, Assigned(lists, table, config, i), y, lists[n].name, ys);
      }
    }
    forall f | f in w ensures exists i :: 0 <= i < n + 1 && lists[i].name == f {
      if f != lists[n].name { var i :| 0 <= i < n && lists[i].name == f; }
    }
  }

  lemma ListingEmpty(l: ListModel, table: TableName, cfg: Config, ys: seq<Yang>)
    requires IsListing(false, l, table, cfg, ys)
    ensures ys == [] <==> cfg == map[]
  {
    var keys :| ListingIs(false, l, table, cfg, keys, ys);
    if ys == [] { assert cfg.Keys == {}; } else { assert keys[0] in keys; }
  }

  ghost predicate LeavesDone(write: (string, Value) -> Option<Yang>, leaves: Leaves, config: Config, tried: seq<string>,
                             fields: map<string, Yang>, left: Config) {
    && (forall k :: k in fields <==> k in tried && k in leaves)
    && (forall k :: k in fields ==> k in config && write(k, config[k]) == Some(fields[k]))
    && (forall k :: k in left <==> k in config && k !in fields)
  }

  lemma LeavesNext(write: (string, Value) -> Option<Yang>, leaves: Leaves, config: Config, tried: seq<string>,
                   fields: map<string, Yang>, left: Config, k: string, y: Yang)
    requires LeavesDone(write, leaves, config, tried, fields, left) && k in config && k !in tried
    ensures k in leaves && write(k, config[k]) == Some(y) ==>
              LeavesDone(write, leaves, config, tried + [k], fields[k := y], left - {k})
    ensures k !in leaves ==> LeavesDone(write, leaves, config, tried + [k], fields, left)
  {
  }

  lemma AllLeavesDone(write: (string, Value) -> Option<Yang>, leaves: Leaves, config: Config, tried: seq<string>,
                      fields: map<string, Yang>, left: Config)
    requires Enumerates(tried, config.Keys) && LeavesDone(write, leaves, config, tried, fields, left)
    requires forall k, v :: k !in leaves ==> write(k, v).None?
    ensures left == map[] <==> Collect(write, config).Some?
    ensures left == map[] ==> Collect(write, config) == Some(fields)
  {
    CollectExact(write, config, fields);
    if left == map[] {
      assert config.Keys == fields.Keys;
    } else {
      var k :| k in left;
      assert write(k, config[k]).None?;
    }
  }

  ghost predicate InnerResult(c: Container, table: TableName, config: Config, t: map<string, Yang>) {
    if c.name in config && !IsEmpty(config[c.name])
    then config[c.name].Obj? && Translated(false, c, table, config[c.name].fields, t)
    else t == map[]
  }

  ghost predicate InnerDone(c: Container, table: TableName, rest: Config, y: map<string, Yang>) {
    c.name in y && y[c.name].YObj? && InnerResult(c, table, rest, y[c.name].fields)
  }

  /** The output holds the first `n` inner containers beside what it held before. */
  ghost predicate InnersDone(c: Container, n: nat, table: TableName, rest: Config, before: map<string, Yang>, y: map<string, Yang>) {
    && n <= |c.containers|
    && (forall j :: 0 <= j < n ==> InnerDone(c.containers[j], table, rest, y))
    && (forall f :: f in y <==> f in before || f in Names(c.containers[..n]))
    && (forall f :: f in before && f !in Names(c.containers[..n]) ==> y[f] == before[f])
  }

  lemma {:induction false} InnerLeft(c: Container, n: nat, rest: Config)
    requires WellFormed(c) && n < |c.containers|
    ensures var left, name := Outside(rest, c.containers[..n]), c.containers[n].name;
            && (name in left <==> name in rest)
            && left - {name} == Outside(rest, c.containers[..n + 1])
  {
    NamesNext(c.containers, n);
  }

  lemma NamesNext(cs: seq<Container>, n: nat)
    requires n < |cs|
    ensures Names(cs[..n + 1]) == Names(cs[..n]) + {cs[n].name}
  {
    TakeNext(cs, n);
  }

  lemma InnersNext(c: Container, n: nat, table: TableName, rest: Config, before: map<string, Yang>, y: map<string, Yang>,
                   t: map<string, Yang>)
    requires n < |c.containers| && InnersDone(c, n, table, rest, before, y)
    requires InnerResult(c.containers[n], table, rest, t)
    requires forall j :: 0 <= j < n ==> c.containers[j].name != c.containers[n].name
    ensures InnersDone(c, n + 1, table, rest, before, y[c.containers[n].name := YObj(t)])
  {
    var inner := c.containers[n];
    var z := y[inner.name := YObj(t)];
    forall j | 0 <= j < n + 1 ensures InnerDone(c.containers[j], table, rest, z) {
      if j < n { InnerKept(c.containers[j], table, rest, y, inner.name, YObj(t)); }
    }
    NamesNext(c.containers, n);
  }

  lemma {:induction false} InnersStep(c: Container, n: nat, table: TableName, rest: Config, before: map<string, Yang>, y: map<string, Yang>,
                   t: map<string, Yang>)
    requires WellFormed(c) && n < |c.containers| && InnersDone(c, n, table, rest, before, y)
    requires InnerResult(c.containers[n], table, Outside(rest, c.containers[..n]), t)
    ensures InnersDone(c, n + 1, table, rest, before, y[c.containers[n].name := YObj(t)])
  {
    InnerLeft(c, n, rest);
    SameResult(c.containers[n], table, rest, Outside(rest, c.containers[..n]), t);
    InnersNext(c, n, table, rest, before, y, t);
  }

  lemma SameResult(c: Container, table: TableName, rest: Config, left: Config, t: map<string, Yang>)
    requires InnerResult(c, table, left, t) && (c.name in left <==> c.name in rest)
    requires c.name in left ==> left[c.name] == rest[c.name]
    ensures InnerResult(c, table, rest, t)
  {
  }

  lemma InnerKept(c: Container, table: TableName, rest: Config, y: map<string, Yang>, name: string, v: Yang)
    requires c.name != name && InnerDone(c, table, rest, y)
    ensures InnerDone(c, table, rest, y[name := v])
  {
  }

  /** What the three stages of a container have produced. */
  ghost predicate Staged(c: Container, table: TableName, config: Config, ly: map<string, Yang>, y: map<string, Yang>,
                         fields: map<string, Yang>) {
    var lists := ActiveLists(c);
    var rest := Leftover(lists, table, config);
    && ListsDone(lists, |lists|, table, config, ly)
    && (if rest == map[] then y == ly else InnersDone(c, |c.containers|, table, rest, ly, y))
    && Collect(Writer(false, table, c.leaves), Outside(rest, c.containers)) == Some(fields)
  }

  /** The stages write under different names. */
  lemma {:induction false} StageNames(c: Container, table: TableName, config: Config, ly: map<string, Yang>, y: map<string, Yang>,
                   fields: map<string, Yang>)
    requires WellFormed(c) && Staged(c, table, config, ly, y, fields)
    ensures forall f :: f in fields ==> f in c.leaves
    ensures forall f :: f in y ==> f !in c.leaves
    ensures forall f :: f in ly ==> f !in Names(c.containers) && f in y && y[f] == ly[f]
    ensures forall f :: f in y ==> f in ly || f in Names(c.containers)
  {
    var lists := ActiveLists(c);
    var rest := Leftover(lists, table, config);
    CollectExact(Writer(false, table, c.leaves), Outside(rest, c.containers), fields);
    assert c.containers[..|c.containers|] == c.containers;
    forall f | f in ly ensures f !in c.leaves && f !in Names(c.containers) {
      var i :| 0 <= i < |lists| && lists[i].name == f;
      assert lists[i] == c.lists[i];
    }
    forall f | f in Names(c.containers) ensures f !in c.leaves {
      var inner :| inner in c.containers && inner.name == f;
      var j :| 0 <= j < |c.containers| && c.containers[j] == inner;
    }
  }

  lemma {:induction false} ListStage(c: Container, table: TableName, config: Config, ly: map<string, Yang>, y: map<string, Yang>,
                  fields: map<string, Yang>, i: nat)
    requires WellFormed(c) && Staged(c, table, config, ly, y, fields) && i < |ActiveLists(c)|
    ensures ListPart(false, ActiveLists(c)[i], table, Assigned(ActiveLists(c), table, config, i), y + fields)
  {
    StageNames(c, table, config, ly, y, fields);
    var lists := ActiveLists(c);
    var l := lists[i];
    assert ListPart(false, l, table, Assigned(lists, table, config, i), ly);
    assert l == c.lists[i] && l.name !in c.leaves && l.name !in Names(c.containers);
    assert l.name in ly <==> l.name in y + fields;
  }

  lemma {:induction false} InnerStage(c: Container, table: TableName, config: Config, ly: map<string, Yang>, y: map<string, Yang>,
                   fields: map<string, Yang>, j: nat)
    requires WellFormed(c) && Staged(c, table, config, ly, y, fields) && j < |c.containers|
    ensures InnerPart(false, c.containers[j], table, Leftover(ActiveLists(c), table, config), y + fields)
  {
    StageNames(c, table, config, ly, y, fields);
    var inner := c.containers[j];
    assert inner in c.containers && inner.name in Names(c.containers) && inner.name !in c.leaves;
  }

  lemma {:induction false} Assembled(c: Container, table: TableName, config: Config, ly: map<string, Yang>, y: map<string, Yang>,
                  fields: map<string, Yang>)
    requires WellFormed(c) && Staged(c, table, config, ly, y, fields)
    ensures Translated(false, c, table, config, y + fields)
  {
    var lists := ActiveLists(c);
    forall i | 0 <= i < |lists|
      ensures ListPart(false, lists[i], table, Assigned(lists, table, config, i), y + fields)
    {
      ListStage(c, table, config, ly, y, fields, i);
    }
    forall j | 0 <= j < |c.containers|
      ensures InnerPart(false, c.containers[j], table, Leftover(lists, table, config), y + fields)
    {
      InnerStage(c, table, config, ly, y, fields, j);
    }
    LeafStage(c, table, config, ly, y, fields);
  }

  lemma {:induction false} LeafStage(c: Container, table: TableName, config: Config, ly: map<string, Yang>, y: map<string, Yang>,
                  fields: map<string, Yang>)
    requires WellFormed(c) && Staged(c, table, config, ly, y, fields)
    ensures var z := y + fields; fields == map f | f in z && f in c.leaves :: z[f]
    ensures forall f :: f in y + fields ==> f in c.leaves || f in Names(c.containers)
                                            || exists i :: 0 <= i < |ActiveLists(c)| && ActiveLists(c)[i].name == f
  {
    StageNames(c, table, config, ly, y, fields);
    LeavesApart(c.leaves, y, fields);
  }

  lemma LeavesApart(leaves: Leaves, y: map<string, Yang>, fields: map<string, Yang>)
    requires (forall f :: f in fields ==> f in leaves) && forall f :: f in y ==> f !in leaves
    ensures var z := y + fields; fields == map f | f in z && f in leaves :: z[f]
  {
  }

  // ----- a failure on the way is a failure of the whole -----

  lemma {:induction false} KeyTextPrefix(entry: map<string, Yang>, keys: seq<string>, n: nat)
    requires n <= |keys| && KeyText(entry, keys[..n]).None?
    ensures KeyText(entry, keys).None?
  {
    if n < |keys| {
      assert keys[..|keys| - 1][..n] == keys[..n];
      KeyTextPrefix(entry, keys[..|keys| - 1], n);
    } else {
      assert keys[..n] == keys;
    }
  }

  lemma {:induction false} PairsBackPrefix(inner: InnerList, ys: seq<Yang>, n: nat)
    requires n <= |ys| && PairsBack(inner, ys[..n]).None?
    ensures PairsBack(inner, ys).None?
  {
    if n < |ys| {
      assert ys[..|ys| - 1][..n] == ys[..n];
      PairsBackPrefix(inner, ys[..|ys| - 1], n);
    } else {
      assert ys[..n] == ys;
    }
  }

  lemma {:induction false} EntriesBackPrefix(read: Yang -> Option<(string, Config)>, ys: seq<Yang>, acc: Config, n: nat)
    requires n <= |ys| && EntriesBack(read, ys[..n], acc).None?
    ensures EntriesBack(read, ys, acc).None?
  {
    if n < |ys| {
      assert ys[..|ys| - 1][..n] == ys[..n];
      EntriesBackPrefix(read, ys[..|ys| - 1], acc, n);
    } else {
      assert ys[..n] == ys;
    }
  }

  lemma {:induction false} ListsBackPrefix(lists: seq<ListModel>, table: string, y: map<string, Yang>, n: nat)
    requires n <= |lists| && ListsBack(lists[..n], table, y).None?
    ensures ListsBack(lists, table, y).None?
  {
    if n < |lists| {
      assert lists[..|lists| - 1][..n] == lists[..n];
      ListsBackPrefix(lists[..|lists| - 1], table, y, n);
    } else {
      assert lists[..n] == lists;
    }
  }

  lemma {:induction false} InnersBackPrefix(c: Container, table: string, y: map<string, Yang>, acc: Config, n: nat)
    requires n <= |c.containers| && InnersBack(c, n, table, y, acc).None?
    ensures InnersBack(c, |c.containers|, table, y, acc).None?
    decreases |c.containers| - n
  {
    if n < |c.containers| { InnersBackPrefix(c, table, y, acc, n + 1); }
  }

  lemma WrittenNext<A, B>(write: (string, A) -> Option<B>, m: map<string, A>, names: seq<string>, fields: map<string, B>,
                          k: string, y: B)
    requires WrittenAs(write, m, names, fields) && k in m && write(k, m[k]) == Some(y)
    ensures WrittenAs(write, m, names + [k], fields[k := y])
  {
  }

  ghost predicate WrittenAs<A, B>(write: (string, A) -> Option<B>, m: map<string, A>, names: seq<string>, fields: map<string, B>) {
    && (forall k :: k in fields <==> k in names)
    && forall k :: k in names ==> k in m && write(k, m[k]) == Some(fields[k])
  }
}
