/** Nothing but a clean configuration comes back as it was. Entries may overwrite each other on the way
    back, so that what one entry loses another might restore; that this never works out is shown by
    following an entry that loses fields to ever larger ones. */
module YangExact {
  import opened Text
  import opened YangModel
  import opened YangValues
  import opened YangKeys
  import opened YangEntries
  import opened YangContainers
  import opened YangRoundTrip
  import opened YangTree

  // ----- one entry -----

  function Size(v: Value): nat {
    if v.Obj? then |v.fields| else 0
  }

  ghost predicate Lossy(l: ListModel, v: Value) {
    Fields(v).Some? && exists f :: Loses(l, Fields(v).value, f)
  }

  lemma FewerFields(a: map<string, Value>, b: map<string, Value>, f: string)
    requires a.Keys <= b.Keys && f in b && f !in a
    ensures |a| < |b|
  {
    assert a.Keys <= b.Keys - {f};
    SubsetSize(a.Keys, b.Keys - {f});
  }

  lemma SubsetSize<T>(a: set<T>, b: set<T>)
    requires a <= b
    ensures |a| <= |b|
  {
    if x :| x in a { SubsetSize(a - {x}, b - {x}); }
  }

  /** An entry does not grow, shrinks if it loses a field, and otherwise gets a clean key: its own if
      that was clean. */
  lemma EntryImage(l: ListModel, table: TableName, key: string, v: Value, e: map<string, Yang>, back: (string, Config))
    requires ListWellFormed(l) && IsEntry(true, l, table, key, v, e) && EntryBack(l, table.read, e) == Some(back)
    ensures |back.1| <= Size(v)
    ensures Lossy(l, v) ==> |back.1| < Size(v)
    ensures !Lossy(l, v) ==> KeyClean(back.0) && (KeyClean(key) ==> back.0 == key)
  {
    if IsMapList(l) {
      MapImage(l, table, key, v, e, back);
    } else {
      PlainSize(l, table, key, v, e, back);
      if !Lossy(l, v) { PlainKey(l, table, key, v, e, back); }
    }
  }

  lemma PlainSize(l: ListModel, table: TableName, key: string, v: Value, e: map<string, Yang>, back: (string, Config))
    requires !IsMapList(l) && ListWellFormed(l) && IsEntry(true, l, table, key, v, e) && EntryBack(l, table.read, e) == Some(back)
    ensures |back.1| <= Size(v)
    ensures Lossy(l, v) ==> |back.1| < Size(v)
  {
    PlainBackFields(l, table, key, v, e, back);
    FieldsLost(l, Fields(v).value, back.1);
    assert Fields(v).value == if v.Obj? then v.fields else map[];
  }

  lemma {:induction false} PlainBackFields(l: ListModel, table: TableName, key: string, v: Value, e: map<string, Yang>, back: (string, Config))
    requires !IsMapList(l) && ListWellFormed(l) && IsEntry(true, l, table, key, v, e) && EntryBack(l, table.read, e) == Some(back)
    ensures Fields(v).Some? && forall f :: f in back.1 <==> f in Fields(v).value && !Loses(l, Fields(v).value, f)
  {
    PlainBackKeys(l, table, key, v, e);
  }

  lemma FieldsLost(l: ListModel, m: map<string, Value>, back: Config)
    requires forall f :: f in back <==> f in m && !Loses(l, m, f)
    ensures |back| <= |m|
    ensures (exists f :: Loses(l, m, f)) ==> |back| < |m|
  {
    SubsetSize(back.Keys, m.Keys);
    if f :| Loses(l, m, f) { FewerFields(back, m, f); }
  }

  lemma PlainKey(l: ListModel, table: TableName, key: string, v: Value, e: map<string, Yang>, back: (string, Config))
    requires !IsMapList(l) && ListWellFormed(l) && IsEntry(true, l, table, key, v, e) && EntryBack(l, table.read, e) == Some(back)
    requires !Lossy(l, v)
    ensures KeyClean(back.0) && (KeyClean(key) ==> back.0 == key)
  {
    PlainWhole(l, table, key, v, e);
    KeyImage(l, key, e, back.0);
  }

  lemma KeyImage(l: ListModel, key: string, e: map<string, Yang>, back: string)
    requires ListWellFormed(l) && HasKey(e, l.keys, key) && CreateKey(e, l.keys) == Some(back)
    ensures KeyClean(back) && (KeyClean(key) ==> back == key)
  {
    RebuiltKeyClean(e, l.keys, key, back);
    KeyExact(e, l.keys, key);
  }

  lemma MapImage(l: ListModel, table: TableName, key: string, v: Value, e: map<string, Yang>, back: (string, Config))
    requires IsMapList(l) && ListWellFormed(l) && IsEntry(true, l, table, key, v, e) && EntryBack(l, table.read, e) == Some(back)
    ensures |back.1| <= Size(v) && KeyClean(back.0) && (KeyClean(key) ==> back.0 == key)
  {
    var inner, m := l.inner.value, Fields(v).value;
    KeyDictKeys(l.keys, Split(key, '|'));
    KeyImage(l, key, e, back.0);
    MapBackKeys(inner, m, e[inner.name].items);
  }

  lemma {:induction false} MapBackKeys(inner: InnerList, m: map<string, Value>, ys: seq<Yang>)
    requires AcceptsPairs(Some(inner), m) && IsPairs(inner, m, ys)
    ensures PairsBack(inner, ys).Some? && |PairsBack(inner, ys).value| <= |m|
  {
    var names :| PairsAre(inner, m, names, ys);
    if names != [] {
      assert names[0] in names;
      PairsBackOf(inner, m, names, ys);
      PrintoutsAt(m, names);
      SubsetSize(Printouts(m, names).Keys, m.Keys);
    }
  }

  // ----- where a key that came back comes from -----

  /** The entry of `cfg` at `j`, which went to list `i`, comes back as `back`. */
  ghost predicate Yields(lists: seq<ListModel>, table: TableName, cfg: Config, i: nat, j: string, back: (string, Config)) {
    && i < |lists| && j in Assigned(lists, table, cfg, i) && Contains(lists[i].name, "_LIST")
    && exists e :: IsEntry(true, lists[i], table, j, cfg[j], e) && EntryBack(lists[i], table.read, e) == Some(back)
  }

  lemma {:induction false} EntriesOrigin(read: Yang -> Option<(string, Config)>, ys: seq<Yang>, acc: Config, k: string)
    requires EntriesBack(read, ys, acc).Some? && k in EntriesBack(read, ys, acc).value
    ensures var v := EntriesBack(read, ys, acc).value[k];
            (k in acc && v == acc[k]) || exists n :: 0 <= n < |ys| && v.Obj? && read(ys[n]) == Some((k, v.fields))
  {
    if ys != [] {
      var n := |ys| - 1;
      var e := read(ys[n]).value;
      if e.0 != k { EntriesOrigin(read, ys[..n], acc, k); }
    }
  }

  lemma ListOrigin(lists: seq<ListModel>, i: nat, table: TableName, cfg: Config, y: map<string, Yang>, acc: Config, k: string)
    returns (j: string)
    requires i < |lists| && ListPart(true, lists[i], table, Assigned(lists, table, cfg, i), y)
    requires ListBack(lists[i], table.read, y, acc).Some? && k in ListBack(lists[i], table.read, y, acc).value
    ensures var v := ListBack(lists[i], table.read, y, acc).value[k];
            (k in acc && v == acc[k]) || (v.Obj? && Yields(lists, table, cfg, i, j, (k, v.fields)))
  {
    var l, mine := lists[i], Assigned(lists, table, cfg, i);
    j := "";
    if l.name in y && Truthy(y[l.name]) && Contains(l.name, "_LIST") {
      var ys := y[l.name].items;
      EntriesOrigin(EntryReader(l, table.read), ys, acc, k);
      var v := ListBack(l, table.read, y, acc).value[k];
      if !(k in acc && v == acc[k]) {
        var n :| 0 <= n < |ys| && v.Obj? && EntryReader(l, table.read)(ys[n]) == Some((k, v.fields));
        j := ListingKey(l, table, mine, ys, n);
      }
    }
  }

  lemma ListingKey(l: ListModel, table: TableName, cfg: Config, ys: seq<Yang>, n: nat) returns (j: string)
    requires IsListing(true, l, table, cfg, ys) && n < |ys|
    ensures j in cfg && ys[n].YObj? && IsEntry(true, l, table, j, cfg[j], ys[n].fields)
  {
    var keys :| ListingIs(true, l, table, cfg, keys, ys);
    j := keys[n];
    assert j in keys;
  }

  /** Whatever the lists bring back, one of the entries they took yields it. */
  lemma {:induction false} ListsOrigin(lists: seq<ListModel>, n: nat, table: TableName, cfg: Config, y: map<string, Yang>, k: string)
    returns (i: nat, j: string)
    requires n <= |lists| && forall i :: 0 <= i < |lists| ==> ListPart(true, lists[i], table, Assigned(lists, table, cfg, i), y)
    requires ListsBack(lists[..n], table.read, y).Some? && k in ListsBack(lists[..n], table.read, y).value
    ensures var v := ListsBack(lists[..n], table.read, y).value[k]; v.Obj? && Yields(lists, table, cfg, i, j, (k, v.fields))
  {
    assert n > 0;
    assert lists[..n][..n - 1] == lists[..n - 1];
    var init := ListsBack(lists[..n - 1], table.read, y).value;
    i := n - 1;
    j := ListOrigin(lists, n - 1, table, cfg, y, init, k);
    var v := ListsBack(lists[..n], table.read, y).value[k];
    if k in init && v == init[k] {
      i, j := ListsOrigin(lists, n - 1, table, cfg, y, k);
    }
  }

  // ----- no entry loses a field -----

  /** Every key that went to a list, and every key of `extra`, is brought back by the lists as it was. */
  ghost predicate Restored(lists: seq<ListModel>, table: TableName, cfg: Config, extra: set<string>) {
    forall k :: k in cfg && (FirstAccepting(lists, table, k, cfg[k]).Some? || k in extra) ==>
      cfg[k].Obj? && exists i, j :: Yields(lists, table, cfg, i, j, (k, cfg[k].fields))
  }

  lemma RestoredFrom(lists: seq<ListModel>, table: TableName, cfg: Config, extra: set<string>, k: string) returns (i: nat, j: string)
    requires Restored(lists, table, cfg, extra)
    requires k in cfg && (FirstAccepting(lists, table, k, cfg[k]).Some? || k in extra)
    ensures cfg[k].Obj? && Yields(lists, table, cfg, i, j, (k, cfg[k].fields))
    ensures j in cfg && FirstAccepting(lists, table, j, cfg[j]) == Some(i)
  {
    i, j :| Yields(lists, table, cfg, i, j, (k, cfg[k].fields));
  }

  lemma YieldsImage(lists: seq<ListModel>, table: TableName, cfg: Config, i: nat, j: string, back: (string, Config))
    requires (forall i :: 0 <= i < |lists| ==> ListWellFormed(lists[i])) && Yields(lists, table, cfg, i, j, back)
    ensures |back.1| <= Size(cfg[j])
    ensures Lossy(lists[i], cfg[j]) ==> |back.1| < Size(cfg[j])
    ensures !Lossy(lists[i], cfg[j]) ==> KeyClean(back.0) && (KeyClean(j) ==> back.0 == j)
  {
    var e :| IsEntry(true, lists[i], table, j, cfg[j], e) && EntryBack(lists[i], table.read, e) == Some(back);
    EntryImage(lists[i], table, j, cfg[j], e, back);
  }

  /** Above an entry that loses a field there is a larger one that does. */
  lemma LargerLossy(lists: seq<ListModel>, table: TableName, cfg: Config, extra: set<string>, i: nat, k: string)
    returns (i': nat, k': string)
    requires (forall i :: 0 <= i < |lists| ==> ListWellFormed(lists[i])) && Restored(lists, table, cfg, extra)
    requires k in cfg && FirstAccepting(lists, table, k, cfg[k]) == Some(i) && Lossy(lists[i], cfg[k])
    ensures k' in cfg && FirstAccepting(lists, table, k', cfg[k']) == Some(i') && Lossy(lists[i'], cfg[k'])
    ensures Size(cfg[k']) > Size(cfg[k])
  {
    i', k' := RestoredFrom(lists, table, cfg, extra, k);
    YieldsImage(lists, table, cfg, i', k', (k, cfg[k].fields));
    if !Lossy(lists[i'], cfg[k']) {
      var j := k';
      i', k' := RestoredFrom(lists, table, cfg, extra, j);
      YieldsImage(lists, table, cfg, i', k', (j, cfg[j].fields));
    }
  }

  function Larger(cfg: Config, n: nat): set<string> {
    set k | k in cfg && Size(cfg[k]) > n
  }

  lemma LargerShrinks(cfg: Config, n: nat, k: string)
    requires k in cfg && Size(cfg[k]) > n
    ensures Larger(cfg, Size(cfg[k])) < Larger(cfg, n)
  {
    assert k in Larger(cfg, n) && k !in Larger(cfg, Size(cfg[k]));
  }

  lemma {:induction false} NoLossy(lists: seq<ListModel>, table: TableName, cfg: Config, extra: set<string>, i: nat, k: string)
    requires (forall i :: 0 <= i < |lists| ==> ListWellFormed(lists[i])) && Restored(lists, table, cfg, extra)
    requires k in cfg && FirstAccepting(lists, table, k, cfg[k]) == Some(i)
    ensures !Lossy(lists[i], cfg[k])
    decreases Larger(cfg, Size(cfg[k]))
  {
    if Lossy(lists[i], cfg[k]) {
      var i', k' := LargerLossy(lists, table, cfg, extra, i, k);
      LargerShrinks(cfg, Size(cfg[k]), k');
      NoLossy(lists, table, cfg, extra, i', k');
    }
  }

  /** Then every key that came back is clean, and its own entry brought it back. */
  lemma {:induction false} RestoredBySelf(lists: seq<ListModel>, table: TableName, cfg: Config, extra: set<string>, k: string)
    requires (forall i :: 0 <= i < |lists| ==> ListWellFormed(lists[i])) && Restored(lists, table, cfg, extra)
    requires k in cfg && (FirstAccepting(lists, table, k, cfg[k]).Some? || k in extra)
    ensures FirstAccepting(lists, table, k, cfg[k]).Some?
    ensures var i := FirstAccepting(lists, table, k, cfg[k]).value;
            Contains(lists[i].name, "_LIST") && EntryClean(lists[i], table, k, cfg[k])
  {
    var i, j := RestoredFrom(lists, table, cfg, extra, k);
    var i', j' := RestoredFrom(lists, table, cfg, extra, j);
    NoLossy(lists, table, cfg, extra, i, j);
    NoLossy(lists, table, cfg, extra, i', j');
    YieldsImage(lists, table, cfg, i', j', (j, cfg[j].fields));
    YieldsImage(lists, table, cfg, i, j, (k, cfg[k].fields));
    var e :| IsEntry(true, lists[i], table, j, cfg[j], e) && EntryBack(lists[i], table.read, e) == Some((k, cfg[k].fields));
    EntryExact(lists[i], table, k, cfg[k], e);
  }

  // ----- inner containers and leaves -----

  /** Whether the tree has something under the name of an inner container. */
  predicate Present(c: Container, y: map<string, Yang>) {
    c.name in y && Truthy(y[c.name])
  }

  lemma {:induction false} InnersOrigin(c: Container, n: nat, table: TableName, y: map<string, Yang>, acc: Config)
    requires n <= |c.containers| && InnersBack(c, n, table.read, y, acc).Some?
    requires forall i, j :: 0 <= i < j < |c.containers| ==> c.containers[i].name != c.containers[j].name
    ensures var r := InnersBack(c, n, table.read, y, acc).value;
            && (forall j :: 0 <= j < n && Present(c.containers[j], y) ==>
                  var inner := c.containers[j];
                  && y[inner.name].YObj? && ContainerBack(inner, table.read, y[inner.name].fields).Some?
                  && inner.name in r && r[inner.name] == Obj(ContainerBack(inner, table.read, y[inner.name].fields).value))
            && (forall k :: k in r && (forall j :: 0 <= j < n && Present(c.containers[j], y) ==> c.containers[j].name != k) ==>
                  k in acc && r[k] == acc[k])
  {
    if n > 0 { InnersOrigin(c, n - 1, table, y, acc); }
  }

  function LeafPart(c: Container, y: map<string, Yang>): map<string, Yang> {
    map f | f in y && f in c.leaves :: y[f]
  }

  /** What lists, inner containers and leaves contributed to a configuration that came back. */
  lemma BackParts(c: Container, table: TableName, cfg: Config, y: map<string, Yang>)
    returns (lists: Config, inners: Config, leaves: Config)
    requires ContainerBack(c, table.read, y) == Some(cfg)
    ensures ListsBack(c.lists, table.read, y) == Some(lists)
    ensures InnersBack(c, |c.containers|, table.read, y, lists) == Some(inners)
    ensures Collect(Reader(table.read, c.leaves), LeafPart(c, y)) == Some(leaves)
    ensures cfg == inners + leaves
  {
    lists := ListsBack(c.lists, table.read, y).value;
    inners := InnersBack(c, |c.containers|, table.read, y, lists).value;
    leaves := Collect(Reader(table.read, c.leaves), LeafPart(c, y)).value;
  }

  lemma LeavesOnlyClean(table: TableName, leaves: Leaves, own: Config, ys: map<string, Yang>, cfg: Config, inners: Config,
                        back: Config)
    requires Collect(Writer(true, table, leaves), own) == Some(ys) && Collect(Reader(table.read, leaves), ys) == Some(back)
    requires cfg == inners + back && forall k :: k in own ==> k in cfg && own[k] == cfg[k]
    ensures FieldsClean(table, leaves, own) && back.Keys == own.Keys
  {
    CollectExact(Writer(true, table, leaves), own, ys);
    CollectExact(Reader(table.read, leaves), ys, back);
    assert back == own by {
      assert forall k :: k in own ==> k in back;
    }
    FieldsExact(table, leaves, own, ys);
  }

  /** The names of inner containers that the configuration has, but empty. */
  function EmptyInners(c: Container, rest: Config): set<string> {
    set k | k in rest && k in Names(c.containers) && IsEmpty(rest[k])
  }

  lemma {:induction false} NotPresent(c: Container, j: nat, table: TableName, rest: Config, y: map<string, Yang>)
    requires j < |c.containers| && InnerPart(true, c.containers[j], table, rest, y) && Present(c.containers[j], y)
    ensures c.containers[j].name in rest && !IsEmpty(rest[c.containers[j].name])
  {
  }

  /** What came back under a key that lists took, or that is an empty inner container, the lists brought. */
  lemma {:induction false} BroughtByLists(c: Container, table: TableName, cfg: Config, y: map<string, Yang>, lists: Config, inners: Config,
                       leaves: Config, k: string)
    requires WellFormed(c) && Translated(true, c, table, cfg, y)
    requires InnersBack(c, |c.containers|, table.read, y, lists) == Some(inners) && cfg == inners + leaves
    requires var rest := Leftover(ActiveLists(c), table, cfg); leaves.Keys == Outside(rest, c.containers).Keys
    requires k in cfg
    requires var rest := Leftover(ActiveLists(c), table, cfg); k !in rest || k in EmptyInners(c, rest)
    ensures k in lists && lists[k] == cfg[k]
  {
    var rest := Leftover(ActiveLists(c), table, cfg);
    InnersOrigin(c, |c.containers|, table, y, lists);
    forall j | 0 <= j < |c.containers| && Present(c.containers[j], y) ensures c.containers[j].name != k {
      NotPresent(c, j, table, rest, y);
    }
    assert k in inners && inners[k] == cfg[k];
  }

  lemma {:induction false} UsedLists(c: Container, table: TableName, cfg: Config, y: map<string, Yang>)
    requires WellFormed(c) && Translated(true, c, table, cfg, y)
    ensures ListsBack(c.lists, table.read, y) == ListsBack(ActiveLists(c), table.read, y)
  {
    if ActiveLists(c) != c.lists {
      assert c.lists[..0] == [];
      assert c.lists[0].name !in y;
    }
  }

  lemma {:induction false} ListsRestore(c: Container, table: TableName, cfg: Config, y: map<string, Yang>, lists: Config, inners: Config,
                     leaves: Config)
    requires WellFormed(c) && Translated(true, c, table, cfg, y)
    requires ListsBack(c.lists, table.read, y) == Some(lists)
    requires InnersBack(c, |c.containers|, table.read, y, lists) == Some(inners) && cfg == inners + leaves
    requires var rest := Leftover(ActiveLists(c), table, cfg); leaves.Keys == Outside(rest, c.containers).Keys
    ensures var used := ActiveLists(c); Restored(used, table, cfg, EmptyInners(c, Leftover(used, table, cfg)))
  {
    var used := ActiveLists(c);
    var rest := Leftover(used, table, cfg);
    var extra := EmptyInners(c, rest);
    UsedLists(c, table, cfg, y);
    assert used[..|used|] == used;
    forall k | k in cfg && (FirstAccepting(used, table, k, cfg[k]).Some? || k in extra)
      ensures cfg[k].Obj? && exists i, j :: Yields(used, table, cfg, i, j, (k, cfg[k].fields))
    {
      BroughtByLists(c, table, cfg, y, lists, inners, leaves, k);
      var i, j := ListsOrigin(used, |used|, table, cfg, y, k);
    }
  }

  lemma {:induction false} ListsOnlyClean(lists: seq<ListModel>, table: TableName, cfg: Config, extra: set<string>)
    requires (forall i :: 0 <= i < |lists| ==> ListWellFormed(lists[i])) && Restored(lists, table, cfg, extra)
    requires forall k :: k in extra ==> k in cfg && FirstAccepting(lists, table, k, cfg[k]).None?
    ensures ListShareClean(lists, table, cfg) && extra == {}
  {
    forall k | k in cfg && FirstAccepting(lists, table, k, cfg[k]).Some?
      ensures var l := lists[FirstAccepting(lists, table, k, cfg[k]).value];
              Contains(l.name, "_LIST") && EntryClean(l, table, k, cfg[k])
    {
      RestoredBySelf(lists, table, cfg, extra, k);
    }
    if k :| k in extra {
      RestoredBySelf(lists, table, cfg, extra, k);
    }
  }

  /** An inner container that came back as it was, was there and came back under its own name. */
  lemma {:induction false} InnerCameBack(c: Container, j: nat, table: TableName, rest: Config, y: map<string, Yang>, lists: Config, inners: Config)
    requires j < |c.containers| && InnersBack(c, |c.containers|, table.read, y, lists) == Some(inners)
    requires forall i, j :: 0 <= i < j < |c.containers| ==> c.containers[i].name != c.containers[j].name
    requires Restores(c.containers[j], table, rest, y, inners)
    ensures var inner := c.containers[j];
            && rest[inner.name].Obj? && rest[inner.name].fields != map[] && y[inner.name].YObj?
            && ContainerBack(inner, table.read, y[inner.name].fields) == Some(rest[inner.name].fields)
  {
    InnerPresent(c.containers[j], table, rest, y);
    InnerOrigin(c, j, table, y, lists, inners);
  }

  /** The inner container has entries, which were translated and came back. */
  ghost predicate Restores(c: Container, table: TableName, rest: Config, y: map<string, Yang>, inners: Config) {
    && InnerPart(true, c, table, rest, y)
    && c.name in rest && !IsEmpty(rest[c.name]) && c.name in inners && inners[c.name] == rest[c.name]
  }

  lemma {:induction false} InnerOrigin(c: Container, j: nat, table: TableName, y: map<string, Yang>, acc: Config, inners: Config)
    requires InnersBack(c, |c.containers|, table.read, y, acc) == Some(inners)
    requires forall i, j :: 0 <= i < j < |c.containers| ==> c.containers[i].name != c.containers[j].name
    requires j < |c.containers| && Present(c.containers[j], y) && c.containers[j].name in inners
    ensures var inner := c.containers[j];
            && y[inner.name].YObj? && inners[inner.name].Obj?
            && ContainerBack(inner, table.read, y[inner.name].fields) == Some(inners[inner.name].fields)
  {
    InnersOrigin(c, |c.containers|, table, y, acc);
  }

  lemma {:induction false} NamedInner(c: Container, j: nat, rest: Config)
    requires WellFormed(c) && j < |c.containers| && c.containers[j].name in rest && EmptyInners(c, rest) == {}
    ensures var name := c.containers[j].name; !IsEmpty(rest[name]) && name !in c.leaves && name !in Outside(rest, c.containers)
  {
    var inner := c.containers[j];
    assert inner in c.containers && inner.name in Names(c.containers);
    assert inner.name !in EmptyInners(c, rest);
  }

  lemma {:induction false} InnerRestores(c: Container, j: nat, table: TableName, cfg: Config, y: map<string, Yang>,
                                         inners: Config, leaves: Config)
    requires WellFormed(c) && Translated(true, c, table, cfg, y) && j < |c.containers| && cfg == inners + leaves
    requires var rest := Leftover(ActiveLists(c), table, cfg);
             && leaves.Keys == Outside(rest, c.containers).Keys && EmptyInners(c, rest) == {}
             && c.containers[j].name in rest
    ensures WellFormed(c.containers[j]) && Restores(c.containers[j], table, Leftover(ActiveLists(c), table, cfg), y, inners)
  {
    NamedInner(c, j, Leftover(ActiveLists(c), table, cfg));
  }

  lemma {:induction false} InnerOnlyClean(c: Container, j: nat, table: TableName, rest: Config, y: map<string, Yang>,
                                          lists: Config, inners: Config)
    requires j < |c.containers| && InnersBack(c, |c.containers|, table.read, y, lists) == Some(inners)
    requires forall i, j :: 0 <= i < j < |c.containers| ==> c.containers[i].name != c.containers[j].name
    requires WellFormed(c.containers[j]) && Restores(c.containers[j], table, rest, y, inners)
    ensures var v := rest[c.containers[j].name];
            v.Obj? && v.fields != map[] && Clean(c.containers[j], table, v.fields)
    decreases c, 0
  {
    var inner := c.containers[j];
    InnerCameBack(c, j, table, rest, y, lists, inners);
    InnerTranslated(inner, table, rest, y);
    ContainerOnlyClean(inner, table, rest[inner.name].fields, y[inner.name].fields);
  }

  lemma {:induction false} InnerTranslated(c: Container, table: TableName, rest: Config, y: map<string, Yang>)
    requires InnerPart(true, c, table, rest, y) && c.name in rest && !IsEmpty(rest[c.name])
    ensures rest[c.name].Obj? && c.name in y && y[c.name].YObj?
    ensures Translated(true, c, table, rest[c.name].fields, y[c.name].fields)
  {
  }

  /** Only a clean configuration comes back as it was. */
  lemma {:induction false} ContainerOnlyClean(c: Container, table: TableName, cfg: Config, y: map<string, Yang>)
    requires WellFormed(c) && Translated(true, c, table, cfg, y) && ContainerBack(c, table.read, y) == Some(cfg)
    ensures Clean(c, table, cfg)
    decreases c, 1
  {
    var rest := Leftover(ActiveLists(c), table, cfg);
    var lists, inners, leaves := BackParts(c, table, cfg, y);
    LeavesOnlyClean(table, c.leaves, Outside(rest, c.containers), LeafPart(c, y), cfg, inners, leaves);
    ListsRestore(c, table, cfg, y, lists, inners, leaves);
    assert forall i :: 0 <= i < |ActiveLists(c)| ==> ListWellFormed(ActiveLists(c)[i]);
    ListsOnlyClean(ActiveLists(c), table, cfg, EmptyInners(c, rest));
    forall j | 0 <= j < |c.containers| && c.containers[j].name in rest
      ensures var v := rest[c.containers[j].name]; v.Obj? && v.fields != map[] && Clean(c.containers[j], table, v.fields)
    {
      InnerRestores(c, j, table, cfg, y, inners, leaves);
      InnerOnlyClean(c, j, table, rest, y, lists, inners);
    }
  }

  /** Forward, data tree, backward: a configuration comes back as it was exactly when it is clean. */
  lemma {:induction false} TableExact(c: Container, table: TableName, cfg: Config, y: map<string, Yang>)
    requires WellFormed(c) && Translated(false, c, table, cfg, y)
    ensures ContainerBack(c, table.read, LoadContainer(c, y)) == Some(cfg) <==> Clean(c, table, cfg)
  {
    var tree := LoadContainer(c, y);
    LoadTranslated(c, table, cfg, y);
    if Clean(c, table, cfg) {
      ContainerRoundTrip(c, table, cfg, tree);
    } else if ContainerBack(c, table.read, tree) == Some(cfg) {
      ContainerOnlyClean(c, table, cfg, tree);
    }
  }
}
