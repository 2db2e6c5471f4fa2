/** Containers: keys are shared out among lists, inner containers and leaves, and collected again. */
module YangContainers {
  import opened Text
  import opened YangModel
  import opened YangValues
  import opened YangEntries

  type Config = map<string, Value>

  // ----- database to YANG -----

  /** A single list is used only under the name derived from its container. */
  function ActiveLists(c: Container): seq<ListModel> {
    if |c.lists| == 1 && c.lists[0].name != c.name + "_LIST" then [] else c.lists
  }

  /** The first list that takes the entry. */
  function FirstAccepting(lists: seq<ListModel>, table: TableName, key: string, v: Value): (r: Option<nat>)
    ensures r.Some? ==> r.value < |lists|
  {
    if lists == [] then None
    else
      var init := FirstAccepting(lists[..|lists| - 1], table, key, v);
      if init.Some? then init
      else if Accepts(lists[|lists| - 1], table, key, v) then Some(|lists| - 1)
      else None
  }

  /** The entries that go to list `i`. */
  function Assigned(lists: seq<ListModel>, table: TableName, cfg: Config, i: nat): Config {
    map k | k in cfg && FirstAccepting(lists, table, k, cfg[k]) == Some(i) :: cfg[k]
  }

  /** The entries that no list takes. */
  function Leftover(lists: seq<ListModel>, table: TableName, cfg: Config): Config {
    map k | k in cfg && FirstAccepting(lists, table, k, cfg[k]).None? :: cfg[k]
  }

  function Names(cs: seq<Container>): set<string> {
    set c | c in cs :: c.name
  }

  /** What is left for the leaves of the container. */
  function Outside(rest: Config, cs: seq<Container>): Config {
    map k | k in rest && k !in Names(cs) :: rest[k]
  }

  predicate IsEmpty(v: Value) {
    v == Str("") || v == Arr([]) || v == Obj(map[])
  }

  /** Forward translation succeeds: every key is taken by a list, an inner container or a leaf. */
  predicate CanTranslate(c: Container, table: TableName, cfg: Config)
    decreases c, 0
  {
    var rest := Leftover(ActiveLists(c), table, cfg);
    && Collect(Writer(false, table, c.leaves), Outside(rest, c.containers)).Some?
    && forall j :: 0 <= j < |c.containers| && c.containers[j].name in rest ==>
         CanTranslateInner(c.containers[j], table, rest[c.containers[j].name])
  }

  predicate CanTranslateInner(c: Container, table: TableName, v: Value)
    decreases c, 1
  {
    IsEmpty(v) || (v.Obj? && CanTranslate(c, table, v.fields))
  }

  ghost predicate ListingIs(loaded: bool, l: ListModel, table: TableName, cfg: Config, keys: seq<string>, ys: seq<Yang>) {
    && Enumerates(keys, cfg.Keys) && |ys| == |keys|
    && forall i :: 0 <= i < |keys| ==>
         ys[i].YObj? && IsEntry(loaded, l, table, keys[i], cfg[keys[i]], ys[i].fields)
  }

  /** `ys` lists one YANG entry for each entry of `cfg`. */
  ghost predicate IsListing(loaded: bool, l: ListModel, table: TableName, cfg: Config, ys: seq<Yang>) {
    exists keys :: ListingIs(loaded, l, table, cfg, keys, ys)
  }

  /** A list appears in the output exactly when it took something, and then lists all it took. */
  ghost predicate ListPart(loaded: bool, l: ListModel, table: TableName, cfg: Config, y: map<string, Yang>) {
    if cfg == map[] then l.name !in y
    else l.name in y && y[l.name].YArr? && IsListing(loaded, l, table, cfg, y[l.name].items)
  }

  /** An inner container appears in the output whenever the lists left something over. */
  ghost predicate InnerPart(loaded: bool, c: Container, table: TableName, rest: Config, y: map<string, Yang>)
    decreases c, 1
  {
    if rest == map[] then c.name !in y
    else
      && c.name in y && y[c.name].YObj?
      && if c.name in rest && !IsEmpty(rest[c.name])
         then rest[c.name].Obj? && Translated(loaded, c, table, rest[c.name].fields, y[c.name].fields)
         else y[c.name].fields == map[]
  }

  /** `y` is the translation of `cfg`, up to the order in which dictionaries were iterated. */
  ghost predicate Translated(loaded: bool, c: Container, table: TableName, cfg: Config, y: map<string, Yang>)
    decreases c, 0
  {
    var lists := ActiveLists(c);
    var rest := Leftover(lists, table, cfg);
    && (forall i {:trigger ListPart(loaded, lists[i], table, Assigned(lists, table, cfg, i), y)} ::
          0 <= i < |lists| ==> ListPart(loaded, lists[i], table, Assigned(lists, table, cfg, i), y))
    && (forall j {:trigger InnerPart(loaded, c.containers[j], table, rest, y)} ::
          0 <= j < |c.containers| ==> InnerPart(loaded, c.containers[j], table, rest, y))
    && Collect(Writer(loaded, table, c.leaves), Outside(rest, c.containers))
       == Some(map f | f in y && f in c.leaves :: y[f])
    && forall f :: f in y ==> f in c.leaves || f in Names(c.containers) || exists i :: 0 <= i < |lists| && lists[i].name == f
  }

  // ----- YANG to database -----

  /** Reads one item of a YANG list. */
  function EntryReader(l: ListModel, table: string): Yang -> Option<(string, Config)> {
    (y: Yang) => if y.YObj? then EntryBack(l, table, y.fields) else None
  }

  /** Items of a list written into the table, in order. */
  function EntriesBack(read: Yang -> Option<(string, Config)>, ys: seq<Yang>, acc: Config): Option<Config> {
    if ys == [] then Some(acc)
    else
      var init, e := EntriesBack(read, ys[..|ys| - 1], acc), read(ys[|ys| - 1]);
      if init.Some? && e.Some? then Some(init.value[e.value.0 := Obj(e.value.1)]) else None
  }

  function ListBack(l: ListModel, table: string, y: map<string, Yang>, acc: Config): Option<Config> {
    if l.name !in y || !Truthy(y[l.name]) || !Contains(l.name, "_LIST") then Some(acc)
    else if y[l.name].YArr? then EntriesBack(EntryReader(l, table), y[l.name].items, acc)
    else None
  }

  function ListsBack(lists: seq<ListModel>, table: string, y: map<string, Yang>): Option<Config> {
    if lists == [] then Some(map[])
    else
      var init := ListsBack(lists[..|lists| - 1], table, y);
      if init.Some? then ListBack(lists[|lists| - 1], table, y, init.value) else None
  }

  /** The first `n` inner containers written into the table. */
  function InnersBack(c: Container, n: nat, table: string, y: map<string, Yang>, acc: Config): Option<Config>
    requires n <= |c.containers|
    decreases c, n
  {
    if n == 0 then Some(acc)
    else
      var init, inner := InnersBack(c, n - 1, table, y, acc), c.containers[n - 1];
      if init.None? then None
      else if inner.name !in y || !Truthy(y[inner.name]) then init
      else if !y[inner.name].YObj? then None
      else
        var back := ContainerBack(inner, table, y[inner.name].fields);
        if back.Some? then Some(init.value[inner.name := Obj(back.value)]) else None
  }

  function ContainerBack(c: Container, table: string, y: map<string, Yang>): Option<Config>
    decreases c, |c.containers| + 1
  {
    var lists := ListsBack(c.lists, table, y);
    if lists.None? then None
    else
      var inners := InnersBack(c, |c.containers|, table, y, lists.value);
      var leaves := Collect(Reader(table, c.leaves), map f | f in y && f in c.leaves :: y[f]);
      if inners.Some? && leaves.Some? then Some(inners.value + leaves.value) else None
  }

  // ----- conditions -----

  /** Sibling nodes of a schema have different names. */
  predicate WellFormed(c: Container) {
    && (forall i, j :: 0 <= i < j < |c.lists| ==> c.lists[i].name != c.lists[j].name)
    && (forall i, j :: 0 <= i < j < |c.containers| ==> c.containers[i].name != c.containers[j].name)
    && (forall i :: 0 <= i < |c.lists| ==>
          ListWellFormed(c.lists[i]) && c.lists[i].name !in Names(c.containers) && c.lists[i].name !in c.leaves)
    && (forall j :: 0 <= j < |c.containers| ==> WellFormed(c.containers[j]) && c.containers[j].name !in c.leaves)
  }

  /** Entries that lists take survive there. */
  ghost predicate ListShareClean(lists: seq<ListModel>, table: TableName, cfg: Config) {
    forall k :: k in cfg && FirstAccepting(lists, table, k, cfg[k]).Some? ==>
      var l := lists[FirstAccepting(lists, table, k, cfg[k]).value];
      Contains(l.name, "_LIST") && EntryClean(l, table, k, cfg[k])
  }

  /** Where an entry goes, it survives. */
  ghost predicate Clean(c: Container, table: TableName, cfg: Config) {
    var lists := ActiveLists(c);
    var rest := Leftover(lists, table, cfg);
    && ListShareClean(lists, table, cfg)
    && (forall j :: 0 <= j < |c.containers| && c.containers[j].name in rest ==>
          var v := rest[c.containers[j].name];
          v.Obj? && v.fields != map[] && Clean(c.containers[j], table, v.fields))
    && FieldsClean(table, c.leaves, Outside(rest, c.containers))
  }
}
