/** Translating to YANG, holding the result in the data tree and translating back loses nothing. */
module YangRoundTrip {
  import opened Text
  import opened YangModel
  import opened YangEntries
  import opened YangContainers

  // ----- lists -----

  function WriteEach(acc: Config, cfg: Config, keys: seq<string>): Config
    requires forall k :: k in keys ==> k in cfg
  {
    if keys == [] then acc
    else
      var n := |keys| - 1;
      WriteEach(acc, cfg, keys[..n])[keys[n] := cfg[keys[n]]]
  }

  lemma {:induction false} WriteEachAt(acc: Config, cfg: Config, keys: seq<string>)
    requires forall k :: k in keys ==> k in cfg
    ensures forall k :: k in WriteEach(acc, cfg, keys) <==> k in acc || k in keys
    ensures forall k :: k in WriteEach(acc, cfg, keys) ==>
              WriteEach(acc, cfg, keys)[k] == if k in keys then cfg[k] else acc[k]
  {
    if keys != [] {
      var n := |keys| - 1;
      WriteEachAt(acc, cfg, keys[..n]);
      assert forall k :: k in keys <==> k in keys[..n] || k == keys[n];
    }
  }

  lemma {:induction false} WriteAll(acc: Config, cfg: Config, keys: seq<string>)
    requires Enumerates(keys, cfg.Keys)
    ensures WriteEach(acc, cfg, keys) == acc + cfg
  {
    WriteEachAt(acc, cfg, keys);
  }

  lemma {:induction false} EntriesBackOf(read: Yang -> Option<(string, Config)>, cfg: Config, keys: seq<string>,
                                         ys: seq<Yang>, acc: Config)
    requires |keys| == |ys| && forall k :: k in keys ==> k in cfg && cfg[k].Obj?
    requires forall i :: 0 <= i < |keys| ==> read(ys[i]) == Some((keys[i], cfg[keys[i]].fields))
    ensures EntriesBack(read, ys, acc) == Some(WriteEach(acc, cfg, keys))
  {
    if keys != [] {
      var n := |keys| - 1;
      EntriesBackOf(read, cfg, keys[..n], ys[..n], acc);
    }
  }

  lemma EntryReadBack(l: ListModel, table: TableName, key: string, v: Value, y: Yang)
    requires ListWellFormed(l) && y.YObj? && IsEntry(true, l, table, key, v, y.fields) && EntryClean(l, table, key, v)
    ensures v.Obj? && EntryReader(l, table.read)(y) == Some((key, v.fields))
  {
    EntryExact(l, table, key, v, y.fields);
  }

  ghost predicate EntriesClean(l: ListModel, table: TableName, cfg: Config) {
    forall k :: k in cfg ==> EntryClean(l, table, k, cfg[k])
  }

  lemma AddNothing(acc: Config)
    ensures acc + map[] == acc
  {
  }

  lemma EmptyListBack(l: ListModel, table: TableName, y: map<string, Yang>, acc: Config)
    requires l.name !in y
    ensures ListBack(l, table.read, y, acc) == Some(acc + map[])
  {
    AddNothing(acc);
  }

  lemma {:induction false} ListingBack(l: ListModel, table: TableName, cfg: Config, keys: seq<string>, ys: seq<Yang>, acc: Config)
    requires ListWellFormed(l) && EntriesClean(l, table, cfg) && ListingIs(true, l, table, cfg, keys, ys)
    ensures EntriesBack(EntryReader(l, table.read), ys, acc) == Some(acc + cfg)
  {
    forall i | 0 <= i < |keys|
      ensures keys[i] in cfg && cfg[keys[i]].Obj? && EntryReader(l, table.read)(ys[i]) == Some((keys[i], cfg[keys[i]].fields))
    {
      assert keys[i] in keys;
      EntryReadBack(l, table, keys[i], cfg[keys[i]], ys[i]);
    }
    EntriesBackOf(EntryReader(l, table.read), cfg, keys, ys, acc);
    WriteAll(acc, cfg, keys);
  }

  lemma {:induction false} FullListBack(l: ListModel, table: TableName, y: map<string, Yang>, acc: Config)
    requires l.name in y && y[l.name].YArr? && y[l.name].items != [] && Contains(l.name, "_LIST")
    ensures ListBack(l, table.read, y, acc) == EntriesBack(EntryReader(l, table.read), y[l.name].items, acc)
  {
  }

  lemma ListPartBack(l: ListModel, table: TableName, cfg: Config, y: map<string, Yang>, acc: Config)
    requires ListWellFormed(l) && ListPart(true, l, table, cfg, y) && EntriesClean(l, table, cfg)
    requires cfg != map[] ==> Contains(l.name, "_LIST")
    ensures ListBack(l, table.read, y, acc) == Some(acc + cfg)
  {
    if cfg == map[] {
      EmptyListBack(l, table, y, acc);
    } else {
      var ys := y[l.name].items;
      var keys :| ListingIs(true, l, table, cfg, keys, ys);
      ListingBack(l, table, cfg, keys, ys, acc);
      var k :| k in cfg;
      assert k in keys;
      FullListBack(l, table, y, acc);
    }
  }

  /** The entries that go to one of the first `n` lists. */
  function Given(lists: seq<ListModel>, table: TableName, cfg: Config, n: nat): Config {
    map k | k in cfg && FirstAccepting(lists, table, k, cfg[k]).Some?
                     && FirstAccepting(lists, table, k, cfg[k]).value < n :: cfg[k]
  }

  lemma GivenNext(lists: seq<ListModel>, table: TableName, cfg: Config, n: nat)
    ensures Given(lists, table, cfg, n + 1) == Given(lists, table, cfg, n) + Assigned(lists, table, cfg, n)
  {
  }

  ghost predicate ListsClean(lists: seq<ListModel>, table: TableName, cfg: Config) {
    forall i: nat :: i < |lists| ==>
      && EntriesClean(lists[i], table, Assigned(lists, table, cfg, i))
      && (Assigned(lists, table, cfg, i) != map[] ==> Contains(lists[i].name, "_LIST"))
  }

  lemma {:induction false} ListsBackOf(lists: seq<ListModel>, table: TableName, cfg: Config, y: map<string, Yang>, n: nat)
    requires n <= |lists| && ListsClean(lists, table, cfg)
    requires forall i :: 0 <= i < |lists| ==>
      ListWellFormed(lists[i]) && ListPart(true, lists[i], table, Assigned(lists, table, cfg, i), y)
    ensures ListsBack(lists[..n], table.read, y) == Some(Given(lists, table, cfg, n))
  {
    if n > 0 {
      ListsBackOf(lists, table, cfg, y, n - 1);
      assert lists[..n][..n - 1] == lists[..n - 1];
      ListPartBack(lists[n - 1], table, Assigned(lists, table, cfg, n - 1), y, Given(lists, table, cfg, n - 1));
      GivenNext(lists, table, cfg, n - 1);
    }
  }

  // ----- inner containers -----

  lemma {:induction false} FirstAcceptingAssigned(lists: seq<ListModel>, table: TableName, cfg: Config, k: string)
    requires k in cfg && FirstAccepting(lists, table, k, cfg[k]).Some?
    ensures k in Assigned(lists, table, cfg, FirstAccepting(lists, table, k, cfg[k]).value)
  {
  }

  /** A translation of something is not empty. */
  lemma {:induction false} TranslatedNonEmpty(loaded: bool, c: Container, table: TableName, cfg: Config, y: map<string, Yang>)
    requires Translated(loaded, c, table, cfg, y) && cfg != map[]
    ensures y != map[]
  {
    var lists := ActiveLists(c);
    var rest := Leftover(lists, table, cfg);
    var k :| k in cfg;
    var first := FirstAccepting(lists, table, k, cfg[k]);
    if first.Some? {
      FirstAcceptingAssigned(lists, table, cfg, k);
      assert ListPart(loaded, lists[first.value], table, Assigned(lists, table, cfg, first.value), y);
    } else {
      assert k in rest;
      if k in Names(c.containers) {
        var inner :| inner in c.containers && inner.name == k;
        var j :| 0 <= j < |c.containers| && c.containers[j] == inner;
        assert InnerPart(loaded, c.containers[j], table, rest, y);
      } else {
        CollectExact(Writer(loaded, table, c.leaves), Outside(rest, c.containers), map f | f in y && f in c.leaves :: y[f]);
        assert k in Outside(rest, c.containers);
      }
    }
  }

  /** The entries named like one of the first `n` inner containers. */
  function InnerGiven(cs: seq<Container>, rest: Config, n: nat): Config
    requires n <= |cs|
  {
    map k | k in rest && k in Names(cs[..n]) :: rest[k]
  }

  lemma InnerGivenNext(cs: seq<Container>, rest: Config, n: nat)
    requires n < |cs|
    ensures InnerGiven(cs, rest, n + 1) ==
            if cs[n].name in rest then InnerGiven(cs, rest, n)[cs[n].name := rest[cs[n].name]] else InnerGiven(cs, rest, n)
  {
    assert cs[..n + 1] == cs[..n] + [cs[n]];
    assert Names(cs[..n + 1]) == Names(cs[..n]) + {cs[n].name};
  }

  /** What the schema, the translation and the configuration say about one inner container. */
  ghost predicate InnerReady(c: Container, table: TableName, rest: Config, y: map<string, Yang>) {
    && WellFormed(c) && InnerPart(true, c, table, rest, y)
    && (c.name in rest ==>
          rest[c.name].Obj? && rest[c.name].fields != map[] && Clean(c, table, rest[c.name].fields))
  }

  /** The first `n` inner containers are ready. */
  ghost predicate AllReady(c: Container, n: nat, table: TableName, rest: Config, y: map<string, Yang>)
    requires n <= |c.containers|
  {
    n > 0 ==> InnerReady(c.containers[n - 1], table, rest, y) && AllReady(c, n - 1, table, rest, y)
  }

  /** An inner container with entries is there in the translation. */
  lemma {:induction false} InnerPresent(c: Container, table: TableName, rest: Config, y: map<string, Yang>)
    requires InnerPart(true, c, table, rest, y) && c.name in rest && !IsEmpty(rest[c.name])
    ensures rest[c.name].Obj? && c.name in y && y[c.name].YObj? && y[c.name].fields != map[]
  {
    TranslatedNonEmpty(true, c, table, rest[c.name].fields, y[c.name].fields);
  }

  /** One inner container read back: its entry, or nothing if it has none. */
  lemma {:induction false} InnerBack(c: Container, table: TableName, rest: Config, y: map<string, Yang>)
    requires InnerReady(c, table, rest, y)
    ensures c.name in rest ==>
              && c.name in y && y[c.name].YObj? && y[c.name].fields != map[]
              && rest[c.name].Obj? && ContainerBack(c, table.read, y[c.name].fields) == Some(rest[c.name].fields)
    ensures c.name !in rest ==> c.name !in y || y[c.name] == YObj(map[])
    decreases c, |c.containers| + 2
  {
    if c.name in rest {
      ContainerRoundTrip(c, table, rest[c.name].fields, y[c.name].fields);
      TranslatedNonEmpty(true, c, table, rest[c.name].fields, y[c.name].fields);
    }
  }

  lemma InnersBackStep(c: Container, n: nat, table: TableName, y: map<string, Yang>, acc: Config, init: Config)
    requires n < |c.containers| && InnersBack(c, n, table.read, y, acc) == Some(init)
    ensures var inner := c.containers[n];
            && (inner.name !in y || y[inner.name] == YObj(map[]) ==> InnersBack(c, n + 1, table.read, y, acc) == Some(init))
            && (inner.name in y && y[inner.name].YObj? && y[inner.name].fields != map[] ==>
                  var back := ContainerBack(inner, table.read, y[inner.name].fields);
                  back.Some? ==> InnersBack(c, n + 1, table.read, y, acc) == Some(init[inner.name := Obj(back.value)]))
  {
  }

  /** One more inner container. */
  lemma {:induction false} InnersBackNext(c: Container, n: nat, table: TableName, rest: Config, y: map<string, Yang>, acc: Config)
    requires n < |c.containers| && InnerReady(c.containers[n], table, rest, y)
    requires InnersBack(c, n, table.read, y, acc) == Some(acc + InnerGiven(c.containers, rest, n))
    ensures InnersBack(c, n + 1, table.read, y, acc) == Some(acc + InnerGiven(c.containers, rest, n + 1))
    decreases c, n
  {
    var given, name := InnerGiven(c.containers, rest, n), c.containers[n].name;
    InnerBack(c.containers[n], table, rest, y);
    InnersBackStep(c, n, table, y, acc, acc + given);
    InnerGivenNext(c.containers, rest, n);
    if name in rest { AddUpdate(acc, given, name, rest[name]); }
  }

  lemma {:induction false} InnersBackOf(c: Container, n: nat, table: TableName, rest: Config, y: map<string, Yang>, acc: Config)
    requires n <= |c.containers| && AllReady(c, n, table, rest, y)
    ensures InnersBack(c, n, table.read, y, acc) == Some(acc + InnerGiven(c.containers, rest, n))
    decreases c, n
  {
    if n == 0 {
      assert InnerGiven(c.containers, rest, 0) == map[];
      AddNothing(acc);
    } else {
      InnersBackOf(c, n - 1, table, rest, y, acc);
      InnersBackNext(c, n - 1, table, rest, y, acc);
    }
  }

  lemma AddUpdate(acc: Config, m: Config, k: string, v: Value)
    ensures (acc + m)[k := v] == acc + m[k := v]
  {
  }

  lemma {:induction false} CleanLists(c: Container, table: TableName, cfg: Config)
    requires Clean(c, table, cfg)
    ensures ListsClean(ActiveLists(c), table, cfg)
  {
    var lists := ActiveLists(c);
    forall i: nat | i < |lists|
      ensures EntriesClean(lists[i], table, Assigned(lists, table, cfg, i))
      ensures Assigned(lists, table, cfg, i) != map[] ==> Contains(lists[i].name, "_LIST")
    {
      var a := Assigned(lists, table, cfg, i);
      forall k | k in a ensures EntryClean(lists[i], table, k, a[k]) && Contains(lists[i].name, "_LIST") {
        assert k in Assigned(lists, table, cfg, i);
      }
      if a != map[] { var k :| k in a; }
    }
  }

  /** The three shares of a configuration make up the configuration. */
  lemma Shares(c: Container, table: TableName, cfg: Config)
    ensures var lists := ActiveLists(c);
            var rest := Leftover(lists, table, cfg);
            Given(lists, table, cfg, |lists|) + InnerGiven(c.containers, rest, |c.containers|)
            + Outside(rest, c.containers) == cfg
  {
    assert c.containers[..|c.containers|] == c.containers;
  }

  /** A list that is not used is not in the output either. */
  lemma {:induction false} AllListsBack(c: Container, table: TableName, cfg: Config, y: map<string, Yang>)
    requires WellFormed(c) && Translated(true, c, table, cfg, y) && Clean(c, table, cfg)
    ensures ListsBack(c.lists, table.read, y) == Some(Given(ActiveLists(c), table, cfg, |ActiveLists(c)|))
  {
    var lists := ActiveLists(c);
    CleanLists(c, table, cfg);
    assert forall i :: 0 <= i < |lists| ==> ListWellFormed(lists[i]);
    ListsBackOf(lists, table, cfg, y, |lists|);
    assert lists[..|lists|] == lists;
    if lists != c.lists {
      assert lists == [] && |c.lists| == 1;
      assert c.lists[..0] == [];
      assert c.lists[0].name !in y;
    }
  }

  /** A clean configuration comes back from the data tree as it was, whichever list, container or leaf
      took each key and in whatever order dictionaries were iterated. */
  lemma {:induction false} ContainerRoundTrip(c: Container, table: TableName, cfg: Config, y: map<string, Yang>)
    requires WellFormed(c) && Translated(true, c, table, cfg, y) && Clean(c, table, cfg)
    ensures ContainerBack(c, table.read, y) == Some(cfg)
    decreases c, |c.containers| + 1
  {
    var lists := ActiveLists(c);
    var rest := Leftover(lists, table, cfg);
    var given := Given(lists, table, cfg, |lists|);
    AllListsBack(c, table, cfg, y);
    InnersAreReady(c, table, cfg, y, |c.containers|);
    InnersBackOf(c, |c.containers|, table, rest, y, given);
    FieldsExact(table, c.leaves, Outside(rest, c.containers), map f | f in y && f in c.leaves :: y[f]);
    Shares(c, table, cfg);
  }

  lemma {:induction false} InnersAreReady(c: Container, table: TableName, cfg: Config, y: map<string, Yang>, n: nat)
    requires WellFormed(c) && Translated(true, c, table, cfg, y) && Clean(c, table, cfg) && n <= |c.containers|
    ensures AllReady(c, n, table, Leftover(ActiveLists(c), table, cfg), y)
  {
    if n > 0 {
      InnersAreReady(c, table, cfg, y, n - 1);
      InnerIsReady(c, table, cfg, y, n - 1);
    }
  }

  lemma {:induction false} InnerIsReady(c: Container, table: TableName, cfg: Config, y: map<string, Yang>, j: nat)
    requires WellFormed(c) && Translated(true, c, table, cfg, y) && Clean(c, table, cfg) && j < |c.containers|
    ensures InnerReady(c.containers[j], table, Leftover(ActiveLists(c), table, cfg), y)
  {
  }
}
