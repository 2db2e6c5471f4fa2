/** The data tree between the two directions: everything is kept, boolean text becomes a boolean. */
module YangTree {
  import opened Text
  import opened YangModel
  import opened YangValues
  import opened YangEntries
  import opened YangContainers

  function LoadEntries(l: ListModel, ys: seq<Yang>): seq<Yang> {
    seq(|ys|, i requires 0 <= i < |ys| => if ys[i].YObj? then YObj(LoadEntry(l, ys[i].fields)) else ys[i])
  }

  function ListNamed(lists: seq<ListModel>, name: string): (r: Option<nat>)
    ensures r.Some? ==> r.value < |lists| && lists[r.value].name == name
    ensures r.None? ==> forall i :: 0 <= i < |lists| ==> lists[i].name != name
  {
    if lists == [] then None
    else if lists[|lists| - 1].name == name then Some(|lists| - 1)
    else ListNamed(lists[..|lists| - 1], name)
  }

  function InnerNamed(cs: seq<Container>, name: string): (r: Option<nat>)
    ensures r.Some? ==> r.value < |cs| && cs[r.value].name == name
    ensures r.None? ==> forall i :: 0 <= i < |cs| ==> cs[i].name != name
  {
    if cs == [] then None
    else if cs[|cs| - 1].name == name then Some(|cs| - 1)
    else InnerNamed(cs[..|cs| - 1], name)
  }

  /** A child of container `c` in the data tree. */
  function LoadChild(c: Container, name: string, y: Yang): Yang
    decreases c, 0
  {
    if name in c.leaves then LoadValue(c.leaves[name], y)
    else
      var l, inner := ListNamed(c.lists, name), InnerNamed(c.containers, name);
      if l.Some? && y.YArr? then YArr(LoadEntries(c.lists[l.value], y.items))
      else if inner.Some? && y.YObj? then YObj(LoadContainer(c.containers[inner.value], y.fields))
      else y
  }

  function LoadContainer(c: Container, y: map<string, Yang>): map<string, Yang>
    decreases c, 1
  {
    map k | k in y :: LoadChild(c, k, y[k])
  }

  // ----- the tree of a translation -----

  lemma LoadIsEntry(l: ListModel, table: TableName, key: string, v: Value, e: map<string, Yang>)
    requires IsEntry(false, l, table, key, v, e)
    ensures IsEntry(true, l, table, key, v, LoadEntry(l, e))
  {
  }

  lemma LoadListing(l: ListModel, table: TableName, cfg: Config, ys: seq<Yang>)
    requires IsListing(false, l, table, cfg, ys)
    ensures IsListing(true, l, table, cfg, LoadEntries(l, ys))
  {
    var keys :| ListingIs(false, l, table, cfg, keys, ys);
    var zs := LoadEntries(l, ys);
    forall i | 0 <= i < |keys| ensures zs[i].YObj? && IsEntry(true, l, table, keys[i], cfg[keys[i]], zs[i].fields) {
      assert keys[i] in keys;
      LoadIsEntry(l, table, keys[i], cfg[keys[i]], ys[i].fields);
    }
    assert ListingIs(true, l, table, cfg, keys, zs);
  }

  lemma {:induction false} ListNamedAt(lists: seq<ListModel>, i: nat)
    requires i < |lists| && forall i, j :: 0 <= i < j < |lists| ==> lists[i].name != lists[j].name
    ensures ListNamed(lists, lists[i].name) == Some(i)
  {
  }

  lemma {:induction false} InnerNamedAt(cs: seq<Container>, i: nat)
    requires i < |cs| && forall i, j :: 0 <= i < j < |cs| ==> cs[i].name != cs[j].name
    ensures InnerNamed(cs, cs[i].name) == Some(i)
  {
  }

  lemma {:induction false} LoadListPart(c: Container, i: nat, table: TableName, cfg: Config, y: map<string, Yang>)
    requires WellFormed(c) && i < |c.lists|
    requires ListPart(false, c.lists[i], table, cfg, y)
    ensures ListPart(true, c.lists[i], table, cfg, LoadContainer(c, y))
  {
    var l := c.lists[i];
    ListNamedAt(c.lists, i);
    if cfg != map[] { LoadListing(l, table, cfg, y[l.name].items); }
  }

  lemma {:induction false} LoadInnerPart(c: Container, j: nat, table: TableName, rest: Config, y: map<string, Yang>)
    requires WellFormed(c) && j < |c.containers| && InnerPart(false, c.containers[j], table, rest, y)
    ensures InnerPart(true, c.containers[j], table, rest, LoadContainer(c, y))
    decreases c, 0
  {
    var inner := c.containers[j];
    InnerNamedAt(c.containers, j);
    assert inner in c.containers && inner.name in Names(c.containers);
    if rest != map[] {
      assert LoadContainer(c, y)[inner.name] == YObj(LoadContainer(inner, y[inner.name].fields));
      if inner.name in rest && !IsEmpty(rest[inner.name]) {
        LoadTranslated(inner, table, rest[inner.name].fields, y[inner.name].fields);
      } else {
        assert LoadContainer(inner, map[]) == map[];
      }
    }
  }

  lemma {:induction false} LoadLeafPart(c: Container, y: map<string, Yang>)
    ensures (map f | f in LoadContainer(c, y) && f in c.leaves :: LoadContainer(c, y)[f])
            == LoadLeaves(c.leaves, map f | f in y && f in c.leaves :: y[f])
  {
  }

  /** The data tree of a translation holds the loaded translation of the same configuration. */
  lemma {:induction false} LoadTranslated(c: Container, table: TableName, cfg: Config, y: map<string, Yang>)
    requires WellFormed(c) && Translated(false, c, table, cfg, y)
    ensures Translated(true, c, table, cfg, LoadContainer(c, y))
    decreases c, 1
  {
    var lists := ActiveLists(c);
    var rest := Leftover(lists, table, cfg);
    forall i | 0 <= i < |lists|
      ensures ListPart(true, lists[i], table, Assigned(lists, table, cfg, i), LoadContainer(c, y))
    {
      LoadListPart(c, i, table, Assigned(lists, table, cfg, i), y);
    }
    forall j | 0 <= j < |c.containers| ensures InnerPart(true, c.containers[j], table, rest, LoadContainer(c, y)) {
      LoadInnerPart(c, j, table, rest, y);
    }
    LoadFields(table, c.leaves, Outside(rest, c.containers), map f | f in y && f in c.leaves :: y[f]);
    LoadLeafPart(c, y);
  }
}
