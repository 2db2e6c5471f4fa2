/** The version manager's components and modules, updated in place. */
module VersionManager {
  import opened Sequences
  import opened StableSort
  import opened VersionLayers
  import opened VersionLaws
  import opened VersionTheorems

  class Component {
    const key: Key
    var versions: Versions

    constructor (versions: Versions, ctype: string, dist: string, arch: string)
      ensures key == Key(ctype, NameOrAll(dist), NameOrAll(arch)) && this.versions == versions
    {
      this.versions := versions;
      key := Key(ctype, NameOrAll(dist), NameOrAll(arch));
    }

    function View(): Layer
      reads this
    {
      Layer(key, versions)
    }

    method Clone() returns (c: Component)
      ensures fresh(c) && c.View() == View()
    {
      c := new Component(versions, key.ctype, key.dist, key.arch);
    }

    method Merge(versions: Versions, overwritten: bool)
      modifies this
      ensures this.versions == if overwritten then old(this.versions) + versions else versions + old(this.versions)
    {
      var todo := versions.Keys;
      while todo != {}
        invariant todo <= versions.Keys
        invariant forall p :: p in this.versions <==> p in old(this.versions) || (p in versions && p !in todo)
        invariant forall p :: p in this.versions ==>
          this.versions[p] ==
            if p in versions && p !in todo && (overwritten || p !in old(this.versions)) then versions[p]
            else old(this.versions)[p]
        decreases todo
      {
        var package :| package in todo;
        if overwritten || package !in this.versions {
          this.versions := this.versions[package := versions[package]];
        }
        todo := todo - {package};
      }
    }

    method Subtract(versions: Versions)
      modifies this
      ensures this.versions == Cut(old(this.versions), versions)
    {
      var todo := versions.Keys;
      while todo != {}
        invariant todo <= versions.Keys
        invariant forall p :: p in this.versions <==>
          p in old(this.versions) && !(p in versions && p !in todo && versions[p] == old(this.versions)[p])
        invariant forall p :: p in this.versions ==> this.versions[p] == old(this.versions)[p]
        decreases todo
      {
        var package :| package in todo;
        if package in this.versions && this.versions[package] == versions[package] {
          this.versions := this.versions - {package};
        }
        todo := todo - {package};
      }
    }
  }

  /** One layer per component type, holding what the target resolves to. */
  function ConfigLayers(types: seq<string>, s: seq<Layer>, dist: Part, arch: Part): seq<Layer> {
    if types == [] then []
    else
      var k := Key(types[|types| - 1], dist, arch);
      ConfigLayers(types[..|types| - 1], s, dist, arch) + [Layer(k, Resolve(s, k))]
  }

  // ----- lists of components -----

  ghost function Views(cs: seq<Component>): seq<Layer>
    reads cs
  {
    if cs == [] then [] else Views(cs[..|cs| - 1]) + [cs[|cs| - 1].View()]
  }

  ghost function Footprint(cs: seq<Component>): set<Component> {
    set c | c in cs
  }

  predicate Separate(cs: seq<Component>) {
    forall i, j :: 0 <= i < j < |cs| ==> cs[i] != cs[j]
  }

  predicate ByKey(a: Component, b: Component) {
    KeyLe(Layer(a.key, map[]), Layer(b.key, map[]))
  }

  function OfTypeIn(cs: seq<Component>, c: string): seq<Component> {
    if cs == [] then []
    else
      var init, x := cs[..|cs| - 1], cs[|cs| - 1];
      if x.key.ctype == c then OfTypeIn(init, c) + [x] else OfTypeIn(init, c)
  }

  lemma {:induction false} OfTypeMembers(cs: seq<Component>, c: string)
    ensures Footprint(OfTypeIn(cs, c)) <= Footprint(cs)
    ensures forall i :: 0 <= i < |OfTypeIn(cs, c)| ==> OfTypeIn(cs, c)[i].key.ctype == c
    ensures Separate(cs) ==> Separate(OfTypeIn(cs, c))
  {
    if cs != [] {
      var init, x := cs[..|cs| - 1], cs[|cs| - 1];
      OfTypeMembers(init, c);
      FootprintSnoc(init, x);
      FootprintSnoc(OfTypeIn(init, c), x);
      assert cs == init + [x];
      if Separate(cs) && x.key.ctype == c {
        assert x !in Footprint(init);
        SeparateSnoc(OfTypeIn(init, c), x);
      }
    }
  }

  lemma FootprintSnoc(cs: seq<Component>, x: Component)
    ensures Footprint(cs + [x]) == Footprint(cs) + {x}
  {
  }

  lemma SeparateSnoc(cs: seq<Component>, x: Component)
    requires Separate(cs) && x !in Footprint(cs)
    ensures Separate(cs + [x])
  {
    assert forall i :: 0 <= i < |cs| ==> cs[i] in Footprint(cs);
  }

  lemma {:induction false} ViewsAt(cs: seq<Component>)
    ensures Holds(cs, Views(cs))
  {
    if cs != [] { ViewsAt(cs[..|cs| - 1]); }
  }

  lemma {:induction false} ViewsSnoc(cs: seq<Component>, c: Component)
    ensures Views(cs + [c]) == Views(cs) + [c.View()]
  {
    assert (cs + [c])[..|cs|] == cs;
  }

  lemma {:induction false} ViewsInsert(x: Component, cs: seq<Component>)
    ensures Views(Insert(ByKey, x, cs)) == Insert(KeyLe, x.View(), Views(cs))
  {
    if cs == [] || ByKey(cs[|cs| - 1], x) {
      ViewsSnoc(cs, x);
    } else {
      var init, last := cs[..|cs| - 1], cs[|cs| - 1];
      assert cs == init + [last];
      ViewsInsert(x, init);
      ViewsSnoc(init, last);
      ViewsSnoc(Insert(ByKey, x, init), last);
      InsertSnoc(Views(init), last.View(), x.View());
    }
  }

  /** Sorting the objects sorts what they hold. */
  lemma {:induction false} ViewsSort(cs: seq<Component>)
    ensures Views(Sort(ByKey, cs)) == Sort(KeyLe, Views(cs))
  {
    if cs != [] {
      var init, last := cs[..|cs| - 1], cs[|cs| - 1];
      assert cs == init + [last];
      ViewsSort(init);
      ViewsInsert(last, Sort(ByKey, init));
      ViewsSnoc(init, last);
    }
  }

  lemma {:induction false} SeparateInsert(x: Component, cs: seq<Component>)
    requires Separate(cs) && x !in cs
    ensures Separate(Insert(ByKey, x, cs))
    ensures forall y :: y in Insert(ByKey, x, cs) <==> y in cs || y == x
  {
    if cs != [] && !ByKey(cs[|cs| - 1], x) {
      SeparateInsert(x, cs[..|cs| - 1]);
      assert forall y :: y in cs <==> y in cs[..|cs| - 1] || y == cs[|cs| - 1];
      assert cs[|cs| - 1] !in cs[..|cs| - 1];
    }
  }

  lemma {:induction false} SeparateSort(cs: seq<Component>)
    requires Separate(cs)
    ensures Separate(Sort(ByKey, cs))
    ensures forall x :: x in Sort(ByKey, cs) <==> x in cs
  {
    if cs != [] {
      SeparateSort(cs[..|cs| - 1]);
      assert forall y :: y in cs <==> y in cs[..|cs| - 1] || y == cs[|cs| - 1];
      SeparateInsert(cs[|cs| - 1], Sort(ByKey, cs[..|cs| - 1]));
    }
  }

  lemma {:induction false} ViewsOfType(cs: seq<Component>, c: string)
    ensures Views(OfTypeIn(cs, c)) == Select(OfType(c), Views(cs))
  {
    if cs != [] {
      var init, x := cs[..|cs| - 1], cs[|cs| - 1];
      ViewsOfType(init, c);
      SelectSnoc(OfType(c), Views(init), x.View());
      ViewsSnoc(OfTypeIn(init, c), x);
    }
  }

  // ----- modules -----

  class VersionModule {
    var components: seq<Component>

    constructor (components: seq<Component>)
      ensures this.components == components
    {
      this.components := components;
    }

    ghost predicate Valid()
      reads this
    {
      Separate(components)
    }

    ghost function View(): seq<Layer>
      reads this, components
    {
      Views(components)
    }

    /** Merges, in order, the components that a component with key `k` may inherit from. */
    static method MergeInheritable(k: Key, bases: seq<Component>, ghost s: seq<Layer>) returns (result: Component)
      requires Holds(bases, s)
      ensures fresh(result) && result.key == k && result.versions == Inherited(s, k)
    {
      result := new Component(map[], k.ctype, k.dist, k.arch);
      for j := 0 to |bases|
        invariant fresh(result) && result.key == k && result.versions == Inherited(s[..j], k)
        invariant Holds(bases, s)
      {
        var base := bases[j];
        assert s[..j + 1] == s[..j] + [s[j]];
        SelectSnoc(AppliesAt(k), s[..j], s[j]);
        if Inherits(k, base.key) {
          OverlaySnoc(Select(AppliesAt(k), s[..j]), s[j]);
          result.Merge(base.versions, true);
        }
      }
      assert s[..|bases|] == s;
    }

    static method SortComponents(cs: seq<Component>, ghost s: seq<Layer>) returns (sorted: seq<Component>)
      requires Separate(cs) && Holds(cs, s)
      ensures Separate(sorted) && Holds(sorted, Sort(KeyLe, s))
      ensures forall c :: c in sorted <==> c in cs
    {
      sorted := Sort(ByKey, cs);
      SeparateSort(cs);
      HoldsSort(cs, s);
    }

    /** Cuts the layers of one component type against the more generic ones in front of them. */
    static method AdjustComponents(components: seq<Component>, ghost s: seq<Layer>) returns (result: seq<Component>)
      requires Separate(components) && Holds(components, s)
      modifies Footprint(components)
      ensures Separate(result) && Footprint(result) <= Footprint(components)
      ensures Holds(result, CutGroup(s, Inherited))
    {
      var sorted := SortComponents(components, s);
      assert Footprint(sorted) == Footprint(components);
      ghost var layers := Sort(KeyLe, s);
      ghost var cut := CutAgainst(layers, Inherited);
      result := [];
      for i := 0 to |sorted|
        invariant Progress(sorted, i, result, cut, layers)
      {
        CutAgainstAt(layers, i, Inherited);
        assert sorted[i] in Footprint(sorted);
        result := AdjustOne(sorted, i, result, cut, layers);
      }
      assert cut[..|sorted|] == cut;
    }

    static method AdjustOne(sorted: seq<Component>, i: nat, kept: seq<Component>,
                            ghost cut: seq<Layer>, ghost layers: seq<Layer>)
      returns (result: seq<Component>)
      requires i < |sorted| && Progress(sorted, i, kept, cut, layers)
      requires cut[i] == layers[i].(versions := Cut(layers[i].versions, Inherited(cut[..i], layers[i].key)))
      modifies sorted[i]
      ensures Progress(sorted, i + 1, result, cut, layers)
    {
      var component := sorted[i];
      var inheritable := MergeInheritable(component.key, sorted[..i], cut[..i]);
      component.Subtract(inheritable.versions);
      result := KeepNonEmpty(sorted, i, kept, cut, layers);
    }

    /** Keeps the component just cut unless the cut left it empty. */
    static method KeepNonEmpty(sorted: seq<Component>, i: nat, kept: seq<Component>,
                               ghost cut: seq<Layer>, ghost layers: seq<Layer>)
      returns (result: seq<Component>)
      requires i < |sorted| && CutUpTo(sorted, i + 1, cut, layers) && Kept(sorted, i, kept, cut)
      ensures Progress(sorted, i + 1, result, cut, layers)
    {
      TakeNext(cut, i);
      SelectSnoc(HasEntries, cut[..i], cut[i]);
      result := kept;
      if sorted[i].versions != map[] {
        result := kept + [sorted[i]];
      }
    }

    /** The components of each type, and the types in order of first appearance. */
    static method ComponentsPerType(cs: seq<Component>, ghost s: seq<Layer>)
      returns (types: seq<string>, groups: map<string, seq<Component>>)
      requires Holds(cs, s)
      ensures types == CTypes(s)
      ensures forall c :: c in groups <==> c in types
      ensures forall c :: c in groups ==> groups[c] == OfTypeIn(cs, c)
    {
      types, groups := [], map[];
      for i := 0 to |cs|
        invariant types == CTypes(s[..i])
        invariant forall c :: c in groups <==> c in types
        invariant forall c :: OfTypeIn(cs[..i], c) == if c in groups then groups[c] else []
      {
        var ctype := cs[i].key.ctype;
        assert cs[..i + 1][..i] == cs[..i] && s[..i + 1][..i] == s[..i];
        if ctype !in groups {
          types := types + [ctype];
        }
        groups := groups[ctype := (if ctype in groups then groups[ctype] else []) + [cs[i]]];
      }
      assert cs[..|cs|] == cs && s[..|cs|] == s;
    }

    /** Drops the entries that more generic layers of this module supply. */
    method Adjust()
      requires Valid()
      modifies this, Footprint(components)
      ensures Valid() && View() == VersionLayers.Adjust(old(View()))
      ensures Footprint(components) <= old(Footprint(components))
    {
      ghost var s := View();
      ViewsAt(components);
      var result := AdjustAll(components, s);
      ViewsAre(result, VersionLayers.Adjust(s));
      components := result;
    }

    static method AdjustAll(cs: seq<Component>, ghost s: seq<Layer>) returns (result: seq<Component>)
      requires Separate(cs) && Holds(cs, s)
      modifies Footprint(cs)
      ensures Separate(result) && Holds(result, VersionLayers.Adjust(s))
      ensures Footprint(result) <= Footprint(cs)
    {
      var types, groups := ComponentsPerType(cs, s);
      CTypesDistinct(s);
      GroupsSnapped(cs, s, types, groups);
      result := AdjustGroups(types, groups, Footprint(cs), s, Snapshot(cs));
    }

    static method AdjustGroups(types: seq<string>, groups: map<string, seq<Component>>,
                               ghost fp: set<Component>, ghost s: seq<Layer>, ghost was: map<Component, Layer>)
      returns (result: seq<Component>)
      requires Distinct(types) && forall c :: c in types ==> c in groups && GroupOf(groups[c], c, fp, s, was)
      requires forall x :: x in fp ==> x in was && x.View() == was[x]
      modifies fp
      ensures Separate(result) && Footprint(result) <= fp && Holds(result, CutTypes(types, s, Inherited))
    {
      result := [];
      for n := 0 to |types|
        invariant GroupProgress(types, n, fp, s, was, result, Inherited)
      {
        assert types[n] in types;
        result := AdjustGroup(types, n, groups[types[n]], fp, s, was, result);
      }
      assert types[..|types|] == types;
    }

    static method AdjustGroup(types: seq<string>, n: nat, group: seq<Component>, ghost fp: set<Component>,
                              ghost s: seq<Layer>, ghost was: map<Component, Layer>, done: seq<Component>)
      returns (result: seq<Component>)
      requires Distinct(types) && n < |types| && GroupOf(group, types[n], fp, s, was)
      requires GroupProgress(types, n, fp, s, was, done, Inherited)
      modifies Footprint(group)
      ensures GroupProgress(types, n + 1, fp, s, was, result, Inherited)
    {
      var ctype := types[n];
      assert ctype !in types[..n];
      GroupHolds(group, ctype, fp, s, was);
      GroupTypes(group, ctype, fp, s, was);
      assert Footprint(done) !! Footprint(group);
      var cut := AdjustComponents(group, Select(OfType(ctype), s));
      result := JoinGroup(types, n, group, fp, s, was, done, cut, Inherited);
    }

    static method JoinGroup(types: seq<string>, n: nat, ghost group: seq<Component>, ghost fp: set<Component>,
                            ghost s: seq<Layer>, ghost was: map<Component, Layer>,
                            done: seq<Component>, cut: seq<Component>, ghost source: Source)
      returns (result: seq<Component>)
      requires Distinct(types) && n < |types| && GroupOf(group, types[n], fp, s, was)
      requires forall x :: x in fp && x !in Footprint(group) && x.key.ctype !in types[..n] ==> x in was && x.View() == was[x]
      requires Separate(done) && Footprint(done) <= fp && Holds(done, CutTypes(types[..n], s, source))
      requires forall x :: x in Footprint(done) ==> x.key.ctype in types[..n]
      requires Separate(cut) && Footprint(cut) <= Footprint(group)
      requires Holds(cut, CutGroup(Select(OfType(types[n]), s), source))
      ensures GroupProgress(types, n + 1, fp, s, was, result, source)
    {
      TakeNext(types, n);
      GroupTypes(group, types[n], fp, s, was);
      SeparateConcat(done, cut);
      CutTypesNext(types, n, s, source);
      HoldsConcat(done, CutTypes(types[..n], s, source), cut, CutGroup(Select(OfType(types[n]), s), source));
      TypesJoined(types, n, group, done, cut);
      result := done + cut;
    }

    static method CloneAll(cs: seq<Component>, ghost s: seq<Layer>) returns (result: seq<Component>)
      requires Holds(cs, s)
      ensures Separate(result) && Holds(result, s) && forall c :: c in Footprint(result) ==> fresh(c)
    {
      result := [];
      for i := 0 to |cs|
        invariant Holds(cs, s) && Holds(result, s[..i])
        invariant Separate(result) && forall c :: c in Footprint(result) ==> fresh(c)
      {
        var c := cs[i].Clone();
        FootprintSnoc(result, c);
        TakeNext(s, i);
        result := result + [c];
      }
      assert s[..|cs|] == s;
    }

    method Clone() returns (m: VersionModule)
      requires Valid()
      ensures fresh(m) && m.Valid() && m.View() == View() && forall c :: c in Footprint(m.components) ==> fresh(c)
    {
      ViewsAt(components);
      var cs := CloneAll(components, View());
      ViewsAre(cs, View());
      m := new VersionModule(cs);
    }

    /** Lays one component over a list: into every component with its key, or appended as a copy. */
    static method OverwriteWith(cs: seq<Component>, b: Component, ghost s: seq<Layer>) returns (result: seq<Component>)
      requires Separate(cs) && Holds(cs, s) && b !in cs
      modifies Footprint(cs)
      ensures Separate(result) && Holds(result, OverwriteOne(s, b.View()))
      ensures forall c :: c in Footprint(result) ==> c in Footprint(cs) || fresh(c)
    {
      var merged := MergeInto(cs, b, s);
      result := cs;
      if !merged {
        UnmergedSame(s, b.key, b.versions);
        var c := b.Clone();
        result := cs + [c];
      }
    }

    static method MergeInto(cs: seq<Component>, b: Component, ghost s: seq<Layer>) returns (merged: bool)
      requires Separate(cs) && Holds(cs, s) && b !in cs
      modifies Footprint(cs)
      ensures merged <==> Select(AtKey(b.key), s) != []
      ensures Holds(cs, MergeAt(s, b.key, b.versions))
    {
      merged := false;
      ghost var t := MergeAt(s, b.key, b.versions);
      for i := 0 to |cs|
        invariant CutUpTo(cs, i, t, s) && b.versions == old(b.versions)
        invariant merged <==> exists j :: 0 <= j < i && cs[j].key == b.key
      {
        MergeAtIndex(s, b.key, b.versions, i);
        assert cs[i] in cs;
        if cs[i].key == b.key {
          cs[i].Merge(b.versions, true);
          merged := true;
        }
      }
      SelectAtKey(cs, b.key, s);
    }

    static method OverwriteAll(cs: seq<Component>, bs: seq<Component>, ghost s: seq<Layer>, ghost t: seq<Layer>)
      returns (result: seq<Component>)
      requires Separate(cs) && Holds(cs, s) && Holds(bs, t) && Footprint(cs) !! Footprint(bs)
      modifies Footprint(cs)
      ensures Separate(result) && Holds(result, OverwriteEach(s, t))
      ensures forall c :: c in Footprint(result) ==> c in Footprint(cs) || fresh(c)
    {
      result := cs;
      for i := 0 to |bs|
        invariant Holds(bs, t)
        invariant Separate(result) && Holds(result, OverwriteEach(s, t[..i]))
        invariant forall c :: c in Footprint(result) ==> c in Footprint(cs) || fresh(c)
        invariant Footprint(result) !! Footprint(bs)
      {
        TakeNext(t, i);
        assert bs[i] in Footprint(bs);
        result := OverwriteWith(result, bs[i], OverwriteEach(s, t[..i]));
      }
      assert t[..|bs|] == t;
    }

    /** Lays `other` over this module, generic layers first, and drops redundant entries. */
    method Overwrite(other: VersionModule)
      requires Valid() && other.Valid() && other != this && Footprint(components) !! Footprint(other.components)
      modifies this, Footprint(components)
      ensures Valid() && View() == VersionLayers.Overwrite(old(View()), old(other.View()))
      ensures forall c :: c in Footprint(components) ==> c in old(Footprint(components)) || fresh(c)
    {
      ghost var s, t := View(), other.View();
      ViewsAt(components);
      ViewsAt(other.components);
      var merged := OverwriteAdjusted(components, other.components, s, t);
      ViewsAre(merged, VersionLayers.Overwrite(s, t));
      components := merged;
    }

    static method OverwriteAdjusted(cs: seq<Component>, bs: seq<Component>, ghost s: seq<Layer>, ghost t: seq<Layer>)
      returns (result: seq<Component>)
      requires Separate(cs) && Separate(bs) && Holds(cs, s) && Holds(bs, t) && Footprint(cs) !! Footprint(bs)
      modifies Footprint(cs)
      ensures Separate(result) && Holds(result, VersionLayers.Overwrite(s, t))
      ensures forall c :: c in Footprint(result) ==> c in Footprint(cs) || fresh(c)
    {
      var merged := OverwriteSorted(cs, bs, s, t);
      result := AdjustAll(merged, OverwriteEach(s, Sort(KeyLe, t)));
    }

    static method OverwriteSorted(cs: seq<Component>, bs: seq<Component>, ghost s: seq<Layer>, ghost t: seq<Layer>)
      returns (result: seq<Component>)
      requires Separate(cs) && Separate(bs) && Holds(cs, s) && Holds(bs, t) && Footprint(cs) !! Footprint(bs)
      modifies Footprint(cs)
      ensures Separate(result) && Holds(result, OverwriteEach(s, Sort(KeyLe, t)))
      ensures forall c :: c in Footprint(result) ==> c in Footprint(cs) || fresh(c)
    {
      var sorted := SortComponents(bs, t);
      assert Footprint(sorted) == Footprint(bs);
      result := OverwriteAll(cs, sorted, s, Sort(KeyLe, t));
    }

    /** The versions that a target gets from this module over the defaults, one component per type. */
    method GetConfigModule(defaults: VersionModule, dist: Part, arch: Part) returns (config: VersionModule)
      requires Valid() && defaults.Valid()
      ensures fresh(config) && config.Valid() && forall c :: c in Footprint(config.components) ==> fresh(c)
      ensures var m := VersionLayers.Overwrite(defaults.View(), View());
              config.View() == ConfigLayers(CTypes(m), m, dist, arch)
    {
      config := ConfigOf(defaults, dist, arch, defaults.View(), View());
    }

    method ConfigOf(defaults: VersionModule, dist: Part, arch: Part, ghost d: seq<Layer>, ghost s: seq<Layer>)
      returns (config: VersionModule)
      requires Valid() && defaults.Valid() && defaults.View() == d && View() == s
      ensures fresh(config) && config.Valid() && forall c :: c in Footprint(config.components) ==> fresh(c)
      ensures var m := VersionLayers.Overwrite(d, s); config.View() == ConfigLayers(CTypes(m), m, dist, arch)
    {
      var merged := CopyOverwritten(defaults, d, s);
      config := merged.Configured(dist, arch);
    }

    method CopyOverwritten(defaults: VersionModule, ghost d: seq<Layer>, ghost s: seq<Layer>)
      returns (merged: VersionModule)
      requires Valid() && defaults.Valid() && defaults.View() == d && View() == s
      ensures fresh(merged) && merged.Valid() && forall c :: c in Footprint(merged.components) ==> fresh(c)
      ensures merged.View() == VersionLayers.Overwrite(d, s)
    {
      merged := defaults.Clone();
      merged.Overwrite(this);
    }

    method Configured(dist: Part, arch: Part) returns (config: VersionModule)
      requires Valid()
      ensures fresh(config) && config.Valid() && forall c :: c in Footprint(config.components) ==> fresh(c)
      ensures config.View() == ConfigLayers(CTypes(View()), View(), dist, arch)
    {
      ViewsAt(components);
      var cs := ConfigComponents(components, View(), dist, arch);
      ViewsAre(cs, ConfigLayers(CTypes(View()), View(), dist, arch));
      config := new VersionModule(cs);
    }

    static method ConfigComponents(cs: seq<Component>, ghost s: seq<Layer>, dist: Part, arch: Part)
      returns (result: seq<Component>)
      requires Separate(cs) && Holds(cs, s)
      ensures Separate(result) && Holds(result, ConfigLayers(CTypes(s), s, dist, arch))
      ensures forall c :: c in Footprint(result) ==> fresh(c)
    {
      var types, groups := ComponentsPerType(cs, s);
      result := [];
      for n := 0 to |types|
        invariant Separate(result) && Holds(cs, s)
        invariant forall c :: c in Footprint(result) ==> fresh(c)
        invariant Holds(result, ConfigLayers(types[..n], s, dist, arch))
      {
        TakeNext(types, n);
        var c := ConfigForType(cs, groups[types[n]], s, types[n], dist, arch);
        FootprintSnoc(result, c);
        result := result + [c];
      }
      assert types[..|types|] == types;
    }

    static method ConfigForType(ghost cs: seq<Component>, group: seq<Component>, ghost s: seq<Layer>,
                                ctype: string, dist: Part, arch: Part)
      returns (result: Component)
      requires Separate(cs) && Holds(cs, s) && group == OfTypeIn(cs, ctype)
      ensures fresh(result)
      ensures var k := Key(ctype, dist, arch); result.View() == Layer(k, Resolve(s, k))
    {
      OfTypeMembers(cs, ctype);
      HoldsOfType(cs, s, ctype);
      var sorted := SortComponents(group, Select(OfType(ctype), s));
      result := MergeInheritable(Key(ctype, dist, arch), sorted, Sort(KeyLe, Select(OfType(ctype), s)));
    }

    /** What a list of components over the defaults resolves to at `k`, if anything has its type. */
    static method ConfigAt(cs: seq<Component>, ghost s: seq<Layer>, defaults: VersionModule, ghost d: seq<Layer>, k: Key)
      returns (found: bool, versions: Versions)
      requires Separate(cs) && Holds(cs, s) && defaults.Valid() && Holds(defaults.components, d)
      ensures versions == Config(d, s, k) && (!found ==> versions == map[])
    {
      var base := new VersionModule(cs);
      ViewsAre(base.components, s);
      ViewsAre(defaults.components, d);
      var config := base.ConfigOf(defaults, k.dist, k.arch, d, s);
      found, versions := FirstOfType(config.components, k.ctype, config.View());
      ConfigLayersOfType(VersionLayers.Overwrite(d, s), k);
    }

    static method FirstOfType(cs: seq<Component>, c: string, ghost s: seq<Layer>) returns (found: bool, versions: Versions)
      requires Views(cs) == s
      ensures var t := Select(OfType(c), s);
              (found <==> t != []) && versions == if t == [] then map[] else t[0].versions
    {
      ViewsOfType(cs, c);
      ViewsAt(OfTypeIn(cs, c));
      var ofType := OfTypeIn(cs, c);
      found, versions := false, map[];
      if |ofType| > 0 {
        found, versions := true, ofType[0].versions;
      }
    }

    static method SubtractOne(sorted: seq<Component>, i: nat, kept: seq<Component>, defaults: VersionModule,
                              ghost cut: seq<Layer>, ghost layers: seq<Layer>, ghost d: seq<Layer>)
      returns (result: seq<Component>)
      requires i < |sorted| && Progress(sorted, i, kept, cut, layers) && defaults.Valid() && Holds(defaults.components, d)
      requires cut == CutAgainst(layers, ConfigOver(d)) && sorted[i] !in Footprint(defaults.components)
      modifies sorted[i]
      ensures Holds(defaults.components, d)
      ensures Progress(sorted, i + 1, result, cut, layers)
    {
      CutAgainstAt(layers, i, ConfigOver(d));
      var found, versions := ConfigAt(sorted[..i], cut[..i], defaults, d, sorted[i].key);
      result := SubtractFound(sorted, i, kept, found, versions, cut, layers);
    }

    static method SubtractFound(sorted: seq<Component>, i: nat, kept: seq<Component>, found: bool, versions: Versions,
                                ghost cut: seq<Layer>, ghost layers: seq<Layer>)
      returns (result: seq<Component>)
      requires i < |sorted| && Progress(sorted, i, kept, cut, layers) && (!found ==> versions == map[])
      requires cut[i] == layers[i].(versions := Cut(layers[i].versions, versions))
      modifies sorted[i]
      ensures Progress(sorted, i + 1, result, cut, layers)
    {
      if found {
        sorted[i].Subtract(versions);
      }
      result := KeepNonEmpty(sorted, i, kept, cut, layers);
    }

    static method SubtractComponents(components: seq<Component>, defaults: VersionModule,
                                     ghost s: seq<Layer>, ghost d: seq<Layer>)
      returns (result: seq<Component>)
      requires Separate(components) && Holds(components, s) && defaults.Valid() && Holds(defaults.components, d)
      requires Footprint(components) !! Footprint(defaults.components)
      modifies Footprint(components)
      ensures Separate(result) && Footprint(result) <= Footprint(components)
      ensures Holds(result, CutGroup(s, ConfigOver(d)))
    {
      var sorted := SortComponents(components, s);
      assert Footprint(sorted) == Footprint(components);
      result := SubtractSorted(sorted, defaults, Sort(KeyLe, s), CutAgainst(Sort(KeyLe, s), ConfigOver(d)), d);
    }

    static method SubtractSorted(sorted: seq<Component>, defaults: VersionModule,
                                 ghost layers: seq<Layer>, ghost cut: seq<Layer>, ghost d: seq<Layer>)
      returns (result: seq<Component>)
      requires Separate(sorted) && Holds(sorted, layers) && defaults.Valid() && Holds(defaults.components, d)
      requires Footprint(sorted) !! Footprint(defaults.components) && cut == CutAgainst(layers, ConfigOver(d))
      modifies Footprint(sorted)
      ensures Separate(result) && Footprint(result) <= Footprint(sorted)
      ensures Holds(result, Select(HasEntries, cut))
    {
      result := [];
      for i := 0 to |sorted|
        invariant Progress(sorted, i, result, cut, layers) && Holds(defaults.components, d)
      {
        assert sorted[i] in Footprint(sorted);
        result := SubtractOne(sorted, i, result, defaults, cut, layers, d);
      }
      assert cut[..|sorted|] == cut;
    }

    static method SubtractGroups(types: seq<string>, groups: map<string, seq<Component>>, defaults: VersionModule,
                                 ghost fp: set<Component>, ghost s: seq<Layer>, ghost was: map<Component, Layer>,
                                 ghost d: seq<Layer>)
      returns (result: seq<Component>)
      requires Distinct(types) && forall c :: c in types ==> c in groups && GroupOf(groups[c], c, fp, s, was)
      requires forall x :: x in fp ==> x in was && x.View() == was[x]
      requires defaults.Valid() && Holds(defaults.components, d) && fp !! Footprint(defaults.components)
      modifies fp
      ensures Separate(result) && Footprint(result) <= fp && Holds(result, CutTypes(types, s, ConfigOver(d)))
    {
      result := [];
      for n := 0 to |types|
        invariant GroupProgress(types, n, fp, s, was, result, ConfigOver(d)) && Holds(defaults.components, d)
      {
        assert types[n] in types;
        result := SubtractGroup(types, n, groups[types[n]], defaults, fp, s, was, result, d);
      }
      assert types[..|types|] == types;
    }

    static method SubtractGroup(types: seq<string>, n: nat, group: seq<Component>, defaults: VersionModule,
                                ghost fp: set<Component>, ghost s: seq<Layer>, ghost was: map<Component, Layer>,
                                done: seq<Component>, ghost d: seq<Layer>)
      returns (result: seq<Component>)
      requires Distinct(types) && n < |types| && GroupOf(group, types[n], fp, s, was)
      requires GroupProgress(types, n, fp, s, was, done, ConfigOver(d))
      requires defaults.Valid() && Holds(defaults.components, d) && fp !! Footprint(defaults.components)
      modifies Footprint(group)
      ensures GroupProgress(types, n + 1, fp, s, was, result, ConfigOver(d))
    {
      var ctype := types[n];
      assert ctype !in types[..n];
      GroupHolds(group, ctype, fp, s, was);
      GroupTypes(group, ctype, fp, s, was);
      assert Footprint(done) !! Footprint(group);
      var cut := SubtractComponents(group, defaults, Select(OfType(ctype), s), d);
      result := JoinGroup(types, n, group, fp, s, was, done, cut, ConfigOver(d));
    }

    /** Stores this module as its difference to the defaults; the components it held are not changed. */
    method Subtract(defaults: VersionModule)
      requires Valid() && defaults.Valid()
      modifies this
      ensures Valid() && View() == VersionLayers.Subtract(old(View()), old(defaults.View()))
      ensures forall c :: c in Footprint(components) ==> fresh(c)
    {
      ghost var s, d := View(), defaults.View();
      ViewsAt(components);
      ViewsAt(defaults.components);
      var result := SubtractCopies(components, defaults, s, d);
      ViewsAre(result, VersionLayers.Subtract(s, d));
      components := result;
    }

    static method SubtractCopies(cs: seq<Component>, defaults: VersionModule, ghost s: seq<Layer>, ghost d: seq<Layer>)
      returns (result: seq<Component>)
      requires Separate(cs) && Holds(cs, s) && defaults.Valid() && Holds(defaults.components, d)
      ensures Separate(result) && Holds(result, VersionLayers.Subtract(s, d))
      ensures forall c :: c in Footprint(result) ==> fresh(c)
    {
      var copies := CloneAll(cs, s);
      assert Footprint(copies) !! Footprint(defaults.components);
      var types, groups := ComponentsPerType(copies, s);
      CTypesDistinct(s);
      GroupsSnapped(copies, s, types, groups);
      result := SubtractGroups(types, groups, defaults, Footprint(copies), s, Snapshot(copies), d);
    }
  }

  ghost predicate Holds(cs: seq<Component>, s: seq<Layer>)
    reads cs
  {
    |cs| == |s| && forall i :: 0 <= i < |cs| ==> cs[i].View() == s[i]
  }

  /** `kept` holds the non-empty ones of the first `i` cut layers, in components of `sorted`. */
  ghost predicate Kept(sorted: seq<Component>, i: nat, kept: seq<Component>, cut: seq<Layer>)
    requires i <= |cut|
    reads kept
  {
    && Separate(sorted) && Separate(kept) && Footprint(kept) <= Footprint(sorted)
    && (forall j :: i <= j < |sorted| ==> sorted[j] !in kept)
    && Holds(kept, Select(HasEntries, cut[..i]))
  }

  /** How far cutting a sorted list has come. */
  ghost predicate Progress(sorted: seq<Component>, i: nat, kept: seq<Component>, cut: seq<Layer>, layers: seq<Layer>)
    reads sorted, kept
  {
    i <= |sorted| && CutUpTo(sorted, i, cut, layers) && Kept(sorted, i, kept, cut)
  }

  /** The first `i` components are cut, the others as they were. */
  ghost predicate CutUpTo(sorted: seq<Component>, i: nat, cut: seq<Layer>, layers: seq<Layer>)
    reads sorted
  {
    && |sorted| == |cut| == |layers|
    && forall j :: 0 <= j < |sorted| ==> sorted[j].View() == if j < i then cut[j] else layers[j]
  }

  /** What each component of a list holds now. */
  ghost function Snapshot(cs: seq<Component>): map<Component, Layer>
    reads cs
  {
    map c | c in cs :: c.View()
  }

  /** `group` lists the components of `fp` with type `c`, which held the layers of that type in `s`. */
  ghost predicate GroupOf(group: seq<Component>, c: string, fp: set<Component>, s: seq<Layer>,
                          was: map<Component, Layer>) {
    var t := Select(OfType(c), s);
    && Separate(group) && |group| == |t| && Footprint(group) <= fp
    && forall i :: 0 <= i < |group| ==> group[i].key.ctype == c && group[i] in was && was[group[i]] == t[i]
  }

  lemma SeparateConcat(a: seq<Component>, b: seq<Component>)
    requires Separate(a) && Separate(b) && Footprint(a) !! Footprint(b)
    ensures Separate(a + b) && Footprint(a + b) == Footprint(a) + Footprint(b)
  {
    assert forall i :: 0 <= i < |a| ==> a[i] in Footprint(a);
    assert forall i :: 0 <= i < |b| ==> b[i] in Footprint(b);
  }

  lemma {:induction false} GroupSnapped(cs: seq<Component>, s: seq<Layer>, c: string)
    requires Separate(cs) && Holds(cs, s)
    ensures GroupOf(OfTypeIn(cs, c), c, Footprint(cs), s, Snapshot(cs))
  {
    OfTypeMembers(cs, c);
    HoldsOfType(cs, s, c);
    var group := OfTypeIn(cs, c);
    assert forall i :: 0 <= i < |group| ==> group[i] in Footprint(group);
  }

  lemma {:induction false} GroupsSnapped(cs: seq<Component>, s: seq<Layer>, types: seq<string>, groups: map<string, seq<Component>>)
    requires Separate(cs) && Holds(cs, s)
    requires forall c :: c in types ==> c in groups && groups[c] == OfTypeIn(cs, c)
    ensures forall c :: c in types ==> GroupOf(groups[c], c, Footprint(cs), s, Snapshot(cs))
  {
    forall c | c in types ensures GroupOf(groups[c], c, Footprint(cs), s, Snapshot(cs)) { GroupSnapped(cs, s, c); }
  }

  /** How far cutting the groups has come: `result` holds the cut layers of the first `n` types. */
  ghost predicate GroupProgress(types: seq<string>, n: nat, fp: set<Component>, s: seq<Layer>,
                                was: map<Component, Layer>, result: seq<Component>, source: Source)
    reads fp, result
  {
    && n <= |types|
    && (forall x :: x in fp && x.key.ctype !in types[..n] ==> x in was && x.View() == was[x])
    && Separate(result) && Footprint(result) <= fp && Holds(result, CutTypes(types[..n], s, source))
    && forall x :: x in Footprint(result) ==> x.key.ctype in types[..n]
  }

  lemma {:induction false} CutTypesNext(types: seq<string>, n: nat, s: seq<Layer>, source: Source)
    requires n < |types|
    ensures CutTypes(types[..n + 1], s, source) ==
            CutTypes(types[..n], s, source) + CutGroup(Select(OfType(types[n]), s), source)
  {
    assert types[..n + 1][..n] == types[..n];
  }

  lemma {:induction false} TypesJoined(types: seq<string>, n: nat, group: seq<Component>, done: seq<Component>, cut: seq<Component>)
    requires n < |types| && Footprint(cut) <= Footprint(group)
    requires forall x :: x in Footprint(done) ==> x.key.ctype in types[..n]
    requires forall x :: x in Footprint(group) ==> x.key.ctype == types[n]
    ensures forall x :: x in Footprint(done + cut) ==> x.key.ctype in types[..n + 1]
  {
    TakeNext(types, n);
    forall x | x in Footprint(done + cut) ensures x.key.ctype in types[..n + 1] {
      assert x in Footprint(done) || x in Footprint(cut);
    }
  }

  lemma {:induction false} GroupHolds(group: seq<Component>, c: string, fp: set<Component>, s: seq<Layer>, was: map<Component, Layer>)
    requires GroupOf(group, c, fp, s, was)
    requires forall x :: x in fp && x.key.ctype == c ==> x in was && x.View() == was[x]
    ensures Holds(group, Select(OfType(c), s))
  {
    forall i | 0 <= i < |group| ensures group[i].View() == Select(OfType(c), s)[i] {
      assert group[i] in Footprint(group);
    }
  }

  lemma GroupTypes(group: seq<Component>, c: string, fp: set<Component>, s: seq<Layer>, was: map<Component, Layer>)
    requires GroupOf(group, c, fp, s, was)
    ensures forall x :: x in Footprint(group) ==> x.key.ctype == c
  {
    forall x | x in Footprint(group) ensures x.key.ctype == c {
      var i :| 0 <= i < |group| && group[i] == x;
    }
  }

  lemma {:induction false} ConfigLayersSelect(types: seq<string>, s: seq<Layer>, k: Key)
    requires Distinct(types)
    ensures Select(OfType(k.ctype), ConfigLayers(types, s, k.dist, k.arch)) ==
            if k.ctype in types then [Layer(k, Resolve(s, k))] else []
  {
    if types != [] {
      var init, last := types[..|types| - 1], types[|types| - 1];
      ConfigLayersSelect(init, s, k);
      var q := Key(last, k.dist, k.arch);
      SelectSnoc(OfType(k.ctype), ConfigLayers(init, s, k.dist, k.arch), Layer(q, Resolve(s, q)));
    }
  }

  /** A configuration has one layer for each type that still has entries. */
  lemma {:induction false} ConfigLayersOfType(s: seq<Layer>, k: Key)
    ensures var t := Select(OfType(k.ctype), ConfigLayers(CTypes(s), s, k.dist, k.arch));
            t == [Layer(k, Resolve(s, k))] || (t == [] && Resolve(s, k) == map[])
  {
    CTypesDistinct(s);
    ConfigLayersSelect(CTypes(s), s, k);
    CTypesMissing(s, k.ctype);
    if k.ctype !in CTypes(s) { SelectNone(OfType(k.ctype), s); }
  }

  lemma {:induction false} ViewsAre(cs: seq<Component>, s: seq<Layer>)
    requires Holds(cs, s)
    ensures Views(cs) == s
  {
    ViewsAt(cs);
  }

  lemma {:induction false} HoldsSort(cs: seq<Component>, s: seq<Layer>)
    requires Holds(cs, s)
    ensures Holds(Sort(ByKey, cs), Sort(KeyLe, s))
  {
    ViewsAre(cs, s);
    ViewsSort(cs);
    ViewsAt(Sort(ByKey, cs));
  }

  lemma {:induction false} HoldsOfType(cs: seq<Component>, s: seq<Layer>, c: string)
    requires Holds(cs, s)
    ensures Holds(OfTypeIn(cs, c), Select(OfType(c), s))
  {
    ViewsAre(cs, s);
    ViewsOfType(cs, c);
    ViewsAt(OfTypeIn(cs, c));
  }

  lemma HoldsConcat(a: seq<Component>, s: seq<Layer>, b: seq<Component>, t: seq<Layer>)
    requires Holds(a, s) && Holds(b, t)
    ensures Holds(a + b, s + t)
  {
  }

  /** Each cut layer depends on the cut layers in front of it. */
  lemma {:induction false} CutAgainstAt(s: seq<Layer>, i: nat, source: Source)
    requires i < |s|
    ensures CutAgainst(s, source)[i]
            == s[i].(versions := Cut(s[i].versions, source(CutAgainst(s, source)[..i], s[i].key)))
  {
    var init := s[..|s| - 1];
    var r := CutAgainst(init, source);
    if i < |s| - 1 {
      CutAgainstAt(init, i, source);
      assert CutAgainst(s, source)[..i] == r[..i];
    } else {
      assert CutAgainst(s, source)[..i] == r;
    }
  }

  lemma {:induction false} SelectAtKey(cs: seq<Component>, k: Key, s: seq<Layer>)
    requires |cs| == |s| && forall j :: 0 <= j < |cs| ==> cs[j].key == s[j].key
    ensures Select(AtKey(k), s) != [] <==> exists j :: 0 <= j < |cs| && cs[j].key == k
  {
    SelectMembers(AtKey(k), s);
    if Select(AtKey(k), s) != [] { assert Select(AtKey(k), s)[0] in s; }
    if j :| 0 <= j < |cs| && cs[j].key == k { assert s[j] in Select(AtKey(k), s); }
  }

  lemma {:induction false} UnmergedSame(s: seq<Layer>, k: Key, m: Versions)
    requires Select(AtKey(k), s) == []
    ensures MergeAt(s, k, m) == s
  {
    SelectMembers(AtKey(k), s);
    forall i | 0 <= i < |s| ensures MergeAt(s, k, m)[i] == s[i] {
      assert s[i] in s;
      MergeAtIndex(s, k, m, i);
    }
  }

  lemma {:induction false} OverlaySnoc(s: seq<Layer>, x: Layer)
    ensures Overlay(s + [x]) == Overlay(s) + x.versions
  {
    assert (s + [x])[..|s|] == s;
  }
}
