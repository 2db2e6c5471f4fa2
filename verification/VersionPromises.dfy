/** Loading with a filter, overwriting, and adjusting again: what a build may rely on. */
module VersionPromises {
  import opened Sequences
  import opened StableSort
  import opened VersionLayers
  import opened VersionLaws
  import opened VersionAdjust
  import opened VersionTheorems
  import opened VersionDelta

  /** A package pinned for all, pinned otherwise for the architecture and back for the distribution. */
  function ThreePins(k: Key, p: string, v: string, w: string): seq<Layer> {
    [Layer(Generic(k), map[p := v]), Layer(ForArch(k), map[p := w]), Layer(ForDist(k), map[p := v])]
  }

  lemma ThreePinsRevert(k: Key, p: string, v: string, w: string)
    requires k != ForArch(k) && k != ForDist(k) && v != w
    ensures var s := ThreePins(k, p, v, w);
            Reverts(s, k, p) && Pinned(s, Generic(k)) == map[p := v] && Pinned(s, ForArch(k)) == map[p := w]
  {
    var s := ThreePins(k, p, v, w);
    DistinctPinned(s, s[0]);
    DistinctPinned(s, s[1]);
    DistinctPinned(s, s[2]);
    PinnedMissing(s, k);
    DistinctRepeats(s, ForDist(k), p, Pinned(s, Generic(k)));
  }

  /** Without the chain condition adjusting changes answers, at every target that names both a
      distribution and an architecture: `v` before adjusting, `w` after. */
  lemma RevertWitness(k: Key, p: string, v: string, w: string)
    requires k != ForArch(k) && k != ForDist(k) && v != w
    ensures var s := ThreePins(k, p, v, w);
            && p in Resolve(s, k) && Resolve(s, k)[p] == v
            && p in Resolve(Adjust(s), k) && Resolve(Adjust(s), k)[p] == w
  {
    ThreePinsRevert(k, p, v, w);
    RevertLost(ThreePins(k, p, v, w), k, p);
  }

  /** After overwriting, every entry of the overwriting module is what its own key resolves to. */
  lemma OverwriteTakesEffect(s: seq<Layer>, m: seq<Layer>, b: Layer, p: string)
    requires DistinctKeys(m) && b in m && p in b.versions
    ensures p in Config(s, m, b.key) && Config(s, m, b.key)[p] == b.versions[p]
  {
    var t := OverwriteEach(s, Sort(KeyLe, m));
    MergedPinned(s, m, b.key);
    PinnedConcat(s, m, b.key);
    DistinctPinned(m, b);
    AdjustLookup(t, b.key, p);
    ResolveLevels(t, b.key);
  }

  // ----- adjusting twice -----

  lemma {:induction false} InheritedHasEntries(s: seq<Layer>, k: Key)
    ensures Inherited(Select(HasEntries, s), k) == Inherited(s, k)
  {
    SelectCommutes(HasEntries, AppliesAt(k), s);
    OverlayHasEntries(Select(AppliesAt(k), s));
  }

  lemma CutTwice(m: Versions, base: Versions)
    ensures Cut(Cut(m, base), base) == Cut(m, base)
  {
  }

  lemma CutChainAppend(s: seq<Layer>, y: Layer)
    ensures CutChain(s + [y]) == CutChain(s) + [y.(versions := Cut(y.versions, Inherited(CutChain(s), y.key)))]
  {
    assert (s + [y])[..|s|] == s;
  }

  lemma {:induction false} CutChainTwice(s: seq<Layer>)
    ensures CutChain(Select(HasEntries, CutChain(s))) == Select(HasEntries, CutChain(s))
  {
    if s != [] {
      var init, x := s[..|s| - 1], s[|s| - 1];
      var r := CutChain(init);
      var y := x.(versions := Cut(x.versions, Inherited(r, x.key)));
      CutChainTwice(init);
      SelectSnoc(HasEntries, r, y);
      CutChainAppend(Select(HasEntries, r), y);
      InheritedHasEntries(r, x.key);
      CutTwice(x.versions, Inherited(r, x.key));
    }
  }

  lemma GroupTwice(s: seq<Layer>)
    ensures CutGroup(CutGroup(s, Inherited), Inherited) == CutGroup(s, Inherited)
  {
    var t := CutChain(Sort(KeyLe, s));
    SortIsSorted(s);
    CutChainSorted(Sort(KeyLe, s));
    SortOfSorted(KeyLe, t);
    SelectSort(HasEntries, t);
    CutChainTwice(Sort(KeyLe, s));
    SelectMembers(HasEntries, t);
    SelectEvery(HasEntries, Select(HasEntries, t));
  }

  lemma {:induction false} CTypesAppend(s: seq<Layer>, g: seq<Layer>, c: string)
    requires g != [] && (forall l :: l in g ==> l.key.ctype == c) && c !in CTypes(s)
    ensures CTypes(s + g) == CTypes(s) + [c]
  {
    var init, x := g[..|g| - 1], g[|g| - 1];
    assert (s + g)[..|s + g| - 1] == s + init;
    assert x in g;
    if init == [] { assert s + init == s; } else { CTypesAppend(s, init, c); }
  }

  lemma {:induction false} RegroupGroups(types: seq<string>, s: seq<Layer>, all: seq<Layer>)
    requires Distinct(types)
    requires forall c :: c in types ==> Select(OfType(c), all) == CutGroup(Select(OfType(c), s), Inherited)
    ensures CutTypes(CTypes(CutTypes(types, s, Inherited)), all, Inherited) == CutTypes(types, s, Inherited)
  {
    if types != [] {
      var init, c := types[..|types| - 1], types[|types| - 1];
      RegroupGroups(init, s, all);
      var x, g := CutTypes(init, s, Inherited), CutGroup(Select(OfType(c), s), Inherited);
      assert c in types;
      if g == [] {
        assert x + g == x;
      } else {
        CutTypesOfType(init, s, Inherited, c);
        SelectMembers(OfType(c), x);
        CTypesMissing(x, c);
        SelectMembers(OfType(c), s);
        GroupType(Select(OfType(c), s), Inherited, c);
        CTypesAppend(x, g, c);
        GroupTwice(Select(OfType(c), s));
      }
    }
  }

  /** Adjusting an adjusted module changes nothing. */
  lemma AdjustIdempotent(s: seq<Layer>)
    ensures Adjust(Adjust(s)) == Adjust(s)
  {
    CTypesDistinct(s);
    forall c | c in CTypes(s) ensures Select(OfType(c), Adjust(s)) == CutGroup(Select(OfType(c), s), Inherited) {
      CutOfType(s, Inherited, c);
    }
    RegroupGroups(CTypes(s), s, Adjust(s));
  }

  // ----- loading with a filter -----

  lemma {:induction false} LoadedCut(f: Choice, s: seq<Layer>)
    requires f.Loaded?
    ensures CutChain(Select(f, s)) == Select(f, CutChain(s))
  {
    if s != [] {
      var init, x := s[..|s| - 1], s[|s| - 1];
      var r := CutChain(init);
      var y := x.(versions := Cut(x.versions, Inherited(r, x.key)));
      LoadedCut(f, init);
      SelectSnoc(f, r, y);
      if Picks(f, x) {
        CutChainAppend(Select(f, init), x);
        SelectNarrower(f, AppliesAt(x.key), r);
      }
    }
  }

  lemma {:induction false} LoadedMerge(f: Choice, s: seq<Layer>, k: Key, m: Versions)
    requires f.Loaded?
    ensures Select(f, MergeAt(s, k, m)) == MergeAt(Select(f, s), k, m)
  {
    if s != [] {
      var init, l := s[..|s| - 1], s[|s| - 1];
      LoadedMerge(f, init, k, m);
      SelectSnoc(f, MergeAt(init, k, m), if l.key == k then l.(versions := l.versions + m) else l);
      MergeAtSnoc(Select(f, init), l, k, m);
    }
  }

  lemma {:induction false} MergeAtSnoc(s: seq<Layer>, l: Layer, k: Key, m: Versions)
    ensures MergeAt(s + [l], k, m) == MergeAt(s, k, m) + [if l.key == k then l.(versions := l.versions + m) else l]
  {
    assert (s + [l])[..|s|] == s;
  }

  /** Merging versions into layers that the filter drops is invisible behind the filter. */
  lemma {:induction false} UnloadedMerge(f: Choice, s: seq<Layer>, k: Key, m: Versions)
    requires f.Loaded? && !Picks(f, Layer(k, m))
    ensures Select(f, MergeAt(s, k, m)) == Select(f, s)
  {
    if s != [] {
      var init, l := s[..|s| - 1], s[|s| - 1];
      UnloadedMerge(f, init, k, m);
      SelectSnoc(f, MergeAt(init, k, m), if l.key == k then l.(versions := l.versions + m) else l);
    }
  }

  lemma {:induction false} LoadedOverwriteOne(f: Choice, s: seq<Layer>, b: Layer)
    requires f.Loaded?
    ensures Select(f, OverwriteOne(s, b)) == if Picks(f, b) then OverwriteOne(Select(f, s), b) else Select(f, s)
  {
    if Picks(f, b) { SelectNarrower(f, AtKey(b.key), s); LoadedMerge(f, s, b.key, b.versions); }
    else { UnloadedMerge(f, s, b.key, b.versions); }
    SelectSnoc(f, s, b);
  }

  lemma {:induction false} LoadedOverwrite(f: Choice, s: seq<Layer>, bs: seq<Layer>)
    requires f.Loaded?
    ensures Select(f, OverwriteEach(s, bs)) == OverwriteEach(Select(f, s), Select(f, bs))
  {
    if bs != [] {
      var init, b := bs[..|bs| - 1], bs[|bs| - 1];
      LoadedOverwrite(f, s, init);
      LoadedOverwriteOne(f, OverwriteEach(s, init), b);
      if Picks(f, b) { assert (Select(f, init) + [b])[..|Select(f, init)|] == Select(f, init); }
    }
  }

  lemma {:induction false} LoadedAdjust(f: Choice, s: seq<Layer>, c: string)
    requires f.Loaded?
    ensures Select(OfType(c), Adjust(Select(f, s))) == Select(f, Select(OfType(c), Adjust(s)))
  {
    CutOfType(s, Inherited, c);
    CutOfType(Select(f, s), Inherited, c);
    SelectCommutes(f, OfType(c), s);
    var t := Select(OfType(c), s);
    SelectSort(f, t);
    LoadedCut(f, Sort(KeyLe, t));
    SelectCommutes(f, HasEntries, CutChain(Sort(KeyLe, t)));
  }

  lemma {:induction false} LoadedResolve(f: Choice, s: seq<Layer>, k: Key)
    requires f.Loaded? && forall l: Layer :: Inherits(k, l.key) ==> Picks(f, l)
    ensures Resolve(Adjust(Select(f, s)), k) == Resolve(Adjust(s), k)
  {
    LoadedAdjust(f, s, k.ctype);
    var t := Select(OfType(k.ctype), Adjust(s));
    SelectSort(f, t);
    SelectNarrower(f, AppliesAt(k), Sort(KeyLe, t));
  }

  /** Resolving from the layers that a load for the target keeps is resolving from all layers. */
  lemma {:induction false} FilterTransparent(defaults: seq<Layer>, s: seq<Layer>, k: Key, dist: string, arch: string)
    requires dist in {"", k.dist} && arch in {"", k.arch}
    ensures Config(Select(Loaded(dist, arch), defaults), Select(Loaded(dist, arch), s), k) == Config(defaults, s, k)
  {
    var f := Loaded(dist, arch);
    SelectSort(f, s);
    LoadedOverwrite(f, defaults, Sort(KeyLe, s));
    LoadedResolve(f, OverwriteEach(defaults, Sort(KeyLe, s)), k);
  }
}
