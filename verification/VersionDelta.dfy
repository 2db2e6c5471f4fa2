/** Storing a module as its difference to the defaults, and rebuilding it. */
module VersionDelta {
  import opened StableSort
  import opened VersionLayers
  import opened VersionLaws
  import opened VersionAdjust
  import opened VersionTheorems

  lemma PinnedConcat(a: seq<Layer>, b: seq<Layer>, k: Key)
    ensures Pinned(a + b, k) == Pinned(a, k) + Pinned(b, k)
  {
    SelectConcat(AtKey(k), a, b);
    OverlayConcat(Select(AtKey(k), a), Select(AtKey(k), b));
  }

  lemma {:induction false} OverlayConcat(a: seq<Layer>, b: seq<Layer>)
    ensures Overlay(a + b) == Overlay(a) + Overlay(b)
  {
    if b == [] {
      assert a + b == a;
    } else {
      OverlayConcat(a, b[..|b| - 1]);
      assert (a + b)[..|a + b| - 1] == a + b[..|b| - 1];
      AddAssociative(Overlay(a), Overlay(b[..|b| - 1]), b[|b| - 1].versions);
    }
  }

  // ----- overwriting lays one list over the other, key by key -----

  lemma {:induction false} MergeAtPinned(s: seq<Layer>, k: Key, m: Versions, q: Key)
    ensures q != k ==> Pinned(MergeAt(s, k, m), q) == Pinned(s, q)
    ensures Select(AtKey(k), s) != [] ==> Pinned(MergeAt(s, k, m), k) == Pinned(s, k) + m
  {
    if s != [] {
      var init, l := s[..|s| - 1], s[|s| - 1];
      assert s == init + [l];
      MergeAtPinned(init, k, m, q);
      var y := if l.key == k then l.(versions := l.versions + m) else l;
      PinnedSnoc(init, l, q); PinnedSnoc(MergeAt(init, k, m), y, q);
      PinnedSnoc(init, l, k); PinnedSnoc(MergeAt(init, k, m), y, k);
      if l.key == k {
        if Select(AtKey(k), init) == [] {
          SelectMembers(AtKey(k), init);
          PinnedNone(init, k); PinnedNone(MergeAt(init, k, m), k);
          AddEmpty(l.versions + m); AddEmpty(l.versions);
        } else {
          AddTwice(Pinned(init, k), l.versions, m);
        }
      }
    }
  }

  lemma AddTwice(a: Versions, b: Versions, m: Versions)
    ensures (a + m) + (b + m) == a + b + m
  {
  }

  lemma OverwriteOnePinned(s: seq<Layer>, b: Layer, q: Key)
    ensures Pinned(OverwriteOne(s, b), q) == if b.key == q then Pinned(s, q) + b.versions else Pinned(s, q)
  {
    if Select(AtKey(b.key), s) != [] {
      MergeAtPinned(s, b.key, b.versions, q);
    } else {
      PinnedSnoc(s, b, q);
    }
  }

  lemma {:induction false} OverwriteEachPinned(s: seq<Layer>, bs: seq<Layer>, q: Key)
    ensures Pinned(OverwriteEach(s, bs), q) == Pinned(s, q) + Pinned(bs, q)
  {
    if bs == [] {
      AddEmpty(Pinned(s, q));
    } else {
      var init, b := bs[..|bs| - 1], bs[|bs| - 1];
      assert bs == init + [b];
      OverwriteEachPinned(s, init, q);
      OverwriteOnePinned(OverwriteEach(s, init), b, q);
      PinnedSnoc(init, b, q);
      AddAssociative(Pinned(s, q), Pinned(init, q), b.versions);
    }
  }

  lemma {:induction false} OverwriteEachKeys(s: seq<Layer>, bs: seq<Layer>)
    ensures KeySet(OverwriteEach(s, bs)) <= KeySet(s) + KeySet(bs)
  {
    if bs != [] {
      var init, b := bs[..|bs| - 1], bs[|bs| - 1];
      OverwriteEachKeys(s, init);
      assert b in bs;
      assert forall l :: l in init ==> l in bs;
      var t := OverwriteEach(s, init);
      forall l | l in OverwriteOne(t, b) ensures l.key in KeySet(t) || l.key == b.key {
        if Select(AtKey(b.key), t) != [] {
          var i :| 0 <= i < |t| && MergeAt(t, b.key, b.versions)[i] == l;
          assert t[i] in t;
        }
      }
    }
  }

  lemma KeySetConcat(a: seq<Layer>, b: seq<Layer>)
    ensures KeySet(a + b) == KeySet(a) + KeySet(b)
  {
    assert forall l :: l in a + b <==> l in a || l in b;
  }

  lemma {:induction false} KeySetSort(s: seq<Layer>)
    ensures KeySet(Sort(KeyLe, s)) == KeySet(s)
  {
    SortIsSorted(s);
    assert forall l :: l in Sort(KeyLe, s) <==> l in multiset(Sort(KeyLe, s));
    assert forall l :: l in s <==> l in multiset(s);
  }

  /** A merged list is a chain at `k` when the two lists together are. */
  lemma {:induction false} OverwriteChain(s: seq<Layer>, m: seq<Layer>, k: Key)
    requires Chain(s + m, k)
    ensures Chain(OverwriteEach(s, Sort(KeyLe, m)), k)
  {
    KeySetConcat(s, m);
    KeySetSort(m);
    OverwriteEachKeys(s, Sort(KeyLe, m));
  }

  lemma {:induction false} MergedPinned(s: seq<Layer>, m: seq<Layer>, k: Key)
    ensures Pinned(OverwriteEach(s, Sort(KeyLe, m)), k) == Pinned(s + m, k)
  {
    OverwriteEachPinned(s, Sort(KeyLe, m), k);
    PinnedSort(m, k);
    PinnedConcat(s, m, k);
  }

  // ----- the versions that survive adjusting -----

  /** What a target gets once redundant entries are dropped: a pin for the distribution counts only
      where it changes what the generic level says. */
  function Effective(s: seq<Layer>, k: Key): Versions
    decreases (if k.dist == ALL then 0 else 1) + (if k.arch == ALL then 0 else 1)
  {
    Base(s, k) + Pinned(s, k)
  }

  function Base(s: seq<Layer>, k: Key): Versions
    decreases (if k.dist == ALL then 0 else 1) + (if k.arch == ALL then 0 else 1), 0
  {
    if k == Generic(k) then map[]
    else if k == ForArch(k) || k == ForDist(k) then Effective(s, Generic(k))
    else Effective(s, ForArch(k)) + Cut(Effective(s, ForDist(k)), Effective(s, Generic(k)))
  }

  predicate DistinctKeys(s: seq<Layer>) {
    forall i, j :: 0 <= i < j < |s| ==> s[i].key != s[j].key
  }

  lemma {:induction false} LevelsGeneric(s: seq<Layer>, k: Key)
    requires k == Generic(k)
    ensures Levels(s, k) == Pinned(s, k) == Effective(s, k)
  {
    AddEmpty(map[]);
    AddEmpty(Pinned(s, k));
  }

  lemma {:induction false} LevelsOneUp(s: seq<Layer>, k: Key)
    requires k == ForArch(k) || k == ForDist(k)
    ensures Levels(s, k) == Effective(s, k)
  {
    if k == Generic(k) {
      LevelsGeneric(s, k);
    } else {
      BelowIsGeneric(s, k);
      LevelsGeneric(s, Generic(k));
    }
  }

  lemma CutSum(g: Versions, e: Versions)
    ensures Cut(g + e, g) == Cut(e, g)
  {
  }

  /** A fully specific target in terms of its levels. */
  lemma {:induction false} EffectiveProper(s: seq<Layer>, k: Key)
    requires k != ForArch(k) && k != ForDist(k)
    ensures Effective(s, k) == Pinned(s, Generic(k)) + Pinned(s, ForArch(k))
                               + Cut(Pinned(s, ForDist(k)), Pinned(s, Generic(k))) + Pinned(s, k)
  {
    var g, a, d := Generic(k), ForArch(k), ForDist(k);
    LevelsGeneric(s, g);
    CutSum(Pinned(s, g), Pinned(s, d));
    assert Effective(s, a) == Pinned(s, g) + Pinned(s, a);
    assert Effective(s, d) == Pinned(s, g) + Pinned(s, d);
  }

  lemma {:induction false} ChainEffective(s: seq<Layer>, k: Key)
    requires Chain(s, k)
    ensures Levels(s, k) == Effective(s, k)
  {
    if k == ForArch(k) || k == ForDist(k) {
      LevelsOneUp(s, k);
    } else {
      var g, a, d := Pinned(s, Generic(k)), Pinned(s, ForArch(k)), Pinned(s, ForDist(k));
      EffectiveProper(s, k);
      if ForArch(k) !in KeySet(s) { PinnedMissing(s, ForArch(k)); } else { PinnedMissing(s, ForDist(k)); }
      AddEmpty(g); AddEmpty(g + a);
      CutOver(d, g);
      assert Cut(map[], g) == map[];
    }
  }

  lemma {:induction false} DistinctPinned(s: seq<Layer>, l: Layer)
    requires DistinctKeys(s) && l in s
    ensures Pinned(s, l.key) == l.versions
  {
    var init, x := s[..|s| - 1], s[|s| - 1];
    assert s == init + [x];
    PinnedSnoc(init, x, l.key);
    if l == x {
      PinnedNone(init, l.key);
      AddEmpty(l.versions);
    } else {
      DistinctPinned(init, l);
      var i :| 0 <= i < |init| && init[i] == l;
    }
  }

  lemma DistinctRepeats(s: seq<Layer>, k: Key, p: string, base: Versions)
    requires DistinctKeys(s)
    ensures OnlyRepeats(s, k, p, base) <==>
            (p in Pinned(s, k) ==> p in base && base[p] == Pinned(s, k)[p])
  {
    if k in KeySet(s) {
      var l :| l in s && l.key == k;
      DistinctPinned(s, l);
      forall m | m in s && m.key == k ensures m.versions == l.versions { DistinctPinned(s, m); }
    } else {
      PinnedMissing(s, k);
    }
  }

  lemma {:induction false} EffectiveLookup(s: seq<Layer>, k: Key, p: string)
    requires k != ForArch(k) && k != ForDist(k) && DistinctKeys(s)
    ensures SameAt(Resolve(Adjust(s), k), Effective(s, k), p)
  {
    ResolveLevels(s, k);
    EffectiveProper(s, k);
    AdjustLookup(s, k, p);
    DistinctRepeats(s, ForDist(k), p, Pinned(s, Generic(k)));
    if Reverts(s, k, p) { RevertLost(s, k, p); }
  }

  /** Adjusting leaves exactly the effective versions. */
  lemma {:induction false} AdjustEffective(s: seq<Layer>, k: Key)
    requires Chain(s, k) || DistinctKeys(s)
    ensures Resolve(Adjust(s), k) == Effective(s, k)
  {
    if Chain(s, k) {
      AdjustPreservesChain(s, k);
      ResolveLevels(s, k);
      ChainEffective(s, k);
    } else {
      forall p ensures SameAt(Resolve(Adjust(s), k), Effective(s, k), p) { EffectiveLookup(s, k, p); }
      SameEverywhere(Resolve(Adjust(s), k), Effective(s, k));
    }
  }

  lemma {:induction false} OverwriteEachDistinct(s: seq<Layer>, bs: seq<Layer>)
    requires DistinctKeys(s)
    ensures DistinctKeys(OverwriteEach(s, bs))
  {
    if bs != [] {
      var t, b := OverwriteEach(s, bs[..|bs| - 1]), bs[|bs| - 1];
      OverwriteEachDistinct(s, bs[..|bs| - 1]);
      if Select(AtKey(b.key), t) == [] {
        SelectMembers(AtKey(b.key), t);
        forall i | 0 <= i < |t| ensures t[i].key != b.key { assert t[i] in t; }
      }
    }
  }

  lemma {:induction false} EffectiveFrom(s: seq<Layer>, t: seq<Layer>, k: Key)
    requires forall q: Key :: q.ctype == k.ctype ==> Pinned(s, q) == Pinned(t, q)
    ensures Effective(s, k) == Effective(t, k)
    decreases (if k.dist == ALL then 0 else 1) + (if k.arch == ALL then 0 else 1)
  {
    if k != Generic(k) {
      EffectiveFrom(s, t, Generic(k));
      if k != ForArch(k) && k != ForDist(k) {
        EffectiveFrom(s, t, ForArch(k));
        EffectiveFrom(s, t, ForDist(k));
      }
    }
  }

  /** The configuration is what is effective in the defaults followed by the module. */
  lemma {:induction false} ConfigEffective(defaults: seq<Layer>, s: seq<Layer>, k: Key)
    requires Chain(defaults + s, k) || DistinctKeys(defaults)
    ensures Config(defaults, s, k) == Effective(defaults + s, k)
  {
    var m := OverwriteEach(defaults, Sort(KeyLe, s));
    if Chain(defaults + s, k) {
      OverwriteChain(defaults, s, k);
    } else {
      OverwriteEachDistinct(defaults, Sort(KeyLe, s));
    }
    AdjustEffective(m, k);
    forall q ensures Pinned(m, q) == Pinned(defaults + s, q) { MergedPinned(defaults, s, q); }
    EffectiveFrom(m, defaults + s, k);
  }

  // ----- subtracting the defaults -----

  /** The cut that subtracting the defaults performs on a sorted list. */
  function CutDefaults(s: seq<Layer>, defaults: seq<Layer>): seq<Layer> {
    CutAgainst(s, ConfigOver(defaults))
  }

  function CutConfig(l: Layer, r: seq<Layer>, defaults: seq<Layer>): Layer {
    l.(versions := Cut(l.versions, ConfigOver(defaults)(r, l.key)))
  }

  /** Layers of other keys do not change the base of a target they do not apply to. */
  lemma {:induction false} BaseSkip(s: seq<Layer>, x: Layer, k: Key)
    requires !Inherits(k, x.key) || x.key == k
    ensures Base(s + [x], k) == Base(s, k)
    decreases (if k.dist == ALL then 0 else 1) + (if k.arch == ALL then 0 else 1)
  {
    if k != Generic(k) {
      BaseSkip(s, x, Generic(k)); PinnedSnoc(s, x, Generic(k));
      if k != ForArch(k) && k != ForDist(k) {
        BaseSkip(s, x, ForArch(k)); PinnedSnoc(s, x, ForArch(k));
        BaseSkip(s, x, ForDist(k)); PinnedSnoc(s, x, ForDist(k));
      }
    }
  }

  lemma PinnedOnlyIn(a: seq<Layer>, b: seq<Layer>, k: Key)
    requires k !in KeySet(b)
    ensures Pinned(a + b, k) == Pinned(a, k)
  {
    PinnedConcat(a, b, k);
    PinnedMissing(b, k);
    AddEmpty(Pinned(a, k));
  }

  /** The key `k` does not occur in a sorted list that ends in another key that `k` inherits from. */
  lemma NotYet(s: seq<Layer>, x: Layer, k: Key)
    requires Sorted(KeyLe, s + [x]) && x.key != k && Inherits(k, x.key)
    ensures k !in KeySet(s + [x])
  {
    NoneAt(s, x, k);
    assert forall l :: l in s + [x] <==> l in s || l == x;
  }

  lemma SameKeySet(r: seq<Layer>, s: seq<Layer>)
    requires SameKeys(r, s)
    ensures KeySet(r) == KeySet(s)
  {
    forall k ensures k in KeySet(r) <==> k in KeySet(s) {
      if l :| l in r && l.key == k { var i :| 0 <= i < |r| && r[i] == l; assert s[i] in s; }
      if l :| l in s && l.key == k { var i :| 0 <= i < |s| && s[i] == l; assert r[i] in r; }
    }
  }

  /** Cutting a layer against the configuration in front of it loses nothing at its own key. */
  lemma {:induction false} OwnStep(defaults: seq<Layer>, s: seq<Layer>, x: Layer, r: seq<Layer>)
    requires Chain(defaults + r, x.key) || DistinctKeys(defaults)
    requires Effective(defaults + r, x.key) == Effective(defaults + s, x.key)
    ensures Effective(defaults + (r + [CutConfig(x, r, defaults)]), x.key) == Effective(defaults + (s + [x]), x.key)
  {
    var k, y := x.key, CutConfig(x, r, defaults);
    ConfigEffective(defaults, r, k);
    EffectiveOwn(defaults, r, y);
    EffectiveOwn(defaults, s, x);
    CutOver(x.versions, Effective(defaults + r, k));
  }

  /** Adding a layer of the target's own key lays it on top. */
  lemma {:induction false} EffectiveOwn(defaults: seq<Layer>, s: seq<Layer>, x: Layer)
    ensures Effective(defaults + (s + [x]), x.key) == Effective(defaults + s, x.key) + x.versions
  {
    assert defaults + (s + [x]) == defaults + s + [x];
    BaseSkip(defaults + s, x, x.key);
    PinnedSnoc(defaults + s, x, x.key);
    AddAssociative(Base(defaults + s, x.key), Pinned(defaults + s, x.key), x.versions);
  }

  /** A layer that does not apply at the target changes nothing there. */
  lemma {:induction false} EffectiveSkip(defaults: seq<Layer>, s: seq<Layer>, x: Layer, k: Key)
    requires !Inherits(k, x.key)
    ensures Effective(defaults + (s + [x]), k) == Effective(defaults + s, k)
  {
    assert defaults + (s + [x]) == defaults + s + [x];
    BaseSkip(defaults + s, x, k);
    PinnedSnoc(defaults + s, x, k);
  }

  lemma SnocKeys(defaults: seq<Layer>, s: seq<Layer>, x: Layer)
    ensures KeySet(defaults + s) <= KeySet(defaults + (s + [x]))
  {
    assert forall l :: l in defaults + (s + [x]) <==> l in defaults + s || l == x;
  }

  lemma CutDefaultsKeys(defaults: seq<Layer>, s: seq<Layer>)
    ensures KeySet(CutDefaults(s, defaults)) == KeySet(s)
    ensures KeySet(defaults + CutDefaults(s, defaults)) == KeySet(defaults + s)
  {
    var r := CutDefaults(s, defaults);
    KeySetConcat(defaults, r);
    KeySetConcat(defaults, s);
    SameKeySet(r, s);
  }

  /** Cutting a sorted list against the defaults changes no target. */
  lemma {:induction false} CutDefaultsEffective(s: seq<Layer>, defaults: seq<Layer>, k: Key)
    requires Sorted(KeyLe, s) && (Chain(defaults + s, k) || DistinctKeys(defaults))
    ensures Effective(defaults + CutDefaults(s, defaults), k) == Effective(defaults + s, k)
    decreases |s|, (if k.dist == ALL then 0 else 1) + (if k.arch == ALL then 0 else 1)
  {
    if s != [] {
      SnocSorted(s);
      var init, x := s[..|s| - 1], s[|s| - 1];
      var r := CutDefaults(init, defaults);
      SnocKeys(defaults, init, x);
      CutDefaultsKeys(defaults, init);
      if x.key == k {
        CutDefaultsEffective(init, defaults, k);
        OwnStep(defaults, init, x, r);
      } else if !Inherits(k, x.key) {
        CutDefaultsEffective(init, defaults, k);
        EffectiveSkip(defaults, r, CutConfig(x, r, defaults), k);
        EffectiveSkip(defaults, init, x, k);
      } else {
        LowerTargets(s, defaults, k);
        NotYet(init, x, k);
        CutDefaultsKeys(defaults, s);
        PinnedOnlyIn(defaults, s, k);
        PinnedOnlyIn(defaults, CutDefaults(s, defaults), k);
      }
    }
  }

  lemma {:induction false} LowerTargets(s: seq<Layer>, defaults: seq<Layer>, k: Key)
    requires Sorted(KeyLe, s) && (Chain(defaults + s, k) || DistinctKeys(defaults))
    requires k != Generic(k)
    ensures Base(defaults + CutDefaults(s, defaults), k) == Base(defaults + s, k)
    decreases |s|, (if k.dist == ALL then 0 else 1) + (if k.arch == ALL then 0 else 1), 0
  {
    CutDefaultsEffective(s, defaults, Generic(k));
    if k != ForArch(k) && k != ForDist(k) {
      CutDefaultsEffective(s, defaults, ForArch(k));
      CutDefaultsEffective(s, defaults, ForDist(k));
    }
  }

  lemma SubtractKeys(s: seq<Layer>, defaults: seq<Layer>, k: Key)
    requires k in KeySet(Subtract(s, defaults))
    ensures k in KeySet(s)
  {
    var l :| l in Subtract(s, defaults) && l.key == k;
    SelectMembers(OfType(k.ctype), Subtract(s, defaults));
    CutOfType(s, ConfigOver(defaults), k.ctype);
    var t := Group(s, k.ctype);
    SelectMembers(HasEntries, CutDefaults(t, defaults));
    var i :| 0 <= i < |t| && CutDefaults(t, defaults)[i] == l;
    GroupMembers(s, k.ctype);
    assert t[i] in t;
  }

  lemma {:induction false} SubtractGroup(defaults: seq<Layer>, s: seq<Layer>, k: Key)
    ensures Effective(defaults + Subtract(s, defaults), k)
            == Effective(defaults + CutDefaults(Group(s, k.ctype), defaults), k)
  {
    var d, t := Subtract(s, defaults), CutDefaults(Group(s, k.ctype), defaults);
    forall q: Key | q.ctype == k.ctype ensures Pinned(defaults + d, q) == Pinned(defaults + t, q) {
      PinnedConcat(defaults, d, q); PinnedConcat(defaults, t, q);
      CutPinned(s, ConfigOver(defaults), q);
    }
    EffectiveFrom(defaults + d, defaults + t, k);
  }

  lemma {:induction false} EffectiveGroup(defaults: seq<Layer>, s: seq<Layer>, k: Key)
    ensures Effective(defaults + s, k) == Effective(defaults + Group(s, k.ctype), k)
  {
    var t := Group(s, k.ctype);
    forall q: Key | q.ctype == k.ctype ensures Pinned(defaults + s, q) == Pinned(defaults + t, q) {
      PinnedConcat(defaults, s, q); PinnedConcat(defaults, t, q);
      GroupPinned(s, q);
    }
    EffectiveFrom(defaults + s, defaults + t, k);
  }

  /** Storing only the difference to the defaults loses nothing: a target resolves to the same
      versions from the stored difference as from the full module. It holds at every target when
      the defaults have one layer per key, and at every chain target in any case. */
  lemma DeltaRebuild(s: seq<Layer>, defaults: seq<Layer>, k: Key)
    requires Chain(defaults + s, k) || DistinctKeys(defaults)
    ensures Config(defaults, Subtract(s, defaults), k) == Config(defaults, s, k)
  {
    var d, t := Subtract(s, defaults), Group(s, k.ctype);
    GroupMembers(s, k.ctype);
    assert KeySet(t) <= KeySet(s);
    KeySetConcat(defaults, t); KeySetConcat(defaults, s); KeySetConcat(defaults, d);
    forall q | q in KeySet(d) ensures q in KeySet(s) { SubtractKeys(s, defaults, q); }
    ConfigEffective(defaults, s, k);
    ConfigEffective(defaults, d, k);
    CutDefaultsEffective(t, defaults, k);
    SubtractGroup(defaults, s, k);
    EffectiveGroup(defaults, s, k);
  }
}
