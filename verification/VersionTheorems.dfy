/** What the version manager promises about resolution, for every list of layers. */
module VersionTheorems {
  import opened Sequences
  import opened StableSort
  import opened VersionLayers
  import opened VersionLaws
  import opened VersionAdjust

  // ----- adjust -----

  lemma {:induction false} CTypesDistinct(s: seq<Layer>)
    ensures Distinct(CTypes(s))
  {
    if s != [] { CTypesDistinct(s[..|s| - 1]); }
  }

  lemma {:induction false} CTypesMissing(s: seq<Layer>, c: string)
    ensures c in CTypes(s) <==> exists l :: l in s && l.key.ctype == c
  {
    if s != [] {
      CTypesMissing(s[..|s| - 1], c);
      assert forall l :: l in s <==> l in s[..|s| - 1] || l == s[|s| - 1];
      assert s[|s| - 1] in s;
    }
  }

  lemma GroupType(s: seq<Layer>, source: Source, c: string)
    requires forall l :: l in s ==> l.key.ctype == c
    ensures forall l :: l in CutGroup(s, source) ==> l.key.ctype == c
  {
    var t := Sort(KeyLe, s);
    SortIsSorted(s);
    SelectMembers(HasEntries, CutAgainst(t, source));
    forall l | l in CutGroup(s, source) ensures l.key.ctype == c {
      assert l in CutAgainst(t, source);
      var i :| 0 <= i < |t| && CutAgainst(t, source)[i] == l;
      assert t[i] in multiset(t);
    }
  }

  lemma {:induction false} SelectGroup(s: seq<Layer>, source: Source, group: string, c: string)
    ensures Select(OfType(c), CutGroup(Select(OfType(group), s), source)) ==
            if c == group then CutGroup(Select(OfType(c), s), source) else []
  {
    var t := Select(OfType(group), s);
    SelectMembers(OfType(group), s);
    GroupType(t, source, group);
    if c == group {
      SelectEvery(OfType(c), CutGroup(t, source));
    } else {
      SelectNone(OfType(c), CutGroup(t, source));
    }
  }

  lemma {:induction false} CutTypesOfType(types: seq<string>, s: seq<Layer>, source: Source, c: string)
    requires Distinct(types)
    ensures Select(OfType(c), CutTypes(types, s, source)) ==
            if c in types then CutGroup(Select(OfType(c), s), source) else []
  {
    if types != [] {
      var init, last := types[..|types| - 1], types[|types| - 1];
      CutTypesOfType(init, s, source, c);
      SelectGroup(s, source, last, c);
      SelectConcat(OfType(c), CutTypes(init, s, source), CutGroup(Select(OfType(last), s), source));
    }
  }

  /** Cutting works on each component type by itself. */
  lemma {:induction false} CutOfType(s: seq<Layer>, source: Source, c: string)
    ensures Select(OfType(c), CutTypes(CTypes(s), s, source)) == CutGroup(Select(OfType(c), s), source)
  {
    CTypesDistinct(s);
    CutTypesOfType(CTypes(s), s, source, c);
    CTypesMissing(s, c);
    if c !in CTypes(s) { SelectNone(OfType(c), s); }
  }

  /** The sorted group of one component type. */
  function Group(s: seq<Layer>, c: string): (r: seq<Layer>) {
    Sort(KeyLe, Select(OfType(c), s))
  }

  lemma {:induction false} CutPinned(s: seq<Layer>, source: Source, k: Key)
    ensures Pinned(CutTypes(CTypes(s), s, source), k) == Pinned(CutAgainst(Group(s, k.ctype), source), k)
  {
    PinnedOfType(CutTypes(CTypes(s), s, source), k);
    CutOfType(s, source, k.ctype);
    PinnedHasEntries(CutAgainst(Group(s, k.ctype), source), k);
  }

  lemma GroupPinned(s: seq<Layer>, k: Key)
    ensures Pinned(Group(s, k.ctype), k) == Pinned(s, k)
  {
    PinnedSort(Select(OfType(k.ctype), s), k);
    PinnedOfType(s, k);
  }

  lemma GroupMembers(s: seq<Layer>, c: string)
    ensures Sorted(KeyLe, Group(s, c))
    ensures forall l :: l in Group(s, c) <==> l in s && l.key.ctype == c
  {
    var t := Select(OfType(c), s);
    SelectMembers(OfType(c), s);
    SortIsSorted(t);
    assert forall l :: l in Group(s, c) <==> l in multiset(Group(s, c));
    assert forall l :: l in t <==> l in multiset(t);
  }

  lemma LevelsFrom(s: seq<Layer>, t: seq<Layer>, k: Key)
    requires Pinned(s, Generic(k)) == Pinned(t, Generic(k)) && Pinned(s, ForArch(k)) == Pinned(t, ForArch(k))
    requires Pinned(s, ForDist(k)) == Pinned(t, ForDist(k)) && Pinned(s, k) == Pinned(t, k)
    ensures Levels(s, k) == Levels(t, k)
  {
  }

  lemma AdjustLevels(s: seq<Layer>, k: Key)
    ensures Resolve(Adjust(s), k) == Levels(CutChain(Group(s, k.ctype)), k)
  {
    ResolveLevels(Adjust(s), k);
    CutPinned(s, Inherited, Generic(k));
    CutPinned(s, Inherited, ForArch(k));
    CutPinned(s, Inherited, ForDist(k));
    CutPinned(s, Inherited, k);
    LevelsFrom(Adjust(s), CutChain(Group(s, k.ctype)), k);
  }

  lemma GroupAllPinned(s: seq<Layer>, k: Key)
    ensures var t := Group(s, k.ctype);
            Pinned(s, Generic(k)) == Pinned(t, Generic(k)) && Pinned(s, ForArch(k)) == Pinned(t, ForArch(k))
            && Pinned(s, ForDist(k)) == Pinned(t, ForDist(k)) && Pinned(s, k) == Pinned(t, k)
  {
    GroupPinned(s, Generic(k));
    GroupPinned(s, ForArch(k));
    GroupPinned(s, ForDist(k));
    GroupPinned(s, k);
  }

  lemma GroupReverts(s: seq<Layer>, k: Key, p: string)
    ensures Reverts(Group(s, k.ctype), k, p) <==> Reverts(s, k, p)
  {
    GroupAllPinned(s, k);
    GroupMembers(s, k.ctype);
    assert OnlyRepeats(Group(s, k.ctype), ForDist(k), p, Pinned(s, Generic(k)))
      <==> OnlyRepeats(s, ForDist(k), p, Pinned(s, Generic(k)));
  }

  lemma AdjustLookup(s: seq<Layer>, k: Key, p: string)
    ensures SameAt(Resolve(Adjust(s), k), Resolve(s, k), p) <==> !Reverts(s, k, p)
  {
    AdjustLevels(s, k);
    ResolveLevels(s, k);
    GroupAllPinned(s, k);
    LevelsFrom(s, Group(s, k.ctype), k);
    GroupReverts(s, k, p);
    GroupMembers(s, k.ctype);
    CutLookup(Group(s, k.ctype), k, p);
  }

  lemma SameEverywhere(a: Versions, b: Versions)
    ensures a == b <==> forall p :: SameAt(a, b, p)
  {
    if forall p :: SameAt(a, b, p) {
      forall p ensures p in a <==> p in b { assert SameAt(a, b, p); }
      forall p | p in a ensures a[p] == b[p] { assert SameAt(a, b, p); }
    }
  }

  /** Dropping redundant entries preserves a target exactly when the target has no reverted package. */
  lemma AdjustExact(s: seq<Layer>, k: Key)
    ensures Resolve(Adjust(s), k) == Resolve(s, k) <==> forall p :: !Reverts(s, k, p)
  {
    forall p ensures SameAt(Resolve(Adjust(s), k), Resolve(s, k), p) <==> !Reverts(s, k, p) {
      AdjustLookup(s, k, p);
    }
    SameEverywhere(Resolve(Adjust(s), k), Resolve(s, k));
  }

  /** A reverted package falls back from the generic version to the architecture's. */
  lemma RevertLost(s: seq<Layer>, k: Key, p: string)
    requires Reverts(s, k, p)
    ensures p in Resolve(s, k) && Resolve(s, k)[p] == Pinned(s, Generic(k))[p]
    ensures p in Resolve(Adjust(s), k) && Resolve(Adjust(s), k)[p] == Pinned(s, ForArch(k))[p]
  {
    var t := Group(s, k.ctype);
    var r := CutChain(t);
    GroupMembers(s, k.ctype);
    GroupAllPinned(s, k);
    GroupReverts(s, k, p);
    ResolveLevels(s, k);
    OnlyRepeatsPinned(s, ForDist(k), p, Pinned(s, Generic(k)));
    AdjustLevels(s, k);
    CutLevels(t, k);
    CutLoses(t, ForDist(k), p);
    CutOneLevel(t, ForArch(k), p);
    assert p in Below(r, k) && Below(r, k)[p] == Pinned(s, ForArch(k))[p];
  }

  function KeySet(s: seq<Layer>): set<Key> {
    set l | l in s :: l.key
  }

  /** No layer for the architecture meets a layer for the distribution at target `k`. */
  predicate Chain(s: seq<Layer>, k: Key) {
    k == ForArch(k) || k == ForDist(k) || ForArch(k) !in KeySet(s) || ForDist(k) !in KeySet(s)
  }

  lemma PinnedMissing(s: seq<Layer>, k: Key)
    requires k !in KeySet(s)
    ensures Pinned(s, k) == map[]
  {
    PinnedNone(s, k);
  }

  /** Dropping redundant entries preserves every chain target. */
  lemma AdjustPreservesChain(s: seq<Layer>, k: Key)
    requires Chain(s, k)
    ensures Resolve(Adjust(s), k) == Resolve(s, k)
  {
    if ForArch(k) !in KeySet(s) { PinnedMissing(s, ForArch(k)); }
    if ForDist(k) !in KeySet(s) { PinnedMissing(s, ForDist(k)); }
    AdjustExact(s, k);
  }
}
