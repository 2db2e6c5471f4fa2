/** Dropping redundant entries: exactly when it preserves what a target resolves to. */
module VersionAdjust {
  import opened StableSort
  import opened VersionLayers
  import opened VersionLaws

  lemma CutOver(m: Versions, base: Versions)
    ensures base + Cut(m, base) == base + m
  {
  }

  /** The cut that adjusting performs on a sorted list. */
  function CutChain(s: seq<Layer>): seq<Layer> {
    CutAgainst(s, Inherited)
  }

  predicate SameKeys(r: seq<Layer>, s: seq<Layer>) {
    |r| == |s| && forall i :: 0 <= i < |s| ==> r[i].key == s[i].key
  }

  lemma SameKeysSorted(s: seq<Layer>, r: seq<Layer>)
    requires Sorted(KeyLe, s) && SameKeys(r, s)
    ensures Sorted(KeyLe, r)
  {
    forall i, j | 0 <= i < j < |r| ensures KeyLe(r[i], r[j]) { assert KeyLe(s[i], s[j]); }
  }

  lemma CutChainSorted(s: seq<Layer>)
    requires Sorted(KeyLe, s)
    ensures Sorted(KeyLe, CutChain(s))
  {
    SameKeysSorted(s, CutChain(s));
  }

  /** The last step of cutting a sorted list. */
  lemma CutChainSnoc(s: seq<Layer>) returns (init: seq<Layer>, x: Layer, r: seq<Layer>, y: Layer)
    requires s != [] && Sorted(KeyLe, s)
    ensures s == init + [x] && init == s[..|s| - 1] && Sorted(KeyLe, init)
    ensures r == CutChain(init) && CutChain(s) == r + [y]
    ensures Sorted(KeyLe, r) && Sorted(KeyLe, r + [y])
    ensures y == x.(versions := Cut(x.versions, Levels(r, x.key)))
  {
    SnocSorted(s);
    init, x := s[..|s| - 1], s[|s| - 1];
    r := CutChain(init);
    CutChainSorted(init);
    CutChainSorted(s);
    InheritedLevels(r, x.key);
    y := x.(versions := Cut(x.versions, Inherited(r, x.key)));
  }

  /** At every key, the cut layers over the cut levels below them say what the full layers said. */
  lemma {:induction false} CutLevels(s: seq<Layer>, k: Key)
    requires Sorted(KeyLe, s)
    ensures Below(CutChain(s), k) + Pinned(CutChain(s), k) == Below(CutChain(s), k) + Pinned(s, k)
  {
    if s != [] {
      var init, x, r, y := CutChainSnoc(s);
      CutLevels(init, k);
      PinnedSnoc(init, x, k);
      PinnedSnoc(r, y, k);
      if x.key == k {
        SortedOnTop(r, y, k);
        BelowSnoc(r, y, k);
        var b := Below(r, k);
        AddAssociative(b, Pinned(r, k), y.versions);
        AddAssociative(b, Pinned(r, k), x.versions);
        AddAssociative(b, Pinned(init, k), x.versions);
        CutOver(x.versions, Levels(r, k));
      } else if Inherits(k, x.key) {
        NothingAbove(init, x, k);
        NothingAbove(r, y, k);
      } else {
        LowerSnoc(r, y, Generic(k), k);
        LowerSnoc(r, y, ForArch(k), k);
        LowerSnoc(r, y, ForDist(k), k);
      }
    }
  }

  lemma {:induction false} CutPinsLess(s: seq<Layer>, k: Key)
    requires Sorted(KeyLe, s)
    ensures Pinned(CutChain(s), k).Keys <= Pinned(s, k).Keys
  {
    if s != [] {
      var init, x, r, y := CutChainSnoc(s);
      CutPinsLess(init, k);
      PinnedSnoc(init, x, k);
      PinnedSnoc(r, y, k);
    }
  }

  /** Every layer with key `k` that pins `p` repeats what `base` pins it to. */
  ghost predicate OnlyRepeats(s: seq<Layer>, k: Key, p: string, base: Versions) {
    forall l :: l in s && l.key == k && p in l.versions ==> p in base && base[p] == l.versions[p]
  }

  /** Only the generic level stands below a key for all distributions or for all architectures. */
  lemma BelowIsGeneric(s: seq<Layer>, k: Key)
    requires k != Generic(k) && (k == ForArch(k) || k == ForDist(k))
    ensures Below(s, k) == Pinned(s, Generic(k))
  {
    var g := Pinned(s, Generic(k));
    AddEmpty(g);
    if k == ForArch(k) { assert g + g == g; }
  }

  /** A key right above the generic level loses a package exactly when it only repeats the generic pin. */
  lemma {:induction false} CutLoses(s: seq<Layer>, k: Key, p: string)
    requires Sorted(KeyLe, s)
    requires k != Generic(k) && (k == ForArch(k) || k == ForDist(k))
    ensures p in Pinned(CutChain(s), k) <==> !OnlyRepeats(s, k, p, Pinned(s, Generic(k)))
  {
    if s != [] {
      var init, x, r, y := CutChainSnoc(s);
      CutLoses(init, k, p);
      PinnedSnoc(r, y, k);
      PinnedSnoc(init, x, Generic(k));
      if x.key == k {
        GenericKept(init, k);
        BelowIsGeneric(r, k);
        OnlyRepeatsSnoc(init, x, k, p, Pinned(init, Generic(k)));
      } else if x.key == Generic(k) {
        NothingAbove(r, y, k);
        NoneAt(init, x, k);
        OnlyRepeatsSnoc(init, x, k, p, Pinned(s, Generic(k)));
      } else {
        OnlyRepeatsSnoc(init, x, k, p, Pinned(init, Generic(k)));
      }
    }
  }

  lemma OnlyRepeatsSnoc(s: seq<Layer>, x: Layer, k: Key, p: string, base: Versions)
    ensures OnlyRepeats(s + [x], k, p, base) <==>
            OnlyRepeats(s, k, p, base)
            && (x.key == k && p in x.versions ==> p in base && base[p] == x.versions[p])
  {
    assert forall l :: l in s + [x] <==> l in s || l == x;
  }

  /** In a sorted list no layer of key `k` stands before one it inherits from. */
  lemma NoneAt(s: seq<Layer>, x: Layer, k: Key)
    requires Sorted(KeyLe, s + [x]) && x.key != k && Inherits(k, x.key)
    ensures forall l :: l in s ==> l.key != k
  {
    forall l | l in s ensures l.key != k {
      var i :| 0 <= i < |s| && s[i] == l;
      assert KeyLe((s + [x])[i], (s + [x])[|s|]);
      if l.key == k { SpecificAfterGeneric(l, x); }
    }
  }

  /** The generic level keeps what it pins. */
  lemma GenericKept(s: seq<Layer>, k: Key)
    requires Sorted(KeyLe, s)
    ensures Pinned(CutChain(s), Generic(k)) == Pinned(s, Generic(k))
  {
    var g := Generic(k);
    CutLevels(s, g);
    AddEmpty(map[]);
    AddEmpty(Pinned(s, g));
    AddEmpty(Pinned(CutChain(s), g));
  }

  predicate SameAt(a: Versions, b: Versions, p: string) {
    (p in a <==> p in b) && (p in a ==> a[p] == b[p])
  }

  /** A package pinned by the generic level, pinned otherwise for the architecture, and pinned back
      to the generic version for the distribution, with no pin for both. */
  ghost predicate Reverts(s: seq<Layer>, k: Key, p: string) {
    && p in Pinned(s, Generic(k))
    && p in Pinned(s, ForArch(k)) && Pinned(s, ForArch(k))[p] != Pinned(s, Generic(k))[p]
    && p in Pinned(s, ForDist(k)) && OnlyRepeats(s, ForDist(k), p, Pinned(s, Generic(k)))
    && p !in Pinned(s, k)
  }

  lemma {:induction false} OnlyRepeatsPinned(s: seq<Layer>, k: Key, p: string, base: Versions)
    requires OnlyRepeats(s, k, p, base) && p in Pinned(s, k)
    ensures p in base && Pinned(s, k)[p] == base[p]
  {
    var init, x := s[..|s| - 1], s[|s| - 1];
    assert s == init + [x];
    PinnedSnoc(init, x, k);
    OnlyRepeatsSnoc(init, x, k, p, base);
    if !(x.key == k && p in x.versions) { OnlyRepeatsPinned(init, k, p, base); }
  }

  /** A key right above the generic level: the cut layers over the generic ones say the same. */
  lemma CutOneLevel(s: seq<Layer>, k: Key, p: string)
    requires Sorted(KeyLe, s)
    requires k != Generic(k) && (k == ForArch(k) || k == ForDist(k))
    ensures p in Pinned(CutChain(s), k) ==> p in Pinned(s, k) && Pinned(CutChain(s), k)[p] == Pinned(s, k)[p]
    ensures p in Pinned(s, k) && p !in Pinned(CutChain(s), k) ==>
              p in Pinned(s, Generic(k)) && Pinned(s, Generic(k))[p] == Pinned(s, k)[p]
  {
    var r := CutChain(s);
    CutLevels(s, k);
    BelowIsGeneric(r, k);
    GenericKept(s, k);
    CutPinsLess(s, k);
    var g := Pinned(s, Generic(k));
    assert p in Pinned(s, k) ==> (g + Pinned(s, k))[p] == Pinned(s, k)[p];
    assert p in Pinned(r, k) ==> (g + Pinned(r, k))[p] == Pinned(r, k)[p];
  }

  /** Below a fully specific key, the cut levels differ at `p` exactly when the cut loses a revert. */
  lemma CutBelow(s: seq<Layer>, k: Key, p: string)
    requires Sorted(KeyLe, s) && p !in Pinned(s, k)
    ensures SameAt(Below(CutChain(s), k), Below(s, k), p) <==> !Reverts(s, k, p)
  {
    var r := CutChain(s);
    var g, a, d := Generic(k), ForArch(k), ForDist(k);
    GenericKept(s, k);
    if k == g {
    } else if k == a || k == d {
      BelowIsGeneric(s, k);
      BelowIsGeneric(r, k);
    } else {
      CutOneLevel(s, a, p);
      CutOneLevel(s, d, p);
      CutLoses(s, d, p);
      if p in Pinned(s, d) && OnlyRepeats(s, d, p, Pinned(s, g)) {
        OnlyRepeatsPinned(s, d, p, Pinned(s, g));
      }
    }
  }

  lemma CutLookup(s: seq<Layer>, k: Key, p: string)
    requires Sorted(KeyLe, s)
    ensures SameAt(Levels(CutChain(s), k), Levels(s, k), p) <==> !Reverts(s, k, p)
  {
    CutLevels(s, k);
    if p in Pinned(s, k) {
      assert (Below(CutChain(s), k) + Pinned(s, k))[p] == Pinned(s, k)[p];
    } else {
      CutBelow(s, k, p);
    }
  }
}
