/** Exactly when storing a module as its difference to the defaults loses nothing at a target. */
module VersionRebuild {
  import opened StableSort
  import opened VersionLayers
  import opened VersionLaws
  import opened VersionAdjust
  import opened VersionTheorems
  import opened VersionDelta

  // ----- what a target gets, package by package -----

  function Merged(defaults: seq<Layer>, s: seq<Layer>): seq<Layer> {
    OverwriteEach(defaults, Sort(KeyLe, s))
  }

  /** A merged entry goes into every layer of its key. */
  lemma {:induction false} MergeAtRepeats(s: seq<Layer>, b: Layer, k: Key, p: string, base: Versions)
    requires Select(AtKey(b.key), s) != []
    ensures OnlyRepeats(MergeAt(s, b.key, b.versions), k, p, base) <==>
            if b.key == k && p in b.versions then p in base && base[p] == b.versions[p] else OnlyRepeats(s, k, p, base)
  {
    var r := MergeAt(s, b.key, b.versions);
    forall i | 0 <= i < |s| ensures r[i] == if s[i].key == b.key then s[i].(versions := s[i].versions + b.versions) else s[i] {
      MergeAtIndex(s, b.key, b.versions, i);
    }
    SelectMembers(AtKey(b.key), s);
    var l := Select(AtKey(b.key), s)[0];
    assert l in Select(AtKey(b.key), s);
    var n :| 0 <= n < |s| && s[n] == l;
    RepeatsEach(r, k, p, base);
    RepeatsEach(s, k, p, base);
    if b.key == k && p in b.versions {
      assert r[n].key == k && p in r[n].versions && r[n].versions[p] == b.versions[p];
    } else {
      forall i | 0 <= i < |s| ensures RepeatsIn(r[i], k, p, base) <==> RepeatsIn(s[i], k, p, base) {}
    }
  }

  predicate RepeatsIn(l: Layer, k: Key, p: string, base: Versions) {
    l.key == k && p in l.versions ==> p in base && base[p] == l.versions[p]
  }

  lemma {:induction false} RepeatsEach(s: seq<Layer>, k: Key, p: string, base: Versions)
    ensures OnlyRepeats(s, k, p, base) <==> forall i :: 0 <= i < |s| ==> RepeatsIn(s[i], k, p, base)
  {
    if OnlyRepeats(s, k, p, base) {
      forall i | 0 <= i < |s| ensures RepeatsIn(s[i], k, p, base) { assert s[i] in s; }
    } else {
      var l :| l in s && !RepeatsIn(l, k, p, base);
    }
  }

  lemma {:induction false} OverwriteOneRepeats(s: seq<Layer>, b: Layer, k: Key, p: string, base: Versions)
    ensures OnlyRepeats(OverwriteOne(s, b), k, p, base) <==>
            if b.key == k && p in b.versions then p in base && base[p] == b.versions[p] else OnlyRepeats(s, k, p, base)
  {
    if Select(AtKey(b.key), s) != [] {
      MergeAtRepeats(s, b, k, p, base);
    } else {
      OnlyRepeatsSnoc(s, b, k, p, base);
      SelectMembers(AtKey(b.key), s);
      forall l | l in s ensures l.key != b.key { assert l !in Select(AtKey(b.key), s); }
    }
  }

  /** An entry of the overwriting list decides; without one the defaults do. */
  lemma {:induction false} OverwriteRepeats(s: seq<Layer>, bs: seq<Layer>, k: Key, p: string, base: Versions)
    ensures OnlyRepeats(OverwriteEach(s, bs), k, p, base) <==>
            if p in Pinned(bs, k) then p in base && base[p] == Pinned(bs, k)[p] else OnlyRepeats(s, k, p, base)
  {
    if bs != [] {
      var init, b := bs[..|bs| - 1], bs[|bs| - 1];
      assert bs == init + [b];
      OverwriteRepeats(s, init, k, p, base);
      OverwriteOneRepeats(OverwriteEach(s, init), b, k, p, base);
      PinnedSnoc(init, b, k);
    }
  }

  /** Whether the pin for the distribution repeats the generic one wherever it stands. */
  ghost predicate Repeated(defaults: seq<Layer>, s: seq<Layer>, k: Key, p: string) {
    var g := Pinned(defaults + s, Generic(k));
    if p in Pinned(s, ForDist(k)) then p in g && g[p] == Pinned(s, ForDist(k))[p] else OnlyRepeats(defaults, ForDist(k), p, g)
  }

  /** What generic, architecture and distribution levels give for a package without a pin of its own. */
  function Below3(g: Versions, a: Versions, d: Versions, repeated: bool, p: string): Versions {
    if p in d && !(repeated && p in g && p in a && a[p] != g[p]) then d else if p in a then a else g
  }

  lemma {:induction false} MergedReverts(defaults: seq<Layer>, s: seq<Layer>, k: Key, p: string)
    ensures var x := defaults + s;
            Reverts(Merged(defaults, s), k, p) <==>
            && p in Pinned(x, Generic(k))
            && p in Pinned(x, ForArch(k)) && Pinned(x, ForArch(k))[p] != Pinned(x, Generic(k))[p]
            && p in Pinned(x, ForDist(k)) && Repeated(defaults, s, k, p) && p !in Pinned(x, k)
  {
    MergedPinned(defaults, s, Generic(k)); MergedPinned(defaults, s, ForArch(k));
    MergedPinned(defaults, s, ForDist(k)); MergedPinned(defaults, s, k);
    OverwriteRepeats(defaults, Sort(KeyLe, s), ForDist(k), p, Pinned(defaults + s, Generic(k)));
    PinnedSort(s, ForDist(k));
  }

  lemma {:induction false} MergedLevels(defaults: seq<Layer>, s: seq<Layer>, k: Key)
    ensures Levels(Merged(defaults, s), k) == Levels(defaults + s, k)
  {
    MergedPinned(defaults, s, Generic(k)); MergedPinned(defaults, s, ForArch(k));
    MergedPinned(defaults, s, ForDist(k)); MergedPinned(defaults, s, k);
    LevelsFrom(Merged(defaults, s), defaults + s, k);
  }

  predicate Proper(k: Key) {
    k != ForArch(k) && k != ForDist(k)
  }

  /** The configuration of a target with distribution and architecture, for one package. */
  lemma {:induction false} ConfigLookup(defaults: seq<Layer>, s: seq<Layer>, k: Key, p: string)
    requires Proper(k)
    ensures var x := defaults + s;
            SameAt(Config(defaults, s, k),
                   if p in Pinned(x, k) then Pinned(x, k)
                   else Below3(Pinned(x, Generic(k)), Pinned(x, ForArch(k)), Pinned(x, ForDist(k)), Repeated(defaults, s, k, p), p), p)
  {
    var m := Merged(defaults, s);
    AdjustLookup(m, k, p);
    ResolveLevels(m, k);
    MergedLevels(defaults, s, k);
    MergedReverts(defaults, s, k, p);
    if Reverts(m, k, p) {
      RevertLost(m, k, p);
      MergedPinned(defaults, s, ForArch(k));
    }
  }

  /** The configuration for a package depends only on what each of the four levels pins it to. */
  lemma {:induction false} ConfigSame(defaults: seq<Layer>, s: seq<Layer>, t: seq<Layer>, k: Key, p: string)
    requires Proper(k)
    requires SameAt(Pinned(s, Generic(k)), Pinned(t, Generic(k)), p) && SameAt(Pinned(s, ForArch(k)), Pinned(t, ForArch(k)), p)
    requires SameAt(Pinned(s, ForDist(k)), Pinned(t, ForDist(k)), p) && SameAt(Pinned(s, k), Pinned(t, k), p)
    ensures SameAt(Config(defaults, s, k), Config(defaults, t, k), p)
  {
    ConfigLookup(defaults, s, k, p);
    ConfigLookup(defaults, t, k, p);
    PinnedBoth(defaults, s, t, Generic(k), p); PinnedBoth(defaults, s, t, ForArch(k), p);
    PinnedBoth(defaults, s, t, ForDist(k), p); PinnedBoth(defaults, s, t, k, p);
    RepeatsSame(defaults, ForDist(k), p, Pinned(defaults + s, Generic(k)), Pinned(defaults + t, Generic(k)));
  }

  lemma {:induction false} PinnedBoth(defaults: seq<Layer>, s: seq<Layer>, t: seq<Layer>, k: Key, p: string)
    requires SameAt(Pinned(s, k), Pinned(t, k), p)
    ensures SameAt(Pinned(defaults + s, k), Pinned(defaults + t, k), p)
  {
    PinnedConcat(defaults, s, k);
    PinnedConcat(defaults, t, k);
  }

  lemma {:induction false} RepeatsSame(s: seq<Layer>, k: Key, p: string, a: Versions, b: Versions)
    requires SameAt(a, b, p)
    ensures OnlyRepeats(s, k, p, a) <==> OnlyRepeats(s, k, p, b)
  {
  }

  // ----- packages that the target pins itself -----

  /** An entry of the target's own key wins, before and after cutting. */
  lemma {:induction false} OwnEntry(defaults: seq<Layer>, s: seq<Layer>, k: Key, p: string)
    requires Proper(k) && Sorted(KeyLe, s) && p in Pinned(s, k)
    ensures SameAt(Config(defaults, CutDefaults(s, defaults), k), Pinned(s, k), p)
  {
    SnocSorted(s);
    var init, x := s[..|s| - 1], s[|s| - 1];
    var r := CutDefaults(init, defaults);
    var y := CutConfig(x, r, defaults);
    assert CutDefaults(s, defaults) == r + [y];
    PinnedSnoc(init, x, k);
    if x.key == k {
      if p in y.versions {
        ConfigLookup(defaults, r + [y], k, p);
        PinnedSnoc(r, y, k);
        PinnedConcat(defaults, r + [y], k);
      } else {
        NothingNew(defaults, r, y, k, p);
        if p !in x.versions { OwnEntry(defaults, init, k, p); }
      }
    } else {
      if Inherits(k, x.key) {
        NotYet(init, x, k);
        PinnedMissing(s, k);
      } else {
        OwnEntry(defaults, init, k, p);
        NothingNew(defaults, r, y, k, p);
      }
    }
  }

  /** A layer without the package, or one that does not apply, changes nothing for the package. */
  lemma {:induction false} NothingNew(defaults: seq<Layer>, r: seq<Layer>, y: Layer, k: Key, p: string)
    requires Proper(k) && (p !in y.versions || !Inherits(k, y.key))
    ensures SameAt(Config(defaults, r + [y], k), Config(defaults, r, k), p)
  {
    PinnedSnoc(r, y, Generic(k)); PinnedSnoc(r, y, ForArch(k)); PinnedSnoc(r, y, ForDist(k)); PinnedSnoc(r, y, k);
    ConfigSame(defaults, r + [y], r, k, p);
  }

  /** Cutting only drops entries. */
  lemma {:induction false} CutFewer(defaults: seq<Layer>, s: seq<Layer>, k: Key)
    ensures Pinned(CutDefaults(s, defaults), k).Keys <= Pinned(s, k).Keys
  {
    if s != [] {
      var init, x := s[..|s| - 1], s[|s| - 1];
      assert s == init + [x];
      CutFewer(defaults, init, k);
      PinnedSnoc(init, x, k);
      PinnedSnoc(CutDefaults(init, defaults), CutConfig(x, CutDefaults(init, defaults), defaults), k);
    }
  }

  // ----- entries for the distribution -----

  /** What the defaults and the generic entries give at a key right above the generic level. */
  function Given(defaults: seq<Layer>, s: seq<Layer>, k: Key): Versions {
    Pinned(defaults + s, Generic(k)) + Pinned(defaults, k)
  }

  /** At such a key an entry is dropped exactly when all entries there repeat what is given. */
  lemma {:induction false} DistLoses(defaults: seq<Layer>, s: seq<Layer>, k: Key, p: string)
    requires Sorted(KeyLe, s) && k != Generic(k) && (k == ForArch(k) || k == ForDist(k))
    ensures p in Pinned(CutDefaults(s, defaults), k) <==> !OnlyRepeats(s, k, p, Given(defaults, s, k))
  {
    if s != [] {
      SnocSorted(s);
      var init, x := s[..|s| - 1], s[|s| - 1];
      var r := CutDefaults(init, defaults);
      var y := CutConfig(x, r, defaults);
      assert CutDefaults(s, defaults) == r + [y];
      DistLoses(defaults, init, k, p);
      if x.key == Generic(k) {
        NotYet(init, x, k);
        NoneLost(defaults, s, k, p);
      } else {
        GivenSnoc(defaults, init, x, k);
        PinnedSnoc(r, y, k);
        OnlyRepeatsSnoc(init, x, k, p, Given(defaults, init, k));
        if x.key == k && p in x.versions && OnlyRepeats(init, k, p, Given(defaults, init, k)) {
          DistStep(defaults, init, k, p);
          CutAt(x.versions, Config(defaults, r, k), Given(defaults, init, k), p);
        }
      }
    }
  }

  lemma {:induction false} NoneLost(defaults: seq<Layer>, s: seq<Layer>, k: Key, p: string)
    requires k !in KeySet(s)
    ensures p !in Pinned(CutDefaults(s, defaults), k) && OnlyRepeats(s, k, p, Given(defaults, s, k))
  {
    CutDefaultsKeys(defaults, s);
    PinnedMissing(CutDefaults(s, defaults), k);
  }

  lemma {:induction false} CutAt(m: Versions, base: Versions, given: Versions, p: string)
    requires p in m && SameAt(base, given, p)
    ensures p in Cut(m, base) <==> !(p in given && given[p] == m[p])
  {
  }

  lemma {:induction false} GivenSnoc(defaults: seq<Layer>, s: seq<Layer>, x: Layer, k: Key)
    requires x.key != Generic(k)
    ensures Given(defaults, s + [x], k) == Given(defaults, s, k)
  {
    assert defaults + (s + [x]) == defaults + s + [x];
    PinnedSnoc(defaults + s, x, Generic(k));
  }

  /** As long as entries only repeat what is given, that is what they are cut against. */
  lemma {:induction false} DistStep(defaults: seq<Layer>, s: seq<Layer>, k: Key, p: string)
    requires Sorted(KeyLe, s) && k != Generic(k) && (k == ForArch(k) || k == ForDist(k))
    requires OnlyRepeats(s, k, p, Given(defaults, s, k))
    ensures SameAt(Config(defaults, CutDefaults(s, defaults), k), Given(defaults, s, k), p)
  {
    ConfigEffective(defaults, CutDefaults(s, defaults), k);
    CutDefaultsEffective(s, defaults, k);
    EffectiveOneUp(defaults + s, k);
    PinnedConcat(defaults, s, k);
    if p in Pinned(s, k) { OnlyRepeatsPinned(s, k, p, Given(defaults, s, k)); }
  }

  lemma {:induction false} EffectiveOneUp(s: seq<Layer>, k: Key)
    requires k != Generic(k) && (k == ForArch(k) || k == ForDist(k))
    ensures Effective(s, k) == Pinned(s, Generic(k)) + Pinned(s, k)
  {
    LevelsGeneric(s, Generic(k));
  }

  // ----- exactly when the rebuilt configuration is the same -----

  /** The defaults pin a package several times for the distribution of the target, in the end as the generic level
      does, and the module repeats that; another version is pinned for the architecture, and none for both. The full
      module makes all the pins for the distribution equal, so that they count as redundant; its difference to the
      defaults does not. */
  ghost predicate Masked(defaults: seq<Layer>, s: seq<Layer>, k: Key, p: string) {
    var x, d := defaults + s, ForDist(k);
    var g := Pinned(x, Generic(k));
    && Proper(k) && p !in Pinned(x, k)
    && p in g && p in Pinned(x, ForArch(k)) && Pinned(x, ForArch(k))[p] != g[p]
    && p in Pinned(defaults, d) && Pinned(defaults, d)[p] == g[p] && !OnlyRepeats(defaults, d, p, g)
    && p in Pinned(s, d) && OnlyRepeats(s, d, p, Pinned(defaults, d))
  }

  /** A pin for the distribution that counts although it repeats the generic one. */
  predicate Stays(d: Versions, repeated: bool, p: string) {
    p in d && !repeated
  }

  lemma {:induction false} ThreeLevels(g: Versions, a: Versions, b: Versions, d: Versions, e: Versions, m: bool, n: bool, p: string)
    requires SameAt(g + a, g + b, p) && SameAt(g + d, g + e, p)
    requires (m && p in d ==> p in g && d[p] == g[p]) && (n && p in e ==> p in g && e[p] == g[p])
    ensures SameAt(Below3(g, a, d, m, p), Below3(g, b, e, n, p), p) <==>
            !(p in g && p in b && b[p] != g[p] && (p in e ==> e[p] == g[p]) && Stays(d, m, p) != Stays(e, n, p))
  {
  }

  lemma {:induction false} RepeatedPinned(defaults: seq<Layer>, s: seq<Layer>, k: Key, p: string)
    requires Repeated(defaults, s, k, p) && p in Pinned(defaults + s, ForDist(k))
    ensures p in Pinned(defaults + s, Generic(k)) && Pinned(defaults + s, ForDist(k))[p] == Pinned(defaults + s, Generic(k))[p]
  {
    PinnedConcat(defaults, s, ForDist(k));
    if p !in Pinned(s, ForDist(k)) { OnlyRepeatsPinned(defaults, ForDist(k), p, Pinned(defaults + s, Generic(k))); }
  }

  /** Only a pin of the defaults can stay although it repeats the generic one. */
  lemma {:induction false} StaysFrom(defaults: seq<Layer>, s: seq<Layer>, k: Key, p: string)
    requires var g, d := Pinned(defaults + s, Generic(k)), Pinned(defaults + s, ForDist(k)); p in g && (p in d ==> d[p] == g[p])
    ensures Stays(Pinned(defaults + s, ForDist(k)), Repeated(defaults, s, k, p), p) <==>
            p !in Pinned(s, ForDist(k)) && p in Pinned(defaults, ForDist(k))
            && !OnlyRepeats(defaults, ForDist(k), p, Pinned(defaults + s, Generic(k)))
  {
    PinnedConcat(defaults, s, ForDist(k));
  }

  lemma {:induction false} CutLower(defaults: seq<Layer>, s: seq<Layer>, k: Key)
    requires Sorted(KeyLe, s) && Proper(k)
    ensures var x, y := defaults + s, defaults + CutDefaults(s, defaults);
            && Pinned(y, Generic(k)) == Pinned(x, Generic(k))
            && Pinned(x, Generic(k)) + Pinned(y, ForArch(k)) == Pinned(x, Generic(k)) + Pinned(x, ForArch(k))
            && Pinned(x, Generic(k)) + Pinned(y, ForDist(k)) == Pinned(x, Generic(k)) + Pinned(x, ForDist(k))
  {
    var x, y := defaults + s, defaults + CutDefaults(s, defaults);
    CutDefaultsEffective(s, defaults, Generic(k));
    LevelsGeneric(x, Generic(k)); LevelsGeneric(y, Generic(k));
    CutDefaultsEffective(s, defaults, ForArch(k));
    EffectiveOneUp(x, ForArch(k)); EffectiveOneUp(y, ForArch(k));
    CutDefaultsEffective(s, defaults, ForDist(k));
    EffectiveOneUp(x, ForDist(k)); EffectiveOneUp(y, ForDist(k));
  }

  lemma {:induction false} RebuildBelow(defaults: seq<Layer>, s: seq<Layer>, k: Key, p: string)
    requires Proper(k) && Sorted(KeyLe, s) && p !in Pinned(defaults + s, k)
    ensures SameAt(Config(defaults, CutDefaults(s, defaults), k), Config(defaults, s, k), p) <==> !Masked(defaults, s, k, p)
  {
    var c := CutDefaults(s, defaults);
    var x, y, d := defaults + s, defaults + c, ForDist(k);
    var g := Pinned(x, Generic(k));
    PinnedConcat(defaults, s, k); PinnedConcat(defaults, c, k);
    CutFewer(defaults, s, k);
    CutLower(defaults, s, k);
    ConfigLookup(defaults, s, k, p); ConfigLookup(defaults, c, k, p);
    if Repeated(defaults, s, k, p) && p in Pinned(x, d) { RepeatedPinned(defaults, s, k, p); }
    if Repeated(defaults, c, k, p) && p in Pinned(y, d) { RepeatedPinned(defaults, c, k, p); }
    ThreeLevels(g, Pinned(y, ForArch(k)), Pinned(x, ForArch(k)), Pinned(y, d), Pinned(x, d), Repeated(defaults, c, k, p),
                Repeated(defaults, s, k, p), p);
    MaskedStays(defaults, s, k, p);
  }

  /** A package is masked exactly where the pin for the distribution stays without the module's entries and not with them. */
  lemma {:induction false} MaskedStays(defaults: seq<Layer>, s: seq<Layer>, k: Key, p: string)
    requires Proper(k) && Sorted(KeyLe, s) && p !in Pinned(defaults + s, k)
    ensures var c := CutDefaults(s, defaults);
            var x, y, d := defaults + s, defaults + c, ForDist(k);
            var g, a := Pinned(x, Generic(k)), Pinned(x, ForArch(k));
            Masked(defaults, s, k, p) <==>
            && p in g && p in a && a[p] != g[p] && (p in Pinned(x, d) ==> Pinned(x, d)[p] == g[p])
            && Stays(Pinned(y, d), Repeated(defaults, c, k, p), p) != Stays(Pinned(x, d), Repeated(defaults, s, k, p), p)
  {
    var c := CutDefaults(s, defaults);
    var x, y, d := defaults + s, defaults + c, ForDist(k);
    var g := Pinned(x, Generic(k));
    CutLower(defaults, s, k);
    CutFewer(defaults, s, d);
    DistLoses(defaults, s, d, p);
    PinnedConcat(defaults, s, d); PinnedConcat(defaults, c, d);
    if p in Pinned(defaults, d) { RepeatsSame(s, d, p, Given(defaults, s, d), Pinned(defaults, d)); }
    if p in Pinned(s, d) && OnlyRepeats(s, d, p, Pinned(defaults, d)) { OnlyRepeatsPinned(s, d, p, Pinned(defaults, d)); }
    if p in g && (p in Pinned(x, d) ==> Pinned(x, d)[p] == g[p]) {
      SumAt(g, Pinned(y, d), Pinned(x, d), p);
      StaysFrom(defaults, s, k, p);
      StaysFrom(defaults, c, k, p);
    }
  }

  lemma {:induction false} SumAt(g: Versions, d: Versions, e: Versions, p: string)
    requires g + d == g + e && p in g && (p in e ==> e[p] == g[p])
    ensures p in d ==> d[p] == g[p]
  {
    assert (g + d)[p] == (g + e)[p];
  }

  lemma {:induction false} RebuildAt(defaults: seq<Layer>, s: seq<Layer>, k: Key, p: string)
    requires Proper(k) && Sorted(KeyLe, s)
    ensures SameAt(Config(defaults, CutDefaults(s, defaults), k), Config(defaults, s, k), p) <==> !Masked(defaults, s, k, p)
  {
    var c := CutDefaults(s, defaults);
    if p !in Pinned(defaults + s, k) {
      RebuildBelow(defaults, s, k, p);
    } else {
      ConfigLookup(defaults, s, k, p);
      PinnedConcat(defaults, s, k);
      if p in Pinned(s, k) {
        OwnEntry(defaults, s, k, p);
      } else {
        CutFewer(defaults, s, k);
        ConfigLookup(defaults, c, k, p);
        PinnedConcat(defaults, c, k);
      }
    }
  }

  /** Only the layers of the target's type matter. */
  lemma {:induction false} MaskedGroup(defaults: seq<Layer>, s: seq<Layer>, k: Key, p: string)
    ensures Masked(defaults, Group(s, k.ctype), k, p) <==> Masked(defaults, s, k, p)
  {
    var t := Group(s, k.ctype);
    GroupPinned(s, Generic(k)); GroupPinned(s, ForArch(k)); GroupPinned(s, ForDist(k)); GroupPinned(s, k);
    PinnedConcat(defaults, s, Generic(k)); PinnedConcat(defaults, t, Generic(k));
    PinnedConcat(defaults, s, ForArch(k)); PinnedConcat(defaults, t, ForArch(k));
    PinnedConcat(defaults, s, k); PinnedConcat(defaults, t, k);
    GroupMembers(s, k.ctype);
  }

  lemma {:induction false} SubtractAt(defaults: seq<Layer>, s: seq<Layer>, k: Key, p: string)
    requires Proper(k)
    ensures SameAt(Config(defaults, Subtract(s, defaults), k), Config(defaults, CutDefaults(Group(s, k.ctype), defaults), k), p)
    ensures SameAt(Config(defaults, s, k), Config(defaults, Group(s, k.ctype), k), p)
  {
    var t := Group(s, k.ctype);
    var source := ConfigOver(defaults);
    CutPinned(s, source, Generic(k)); CutPinned(s, source, ForArch(k)); CutPinned(s, source, ForDist(k)); CutPinned(s, source, k);
    ConfigSame(defaults, Subtract(s, defaults), CutDefaults(t, defaults), k, p);
    GroupPinned(s, Generic(k)); GroupPinned(s, ForArch(k)); GroupPinned(s, ForDist(k)); GroupPinned(s, k);
    ConfigSame(defaults, s, t, k, p);
  }

  /** Storing only the difference to the defaults loses nothing at a target exactly when no package is masked there. */
  lemma {:induction false} RebuildExact(s: seq<Layer>, defaults: seq<Layer>, k: Key)
    ensures Config(defaults, Subtract(s, defaults), k) == Config(defaults, s, k) <==> forall p :: !Masked(defaults, s, k, p)
  {
    var a, b := Config(defaults, Subtract(s, defaults), k), Config(defaults, s, k);
    if Proper(k) {
      forall p ensures SameAt(a, b, p) <==> !Masked(defaults, s, k, p) {
        SubtractAt(defaults, s, k, p);
        MaskedGroup(defaults, s, k, p);
        GroupMembers(s, k.ctype);
        RebuildAt(defaults, Group(s, k.ctype), k, p);
      }
      SameEverywhere(a, b);
    } else {
      DeltaRebuild(s, defaults, k);
    }
  }

  function FourPins(k: Key, p: string, u: string, v: string, w: string): seq<Layer> {
    [Layer(Generic(k), map[p := v]), Layer(ForArch(k), map[p := w]), Layer(ForDist(k), map[p := u]), Layer(ForDist(k), map[p := v])]
  }

  /** At every target with distribution and architecture there are defaults and a module for which the rebuilt
      configuration is another: `w` from the full module, `v` from its difference, which is empty there. */
  lemma {:induction false} RebuildWitness(k: Key, p: string, u: string, v: string, w: string)
    requires Proper(k) && u != v && w != v
    ensures var defaults, s := FourPins(k, p, u, v, w), [Layer(ForDist(k), map[p := v])];
            Masked(defaults, s, k, p) && Config(defaults, Subtract(s, defaults), k) != Config(defaults, s, k)
  {
    var defaults, x := FourPins(k, p, u, v, w), Layer(ForDist(k), map[p := v]);
    var s := [x];
    assert defaults[2] in defaults;
    FourPinned(k, p, u, v, w);
    assert s == [] + [x];
    PinnedSnoc([], x, Generic(k)); PinnedSnoc([], x, ForArch(k)); PinnedSnoc([], x, ForDist(k)); PinnedSnoc([], x, k);
    PinnedNone([], Generic(k)); PinnedNone([], ForArch(k)); PinnedNone([], ForDist(k)); PinnedNone([], k);
    PinnedConcat(defaults, s, Generic(k)); PinnedConcat(defaults, s, ForArch(k)); PinnedConcat(defaults, s, k);
    RebuildExact(s, defaults, k);
  }

  lemma {:induction false} FourPinned(k: Key, p: string, u: string, v: string, w: string)
    requires Proper(k)
    ensures var d := FourPins(k, p, u, v, w);
            && Pinned(d, Generic(k)) == map[p := v] && Pinned(d, ForArch(k)) == map[p := w]
            && Pinned(d, ForDist(k)) == map[p := v] && Pinned(d, k) == map[]
  {
    var d := FourPins(k, p, u, v, w);
    assert d == [] + [d[0]] + [d[1]] + [d[2]] + [d[3]];
    FourSteps(d[0], d[1], d[2], d[3], Generic(k)); FourSteps(d[0], d[1], d[2], d[3], ForArch(k));
    FourSteps(d[0], d[1], d[2], d[3], ForDist(k)); FourSteps(d[0], d[1], d[2], d[3], k);
  }

  lemma {:induction false} FourSteps(a: Layer, b: Layer, c: Layer, d: Layer, q: Key)
    ensures Pinned([] + [a] + [b] + [c] + [d], q) ==
            (if a.key == q then a.versions else map[]) + (if b.key == q then b.versions else map[])
            + (if c.key == q then c.versions else map[]) + (if d.key == q then d.versions else map[])
  {
    PinnedNone([], q);
    PinnedSnoc([], a, q);
    PinnedSnoc([] + [a], b, q);
    PinnedSnoc([] + [a] + [b], c, q);
    PinnedSnoc([] + [a] + [b] + [c], d, q);
    AddEmpty(a.versions); AddEmpty(map[]);
    AddEmpty(Pinned([] + [a], q)); AddEmpty(Pinned([] + [a] + [b], q)); AddEmpty(Pinned([] + [a] + [b] + [c], q));
  }
}
