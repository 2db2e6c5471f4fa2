/** Resolution is a four-level overlay, and dropping redundant entries is measured against it. */
module VersionLaws {
  import opened StableSort
  import opened VersionLayers

  /** What the layers with exactly key `k` pin. */
  function Pinned(s: seq<Layer>, k: Key): Versions {
    Overlay(Select(AtKey(k), s))
  }

  function Generic(k: Key): Key { k.(dist := ALL, arch := ALL) }

  function ForArch(k: Key): Key { k.(dist := ALL) }

  function ForDist(k: Key): Key { k.(arch := ALL) }

  /** What a level `q` contributes in front of `k`. */
  function Lower(s: seq<Layer>, q: Key, k: Key): Versions {
    if q == k then map[] else Pinned(s, q)
  }

  /** The levels in front of `k`, generic first. */
  function Below(s: seq<Layer>, k: Key): Versions {
    Lower(s, Generic(k), k) + Lower(s, ForArch(k), k) + Lower(s, ForDist(k), k)
  }

  /** Generic, then per architecture, then per distribution, then both. */
  function Levels(s: seq<Layer>, k: Key): Versions {
    Below(s, k) + Pinned(s, k)
  }

  // ----- the order of layers -----

  lemma {:induction false} PartsLeTotal(a: seq<string>, b: seq<string>)
    ensures PartsLe(a, b) || PartsLe(b, a)
  {
    if a != [] && b != [] {
      if a[0] == b[0] { PartsLeTotal(a[1..], b[1..]); } else { StringLeTotal(a[0], b[0]); }
    }
  }

  lemma {:induction false} PartsLeTransitive(a: seq<string>, b: seq<string>, c: seq<string>)
    requires PartsLe(a, b) && PartsLe(b, c)
    ensures PartsLe(a, c)
  {
    if a != [] {
      if a[0] == b[0] == c[0] {
        PartsLeTransitive(a[1..], b[1..], c[1..]);
      } else if a[0] != b[0] && b[0] != c[0] {
        StringLeTransitive(a[0], b[0], c[0]);
        if a[0] == c[0] { StringLeAntisymmetric(a[0], b[0]); }
      }
    }
  }

  lemma KeyLeTotal(x: Layer, y: Layer)
    ensures KeyLe(x, y) || KeyLe(y, x)
    ensures x.key == y.key ==> KeyLe(x, y)
  {
    PartsLeTotal([x.key.ctype, OrderPart(x.key.dist), OrderPart(x.key.arch)],
                 [y.key.ctype, OrderPart(y.key.dist), OrderPart(y.key.arch)]);
  }

  lemma KeyLeTransitive(x: Layer, y: Layer, z: Layer)
    requires KeyLe(x, y) && KeyLe(y, z)
    ensures KeyLe(x, z)
  {
    PartsLeTransitive([x.key.ctype, OrderPart(x.key.dist), OrderPart(x.key.arch)],
                      [y.key.ctype, OrderPart(y.key.dist), OrderPart(y.key.arch)],
                      [z.key.ctype, OrderPart(z.key.dist), OrderPart(z.key.arch)]);
  }

  lemma KeyLePreorder()
    ensures TotalPreorder(KeyLe)
  {
    forall x: Layer, y: Layer ensures KeyLe(x, y) || KeyLe(y, x) { KeyLeTotal(x, y); }
    forall x: Layer, y: Layer, z: Layer | KeyLe(x, y) && KeyLe(y, z) ensures KeyLe(x, z) {
      KeyLeTransitive(x, y, z);
    }
  }

  lemma {:induction false} SortIsSorted(s: seq<Layer>)
    ensures Sorted(KeyLe, Sort(KeyLe, s))
    ensures multiset(Sort(KeyLe, s)) == multiset(s)
  {
    KeyLePreorder();
    SortSorted(KeyLe, s);
  }

  /** A layer never sorts in front of one with another key that it inherits from. */
  lemma SpecificAfterGeneric(a: Layer, b: Layer)
    requires KeyLe(a, b) && Inherits(a.key, b.key)
    ensures a.key == b.key
  {
    var x := [a.key.ctype, OrderPart(a.key.dist), OrderPart(a.key.arch)];
    var y := [b.key.ctype, OrderPart(b.key.dist), OrderPart(b.key.arch)];
    assert PartsLe(x[1..], y[1..]);
    if a.key.dist == b.key.dist { assert PartsLe(x[1..][1..], y[1..][1..]); }
  }

  /** A layer for every distribution never sorts behind one for a single distribution. */
  lemma DistAfterAll(a: Layer, b: Layer)
    requires KeyLe(a, b) && a.key.ctype == b.key.ctype && b.key.dist == ALL
    ensures a.key.dist == ALL
  {
    var x := [a.key.ctype, OrderPart(a.key.dist), OrderPart(a.key.arch)];
    var y := [b.key.ctype, OrderPart(b.key.dist), OrderPart(b.key.arch)];
    assert PartsLe(x[1..], y[1..]);
  }

  // ----- picking layers -----

  lemma {:induction false} SelectMembers(c: Choice, s: seq<Layer>)
    ensures forall l :: l in Select(c, s) <==> l in s && Picks(c, l)
  {
    if s != [] {
      SelectMembers(c, s[..|s| - 1]);
      assert forall l :: l in s <==> l in s[..|s| - 1] || l == s[|s| - 1];
    }
  }

  lemma {:induction false} SelectConcat(c: Choice, a: seq<Layer>, b: seq<Layer>)
    ensures Select(c, a + b) == Select(c, a) + Select(c, b)
  {
    if b == [] {
      assert a + b == a;
    } else {
      SelectConcat(c, a, b[..|b| - 1]);
      assert (a + b)[..|a + b| - 1] == a + b[..|b| - 1];
    }
  }

  lemma {:induction false} SelectNone(c: Choice, s: seq<Layer>)
    requires forall l :: l in s ==> !Picks(c, l)
    ensures Select(c, s) == []
  {
    if s != [] { SelectNone(c, s[..|s| - 1]); }
  }

  lemma {:induction false} SelectEvery(c: Choice, s: seq<Layer>)
    requires forall l :: l in s ==> Picks(c, l)
    ensures Select(c, s) == s
  {
    if s != [] {
      SelectEvery(c, s[..|s| - 1]);
      assert s == s[..|s| - 1] + [s[|s| - 1]];
    }
  }

  /** Picking twice is picking once when the second choice implies the first. */
  lemma {:induction false} SelectNarrower(c: Choice, d: Choice, s: seq<Layer>)
    requires forall l :: l in s && Picks(d, l) ==> Picks(c, l)
    ensures Select(d, Select(c, s)) == Select(d, s)
  {
    if s != [] {
      var init, l := s[..|s| - 1], s[|s| - 1];
      SelectNarrower(c, d, init);
      if Picks(c, l) { assert Select(c, s)[..|Select(c, s)| - 1] == Select(c, init); }
    }
  }

  lemma {:induction false} SelectCommutes(c: Choice, d: Choice, s: seq<Layer>)
    ensures Select(d, Select(c, s)) == Select(c, Select(d, s))
  {
    if s != [] {
      var init, l := s[..|s| - 1], s[|s| - 1];
      SelectCommutes(c, d, init);
      if Picks(c, l) { assert Select(c, s)[..|Select(c, s)| - 1] == Select(c, init); }
      if Picks(d, l) { assert Select(d, s)[..|Select(d, s)| - 1] == Select(d, init); }
    }
  }

  /** What is picked from a sorted list still stands before what the list stands before. */
  lemma {:induction false} SelectBefore(c: Choice, s: seq<Layer>, x: Layer)
    requires Sorted(KeyLe, s) && s != [] && KeyLe(s[|s| - 1], x) && Select(c, s) != []
    ensures KeyLe(Select(c, s)[|Select(c, s)| - 1], x)
  {
    var t := Select(c, s);
    var y := t[|t| - 1];
    SelectMembers(c, s);
    assert y in t;
    var i :| 0 <= i < |s| && s[i] == y;
    if i < |s| - 1 { KeyLeTransitive(y, s[|s| - 1], x); }
  }

  lemma {:induction false} SelectSnoc(c: Choice, s: seq<Layer>, x: Layer)
    ensures Select(c, s + [x]) == if Picks(c, x) then Select(c, s) + [x] else Select(c, s)
  {
    assert (s + [x])[..|s|] == s;
  }

  lemma {:induction false} InsertSnoc(s: seq<Layer>, last: Layer, x: Layer)
    requires !KeyLe(last, x)
    ensures Insert(KeyLe, x, s + [last]) == Insert(KeyLe, x, s) + [last]
  {
    assert (s + [last])[..|s|] == s;
  }

  lemma {:induction false} SelectInsert(c: Choice, x: Layer, s: seq<Layer>)
    requires Sorted(KeyLe, s)
    ensures Select(c, Insert(KeyLe, x, s)) ==
            if Picks(c, x) then Insert(KeyLe, x, Select(c, s)) else Select(c, s)
  {
    if s == [] {
    } else if KeyLe(s[|s| - 1], x) {
      SelectSnoc(c, s, x);
      if Select(c, s) != [] { SelectBefore(c, s, x); }
    } else {
      SnocSorted(s);
      var init, last := s[..|s| - 1], s[|s| - 1];
      SelectInsert(c, x, init);
      SelectSnoc(c, Insert(KeyLe, x, init), last);
      SelectSnoc(c, init, last);
      InsertSnoc(init, last, x);
      InsertSnoc(Select(c, init), last, x);
    }
  }

  /** Sorting commutes with picking. */
  lemma {:induction false} SelectSort(c: Choice, s: seq<Layer>)
    ensures Select(c, Sort(KeyLe, s)) == Sort(KeyLe, Select(c, s))
  {
    if s != [] {
      var init, l := s[..|s| - 1], s[|s| - 1];
      SelectSort(c, init);
      SortIsSorted(init);
      SelectInsert(c, l, Sort(KeyLe, init));
      if Picks(c, l) { assert Select(c, s)[..|Select(c, s)| - 1] == Select(c, init); }
    }
  }

  /** The layers of one key keep their order when the list is sorted. */
  lemma {:induction false} PinnedSort(s: seq<Layer>, k: Key)
    ensures Pinned(Sort(KeyLe, s), k) == Pinned(s, k)
  {
    SelectSort(AtKey(k), s);
    SelectMembers(AtKey(k), s);
    var t := Select(AtKey(k), s);
    forall i, j | 0 <= i < j < |t| ensures KeyLe(t[i], t[j]) {
      assert t[i] in t && t[j] in t;
      KeyLeTotal(t[i], t[j]);
    }
    SortOfSorted(KeyLe, Select(AtKey(k), s));
  }

  lemma {:induction false} PinnedOfType(s: seq<Layer>, k: Key)
    ensures Pinned(Select(OfType(k.ctype), s), k) == Pinned(s, k)
  {
    SelectNarrower(OfType(k.ctype), AtKey(k), s);
  }

  lemma {:induction false} PinnedHasEntries(s: seq<Layer>, k: Key)
    ensures Pinned(Select(HasEntries, s), k) == Pinned(s, k)
  {
    SelectCommutes(HasEntries, AtKey(k), s);
    OverlayHasEntries(Select(AtKey(k), s));
  }

  lemma {:induction false} OverlayHasEntries(s: seq<Layer>)
    ensures Overlay(Select(HasEntries, s)) == Overlay(s)
  {
    if s != [] {
      OverlayHasEntries(s[..|s| - 1]);
      if s[|s| - 1].versions != map[] {
        assert Select(HasEntries, s)[..|Select(HasEntries, s)| - 1] == Select(HasEntries, s[..|s| - 1]);
      }
    }
  }

  // ----- resolution as four levels -----

  /** Adding a layer at the end of a list. */
  lemma PinnedSnoc(s: seq<Layer>, l: Layer, k: Key)
    ensures Pinned(s + [l], k) == if l.key == k then Pinned(s, k) + l.versions else Pinned(s, k)
  {
    assert (s + [l])[..|s|] == s;
    if l.key == k { assert (Select(AtKey(k), s) + [l])[..|Select(AtKey(k), s)|] == Select(AtKey(k), s); }
  }

  lemma PinnedNone(s: seq<Layer>, k: Key)
    requires forall l :: l in s ==> l.key != k
    ensures Pinned(s, k) == map[]
  {
    SelectNone(AtKey(k), s);
  }

  /** In a sorted list nothing stands behind a layer of a lower level. */
  lemma NothingAbove(s: seq<Layer>, x: Layer, k: Key)
    requires Sorted(KeyLe, s + [x]) && x.key != k && Inherits(k, x.key)
    ensures Pinned(s, k) == map[]
  {
    forall l | l in s ensures l.key != k {
      var i :| 0 <= i < |s| && s[i] == l;
      assert KeyLe((s + [x])[i], (s + [x])[|s|]);
      if l.key == k { SpecificAfterGeneric(l, x); }
    }
    PinnedNone(s, k);
  }

  /** In a sorted list the per-distribution level is still empty at a per-architecture layer. */
  lemma NoDistYet(s: seq<Layer>, x: Layer, k: Key)
    requires Sorted(KeyLe, s + [x]) && x.key.ctype == k.ctype && x.key.dist == ALL && k.dist != ALL
    ensures Pinned(s, k) == map[]
  {
    forall l | l in s ensures l.key != k {
      var i :| 0 <= i < |s| && s[i] == l;
      assert KeyLe((s + [x])[i], (s + [x])[|s|]);
      if l.key == k { DistAfterAll(l, x); }
    }
    PinnedNone(s, k);
  }

  lemma SnocSorted(s: seq<Layer>)
    requires s != [] && Sorted(KeyLe, s)
    ensures s == s[..|s| - 1] + [s[|s| - 1]] && Sorted(KeyLe, s[..|s| - 1])
  {
  }

  /** A layer that does not apply at `k` leaves the levels of `k` alone. */
  lemma LevelsSkip(s: seq<Layer>, x: Layer, k: Key)
    requires !Inherits(k, x.key)
    ensures Levels(s + [x], k) == Levels(s, k)
  {
    PinnedSnoc(s, x, Generic(k));
    PinnedSnoc(s, x, ForArch(k));
    PinnedSnoc(s, x, ForDist(k));
    PinnedSnoc(s, x, k);
  }

  /** The levels of `k` in front of which the layer `x` stands in sorted order. */
  ghost predicate OnTop(s: seq<Layer>, x: Layer, k: Key) {
    && (x.key != k ==> Pinned(s, k) == map[])
    && (x.key == Generic(k) != ForArch(k) ==> Pinned(s, ForArch(k)) == map[])
    && (x.key == Generic(k) != ForDist(k) ==> Pinned(s, ForDist(k)) == map[])
    && (x.key == ForArch(k) && k.dist != ALL ==> Pinned(s, ForDist(k)) == map[])
  }

  lemma SortedOnTop(s: seq<Layer>, x: Layer, k: Key)
    requires Sorted(KeyLe, s + [x]) && Inherits(k, x.key)
    ensures OnTop(s, x, k)
  {
    if x.key != k { NothingAbove(s, x, k); }
    if x.key == Generic(k) != ForArch(k) { NothingAbove(s, x, ForArch(k)); }
    if x.key == Generic(k) != ForDist(k) { NothingAbove(s, x, ForDist(k)); }
    if x.key == ForArch(k) && k.dist != ALL { NoDistYet(s, x, ForDist(k)); }
  }

  lemma BelowSnoc(s: seq<Layer>, x: Layer, k: Key)
    requires Inherits(k, x.key) && OnTop(s, x, k)
    ensures Below(s + [x], k) == if x.key == k then Below(s, k) else Below(s, k) + x.versions
  {
    LowerSnoc(s, x, Generic(k), k);
    LowerSnoc(s, x, ForArch(k), k);
    LowerSnoc(s, x, ForDist(k), k);
    if x.key != k {
      AddOne(Lower(s, Generic(k), k), Lower(s, ForArch(k), k), Lower(s, ForDist(k), k), x.versions);
    }
  }

  lemma LowerSnoc(s: seq<Layer>, x: Layer, q: Key, k: Key)
    ensures Lower(s + [x], q, k) == if x.key == q != k then Lower(s, q, k) + x.versions else Lower(s, q, k)
  {
    PinnedSnoc(s, x, q);
  }

  /** Adding `v` to one of three levels with nothing above it adds it to their overlay. */
  lemma AddOne(g: Versions, a: Versions, d: Versions, v: Versions)
    ensures a == d == map[] ==> (g + v) + a + d == g + a + d + v
    ensures d == map[] ==> g + (a + v) + d == g + a + d + v
    ensures g + a + (d + v) == g + a + d + v
  {
    AddEmpty(g); AddEmpty(g + v); AddEmpty(g + a); AddEmpty(g + (a + v));
    AddAssociative(g, a, v);
    AddAssociative(g + a, d, v);
  }

  lemma AddEmpty(m: Versions)
    ensures m + map[] == m && map[] + m == m
  {
  }

  lemma AddAssociative(a: Versions, b: Versions, c: Versions)
    ensures a + b + c == a + (b + c)
  {
  }

  /** The last layer of a sorted list, where it applies, is laid on top of the levels. */
  lemma LevelsSnoc(s: seq<Layer>, x: Layer, k: Key)
    requires Sorted(KeyLe, s + [x]) && Inherits(k, x.key)
    ensures Levels(s + [x], k) == Levels(s, k) + x.versions
  {
    SortedOnTop(s, x, k);
    BelowSnoc(s, x, k);
    PinnedSnoc(s, x, k);
    if x.key == k {
      AddAssociative(Below(s, k), Pinned(s, k), x.versions);
    } else {
      AddEmpty(Below(s, k)); AddEmpty(Below(s, k) + x.versions);
    }
  }

  /** What a sorted list supplies to a key is the overlay of the four levels. */
  lemma {:induction false} InheritedLevels(s: seq<Layer>, k: Key)
    requires Sorted(KeyLe, s)
    ensures Inherited(s, k) == Levels(s, k)
  {
    if s != [] {
      SnocSorted(s);
      var init, x := s[..|s| - 1], s[|s| - 1];
      InheritedLevels(init, k);
      if Inherits(k, x.key) {
        LevelsSnoc(init, x, k);
        var t := Select(AppliesAt(k), init);
        assert (t + [x])[..|t|] == t;
      } else {
        LevelsSkip(init, x, k);
      }
    }
  }

  lemma ResolveLevels(s: seq<Layer>, k: Key)
    ensures Resolve(s, k) == Levels(s, k)
  {
    var t := Select(OfType(k.ctype), s);
    SortIsSorted(t);
    InheritedLevels(Sort(KeyLe, t), k);
    PinnedSort(t, Generic(k)); PinnedOfType(s, Generic(k));
    PinnedSort(t, ForArch(k)); PinnedOfType(s, ForArch(k));
    PinnedSort(t, ForDist(k)); PinnedOfType(s, ForDist(k));
    PinnedSort(t, k); PinnedOfType(s, k);
  }

  lemma {:induction false} MergeAtIndex(s: seq<Layer>, k: Key, m: Versions, i: nat)
    requires i < |s|
    ensures MergeAt(s, k, m)[i] == if s[i].key == k then s[i].(versions := s[i].versions + m) else s[i]
  {
    if i < |s| - 1 { MergeAtIndex(s[..|s| - 1], k, m, i); }
  }
}
