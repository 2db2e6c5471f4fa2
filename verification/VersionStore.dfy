/** Modules written to and loaded from a directory of version files. */
module VersionStore {
  import opened StableSort
  import opened Text
  import opened UnitLines
  import opened VersionLayers
  import opened VersionLaws
  import opened VersionTheorems
  import opened VersionDelta
  import opened VersionFiles
  import VersionManager

  type Component = VersionManager.Component
  type VersionModule = VersionManager.VersionModule

  /** File names of a directory and what is in the files. */
  type Files = map<string, string>

  predicate IsVersionFile(name: string) {
    PREFIX <= name
  }

  predicate PythonPath(path: string) {
    var p := LowerCase(path);
    Contains(p, "py2") || Contains(p, "py3")
  }

  function PathTo(directory: string, name: string): string {
    directory + "/" + name
  }

  // ----- one file -----

  /** Reads a version file, if there is one. */
  method GetVersions(path: string, file: Option<string>) returns (result: Versions)
    ensures result == if file.Some? then Read(PythonPath(path), file.value) else map[]
  {
    result := map[];
    if file.None? {
      return;
    }
    var python := PythonPath(path);
    var ls := Lines(Universal(file.value));
    for i := 0 to |ls|
      invariant result == Reading(LineReader(python), ls[..i])
    {
      assert ls[..i + 1][..i] == ls[..i];
      var offset := LastPair(ls[i]);
      if offset > 0 {
        var package := Strip(ls[i][..offset]);
        if python {
          package := LowerCase(package);
        }
        result := result[package := Strip(ls[i][offset + 2..])];
      }
    }
    assert ls[..|ls|] == ls;
  }

  lemma FoldLePreorder()
    ensures TotalPreorder(FoldLe)
  {
    forall x: string, y: string ensures FoldLe(x, y) || FoldLe(y, x) { StringLeTotal(LowerCase(x), LowerCase(y)); }
    forall x: string, y: string, z: string | FoldLe(x, y) && FoldLe(y, z) ensures FoldLe(x, z) {
      StringLeTransitive(LowerCase(x), LowerCase(y), LowerCase(z));
    }
  }

  lemma {:induction false} DistinctMultiset(s: seq<string>)
    ensures (forall i, j :: 0 <= i < j < |s| ==> s[i] != s[j]) <==> forall x :: multiset(s)[x] <= 1
  {
    if s != [] {
      var n := |s| - 1;
      assert s == s[..n] + [s[n]];
      DistinctMultiset(s[..n]);
      if s[n] in s[..n] {
        assert multiset(s)[s[n]] == multiset(s[..n])[s[n]] + 1 >= 2;
        var i :| 0 <= i < n && s[i] == s[n];
      } else {
        assert multiset(s[..n])[s[n]] == 0;
        forall x ensures multiset(s)[x] == if x == s[n] then 1 else multiset(s[..n])[x] {}
      }
    }
  }

  /** Sorting lists the same packages. */
  lemma {:induction false} SortEnumerates(keys: seq<string>, m: Versions)
    requires Enumerates(keys, m)
    ensures Enumerates(Sort(FoldLe, keys), m) && Sorted(FoldLe, Sort(FoldLe, keys))
  {
    var r := Sort(FoldLe, keys);
    FoldLePreorder();
    SortSorted(FoldLe, keys);
    DistinctMultiset(keys);
    DistinctMultiset(r);
    forall p ensures p in r <==> p in keys {
      assert p in r <==> p in multiset(r);
      assert p in keys <==> p in multiset(keys);
    }
  }

  /** The packages of a dictionary, in the order it happens to have. */
  method Packages(m: Versions) returns (keys: seq<string>)
    ensures Enumerates(keys, m)
  {
    keys := [];
    var todo := m.Keys;
    while todo != {}
      invariant todo <= m.Keys
      invariant forall p :: p in keys <==> p in m && p !in todo
      invariant forall i, j :: 0 <= i < j < |keys| ==> keys[i] != keys[j]
      decreases todo
    {
      var p :| p in todo;
      keys := keys + [p];
      todo := todo - {p};
    }
  }

  /** Writes versions, one line for each package, sorted without regard to case. */
  method Dump(versions: Versions) returns (text: string)
    ensures IsDump(text, versions)
  {
    var any := Packages(versions);
    var keys := Sort(FoldLe, any);
    SortEnumerates(any, versions);
    var result: seq<string> := [];
    for i := 0 to |keys|
      invariant result == Items(versions, keys)[..i]
    {
      result := result + [Item(keys[i], versions[keys[i]])];
    }
    assert result == Items(versions, keys);
    text := Join(result, "\n") + "\n";
  }

  // ----- a directory -----

  function OtherFiles(files: Files): Files {
    map name | name in files && !IsVersionFile(name) :: files[name]
  }

  /** The directory after the layers `s` are written as `texts`; a layer without entries gets no file. */
  function Stored(files: Files, s: seq<Layer>, texts: seq<string>): Files
    requires |s| == |texts|
  {
    if s == [] then OtherFiles(files)
    else
      var n := |s| - 1;
      var r := Stored(files, s[..n], texts[..n]);
      if s[n].versions == map[] then r else r[FileName(s[n].key) := texts[n]]
  }

  ghost predicate AreDumps(texts: seq<string>, s: seq<Layer>) {
    |texts| == |s| && (s != [] ==> IsDump(texts[|s| - 1], s[|s| - 1].versions) && AreDumps(texts[..|s| - 1], s[..|s| - 1]))
  }

  /** Replaces the version files of a directory by those of a module. */
  method DumpModule(m: VersionModule, files: Files) returns (r: Files, ghost texts: seq<string>)
    ensures AreDumps(texts, m.View()) && r == Stored(files, m.View(), texts)
  {
    ghost var s := m.View();
    var cs := m.components;
    r, texts := OtherFiles(files), [];
    VersionManager.ViewsAt(cs);
    for i := 0 to |cs|
      invariant AreDumps(texts, s[..i]) && r == Stored(files, s[..i], texts)
    {
      var text := Dump(cs[i].versions);
      StoredSnoc(files, s, i, texts, text);
      if cs[i].versions != map[] {
        r := r[FileName(cs[i].key) := text];
      }
      texts := texts + [text];
    }
    assert s[..|cs|] == s;
  }

  lemma {:induction false} StoredSnoc(files: Files, s: seq<Layer>, i: nat, texts: seq<string>, text: string)
    requires i < |s| && AreDumps(texts, s[..i]) && IsDump(text, s[i].versions)
    ensures AreDumps(texts + [text], s[..i + 1])
    ensures var r := Stored(files, s[..i], texts);
            Stored(files, s[..i + 1], texts + [text]) == if s[i].versions == map[] then r else r[FileName(s[i].key) := text]
  {
    assert s[..i + 1][..i] == s[..i] && (texts + [text])[..i] == texts;
  }

  /** The versions in a file with a name and a text. */
  type FileReader = (string, string) -> Versions

  function ReaderIn(directory: string): FileReader {
    (name: string, text: string) => Read(PythonPath(PathTo(directory, name)), text)
  }

  datatype Filter = Filter(ctype: string, dist: string, arch: string)

  /** The layer in a file, if its name has a key and the filter lets it pass. */
  function LoadedFile(read: FileReader, name: string, text: string, f: Filter): seq<Layer> {
    var k := KeyOf(name);
    if k.None? then []
    else
      var l := Layer(k.value, read(name, text));
      if f.ctype in {"", l.key.ctype} && Picks(Loaded(f.dist, f.arch), l) then [l] else []
  }

  function LoadedFiles(read: FileReader, files: Files, names: seq<string>, f: Filter): seq<Layer>
    requires forall name :: name in names ==> name in files
  {
    if names == [] then []
    else
      var n := |names| - 1;
      LoadedFiles(read, files, names[..n], f) + LoadedFile(read, names[n], files[names[n]], f)
  }

  /** A component for a file, unless its name has no key or the filter keeps it out. */
  method LoadFile(directory: string, name: string, text: string, f: Filter) returns (c: Option<Component>)
    ensures LoadedFile(ReaderIn(directory), name, text, f) == if c.Some? then [c.value.View()] else []
    ensures c.Some? ==> fresh(c.value)
  {
    var items := Split(name, '-');
    if |items| < 2 || (f.ctype != "" && f.ctype != items[1]) {
      return None;
    }
    var dist := if |items| > 2 then items[2] else "";
    if f.dist != "" && dist != "" && f.dist != dist && dist != ALL {
      return None;
    }
    var arch := if |items| > 3 then items[3] else "";
    if f.arch != "" && arch != "" && f.arch != arch && arch != ALL {
      return None;
    }
    var versions := GetVersions(PathTo(directory, name), Some(text));
    var component := new VersionManager.Component(versions, items[1], dist, arch);
    c := Some(component);
  }

  /** Loads a module from the version files of a directory, in the order in which they are listed. */
  method Load(m: VersionModule, directory: string, files: Files, names: seq<string>, f: Filter)
    requires forall name :: name in names ==> name in files
    modifies m
    ensures m.Valid() && fresh(VersionManager.Footprint(m.components))
    ensures m.View() == LoadedFiles(ReaderIn(directory), files, names, f)
  {
    m.components := [];
    for i := 0 to |names|
      invariant m.Valid() && fresh(VersionManager.Footprint(m.components))
      invariant m.View() == LoadedFiles(ReaderIn(directory), files, names[..i], f)
    {
      assert names[..i + 1][..i] == names[..i] && names[i] in names;
      ghost var cs := m.components;
      var c := LoadFile(directory, names[i], files[names[i]], f);
      if c.Some? {
        VersionManager.ViewsSnoc(cs, c.value);
        VersionManager.SeparateSnoc(cs, c.value);
        VersionManager.FootprintSnoc(cs, c.value);
        m.components := m.components + [c.value];
      }
    }
    assert names[..|names|] == names;
  }

  // ----- loading gives back what was stored -----

  lemma {:induction false} DumpAt(texts: seq<string>, s: seq<Layer>, i: nat)
    requires AreDumps(texts, s) && i < |s|
    ensures IsDump(texts[i], s[i].versions)
  {
    var n := |s| - 1;
    if i < n { DumpAt(texts[..n], s[..n], i); }
  }

  predicate NoDashes(s: seq<Layer>) {
    forall i :: 0 <= i < |s| ==> NoDash(s[i].key)
  }

  /** Different keys have different files. */
  lemma FileNameInjective(a: Key, b: Key)
    requires NoDash(a) && NoDash(b) && FileName(a) == FileName(b)
    ensures a == b
  {
    FileNameExact(a);
    FileNameExact(b);
  }

  lemma FileNamePrefix(k: Key)
    ensures IsVersionFile(FileName(k))
  {
  }

  /** No file is written over by another layer. */
  lemma {:induction false} StoredAt(files: Files, s: seq<Layer>, texts: seq<string>, i: nat)
    requires |s| == |texts| && DistinctKeys(s) && NoDashes(s) && i < |s| && s[i].versions != map[]
    ensures FileName(s[i].key) in Stored(files, s, texts) && Stored(files, s, texts)[FileName(s[i].key)] == texts[i]
  {
    var n := |s| - 1;
    if i < n {
      StoredAt(files, s[..n], texts[..n], i);
      if FileName(s[i].key) == FileName(s[n].key) { FileNameInjective(s[i].key, s[n].key); }
    }
  }

  /** Every version file is that of a layer. */
  lemma {:induction false} StoredFrom(files: Files, s: seq<Layer>, texts: seq<string>, name: string) returns (i: nat)
    requires |s| == |texts| && IsVersionFile(name) && name in Stored(files, s, texts)
    ensures i < |s| && s[i].versions != map[] && FileName(s[i].key) == name
  {
    var n := |s| - 1;
    if s[n].versions != map[] && FileName(s[n].key) == name {
      i := n;
    } else {
      i := StoredFrom(files, s[..n], texts[..n], name);
    }
  }

  /** Other files are left alone. */
  lemma {:induction false} OthersKept(files: Files, s: seq<Layer>, texts: seq<string>, name: string)
    requires |s| == |texts| && !IsVersionFile(name)
    ensures name in Stored(files, s, texts) <==> name in files
    ensures name in files ==> Stored(files, s, texts)[name] == files[name]
  {
    var n := |s| - 1;
    if s != [] {
      OthersKept(files, s[..n], texts[..n], name);
      FileNamePrefix(s[n].key);
    }
  }

  /** `names` lists each version file of a directory once. */
  predicate Listed(names: seq<string>, files: Files) {
    && (forall name :: name in names ==> name in files && IsVersionFile(name))
    && (forall name :: name in files && IsVersionFile(name) ==> name in names)
    && forall i, j :: 0 <= i < j < |names| ==> names[i] != names[j]
  }

  const EVERYTHING := Filter("", "", "")

  lemma {:induction false} LoadedMembers(read: FileReader, files: Files, names: seq<string>, f: Filter, l: Layer)
    requires forall name :: name in names ==> name in files
    ensures l in LoadedFiles(read, files, names, f) <==>
            exists i :: 0 <= i < |names| && l in LoadedFile(read, names[i], files[names[i]], f)
  {
    if names != [] {
      var n := |names| - 1;
      LoadedMembers(read, files, names[..n], f, l);
      SomeOfSnoc(name requires name in files => l in LoadedFile(read, name, files[name], f), names);
    }
  }

  lemma SomeOfSnoc(p: string --> bool, names: seq<string>)
    requires names != [] && forall i :: 0 <= i < |names| ==> p.requires(names[i])
    ensures var n := |names| - 1;
            (exists i :: 0 <= i < |names| && p(names[i])) <==> p(names[n]) || exists i :: 0 <= i < n && p(names[..n][i])
  {
    var n := |names| - 1;
    if i :| 0 <= i < n && p(names[i]) { assert p(names[..n][i]); }
    if i :| 0 <= i < n && p(names[..n][i]) { assert p(names[i]); }
  }

  /** What a layer comes back as. */
  function Restored(directory: string, k: Key, text: string): Layer {
    Layer(k, Read(PythonPath(PathTo(directory, FileName(k))), text))
  }

  lemma LoadedOwn(directory: string, k: Key, text: string)
    requires NoDash(k)
    ensures LoadedFile(ReaderIn(directory), FileName(k), text, EVERYTHING) == [Restored(directory, k, text)]
  {
    FileNameExact(k);
  }

  /** A stored layer is loaded as what its file is read as. */
  lemma {:induction false} LoadedStored(directory: string, files: Files, s: seq<Layer>, texts: seq<string>, names: seq<string>, i: nat)
    requires |s| == |texts| && DistinctKeys(s) && NoDashes(s) && Listed(names, Stored(files, s, texts))
    requires i < |s| && s[i].versions != map[]
    ensures Restored(directory, s[i].key, texts[i]) in LoadedFiles(ReaderIn(directory), Stored(files, s, texts), names, EVERYTHING)
  {
    var r := Stored(files, s, texts);
    StoredAt(files, s, texts, i);
    FileNamePrefix(s[i].key);
    var j :| 0 <= j < |names| && names[j] == FileName(s[i].key);
    LoadedOwn(directory, s[i].key, texts[i]);
    LoadedMembers(ReaderIn(directory), r, names, EVERYTHING, Restored(directory, s[i].key, texts[i]));
  }

  /** A loaded layer is what the file of a stored layer is read as. */
  lemma LoadedFrom(directory: string, files: Files, s: seq<Layer>, texts: seq<string>, names: seq<string>, l: Layer)
    returns (i: nat)
    requires |s| == |texts| && DistinctKeys(s) && NoDashes(s) && Listed(names, Stored(files, s, texts))
    requires l in LoadedFiles(ReaderIn(directory), Stored(files, s, texts), names, EVERYTHING)
    ensures i < |s| && s[i].versions != map[] && l == Restored(directory, s[i].key, texts[i])
  {
    var r := Stored(files, s, texts);
    LoadedMembers(ReaderIn(directory), r, names, EVERYTHING, l);
    var j :| 0 <= j < |names| && l in LoadedFile(ReaderIn(directory), names[j], r[names[j]], EVERYTHING);
    assert names[j] in names;
    i := StoredFrom(files, s, texts, names[j]);
    StoredAt(files, s, texts, i);
    LoadedOwn(directory, s[i].key, texts[i]);
  }

  /** The versions of a layer survive in the file of that layer. */
  predicate Survives(directory: string, l: Layer) {
    Clean(PythonPath(PathTo(directory, FileName(l.key))), l.versions)
  }

  lemma RestoredExact(directory: string, l: Layer, text: string)
    requires IsDump(text, l.versions)
    ensures Restored(directory, l.key, text) == l <==> Survives(directory, l)
  {
    FileExact(PythonPath(PathTo(directory, FileName(l.key))), l.versions, text);
  }

  /** `r` is `s` without the layers that have no entries, in any order. */
  ghost predicate SameLayers(r: seq<Layer>, s: seq<Layer>) {
    forall l :: l in r <==> l in s && l.versions != map[]
  }

  /** A module that is written and loaded comes back, layers without entries aside, exactly when every
      layer survives in its file. */
  lemma {:induction false} DirectoryExact(directory: string, files: Files, s: seq<Layer>, texts: seq<string>, names: seq<string>)
    requires AreDumps(texts, s) && DistinctKeys(s) && NoDashes(s) && Listed(names, Stored(files, s, texts))
    ensures SameLayers(LoadedFiles(ReaderIn(directory), Stored(files, s, texts), names, EVERYTHING), s) <==>
            forall l :: l in s ==> Survives(directory, l)
  {
    var r := LoadedFiles(ReaderIn(directory), Stored(files, s, texts), names, EVERYTHING);
    if SameLayers(r, s) {
      forall l | l in s ensures Survives(directory, l) {
        if l.versions != map[] {
          var j := LoadedFrom(directory, files, s, texts, names, l);
          assert s[j].key == l.key;
          var i :| 0 <= i < |s| && s[i] == l;
          assert i == j;
          DumpAt(texts, s, i);
          RestoredExact(directory, l, texts[i]);
        }
      }
    } else if forall l :: l in s ==> Survives(directory, l) {
      AllRestored(directory, files, s, texts, names);
    }
  }

  lemma {:induction false} PythonDirectory(directory: string, name: string)
    requires PythonPath(directory)
    ensures PythonPath(PathTo(directory, name))
  {
    var d, p := LowerCase(directory), LowerCase(PathTo(directory, name));
    assert forall i :: 0 <= i < |d| ==> d[i] == p[i];
    var t := if Contains(d, "py2") then "py2" else "py3";
    var i :| 0 <= i <= |d| && OccursAt(d, t, i);
    assert p[i..i + 3] == d[i..i + 3];
    assert OccursAt(p, t, i);
  }

  lemma {:induction false} OneDump(p: string, v: string)
    ensures IsDump(Item(p, v) + "\n", map[p := v])
  {
    var m, keys := map[p := v], [p];
    assert Items(m, keys) == [Item(p, v)];
    assert Join(Items(m, keys), "\n") == Item(p, v);
    assert Enumerates(keys, m) && Sorted(FoldLe, keys);
  }

  /** In a directory named for Python, a package of any kind whose name has capitals does not come back. */
  lemma {:induction false} CapitalsLost(directory: string, k: Key, p: string, v: string)
    requires PythonPath(directory) && NoDash(k) && LowerCase(p) != p
    ensures var s, texts, names := [Layer(k, map[p := v])], [Item(p, v) + "\n"], [FileName(k)];
            && AreDumps(texts, s) && DistinctKeys(s) && NoDashes(s) && Listed(names, Stored(map[], s, texts))
            && !SameLayers(LoadedFiles(ReaderIn(directory), Stored(map[], s, texts), names, EVERYTHING), s)
  {
    var l, text := Layer(k, map[p := v]), Item(p, v) + "\n";
    var s, texts, names := [l], [text], [FileName(k)];
    OneDump(p, v);
    assert s[..0] == [] && texts[..0] == [];
    assert AreDumps([], []) && Stored(map[], [], []) == map[];
    assert Stored(map[], s, texts) == map[FileName(k) := text];
    PythonDirectory(directory, FileName(k));
    assert p in l.versions && l in s && !Survives(directory, l);
    DirectoryExact(directory, map[], s, texts, names);
  }

  lemma {:induction false} AllRestored(directory: string, files: Files, s: seq<Layer>, texts: seq<string>, names: seq<string>)
    requires AreDumps(texts, s) && DistinctKeys(s) && NoDashes(s) && Listed(names, Stored(files, s, texts))
    requires forall l :: l in s ==> Survives(directory, l)
    ensures SameLayers(LoadedFiles(ReaderIn(directory), Stored(files, s, texts), names, EVERYTHING), s)
  {
    var r := LoadedFiles(ReaderIn(directory), Stored(files, s, texts), names, EVERYTHING);
    forall l | l in r ensures l in s && l.versions != map[] {
      var i := LoadedFrom(directory, files, s, texts, names, l);
      DumpAt(texts, s, i);
      RestoredExact(directory, s[i], texts[i]);
    }
    forall l | l in s && l.versions != map[] ensures l in r {
      var i :| 0 <= i < |s| && s[i] == l;
      LoadedStored(directory, files, s, texts, names, i);
      DumpAt(texts, s, i);
      RestoredExact(directory, s[i], texts[i]);
    }
  }

  // ----- and targets resolve to the same -----

  /** Loading with a filter is loading everything and keeping the layers that it lets pass. */
  lemma {:induction false} LoadedFiltered(read: FileReader, files: Files, names: seq<string>, dist: string, arch: string)
    requires forall name :: name in names ==> name in files
    ensures LoadedFiles(read, files, names, Filter("", dist, arch)) ==
            Select(Loaded(dist, arch), LoadedFiles(read, files, names, EVERYTHING))
  {
    if names != [] {
      var n := |names| - 1;
      LoadedFiltered(read, files, names[..n], dist, arch);
      OneFiltered(read, names[n], files[names[n]], dist, arch);
      SelectConcat(Loaded(dist, arch), LoadedFiles(read, files, names[..n], EVERYTHING),
                   LoadedFile(read, names[n], files[names[n]], EVERYTHING));
    }
  }

  lemma OneFiltered(read: FileReader, name: string, text: string, dist: string, arch: string)
    ensures LoadedFile(read, name, text, Filter("", dist, arch)) ==
            Select(Loaded(dist, arch), LoadedFile(read, name, text, EVERYTHING))
  {
    if KeyOf(name).Some? {
      SelectSnoc(Loaded(dist, arch), [], Layer(KeyOf(name).value, read(name, text)));
    }
  }

  /** All layers of `r` with the key of `l` are `l`. */
  lemma {:induction false} PinnedOnly(r: seq<Layer>, l: Layer)
    requires l in r && forall x :: x in r && x.key == l.key ==> x == l
    ensures Pinned(r, l.key) == l.versions
  {
    var n := |r| - 1;
    assert r == r[..n] + [r[n]];
    PinnedSnoc(r[..n], r[n], l.key);
    if l in r[..n] {
      PinnedOnly(r[..n], l);
    } else {
      PinnedNone(r[..n], l.key);
    }
  }

  lemma SamePinned(r: seq<Layer>, s: seq<Layer>, k: Key)
    requires SameLayers(r, s) && DistinctKeys(s)
    ensures Pinned(r, k) == Pinned(s, k)
  {
    if l :| l in s && l.key == k {
      DistinctPinned(s, l);
      forall x | x in r && x.key == k ensures x == l {
        var i, j :| 0 <= i < |s| && s[i] == x && 0 <= j < |s| && s[j] == l;
      }
      if l.versions != map[] { PinnedOnly(r, l); } else { PinnedNone(r, k); }
    } else {
      PinnedNone(s, k);
      PinnedNone(r, k);
    }
  }

  lemma SameResolve(r: seq<Layer>, s: seq<Layer>, k: Key)
    requires SameLayers(r, s) && DistinctKeys(s)
    ensures Resolve(r, k) == Resolve(s, k)
  {
    SamePinned(r, s, Generic(k)); SamePinned(r, s, ForArch(k)); SamePinned(r, s, ForDist(k)); SamePinned(r, s, k);
    LevelsFrom(r, s, k);
    ResolveLevels(r, k);
    ResolveLevels(s, k);
  }

  lemma {:induction false} LoadedPinned(s: seq<Layer>, k: Key, dist: string, arch: string)
    requires Picks(Loaded(dist, arch), Layer(k, map[]))
    ensures Pinned(Select(Loaded(dist, arch), s), k) == Pinned(s, k)
  {
    SelectNarrower(Loaded(dist, arch), AtKey(k), s);
  }

  lemma {:induction false} FilteredResolve(s: seq<Layer>, k: Key, dist: string, arch: string)
    requires dist in {"", k.dist} && arch in {"", k.arch}
    ensures Resolve(Select(Loaded(dist, arch), s), k) == Resolve(s, k)
  {
    var r := Select(Loaded(dist, arch), s);
    LoadedPinned(s, Generic(k), dist, arch); LoadedPinned(s, ForArch(k), dist, arch);
    LoadedPinned(s, ForDist(k), dist, arch); LoadedPinned(s, k, dist, arch);
    LevelsFrom(r, s, k);
    ResolveLevels(r, k);
    ResolveLevels(s, k);
  }

  /** A target resolves to the same versions after its module is written and loaded, with the target's own
      filter or without one. */
  lemma {:induction false} StoredResolves(directory: string, files: Files, s: seq<Layer>, texts: seq<string>, names: seq<string>, k: Key,
                       dist: string, arch: string)
    requires AreDumps(texts, s) && DistinctKeys(s) && NoDashes(s) && Listed(names, Stored(files, s, texts))
    requires forall l :: l in s ==> Survives(directory, l)
    requires dist in {"", k.dist} && arch in {"", k.arch}
    ensures Resolve(LoadedFiles(ReaderIn(directory), Stored(files, s, texts), names, Filter("", dist, arch)), k) == Resolve(s, k)
  {
    var r := LoadedFiles(ReaderIn(directory), Stored(files, s, texts), names, EVERYTHING);
    DirectoryExact(directory, files, s, texts, names);
    SameResolve(r, s, k);
    LoadedFiltered(ReaderIn(directory), Stored(files, s, texts), names, dist, arch);
    FilteredResolve(r, k, dist, arch);
  }
}
