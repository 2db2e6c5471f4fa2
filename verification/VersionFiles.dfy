/** Version files: one line per package, under a file name that carries the layer's key. */
module VersionFiles {
  import opened StableSort
  import opened Text
  import opened UnitLines
  import opened VersionLayers

  // ----- one line -----

  function LowerChar(c: char): char {
    if 'A' <= c <= 'Z' then (c as int + 32) as char else c
  }

  function LowerCase(s: string): (r: string)
    ensures |r| == |s|
  {
    seq(|s|, i requires 0 <= i < |s| => LowerChar(s[i]))
  }

  predicate PairAt(s: string, i: int) {
    0 <= i < |s| - 1 && s[i] == '=' && s[i + 1] == '='
  }

  /** Where the last "==" starts, or -1. */
  function LastPair(s: string): (r: int)
    ensures r <= |s| - 2 || r == -1
  {
    if |s| < 2 then -1
    else if s[|s| - 2] == '=' && s[|s| - 1] == '=' then |s| - 2
    else LastPair(s[..|s| - 1])
  }

  lemma {:induction false} LastPairIs(s: string)
    ensures LastPair(s) == -1 || PairAt(s, LastPair(s))
    ensures forall i :: PairAt(s, i) ==> i <= LastPair(s)
  {
    if |s| >= 2 && !PairAt(s, |s| - 2) {
      var t := s[..|s| - 1];
      LastPairIs(t);
      forall i | PairAt(s, i) ensures i <= LastPair(s) {
        assert i != |s| - 2;
        assert PairAt(t, i);
      }
    }
  }

  /** The package name in front of the separator; Python package names are read in lower case. */
  function Package(python: bool, s: string): string {
    if python then LowerCase(Strip(s)) else Strip(s)
  }

  /** The package and version of a line, if it has a separator that is not at its start. */
  function Entry(python: bool, line: string): Option<(string, string)> {
    var offset := LastPair(line);
    if offset > 0 then Some((Package(python, line[..offset]), Strip(line[offset + 2..]))) else None
  }

  function Item(p: string, v: string): string {
    p + "==" + v
  }

  predicate Single(s: string) {
    forall i :: 0 <= i < |s| ==> !PairAt(s, i)
  }

  /** What a line can carry. */
  predicate EntryClean(python: bool, p: string, v: string) {
    p != "" && Trimmed(p) && Trimmed(v) && (python ==> LowerCase(p) == p) && Single("=" + v)
  }

  lemma ItemPair(p: string, v: string)
    ensures var offset := LastPair(Item(p, v) + "\n");
            |p| <= offset <= |p| + |v| && (offset == |p| <==> Single("=" + v))
  {
    var s, t := Item(p, v) + "\n", "=" + v;
    var offset := LastPair(s);
    LastPairIs(s);
    assert PairAt(s, |p|);
    forall i | 0 <= i < |t| ensures s[|p| + 1 + i] == t[i] {}
    if offset > |p| { assert PairAt(t, offset - |p| - 1); }
    forall i | PairAt(t, i) ensures PairAt(s, |p| + 1 + i) {}
  }

  lemma {:induction false} StripNewline(s: string)
    ensures Strip(s + "\n") == Strip(s)
  {
    if s == "" {
      assert StripLeft("\n"[1..]) == "";
    } else if IsSpace(s[0]) {
      assert (s + "\n")[1..] == s[1..] + "\n";
      StripNewline(s[1..]);
    } else {
      assert (s + "\n")[..|s|] == s;
    }
  }

  lemma {:induction false} StripLeftShorter(s: string)
    ensures |StripLeft(s)| < |s| || StripLeft(s) == s
  {
  }

  lemma {:induction false} StripRightShorter(s: string)
    ensures |StripRight(s)| < |s| || StripRight(s) == s
  {
  }

  lemma StripShorter(s: string)
    ensures |Strip(s)| < |s| || Strip(s) == s
  {
    StripLeftShorter(s);
    StripRightShorter(StripLeft(s));
  }

  /** What a written line is read as. */
  lemma EntryOfItem(python: bool, p: string, v: string)
    ensures var t := Item(p, v);
            var offset := LastPair(t + "\n");
            && 0 <= offset <= |p| + |v|
            && Entry(python, t + "\n") ==
               if offset > 0 then Some((Package(python, t[..offset]), Strip(t[offset + 2..]))) else None
  {
    var t := Item(p, v);
    ItemPair(p, v);
    var offset := LastPair(t + "\n");
    assert (t + "\n")[..offset] == t[..offset];
    assert (t + "\n")[offset + 2..] == t[offset + 2..] + "\n";
    StripNewline(t[offset + 2..]);
  }

  lemma PackageExact(python: bool, p: string)
    ensures Package(python, p) == p <==> Trimmed(p) && (python ==> LowerCase(p) == p)
    ensures |Package(python, p)| < |p| || Package(python, p) == p || (python && Package(python, p) == LowerCase(p) != p)
  {
    StripTrims(p);
    StripShorter(p);
  }

  /** A written line is read back exactly when it is clean. */
  lemma EntryExact(python: bool, p: string, v: string)
    ensures Entry(python, Item(p, v) + "\n") == Some((p, v)) <==> EntryClean(python, p, v)
  {
    var t := Item(p, v);
    var offset := LastPair(t + "\n");
    ItemPair(p, v);
    EntryOfItem(python, p, v);
    if offset == |p| {
      assert t[..offset] == p && t[offset + 2..] == v;
      StripTrims(v);
      PackageExact(python, p);
    } else {
      StripShorter(t[offset + 2..]);
    }
  }

  // ----- how far a line is from what it is read as -----

  predicate Shorter(python: bool, a: (string, string), b: (string, string)) {
    || |a.0| + |a.1| < |b.0| + |b.1|
    || (|a.0| + |a.1| == |b.0| + |b.1| && |a.1| < |b.1|)
    || (|a.0| == |b.0| && |a.1| == |b.1| && python && LowerCase(a.0) == a.0 && LowerCase(b.0) != b.0)
  }

  /** A line is read as what was written, or as something smaller. */
  lemma ReadShorter(python: bool, p: string, v: string)
    ensures var e := Entry(python, Item(p, v) + "\n");
            e.None? || e.value == (p, v) || Shorter(python, e.value, (p, v))
  {
    var t := Item(p, v);
    var offset := LastPair(t + "\n");
    ItemPair(p, v);
    EntryOfItem(python, p, v);
    var name, rest := t[..offset], t[offset + 2..];
    StripShorter(rest);
    PackageExact(python, name);
    if offset == |p| {
      assert name == p && rest == v;
      LowerTwice(p);
    }
  }

  lemma LowerTwice(s: string)
    ensures LowerCase(LowerCase(s)) == LowerCase(s)
  {
  }

  // ----- a file -----

  /** Text as it is read: every kind of line end becomes a newline. */
  function Universal(s: string): string {
    if s == "" then ""
    else if s[0] != '\r' then [s[0]] + Universal(s[1..])
    else if |s| > 1 && s[1] == '\n' then "\n" + Universal(s[2..])
    else "\n" + Universal(s[1..])
  }

  type Reader = string -> Option<(string, string)>

  function LineReader(python: bool): Reader {
    line => Entry(python, line)
  }

  function Reading(entry: Reader, ls: seq<string>): Versions {
    if ls == [] then map[]
    else
      var m, e := Reading(entry, ls[..|ls| - 1]), entry(ls[|ls| - 1]);
      if e.Some? then m[e.value.0 := e.value.1] else m
  }

  /** The versions in a file. */
  function Read(python: bool, text: string): Versions {
    Reading(LineReader(python), Lines(Universal(text)))
  }

  predicate FoldLe(a: string, b: string) {
    StringLe(LowerCase(a), LowerCase(b))
  }

  function Items(m: Versions, keys: seq<string>): (r: seq<string>)
    requires forall p :: p in keys ==> p in m
    ensures |r| == |keys| && forall i :: 0 <= i < |keys| ==> r[i] == Item(keys[i], m[keys[i]])
  {
    seq(|keys|, i requires 0 <= i < |keys| => Item(keys[i], m[keys[i]]))
  }

  ghost predicate Enumerates(keys: seq<string>, m: Versions) {
    && (forall p :: p in keys <==> p in m)
    && forall i, j :: 0 <= i < j < |keys| ==> keys[i] != keys[j]
  }

  /** A text that writing the versions may give: the order of packages that differ only in case is free. */
  ghost predicate IsDump(text: string, m: Versions) {
    exists keys :: Enumerates(keys, m) && Sorted(FoldLe, keys) && text == Join(Items(m, keys), "\n") + "\n"
  }

  predicate OneLine(s: string) {
    '\n' !in s && '\r' !in s
  }

  /** Versions that a file can hold. */
  predicate Clean(python: bool, m: Versions) {
    forall p :: p in m ==> EntryClean(python, p, m[p]) && OneLine(p) && OneLine(m[p])
  }

  lemma {:induction false} UniversalOneLine(s: string)
    ensures '\r' !in Universal(s)
    ensures '\r' !in s ==> Universal(s) == s
  {
    if s != "" {
      UniversalOneLine(s[1..]);
      if |s| > 1 { UniversalOneLine(s[2..]); }
    }
  }

  /** Whatever is read comes from one of the lines. */
  lemma {:induction false} ReadingFrom(entry: Reader, ls: seq<string>, p: string)
    requires p in Reading(entry, ls)
    ensures exists i :: 0 <= i < |ls| && entry(ls[i]) == Some((p, Reading(entry, ls)[p]))
  {
    var n := |ls| - 1;
    var e := entry(ls[n]);
    if e.None? || e.value.0 != p {
      ReadingFrom(entry, ls[..n], p);
      var i :| 0 <= i < n && entry(ls[..n][i]) == Some((p, Reading(entry, ls)[p]));
      assert ls[i] == ls[..n][i];
    }
  }

  /** Lines that say what `m` says are read as that part of `m`. */
  lemma {:induction false} ReadingAgrees(entry: Reader, ls: seq<string>, keys: seq<string>, m: Versions)
    requires |ls| == |keys| && forall i :: 0 <= i < |ls| ==> keys[i] in m && entry(ls[i]) == Some((keys[i], m[keys[i]]))
    ensures forall p :: p in Reading(entry, ls) <==> p in keys
    ensures forall p :: p in keys ==> Reading(entry, ls)[p] == m[p]
  {
    if ls != [] {
      var n := |ls| - 1;
      ReadingAgrees(entry, ls[..n], keys[..n], m);
      assert keys == keys[..n] + [keys[n]];
    }
  }

  function Terminated(items: seq<string>): (r: seq<string>)
    ensures |r| == |items| && forall i :: 0 <= i < |items| ==> r[i] == items[i] + "\n"
  {
    seq(|items|, i requires 0 <= i < |items| => items[i] + "\n")
  }

  lemma {:induction false} JoinTerminated(items: seq<string>)
    requires items != []
    ensures Join(items, "\n") + "\n" == Concat(Terminated(items))
  {
    var ts := Terminated(items);
    assert ts[1..] == Terminated(items[1..]);
    if |items| == 1 {
      assert ts[1..] == [];
    } else {
      JoinTerminated(items[1..]);
      assert items[0] + "\n" + Join(items[1..], "\n") + "\n" == (items[0] + "\n") + (Join(items[1..], "\n") + "\n");
    }
  }

  predicate OneLines(m: Versions) {
    forall p :: p in m ==> OneLine(p) && OneLine(m[p])
  }

  lemma {:induction false} ConcatOneLine(ls: seq<string>)
    requires forall i :: 0 <= i < |ls| ==> '\r' !in ls[i]
    ensures '\r' !in Concat(ls)
  {
    if ls != [] { ConcatOneLine(ls[1..]); }
  }

  /** Without line ends in names and versions, a file has one line for each package. */
  lemma LinesOfDump(m: Versions, keys: seq<string>)
    requires Enumerates(keys, m) && OneLines(m) && keys != []
    ensures Lines(Universal(Join(Items(m, keys), "\n") + "\n")) == Terminated(Items(m, keys))
  {
    var items := Items(m, keys);
    var ts := Terminated(items);
    JoinTerminated(items);
    forall i | 0 <= i < |ts| ensures '\r' !in ts[i] && Ended(ts[i]) {
      assert keys[i] in m;
      assert ts[i][..|ts[i]| - 1] == items[i];
    }
    ConcatOneLine(ts);
    UniversalOneLine(Concat(ts));
    LinesOfConcat(ts);
  }

  // ----- a file is read back exactly when its entries are clean -----

  lemma {:induction false} StripLeftChars(s: string)
    ensures forall c :: c in StripLeft(s) ==> c in s
  {
    if s != "" { StripLeftChars(s[1..]); }
  }

  lemma {:induction false} StripRightChars(s: string)
    ensures forall c :: c in StripRight(s) ==> c in s
  {
    if s != "" { StripRightChars(s[..|s| - 1]); }
  }

  lemma StripOneLine(s: string)
    requires OneLine(s)
    ensures OneLine(Strip(s))
  {
    StripLeftChars(s);
    StripRightChars(StripLeft(s));
  }

  lemma PackageOneLine(python: bool, s: string)
    requires OneLine(s)
    ensures OneLine(Package(python, s))
  {
    StripOneLine(s);
  }

  /** Names and versions that are read have no line ends. */
  lemma EntryOneLine(python: bool, line: string)
    requires (Ended(line) || Open(line)) && '\r' !in line && Entry(python, line).Some?
    ensures OneLine(Entry(python, line).value.0) && OneLine(Entry(python, line).value.1)
  {
    var offset := LastPair(line);
    var n := |line| - 1;
    LastPairIs(line);
    var name, rest := line[..offset], line[offset + 2..];
    assert OneLine(name) by {
      assert forall c :: c in name ==> c in line[..n];
    }
    PackageOneLine(python, name);
    if Ended(line) {
      assert rest == line[offset + 2..n] + "\n";
      assert forall c :: c in line[offset + 2..n] ==> c in line[..n];
      StripNewline(line[offset + 2..n]);
      StripOneLine(line[offset + 2..n]);
    } else {
      StripOneLine(rest);
    }
  }

  lemma ReadOneLines(python: bool, text: string)
    ensures OneLines(Read(python, text))
  {
    var entry, ls := LineReader(python), Lines(Universal(text));
    LinesAreLines(Universal(text));
    UniversalOneLine(text);
    forall p | p in Reading(entry, ls) ensures OneLine(p) && OneLine(Reading(entry, ls)[p]) {
      ReadingFrom(entry, ls, p);
      var i :| 0 <= i < |ls| && entry(ls[i]) == Some((p, Reading(entry, ls)[p]));
      LineChars(ls, i);
      EntryOneLine(python, ls[i]);
    }
  }

  lemma {:induction false} LineChars(ls: seq<string>, i: nat)
    requires i < |ls|
    ensures forall c :: c in ls[i] ==> c in Concat(ls)
  {
    if i > 0 { LineChars(ls[1..], i - 1); }
  }

  function Written(p: string, v: string): string {
    Item(p, v) + "\n"
  }

  /** Every package is what the line of some package is read as. */
  lemma Producer(entry: Reader, m: Versions, keys: seq<string>, p: string) returns (q: string)
    requires Enumerates(keys, m) && Reading(entry, Terminated(Items(m, keys))) == m && p in m
    ensures q in m && entry(Written(q, m[q])) == Some((p, m[p]))
  {
    var ls := Terminated(Items(m, keys));
    ReadingFrom(entry, ls, p);
    var i :| 0 <= i < |ls| && entry(ls[i]) == Some((p, m[p]));
    q := keys[i];
  }

  ghost predicate Within(m: Versions, bound: nat) {
    forall p :: p in m ==> |p| + |m[p]| <= bound
  }

  /** Every written line is read as itself or as something smaller. */
  ghost predicate Shrinks(python: bool, entry: Reader) {
    forall p, v {:trigger entry(Written(p, v))} ::
      var e := entry(Written(p, v)); e.None? || e.value == (p, v) || Shorter(python, e.value, (p, v))
  }

  /** Lines only get smaller, so whatever is read must have been read from its own line. */
  lemma {:induction false} ReadFromSelf(python: bool, entry: Reader, m: Versions, keys: seq<string>, bound: nat, p: string)
    requires Enumerates(keys, m) && Reading(entry, Terminated(Items(m, keys))) == m && p in m
    requires Shrinks(python, entry) && Within(m, bound)
    ensures entry(Written(p, m[p])) == Some((p, m[p]))
    decreases bound - |p| - |m[p]|, bound - |m[p]|, if LowerCase(p) == p then 1 else 0
  {
    var q := Producer(entry, m, keys, p);
    if q != p { ReadFromSelf(python, entry, m, keys, bound, q); }
  }

  lemma {:induction false} Bounded(m: Versions) returns (bound: nat)
    ensures Within(m, bound)
    decreases |m|
  {
    if m == map[] {
      bound := 0;
    } else {
      var p :| p in m;
      var rest := Bounded(m - {p});
      bound := rest + |p| + |m[p]|;
      forall q | q in m ensures |q| + |m[q]| <= bound {
        if q != p { assert q in m - {p} && (m - {p})[q] == m[q]; }
      }
    }
  }

  /** The lines of `m` are read as `m` exactly when each is read as its own entry. */
  lemma LinesExact(python: bool, entry: Reader, m: Versions, keys: seq<string>)
    requires Shrinks(python, entry) && Enumerates(keys, m)
    ensures Reading(entry, Terminated(Items(m, keys))) == m <==> forall p :: p in m ==> entry(Written(p, m[p])) == Some((p, m[p]))
  {
    var ls := Terminated(Items(m, keys));
    if Reading(entry, ls) == m {
      var bound := Bounded(m);
      forall p | p in m ensures entry(Written(p, m[p])) == Some((p, m[p])) {
        ReadFromSelf(python, entry, m, keys, bound, p);
      }
    } else if forall p :: p in m ==> entry(Written(p, m[p])) == Some((p, m[p])) {
      forall i | 0 <= i < |ls| ensures keys[i] in m && entry(ls[i]) == Some((keys[i], m[keys[i]])) {
        assert keys[i] in m;
      }
      ReadingAgrees(entry, ls, keys, m);
    }
  }

  lemma LineReaderShrinks(python: bool)
    ensures Shrinks(python, LineReader(python))
  {
    var entry := LineReader(python);
    forall p, v ensures var e := entry(Written(p, v)); e.None? || e.value == (p, v) || Shorter(python, e.value, (p, v)) {
      ReadShorter(python, p, v);
    }
  }

  lemma EntriesExact(python: bool, m: Versions)
    ensures var entry := LineReader(python);
            (forall p :: p in m ==> entry(Written(p, m[p])) == Some((p, m[p]))) <==> forall p :: p in m ==> EntryClean(python, p, m[p])
  {
    var entry := LineReader(python);
    forall p | p in m ensures entry(Written(p, m[p])) == Some((p, m[p])) <==> EntryClean(python, p, m[p]) {
      EntryExact(python, p, m[p]);
    }
  }

  /** Nothing to write gives a blank line, which holds nothing. */
  lemma BlankFile(python: bool)
    ensures Read(python, "\n") == map[]
  {
    assert "\n"[1..] == "";
    assert Universal("\n") == "\n";
    assert Lines("\n") == ["\n"];
    BlankLine(LineReader(python));
  }

  lemma BlankLine(entry: Reader)
    requires entry("\n").None?
    ensures Reading(entry, ["\n"]) == map[]
  {
    assert ["\n"][..0] == [];
  }

  /** A written file is read back as the same versions exactly when every entry is clean. */
  lemma FileExact(python: bool, m: Versions, text: string)
    requires IsDump(text, m)
    ensures Read(python, text) == m <==> Clean(python, m)
  {
    var keys :| Enumerates(keys, m) && Sorted(FoldLe, keys) && text == Join(Items(m, keys), "\n") + "\n";
    if keys == [] {
      BlankFile(python);
      assert text == "\n" by { assert Items(m, keys) == []; }
      assert m == map[] by { assert m.Keys == {}; }
    } else {
      ReadOneLines(python, text);
      KeysExact(python, m, keys);
    }
  }

  lemma KeysExact(python: bool, m: Versions, keys: seq<string>)
    requires Enumerates(keys, m) && keys != []
    requires OneLines(Read(python, Join(Items(m, keys), "\n") + "\n"))
    ensures Read(python, Join(Items(m, keys), "\n") + "\n") == m <==> Clean(python, m)
  {
    if OneLines(m) {
      LinesOfDump(m, keys);
      LineReaderShrinks(python);
      LinesExact(python, LineReader(python), m, keys);
      EntriesExact(python, m);
    }
  }

  // ----- file names -----

  const PREFIX := "versions-"

  function FileName(k: Key): string {
    if k.arch != ALL then PREFIX + k.ctype + "-" + k.dist + "-" + k.arch
    else if k.dist != ALL then PREFIX + k.ctype + "-" + k.dist
    else PREFIX + k.ctype
  }

  /** The key in a file name; parts behind the architecture are ignored. */
  function KeyOf(name: string): Option<Key> {
    var items := Split(name, '-');
    if |items| < 2 then None
    else Some(Key(items[1], if |items| > 2 then NameOrAll(items[2]) else ALL, if |items| > 3 then NameOrAll(items[3]) else ALL))
  }

  predicate NoDash(k: Key) {
    '-' !in k.ctype && '-' !in k.dist && '-' !in k.arch
  }

  /** A file name gives the key back exactly when no part of the key has a dash. */
  lemma FileNameExact(k: Key)
    ensures KeyOf(FileName(k)) == Some(k) <==> NoDash(k)
  {
    var name := FileName(k);
    SplitParts(name, '-');
    if NoDash(k) {
      SplitOne(k.ctype);
      SplitTwo(k.ctype, k.dist);
      SplitThree(k.ctype, k.dist, k.arch);
    } else {
      assert forall i :: 0 <= i < |Split(name, '-')| ==> Split(name, '-')[i] in Split(name, '-');
    }
  }

  lemma {:induction false} SplitOne(a: string)
    requires '-' !in a
    ensures Split(PREFIX + a, '-') == ["versions", a]
  {
    assert PREFIX + a == "versions" + "-" + a;
    SplitAt("versions", a, '-');
    SplitNoSep(a, '-');
  }

  lemma {:induction false} SplitTwo(a: string, b: string)
    requires '-' !in a && '-' !in b
    ensures Split(PREFIX + a + "-" + b, '-') == ["versions", a, b]
  {
    assert PREFIX + a + "-" + b == "versions" + "-" + (a + "-" + b);
    SplitAt("versions", a + "-" + b, '-');
    SplitAt(a, b, '-');
    SplitNoSep(b, '-');
  }

  lemma {:induction false} SplitThree(a: string, b: string, c: string)
    requires '-' !in a && '-' !in b && '-' !in c
    ensures Split(PREFIX + a + "-" + b + "-" + c, '-') == ["versions", a, b, c]
  {
    assert PREFIX + a + "-" + b + "-" + c == "versions" + "-" + (a + "-" + (b + "-" + c));
    SplitAt("versions", a + "-" + (b + "-" + c), '-');
    SplitAt(a, b + "-" + c, '-');
    SplitAt(b, c, '-');
    SplitNoSep(c, '-');
  }
}
