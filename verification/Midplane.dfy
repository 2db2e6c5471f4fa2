/** Rendering the midplane service: one `Before=` line is inserted behind `[Unit]`, and older ones that
    name the DPU databases are removed. */
module Midplane {
  import opened Text
  import opened UnitLines
  import opened UnitMeaning
  import opened UnitTheorems

  // ----- searching -----

  /** The first occurrence of `t` in `s` at or after `i`, as `strstr` finds it. */
  function Find(s: string, t: string, i: nat): (r: Option<nat>)
    requires i <= |s|
    ensures r.Some? ==> i <= r.value && r.value + |t| <= |s|
    decreases |s| - i
  {
    if OccursAt(s, t, i) then Some(i) else if i == |s| then None else Find(s, t, i + 1)
  }

  lemma {:induction false} FindFirst(s: string, t: string, i: nat)
    requires i <= |s|
    ensures match Find(s, t, i)
            case Some(k) => OccursAt(s, t, k) && forall j :: i <= j < k ==> !OccursAt(s, t, j)
            case None => forall j :: i <= j <= |s| ==> !OccursAt(s, t, j)
    decreases |s| - i
  {
    if !OccursAt(s, t, i) && i < |s| { FindFirst(s, t, i + 1); }
  }

  /** The end of the line that `i` is in, behind its newline. */
  function LineStop(s: string, i: nat): (r: nat)
    requires i <= |s|
    ensures i <= r <= |s| && (i < |s| ==> i < r)
    decreases |s| - i
  {
    if i == |s| then i else if s[i] == '\n' then i + 1 else LineStop(s, i + 1)
  }

  // ----- what is rendered -----

  function Databases(n: nat): string {
    if n == 0 then ""
    else if n == 1 then "database@dpu0.service"
    else Databases(n - 1) + " database@dpu" + Natural(n - 1) + ".service"
  }

  /** A rendering: the section that a line of `key` and `value` is inserted in, and the name that marks
      older such lines. */
  datatype Job = Job(section: string, key: string, name: string, value: string)

  function MidplaneJob(dpus: nat): Job {
    Job("[Unit]", "Before=", "database@dpu", Databases(dpus))
  }

  function Inserted(j: Job): string {
    "\n" + j.key + j.value
  }

  /** The text without the lines from `key` on that contain `name`. */
  function Scrub(key: string, name: string, s: string): string
    decreases |s|
  {
    var i := Find(s, key, 0);
    if key == "" || i.None? then s
    else
      var end := LineStop(s, i.value);
      if Contains(s[i.value..end], name) then s[..i.value] + Scrub(key, name, s[end..]) else s[..end] + Scrub(key, name, s[end..])
  }

  /** Where the line is inserted. */
  function Place(j: Job, text: string): Option<nat> {
    var i := Find(text, j.section, 0);
    if i.Some? then Some(i.value + |j.section|) else None
  }

  /** The rendered file, if it has the section. */
  function Render(j: Job, text: string): Option<string> {
    var k := Place(j, text);
    if k.None? then None else Some(text[..k.value] + Inserted(j) + Scrub(j.key, j.name, text[k.value..]))
  }

  // ----- scrubbing line by line -----

  predicate IsKey(key: string) {
    key != "" && '\n' !in key
  }

  predicate Starts(s: string, t: string) {
    OccursAt(s, t, 0)
  }

  /** A line that is removed. */
  predicate Stale(key: string, name: string, line: string) {
    Starts(line, key) && Contains(line, name)
  }

  function Fresh(key: string, name: string, lines: seq<string>): seq<string> {
    if lines == [] then []
    else if Stale(key, name, lines[0]) then Fresh(key, name, lines[1..])
    else [lines[0]] + Fresh(key, name, lines[1..])
  }

  /** `key` occurs only at the start of the line. */
  predicate BeforeFirst(key: string, line: string) {
    forall j: nat :: j <= |line| && OccursAt(line, key, j) ==> j == 0
  }

  predicate AllBeforeFirst(key: string, lines: seq<string>) {
    forall i :: 0 <= i < |lines| ==> BeforeFirst(key, lines[i])
  }

  lemma OccursInLine(key: string, line: string, rest: string, j: nat)
    requires Ended(line) || (Open(line) && rest == "")
    requires j < |line| && OccursAt(line + rest, key, j) && '\n' !in key
    ensures OccursAt(line, key, j)
  {
    OccursEach(line + rest, key, j);
    OccursEach(line, key, j);
    assert forall p :: j <= p < j + |key| ==> (line + rest)[p] in key;
    assert Ended(line) ==> (line + rest)[|line| - 1] == '\n';
  }

  lemma OccursInRest(line: string, rest: string, t: string, j: nat)
    requires j <= |rest|
    ensures OccursAt(line + rest, t, |line| + j) <==> OccursAt(rest, t, j)
  {
    if j + |t| <= |rest| {
      assert (line + rest)[|line| + j..|line| + j + |t|] == rest[j..j + |t|];
    }
  }

  lemma {:induction false} StopOfLine(line: string, rest: string, j: nat)
    requires (Ended(line) || (Open(line) && rest == "")) && j < |line|
    ensures LineStop(line + rest, j) == |line|
    decreases |line| - j
  {
    var s := line + rest;
    assert s[j] == line[j];
    if j < |line| - 1 {
      assert line[j] == line[..|line| - 1][j] || Open(line);
      StopOfLine(line, rest, j + 1);
    } else if s[j] != '\n' {
      assert s == line;
    }
  }

  lemma {:induction false} StopShift(line: string, rest: string, j: nat)
    requires j <= |rest|
    ensures LineStop(line + rest, |line| + j) == |line| + LineStop(rest, j)
    decreases |rest| - j
  {
    if j < |rest| && rest[j] != '\n' { StopShift(line, rest, j + 1); }
  }

  lemma {:induction false} FindShift(line: string, rest: string, t: string, j: nat)
    requires j <= |rest|
    ensures var r := Find(rest, t, j);
            Find(line + rest, t, |line| + j) == if r.Some? then Some(|line| + r.value) else None
    decreases |rest| - j
  {
    OccursInRest(line, rest, t, j);
    if !OccursAt(rest, t, j) && j < |rest| { FindShift(line, rest, t, j + 1); }
  }

  lemma {:induction false} FindLater(s: string, t: string, i: nat, k: nat)
    requires i <= k <= |s| && forall j :: i <= j < k ==> !OccursAt(s, t, j)
    ensures Find(s, t, i) == Find(s, t, k)
    decreases k - i
  {
    if i < k { FindLater(s, t, i + 1, k); }
  }

  /** From its first `key` on, the line contains `name`. */
  predicate Outdated(key: string, name: string, line: string) {
    var p := Find(line, key, 0);
    p.Some? && Contains(line[p.value..], name)
  }

  /** What is left of a line: all of it, or what precedes the key if it is outdated from there on. */
  function Remainder(key: string, name: string, line: string): string {
    if Outdated(key, name, line) then line[..Find(line, key, 0).value] else line
  }

  /** Scrubbing a text is scrubbing its first line and the rest. */
  lemma {:induction false} ScrubStep(key: string, name: string, line: string, rest: string)
    requires (Ended(line) || (Open(line) && rest == "")) && IsKey(key)
    ensures Scrub(key, name, line + rest) == Remainder(key, name, line) + Scrub(key, name, rest)
  {
    var p := Find(line, key, 0);
    if p.Some? { ScrubKeyLine(key, name, line, rest, p.value); } else { ScrubPlainLine(key, name, line, rest); }
  }

  lemma {:induction false} ScrubKeyLine(key: string, name: string, line: string, rest: string, p: nat)
    requires (Ended(line) || (Open(line) && rest == "")) && IsKey(key) && Find(line, key, 0) == Some(p)
    ensures Scrub(key, name, line + rest) == Remainder(key, name, line) + Scrub(key, name, rest)
  {
    var a, b := line[..p], line[p..];
    FindInLine(key, line, rest, p);
    StopOfLine(line, rest, p);
    assert line + rest == a + b + rest && line == a + b;
    ScrubParts(key, name, line + rest, a, b, rest);
    assert a + "" == a;
  }

  lemma {:induction false} ScrubPlainLine(key: string, name: string, line: string, rest: string)
    requires (Ended(line) || (Open(line) && rest == "")) && IsKey(key) && Find(line, key, 0).None?
    ensures Scrub(key, name, line + rest) == line + Scrub(key, name, rest)
  {
    var s := line + rest;
    FindFirst(line, key, 0);
    forall j | 0 <= j < |line| ensures !OccursAt(s, key, j) {
      if OccursAt(s, key, j) { OccursInLine(key, line, rest, j); }
    }
    FindLater(s, key, 0, |line|);
    FindShift(line, rest, key, 0);
    ScrubRest(key, name, line, rest);
  }

  lemma {:induction false} FindInLine(key: string, line: string, rest: string, p: nat)
    requires (Ended(line) || (Open(line) && rest == "")) && IsKey(key) && Find(line, key, 0) == Some(p)
    ensures p < |line| && Find(line + rest, key, 0) == Some(p)
  {
    FindFirst(line, key, 0);
    OccursEach(line, key, p);
    OccursEach(line + rest, key, p);
    forall j | 0 <= j < p ensures !OccursAt(line + rest, key, j) {
      if OccursAt(line + rest, key, j) { OccursInLine(key, line, rest, j); }
    }
    FindLater(line + rest, key, 0, p);
  }

  /** Where `key` only starts the line, the whole line goes or stays. */
  lemma {:induction false} ScrubLine(key: string, name: string, line: string, rest: string)
    requires (Ended(line) || (Open(line) && rest == "")) && BeforeFirst(key, line) && IsKey(key)
    ensures Scrub(key, name, line + rest) == (if Stale(key, name, line) then "" else line) + Scrub(key, name, rest)
  {
    FindFirst(line, key, 0);
    ScrubStep(key, name, line, rest);
    assert line[0..] == line;
  }

  /** Scrubbing a text with a `key` behind `a`, whose line ends with `b`. */
  lemma {:induction false} ScrubParts(key: string, name: string, s: string, a: string, b: string, c: string)
    requires IsKey(key) && s == a + b + c && Find(s, key, 0) == Some(|a|) && LineStop(s, |a|) == |a| + |b|
    ensures Scrub(key, name, s) == a + (if Contains(b, name) then "" else b) + Scrub(key, name, c)
  {
    Slices(s, a, b, c);
    if !Contains(b, name) { assert s[..|a| + |b|] + Scrub(key, name, c) == a + b + Scrub(key, name, c); }
  }

  lemma Slices(s: string, a: string, b: string, c: string)
    requires s == a + b + c
    ensures s[|a|..|a| + |b|] == b && s[|a| + |b|..] == c && s[..|a|] == a && s[..|a| + |b|] == a + b
    ensures a + "" == a
  {
  }

  lemma Regroup(line: string, a: string, b: string, c: string)
    ensures line + (a + b + c) == (line + a) + b + c
  {
  }

  lemma {:induction false} ScrubRest(key: string, name: string, line: string, rest: string)
    requires IsKey(key)
    requires var r := Find(rest, key, 0);
             Find(line + rest, key, 0) == if r.Some? then Some(|line| + r.value) else None
    ensures Scrub(key, name, line + rest) == line + Scrub(key, name, rest)
  {
    var r := Find(rest, key, 0);
    if r.Some? {
      var i, end := r.value, LineStop(rest, r.value);
      var a, b, c := rest[..i], rest[i..end], rest[end..];
      StopShift(line, rest, i);
      assert rest == a + b + c;
      ScrubParts(key, name, rest, a, b, c);
      Regroup(line, a, b, c);
      ScrubParts(key, name, line + rest, line + a, b, c);
      Regroup(line, a, if Contains(b, name) then "" else b, Scrub(key, name, c));
    }
  }

  /** Where `key` only starts lines, exactly the stale lines are removed. */
  lemma {:induction false} ScrubLines(key: string, name: string, ls: seq<string>)
    requires IsKey(key) && AreLines(ls) && AllBeforeFirst(key, ls)
    ensures Scrub(key, name, Concat(ls)) == Concat(Fresh(key, name, ls))
  {
    if ls == [] {
      assert Find("", key, 0).None?;
    } else {
      assert forall i :: 0 <= i < |ls[1..]| ==> ls[1..][i] == ls[i + 1];
      ScrubLines(key, name, ls[1..]);
      assert !Ended(ls[0]) ==> ls[1..] == [];
      ScrubLine(key, name, ls[0], Concat(ls[1..]));
      if Stale(key, name, ls[0]) {
        assert "" + Concat(Fresh(key, name, ls[1..])) == Concat(Fresh(key, name, ls[1..]));
      } else {
        var fresh' := [ls[0]] + Fresh(key, name, ls[1..]);
        assert fresh'[1..] == Fresh(key, name, ls[1..]);
      }
    }
  }

  lemma {:induction false} FreshLines(key: string, name: string, ls: seq<string>)
    requires IsKey(key) && AreLines(ls) && AllBeforeFirst(key, ls)
    ensures AreLines(Fresh(key, name, ls)) && AllBeforeFirst(key, Fresh(key, name, ls)) && Fresh(key, name, Fresh(key, name, ls)) == Fresh(key, name, ls)
    ensures forall i :: 0 <= i < |Fresh(key, name, ls)| ==> !Stale(key, name, Fresh(key, name, ls)[i])
  {
    if ls != [] {
      assert forall i :: 0 <= i < |ls[1..]| ==> ls[1..][i] == ls[i + 1];
      FreshLines(key, name, ls[1..]);
      if !Stale(key, name, ls[0]) {
        var rest := Fresh(key, name, ls[1..]);
        var f := [ls[0]] + rest;
        assert f[1..] == rest;
        if !Ended(ls[0]) { assert ls[1..] == []; }
      }
    }
  }

  /** Scrubbing leaves exactly the lines that are not stale, in order, and nothing more to scrub. */
  lemma {:induction false} ScrubExact(key: string, name: string, s: string)
    requires IsKey(key) && AllBeforeFirst(key, Lines(s))
    ensures Lines(Scrub(key, name, s)) == Fresh(key, name, Lines(s)) && Scrub(key, name, Scrub(key, name, s)) == Scrub(key, name, s)
    ensures forall i :: 0 <= i < |Lines(Scrub(key, name, s))| ==> !Stale(key, name, Lines(Scrub(key, name, s))[i])
  {
    var ls := Lines(s);
    LinesAreLines(s);
    ScrubLines(key, name, ls);
    FreshLines(key, name, ls);
    LinesOfConcat(Fresh(key, name, ls));
    ScrubLines(key, name, Fresh(key, name, ls));
  }

  // ----- rendering -----

  lemma {:induction false} FindKept(s: string, s': string, t: string, k: nat)
    requires k <= |s| && k <= |s'| && s[..k] == s'[..k] && t != ""
    requires Find(s, t, 0).Some? && Find(s, t, 0).value + |t| == k
    ensures Find(s', t, 0) == Find(s, t, 0)
  {
    var i := Find(s, t, 0).value;
    FindFirst(s, t, 0);
    forall j | 0 <= j <= i ensures OccursAt(s', t, j) <==> OccursAt(s, t, j) {
      assert s[j..j + |t|] == s[..k][j..j + |t|] == s'[..k][j..j + |t|] == s'[j..j + |t|];
    }
    FindLater(s', t, 0, i);
  }

  lemma ContainsMiddle(p: string, d: string, q: string, t: string)
    requires Starts(d, t)
    ensures Contains(p + d + q, t)
  {
    assert (p + d + q)[|p|..|p| + |t|] == d[0..|t|];
    assert OccursAt(p + d + q, t, |p|);
  }

  lemma {:induction false} FindSecond(key: string, rest: string)
    requires IsKey(key)
    ensures Find("\n" + (key + rest), key, 0) == Some(1)
  {
    var s := "\n" + (key + rest);
    assert s[1..1 + |key|] == key;
    NotAt(s, key, 0);
  }

  /** A line from `key` on that contains `name` is removed, up to the end of whatever stands behind it. */
  lemma {:induction false} ScrubSecond(key: string, name: string, d: string, x: string)
    requires IsKey(key) && '\n' !in d && Starts(d, name)
    ensures Scrub(key, name, "\n" + key + d + x) == "\n" + Scrub(key, name, x[LineStop(x, 0)..])
  {
    var e := LineStop(x, 0);
    var s, a, b, c := "\n" + key + d + x, "\n", key + d + x[..e], x[e..];
    assert s == "\n" + (key + (d + x));
    FindSecond(key, d + x);
    StopAcross("\n" + key + d, x, 1);
    ContainsMiddle(key, d, x[..e], name);
    assert x[..e] + x[e..] == x;
    assert s == a + b + c;
    ScrubParts(key, name, s, a, b, c);
    assert a + "" == a;
  }

  /** A job whose line is removed again by the next rendering. */
  predicate Good(j: Job) {
    j.section != "" && IsKey(j.key) && '\n' !in j.value && Starts(j.value, j.name)
  }

  lemma {:induction false} StopAcross(a: string, x: string, i: nat)
    requires i <= |a| && forall j :: i <= j < |a| ==> a[j] != '\n'
    ensures LineStop(a + x, i) == |a| + LineStop(x, 0)
    decreases |a| - i
  {
    if i == |a| { StopShift(a, x, 0); } else { StopAcross(a, x, i + 1); }
  }

  lemma SameRest(a: string, b: string, c: string)
    ensures a + b == a + c <==> b == c
  {
    assert (a + b)[|a|..] == b && (a + c)[|a|..] == c;
  }

  lemma {:induction false} RenderAgain(j: Job, text: string, k: nat, x: string)
    requires Good(j) && Place(j, text) == Some(k)
    ensures Render(j, text[..k] + Inserted(j) + x) == Some(text[..k] + Inserted(j) + Scrub(j.key, j.name, Inserted(j) + x))
  {
    var ins := Inserted(j);
    var r := text[..k] + ins + x;
    assert r[..k] == text[..k] && r[k..] == ins + x;
    FindKept(text, r, j.section, k);
  }

  /** The next rendering takes away the rest of the section's line and scrubs once more. */
  lemma {:induction false} RenderNext(j: Job, text: string, k: nat, x: string)
    requires Good(j) && Place(j, text) == Some(k)
    ensures Render(j, text[..k] + Inserted(j) + x) ==
            Some(text[..k] + Inserted(j) + ("\n" + Scrub(j.key, j.name, x[LineStop(x, 0)..])))
  {
    RenderAgain(j, text, k, x);
    ScrubSecond(j.key, j.name, j.value, x);
  }

  /** The lines of the scrubbed text, when `stub` is left of lines in front: the stub joins the next line that stays. */
  function Kept(key: string, name: string, stub: string, lines: seq<string>): seq<string>
    decreases lines
  {
    if lines == [] then if stub == "" then [] else [stub]
    else if Outdated(key, name, lines[0]) then Kept(key, name, stub + Remainder(key, name, lines[0]), lines[1..])
    else [stub + lines[0]] + Kept(key, name, "", lines[1..])
  }

  /** No line that is formed by scrubbing these lines is outdated itself. */
  predicate Settles(key: string, name: string, stub: string, lines: seq<string>)
    decreases lines
  {
    if lines == [] then !Outdated(key, name, stub)
    else if Outdated(key, name, lines[0]) then Settles(key, name, stub + Remainder(key, name, lines[0]), lines[1..])
    else !Outdated(key, name, stub + lines[0]) && Settles(key, name, "", lines[1..])
  }

  /** An empty line comes first, behind nothing but lines that are outdated from their start. */
  predicate BlankFirst(key: string, name: string, lines: seq<string>) {
    lines != [] && (lines[0] == "\n" || (Starts(lines[0], key) && Contains(lines[0], name) && BlankFirst(key, name, lines[1..])))
  }

  /** What a caller can tell from the text behind the section. */
  predicate Renderable(j: Job, tail: string) {
    BlankFirst(j.key, j.name, Lines(tail)) && Settles(j.key, j.name, "", Lines(tail))
  }

  lemma {:induction false} RemainderLine(key: string, name: string, line: string)
    requires Ended(line) || Open(line)
    ensures Outdated(key, name, line) && key != "" ==> '\n' !in Remainder(key, name, line)
  {
    FindFirst(line, key, 0);
    if Outdated(key, name, line) && key != "" {
      var p := Find(line, key, 0).value;
      assert forall i :: 0 <= i < p ==> line[i] in line[..|line| - 1];
    }
  }

  /** Scrubbing gives exactly the kept lines. */
  lemma {:induction false} ScrubKept(key: string, name: string, stub: string, ls: seq<string>)
    requires IsKey(key) && AreLines(ls) && '\n' !in stub
    ensures stub + Scrub(key, name, Concat(ls)) == Concat(Kept(key, name, stub, ls)) && AreLines(Kept(key, name, stub, ls))
    decreases ls
  {
    if ls == [] {
      assert Find("", key, 0).None?;
      if stub != "" { assert [stub][1..] == []; }
    } else {
      assert forall i :: 0 <= i < |ls[1..]| ==> ls[1..][i] == ls[i + 1];
      assert !Ended(ls[0]) ==> ls[1..] == [];
      var left, rest := Remainder(key, name, ls[0]), Scrub(key, name, Concat(ls[1..]));
      ScrubStep(key, name, ls[0], Concat(ls[1..]));
      RemainderLine(key, name, ls[0]);
      if Outdated(key, name, ls[0]) {
        ScrubKept(key, name, stub + left, ls[1..]);
        Joined(stub, left, rest);
      } else {
        ScrubKept(key, name, "", ls[1..]);
        KeptNext(stub, ls[0], Kept(key, name, "", ls[1..]), rest);
      }
    }
  }

  lemma {:induction false} Joined(a: string, b: string, c: string)
    ensures a + (b + c) == a + b + c
  {
  }

  lemma {:induction false} KeptNext(stub: string, line: string, more: seq<string>, rest: string)
    requires "" + rest == Concat(more)
    ensures stub + (line + rest) == Concat([stub + line] + more)
    ensures (Ended(line) || (Open(line) && more == [])) && '\n' !in stub && AreLines(more) ==> AreLines([stub + line] + more)
  {
    var all := [stub + line] + more;
    assert all[1..] == more;
    assert stub + line + rest == stub + (line + rest);
    if Ended(line) && '\n' !in stub {
      assert (stub + line)[..|stub + line| - 1] == stub + line[..|line| - 1];
    }
  }

  lemma {:induction false} ScrubShorter(key: string, name: string, ls: seq<string>)
    requires IsKey(key) && AreLines(ls)
    ensures |Scrub(key, name, Concat(ls))| <= |Concat(ls)|
  {
    if ls == [] {
      assert Find("", key, 0).None?;
    } else {
      assert forall i :: 0 <= i < |ls[1..]| ==> ls[1..][i] == ls[i + 1];
      assert !Ended(ls[0]) ==> ls[1..] == [];
      ScrubShorter(key, name, ls[1..]);
      ScrubStep(key, name, ls[0], Concat(ls[1..]));
      OutdatedShorter(key, name, ls[0]);
    }
  }

  lemma OutdatedShorter(key: string, name: string, line: string)
    ensures |Remainder(key, name, line)| <= |line|
    ensures key != "" && Outdated(key, name, line) ==> |Remainder(key, name, line)| < |line|
  {
  }

  /** Scrubbing changes nothing exactly when no line is outdated. */
  lemma {:induction false} ScrubFixed(key: string, name: string, ls: seq<string>)
    requires IsKey(key) && AreLines(ls)
    ensures Scrub(key, name, Concat(ls)) == Concat(ls) <==> forall i :: 0 <= i < |ls| ==> !Outdated(key, name, ls[i])
  {
    if ls == [] {
      assert Find("", key, 0).None?;
    } else {
      var rest := Concat(ls[1..]);
      assert forall i :: 0 <= i < |ls[1..]| ==> ls[1..][i] == ls[i + 1];
      assert !Ended(ls[0]) ==> ls[1..] == [];
      ScrubFixed(key, name, ls[1..]);
      ScrubShorter(key, name, ls[1..]);
      ScrubStep(key, name, ls[0], rest);
      OutdatedShorter(key, name, ls[0]);
      SameRest(ls[0], Scrub(key, name, rest), rest);
    }
  }

  lemma {:induction false} NoneOutdated(key: string, name: string, stub: string, ls: seq<string>)
    requires IsKey(key)
    ensures Settles(key, name, stub, ls) <==>
            forall i :: 0 <= i < |Kept(key, name, stub, ls)| ==> !Outdated(key, name, Kept(key, name, stub, ls)[i])
    decreases ls
  {
    if ls == [] {
      if stub == "" {
        assert Find("", key, 0).None?;
      } else {
        assert Kept(key, name, stub, ls) == [stub] == [stub] + [];
        FirstAndMore(key, name, stub, []);
        assert Settles(key, name, stub, ls) == !Outdated(key, name, stub);
      }
    } else if Outdated(key, name, ls[0]) {
      var more := stub + Remainder(key, name, ls[0]);
      NoneOutdated(key, name, more, ls[1..]);
      assert Kept(key, name, stub, ls) == Kept(key, name, more, ls[1..]);
      assert Settles(key, name, stub, ls) == Settles(key, name, more, ls[1..]);
    } else {
      NoneOutdated(key, name, "", ls[1..]);
      FirstAndMore(key, name, stub + ls[0], Kept(key, name, "", ls[1..]));
      assert Kept(key, name, stub, ls) == [stub + ls[0]] + Kept(key, name, "", ls[1..]);
    }
  }

  lemma {:induction false} FirstAndMore(key: string, name: string, line: string, more: seq<string>)
    ensures (forall i :: 0 <= i < |[line] + more| ==> !Outdated(key, name, ([line] + more)[i])) <==>
            !Outdated(key, name, line) && forall i :: 0 <= i < |more| ==> !Outdated(key, name, more[i])
  {
    var all := [line] + more;
    assert all[0] == line && forall i :: 0 <= i < |more| ==> all[i + 1] == more[i];
  }

  lemma {:induction false} BlankKept(key: string, name: string, ls: seq<string>)
    requires IsKey(key) && AreLines(ls)
    ensures var x := Scrub(key, name, Concat(ls));
            (x != "" && x[0] == '\n') <==> BlankFirst(key, name, ls)
  {
    if ls == [] {
      assert Find("", key, 0).None?;
    } else {
      var line, rest := ls[0], Concat(ls[1..]);
      assert forall i :: 0 <= i < |ls[1..]| ==> ls[1..][i] == ls[i + 1];
      assert !Ended(line) ==> ls[1..] == [];
      BlankKept(key, name, ls[1..]);
      ScrubStep(key, name, line, rest);
      FirstOfLine(key, name, line);
    }
  }

  lemma {:induction false} FirstOfLine(key: string, name: string, line: string)
    requires IsKey(key) && (Ended(line) || Open(line))
    ensures var r := Remainder(key, name, line);
            && (r == "" <==> Starts(line, key) && Contains(line, name))
            && (r != "" && r[0] == '\n' <==> line == "\n")
  {
    FindFirst(line, key, 0);
    if Starts(line, key) { assert line[0..] == line; }
    assert |line| > 1 ==> line[0] in line[..|line| - 1];
    if line[0] == '\n' {
      NotAt(line, key, 0);
      if line == "\n" { OccursEach("\n", key, 1); }
    }
  }

  /** Rendering a rendered file leaves it as it is exactly when, behind the section, an empty line comes first and
      no line that scrubbing forms is outdated. */
  lemma {:induction false} RenderTwiceExact(j: Job, text: string, k: nat)
    requires Good(j) && Place(j, text) == Some(k)
    ensures Render(j, Render(j, text).value) == Render(j, text) <==> Renderable(j, text[k..])
  {
    var ls := Lines(text[k..]);
    var x := Scrub(j.key, j.name, text[k..]);
    RenderNext(j, text, k, x);
    SameRest(text[..k] + Inserted(j), "\n" + Scrub(j.key, j.name, x[LineStop(x, 0)..]), x);
    NewlineFirst(x, Scrub(j.key, j.name, x[LineStop(x, 0)..]));
    LinesAreLines(text[k..]);
    BlankKept(j.key, j.name, ls);
    if x != "" && x[0] == '\n' {
      assert x == "\n" + x[1..] && x[LineStop(x, 0)..] == x[1..];
      NewlineClear(j.key, j.name);
      ScrubLine(j.key, j.name, "\n", x[1..]);
      SameRest("\n", Scrub(j.key, j.name, x[1..]), x[1..]);
      SettledExact(j.key, j.name, text[k..]);
    }
  }

  /** A second scrubbing changes nothing exactly when no line that the first forms is outdated. */
  lemma {:induction false} SettledExact(key: string, name: string, s: string)
    requires IsKey(key)
    ensures var x := Scrub(key, name, s); Scrub(key, name, x) == x <==> Settles(key, name, "", Lines(s))
  {
    LinesAreLines(s);
    ScrubKept(key, name, "", Lines(s));
    var kept := Kept(key, name, "", Lines(s));
    assert "" + Scrub(key, name, s) == Scrub(key, name, s);
    ScrubFixed(key, name, kept);
    NoneOutdated(key, name, "", Lines(s));
  }

  lemma NewlineFirst(x: string, y: string)
    ensures "\n" + y == x <==> x != "" && x[0] == '\n' && y == x[1..]
  {
    assert ("\n" + y)[1..] == y;
    if x != "" && x[0] == '\n' { assert x == "\n" + x[1..]; }
  }

  /** The section ends its line, and `key` only starts lines behind it. */
  predicate Tidy(j: Job, text: string) {
    var k := Place(j, text);
    k.Some? && k.value < |text| && text[k.value] == '\n' && AllBeforeFirst(j.key, Lines(text[k.value + 1..]))
  }

  lemma NotAt(s: string, t: string, i: nat)
    requires i < |s| && t != "" && s[i] != t[0]
    ensures !OccursAt(s, t, i)
  {
    OccursEach(s, t, i);
  }

  lemma NewlineClear(key: string, name: string)
    requires IsKey(key)
    ensures BeforeFirst(key, "\n") && !Stale(key, name, "\n") && Ended("\n")
  {
    NotAt("\n", key, 0);
  }

  lemma ScrubTidy(j: Job, text: string, k: nat)
    requires Good(j) && Tidy(j, text) && Place(j, text) == Some(k)
    ensures var y := Scrub(j.key, j.name, text[k + 1..]);
            && Scrub(j.key, j.name, text[k..]) == "\n" + y
            && Lines(y) == Fresh(j.key, j.name, Lines(text[k + 1..])) && Scrub(j.key, j.name, y) == y
  {
    var more := text[k + 1..];
    assert text[k..] == "\n" + more;
    NewlineClear(j.key, j.name);
    ScrubLine(j.key, j.name, "\n", more);
    ScrubExact(j.key, j.name, more);
  }

  /** A tidy file is rendered to the same file however often it is rendered. */
  lemma RenderTwice(j: Job, text: string)
    requires Good(j) && Tidy(j, text)
    ensures Render(j, Render(j, text).value) == Render(j, text)
  {
    var k := Place(j, text).value;
    ScrubTidy(j, text, k);
    var y := Scrub(j.key, j.name, text[k + 1..]);
    assert ("\n" + y)[LineStop("\n" + y, 0)..] == y;
    RenderNext(j, text, k, "\n" + y);
  }

  // ----- rendering again and again -----

  type Rendering = string -> Option<string>

  function Renderer(j: Job): Rendering {
    text => Render(j, text)
  }

  function Rendered(render: Rendering, text: string, n: nat): Option<string> {
    if n == 0 then Some(text)
    else
      var r := Rendered(render, text, n - 1);
      if r.None? then None else render(r.value)
  }

  /** What follows the inserted line after the next rendering. */
  function Next(j: Job): string -> string {
    x => "\n" + Scrub(j.key, j.name, x[LineStop(x, 0)..])
  }

  function Repeated(next: string -> string, x: string, n: nat): string {
    if n == 0 then x else next(Repeated(next, x, n - 1))
  }

  lemma {:induction false} RenderedTimes(render: Rendering, next: string -> string, head: string, text: string, x: string, n: nat)
    requires render(text) == Some(head + x) && forall z {:trigger next(z)} :: render(head + z) == Some(head + next(z))
    ensures Rendered(render, text, n + 1) == Some(head + Repeated(next, x, n))
  {
    if n == 0 {
      assert Rendered(render, text, 0) == Some(text);
    } else {
      RenderedTimes(render, next, head, text, x, n - 1);
    }
  }

  lemma {:induction false} JobTimes(j: Job, text: string, k: nat, n: nat)
    requires Good(j) && Place(j, text) == Some(k)
    ensures Rendered(Renderer(j), text, n + 1) ==
            Some(text[..k] + Inserted(j) + Repeated(Next(j), Scrub(j.key, j.name, text[k..]), n))
  {
    var render, next, head := Renderer(j), Next(j), text[..k] + Inserted(j);
    forall z ensures render(head + z) == Some(head + next(z)) { RenderNext(j, text, k, z); }
    RenderedTimes(render, next, head, text, Scrub(j.key, j.name, text[k..]), n);
  }

  /** The second rendering: the rest of the section's line is gone, with whatever stood there, and the lines behind
      it are scrubbed once more. */
  lemma {:induction false} RenderSecond(j: Job, text: string, k: nat)
    requires Good(j) && Place(j, text) == Some(k)
    ensures var kept := Kept(j.key, j.name, "", Lines(text[k..]));
            Render(j, Render(j, text).value) ==
            Some(text[..k] + Inserted(j) + ("\n" + Scrub(j.key, j.name, if kept == [] then "" else Concat(kept[1..]))))
  {
    var x := Scrub(j.key, j.name, text[k..]);
    RenderNext(j, text, k, x);
    TailKept(j.key, j.name, text[k..]);
  }

  /** Behind the first line of the scrubbed text are the other kept lines. */
  lemma {:induction false} TailKept(key: string, name: string, s: string)
    requires IsKey(key)
    ensures var x, kept := Scrub(key, name, s), Kept(key, name, "", Lines(s));
            x[LineStop(x, 0)..] == (if kept == [] then "" else Concat(kept[1..])) && AreLines(kept)
  {
    var x, kept := Scrub(key, name, s), Kept(key, name, "", Lines(s));
    LinesAreLines(s);
    ScrubKept(key, name, "", Lines(s));
    assert "" + x == x;
    if kept != [] {
      assert x == kept[0] + Concat(kept[1..]);
      assert !Ended(kept[0]) ==> kept[1..] == [];
      StopOfLine(kept[0], Concat(kept[1..]), 0);
    }
  }

  /** The third rendering equals the second exactly when, of the lines behind the section's, no line that scrubbing
      them twice forms is outdated. */
  lemma {:induction false} RenderThirdExact(j: Job, text: string, k: nat)
    requires Good(j) && Place(j, text) == Some(k)
    ensures var kept := Kept(j.key, j.name, "", Lines(text[k..]));
            Rendered(Renderer(j), text, 3) == Rendered(Renderer(j), text, 2) <==>
            kept == [] || Settles(j.key, j.name, "", kept[1..])
  {
    var x := Scrub(j.key, j.name, text[k..]);
    JobTimes(j, text, k, 1);
    JobTimes(j, text, k, 2);
    RepeatedTwice(Next(j), x);
    SameRest(text[..k] + Inserted(j), Next(j)(Next(j)(x)), Next(j)(x));
    NextTwice(j, text[k..]);
  }

  lemma {:induction false} RepeatedTwice(next: string -> string, x: string)
    ensures Repeated(next, x, 1) == next(x) && Repeated(next, x, 2) == next(next(x))
  {
    assert Repeated(next, x, 0) == x;
  }

  lemma {:induction false} NextTwice(j: Job, s: string)
    requires IsKey(j.key)
    ensures var x, kept := Scrub(j.key, j.name, s), Kept(j.key, j.name, "", Lines(s));
            Next(j)(Next(j)(x)) == Next(j)(x) <==> kept == [] || Settles(j.key, j.name, "", kept[1..])
  {
    var x, kept := Scrub(j.key, j.name, s), Kept(j.key, j.name, "", Lines(s));
    var tail := if kept == [] then "" else Concat(kept[1..]);
    TailKept(j.key, j.name, s);
    NextOfNext(j, x);
    SameRest("\n", Scrub(j.key, j.name, Scrub(j.key, j.name, tail)), Scrub(j.key, j.name, tail));
    SettledExact(j.key, j.name, tail);
    if kept == [] {
      assert Find("", j.key, 0).None?;
    } else {
      assert forall i :: 0 <= i < |kept[1..]| ==> kept[1..][i] == kept[i + 1];
      LinesOfConcat(kept[1..]);
    }
  }

  lemma {:induction false} NextOfNext(j: Job, x: string)
    ensures Next(j)(Next(j)(x)) == "\n" + Scrub(j.key, j.name, Scrub(j.key, j.name, x[LineStop(x, 0)..]))
  {
    var y := Scrub(j.key, j.name, x[LineStop(x, 0)..]);
    assert ("\n" + y)[LineStop("\n" + y, 0)..] == y;
  }

  /** Renderings get shorter until they stay the same; that is so for every text, after at most as many as it has
      characters, and three. */
  lemma {:induction false} RenderSettles(j: Job, text: string, k: nat) returns (n: nat)
    requires Good(j) && Place(j, text) == Some(k)
    ensures n <= |text| + 3 && Rendered(Renderer(j), text, n + 1) == Rendered(Renderer(j), text, n)
  {
    var x := Scrub(j.key, j.name, text[k..]);
    TextShorter(j.key, j.name, text[k..]);
    NextShorter(j, x);
    forall z ensures Shrinking(Next(j), z) { NextShrinks(j, z); }
    n := RepeatedSettles(Next(j), x, 1);
    JobTimes(j, text, k, n - 1);
    JobTimes(j, text, k, n);
  }

  /** Doing it twice changes nothing, or leaves less than doing it once. */
  predicate Shrinking(next: string -> string, z: string) {
    next(next(z)) == next(z) || |next(next(z))| < |next(z)|
  }

  lemma {:induction false} RepeatedSettles(next: string -> string, x: string, n: nat) returns (m: nat)
    requires n > 0 && forall z :: Shrinking(next, z)
    ensures n < m <= n + 1 + |Repeated(next, x, n)| && Repeated(next, x, m) == Repeated(next, x, m - 1)
    decreases |Repeated(next, x, n)|
  {
    assert Shrinking(next, Repeated(next, x, n - 1));
    assert Repeated(next, x, n) == next(Repeated(next, x, n - 1)) && Repeated(next, x, n + 1) == next(Repeated(next, x, n));
    if Repeated(next, x, n + 1) == Repeated(next, x, n) {
      m := n + 1;
    } else {
      m := RepeatedSettles(next, x, n + 1);
    }
  }

  lemma {:induction false} NextShrinks(j: Job, z: string)
    requires IsKey(j.key)
    ensures Shrinking(Next(j), z)
  {
    NextOfNext(j, z);
    ScrubSame(j.key, j.name, Scrub(j.key, j.name, z[LineStop(z, 0)..]));
  }

  lemma {:induction false} NextShorter(j: Job, x: string)
    requires IsKey(j.key)
    ensures |Repeated(Next(j), x, 1)| <= |x| + 1
  {
    RepeatedTwice(Next(j), x);
    TextShorter(j.key, j.name, x[LineStop(x, 0)..]);
  }

  lemma {:induction false} TextShorter(key: string, name: string, s: string)
    requires IsKey(key)
    ensures |Scrub(key, name, s)| <= |s|
  {
    LinesAreLines(s);
    ScrubShorter(key, name, Lines(s));
  }

  /** A text that scrubbing leaves as long as it was is not changed. */
  lemma {:induction false} ScrubSame(key: string, name: string, s: string)
    requires IsKey(key)
    ensures |Scrub(key, name, s)| < |s| || Scrub(key, name, s) == s
  {
    LinesAreLines(s);
    SameLines(key, name, Lines(s));
  }

  lemma {:induction false} SameLines(key: string, name: string, ls: seq<string>)
    requires IsKey(key) && AreLines(ls)
    ensures |Scrub(key, name, Concat(ls))| < |Concat(ls)| || Scrub(key, name, Concat(ls)) == Concat(ls)
  {
    if ls == [] {
      assert Find("", key, 0).None?;
    } else {
      assert forall i :: 0 <= i < |ls[1..]| ==> ls[1..][i] == ls[i + 1];
      assert !Ended(ls[0]) ==> ls[1..] == [];
      SameLines(key, name, ls[1..]);
      ScrubShorter(key, name, ls[1..]);
      ScrubStep(key, name, ls[0], Concat(ls[1..]));
      OutdatedShorter(key, name, ls[0]);
    }
  }

  // ----- lines of a rendered file -----

  /** If a text ends with a newline, so do all its lines. */
  lemma {:induction false} LastEnded(ls: seq<string>)
    requires AreLines(ls) && Concat(ls) != "" && Concat(ls)[|Concat(ls)| - 1] == '\n'
    ensures AllEnded(ls)
  {
    if ls != [] {
      assert forall i :: 0 <= i < |ls[1..]| ==> ls[1..][i] == ls[i + 1];
      if |ls| > 1 {
        assert Concat(ls[1..]) != "" by { assert ls[1..][0] == ls[1]; }
        LastEnded(ls[1..]);
      } else {
        assert Concat(ls) == ls[0] by { assert ls[1..] == []; }
      }
    }
  }

  lemma {:induction false} LinesAround(head: string, line: string, y: string)
    requires '\n' !in line
    ensures Lines((head + "\n") + ((line + "\n") + y)) == Lines(head + "\n") + [line + "\n"] + Lines(y)
  {
    var ls := Lines(head + "\n");
    LinesAreLines(head + "\n");
    LastEnded(ls);
    LinesOfAllEnded(ls, (line + "\n") + y);
    LinesOfEnded(line + "\n", y);
    assert ls + ([line + "\n"] + Lines(y)) == ls + [line + "\n"] + Lines(y);
  }

  lemma Spliced(head: string, key: string, value: string, y: string)
    ensures head + ("\n" + key + value) + ("\n" + y) == (head + "\n") + ((key + value + "\n") + y)
  {
  }

  /** The lines of a rendered tidy file: those up to the section, the one inserted line, and all further
      lines but the stale ones. */
  lemma RenderLines(j: Job, text: string)
    requires Good(j) && Tidy(j, text)
    ensures var k := Place(j, text).value;
            Lines(Render(j, text).value) ==
            Lines(text[..k] + "\n") + [j.key + j.value + "\n"] + Fresh(j.key, j.name, Lines(text[k + 1..]))
  {
    var k := Place(j, text).value;
    ScrubTidy(j, text, k);
    var head, line, y := text[..k], j.key + j.value, Scrub(j.key, j.name, text[k + 1..]);
    LinesAround(head, line, y);
    Spliced(head, j.key, j.value, y);
  }

  // ----- the midplane service -----

  lemma {:induction false} DatabasesStart(n: nat)
    requires n > 0
    ensures Starts(Databases(n), "database@dpu")
  {
    if n > 1 {
      DatabasesStart(n - 1);
      StartsAppend(Databases(n - 1), " database@dpu" + Natural(n - 1) + ".service", "database@dpu");
      assert Databases(n) == Databases(n - 1) + (" database@dpu" + Natural(n - 1) + ".service");
    } else {
      assert "database@dpu0.service"[0..|"database@dpu"|] == "database@dpu";
    }
  }

  lemma StartsAppend(a: string, b: string, t: string)
    requires Starts(a, t)
    ensures Starts(a + b, t)
  {
    assert (a + b)[0..|t|] == a[0..|t|];
  }

  lemma {:induction false} DatabasesLine(n: nat)
    ensures '\n' !in Databases(n)
  {
    if n > 1 {
      DatabasesLine(n - 1);
      DigitsOnly(n - 1);
    }
  }

  /** The line for at least one DPU is found again by the next rendering. */
  lemma MidplaneGood(dpus: nat)
    requires dpus > 0
    ensures Good(MidplaneJob(dpus))
  {
    DatabasesStart(dpus);
    DatabasesLine(dpus);
  }

  /** Whatever stands behind the section on its line, without a key of its own, is lost by the second rendering. */
  lemma {:induction false} RenderWitness(j: Job, x: string, y: string)
    requires Good(j) && x != "" && '\n' !in x && !Contains(x + "\n", j.key)
    ensures var text := j.section + x + "\n" + y;
            && Render(j, text) == Some(j.section + Inserted(j) + (x + "\n" + Scrub(j.key, j.name, y)))
            && Render(j, Render(j, text).value) ==
               Some(j.section + Inserted(j) + ("\n" + Scrub(j.key, j.name, Scrub(j.key, j.name, y))))
            && Render(j, Render(j, text).value) != Render(j, text)
  {
    var line, text, k := x + "\n", j.section + x + "\n" + y, |j.section|;
    assert text == j.section + (line + y);
    assert OccursAt(text, j.section, 0);
    assert text[..k] == j.section && text[k..] == line + y;
    FindFirst(line, j.key, 0);
    if i :| 0 <= i <= |line| && OccursAt(line, j.key, i) { assert Contains(line, j.key); }
    assert line[..|line| - 1] == x;
    ScrubStep(j.key, j.name, line, y);
    var z := Scrub(j.key, j.name, y);
    RenderNext(j, text, k, line + z);
    StopAcross(x, "\n" + z, 0);
    assert x + ("\n" + z) == line + z;
    assert (line + z)[|line|..] == z;
    assert LineStop("\n" + z, 0) == 1;
    SameRest(j.section + Inserted(j), line + z, "\n" + Scrub(j.key, j.name, z));
    assert (line + z)[0] == x[0] && x[0] in x;
  }
}
