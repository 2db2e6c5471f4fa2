/** The rewriting means what it should: dependencies are replaced by their instances and nothing else
    changes, and doing it again changes nothing. */
module UnitMeaning {
  import opened Text
  import opened UnitLines
  import opened UnitRewrite

  // ----- markers -----

  const MARKERS: seq<string> := ["[Service]", "[Timer]", "[Install]", "[Unit]", "Description"]

  /** Text that no section or description can be seen in. */
  predicate Plain(s: string) {
    forall i :: 0 <= i < |MARKERS| ==> !Contains(s, MARKERS[i])
  }

  lemma PlainIsDep(line: string)
    ensures Plain(line) <==> !IsVerbatim(line, false)
    ensures Plain(line) ==> !Done(line, false)
  {
    assert MARKERS[0] == "[Service]" && MARKERS[1] == "[Timer]" && MARKERS[2] == "[Install]";
    assert MARKERS[3] == "[Unit]" && MARKERS[4] == "Description";
  }

  lemma OccursTwice(s: string, t: string, i: nat, u: string, j: nat)
    requires OccursAt(s, t, i) && OccursAt(t, u, j)
    ensures OccursAt(s, u, i + j)
  {
    forall k | 0 <= k < |u| ensures s[i + j + k] == u[k] {
      assert s[i..i + |t|][j + k] == t[j + k] && t[j..j + |u|][k] == u[k];
    }
  }

  lemma ContainsPart(s: string, part: string, t: string, n: nat)
    requires OccursAt(s, part, n) && Contains(part, t)
    ensures Contains(s, t)
  {
    var i: nat :| i <= |part| && OccursAt(part, t, i);
    OccursTwice(s, part, n, t, i);
  }

  lemma PlainPart(s: string, part: string, n: nat)
    requires Plain(s) && OccursAt(s, part, n)
    ensures Plain(part)
  {
    forall i | 0 <= i < |MARKERS| ensures !Contains(part, MARKERS[i]) {
      if Contains(part, MARKERS[i]) { ContainsPart(s, part, MARKERS[i], n); }
    }
  }

  lemma OccursChar(s: string, t: string, i: nat, p: nat)
    requires OccursAt(s, t, i) && i <= p < i + |t|
    ensures s[p] in t
  {
    assert s[p] == s[i..i + |t|][p - i];
  }

  lemma OccursEach(s: string, t: string, i: nat)
    ensures OccursAt(s, t, i) <==> i + |t| <= |s| && forall p :: i <= p < i + |t| ==> s[p] == t[p - i]
  {
    if i + |t| <= |s| {
      var u := s[i..i + |t|];
      assert forall p :: i <= p < i + |t| ==> s[p] == u[p - i];
      assert (forall p :: i <= p < i + |t| ==> s[p] == t[p - i]) ==> forall k :: 0 <= k < |t| ==> u[k] == s[i + k] == t[k];
    }
  }

  lemma ContainsJoined(a: string, c: char, b: string, t: string)
    requires Contains(a + [c] + b, t) && c !in t
    ensures Contains(a, t) || Contains(b, t)
  {
    var s := a + [c] + b;
    var i: nat :| i <= |s| && OccursAt(s, t, i);
    if i <= |a| < i + |t| {
      OccursChar(s, t, i, |a|);
    } else if i + |t| <= |a| {
      assert OccursAt(a, t, i) by { assert a[i..i + |t|] == s[i..i + |t|]; }
    } else {
      var j := i - |a| - 1;
      assert OccursAt(b, t, j) by { assert b[j..j + |t|] == s[i..i + |t|]; }
    }
  }

  predicate OutsideMarkers(c: char) {
    c !in "[Service]" && c !in "[Timer]" && c !in "[Install]" && c !in "[Unit]" && c !in "Description"
  }

  lemma Outside(c: char, i: nat)
    requires OutsideMarkers(c) && i < |MARKERS|
    ensures c !in MARKERS[i]
  {
  }

  lemma PlainJoined(a: string, c: char, b: string)
    requires Plain(a) && Plain(b) && OutsideMarkers(c)
    ensures Plain(a + [c] + b)
  {
    forall i | 0 <= i < |MARKERS| ensures !Contains(a + [c] + b, MARKERS[i]) {
      Outside(c, i);
      if Contains(a + [c] + b, MARKERS[i]) { ContainsJoined(a, c, b, MARKERS[i]); }
    }
  }

  lemma ContainsChar(s: string, t: string, c: char)
    requires Contains(s, t) && c in t
    ensures c in s
  {
    var n: nat :| n <= |s| && OccursAt(s, t, n);
    assert c in s[n..n + |t|];
  }

  lemma PlainWithout(s: string)
    requires '[' !in s && 'D' !in s
    ensures Plain(s)
  {
    forall i | 0 <= i < |MARKERS| ensures !Contains(s, MARKERS[i]) {
      var c := if i < 4 then '[' else 'D';
      assert MARKERS[i][0] == c;
      if Contains(s, MARKERS[i]) { ContainsChar(s, MARKERS[i], c); }
    }
  }

  // ----- tokens of a line -----

  /** Newlines stand only at the end. */
  predicate OneLine(s: string) {
    s != "" ==> '\n' !in s[..|s| - 1]
  }

  lemma {:induction false} SkipAt(s: string, c: char)
    ensures OccursAt(s, Skip(s, c), |s| - |Skip(s, c)|)
    decreases s
  {
    if s != "" && s[0] == c {
      SkipAt(s[1..], c);
      var r := Skip(s[1..], c);
      assert s[|s| - |r|..] == s[1..][|s| - 1 - |r|..];
    } else {
      assert s[0..] == s;
    }
  }

  lemma {:induction false} UpToAt(s: string, c: char)
    ensures OccursAt(s, UpTo(s, c), 0)
  {
    UpToSplits(s, c);
    var u := UpTo(s, c);
    assert s[0..|u|] == u;
  }

  lemma {:induction false} AfterAt(s: string, c: char)
    ensures OccursAt(s, After(s, c), |s| - |After(s, c)|)
  {
    UpToSplits(s, c);
    if c !in s { UpToAll(s, c); }
    var a := After(s, c);
    assert s[|s| - |a|..] == a;
  }

  lemma OneLinePart(s: string, part: string, n: nat)
    requires OneLine(s) && OccursAt(s, part, n)
    ensures OneLine(part) && (n + |part| < |s| ==> '\n' !in part)
  {
    if part != "" {
      forall i | 0 <= i < |part| && n + i < |s| - 1 ensures part[i] != '\n' {
        assert part[i] == s[n..n + |part|][i] == s[..|s| - 1][n + i];
      }
    }
  }

  /** What the words of a line look like. */
  predicate IsWord(w: string) {
    w != "" && ' ' !in w && OneLine(w) && Plain(w)
  }

  lemma {:induction false} WordsAreWords(s: string, i: nat)
    requires Plain(s) && OneLine(s) && i < |Words(s)|
    ensures IsWord(Words(s)[i])
    decreases |s|
  {
    var r := Skip(s, ' ');
    SkipAt(s, ' ');
    PlainPart(s, r, |s| - |r|);
    OneLinePart(s, r, |s| - |r|);
    if i == 0 {
      UpToAt(r, ' ');
      PlainPart(r, UpTo(r, ' '), 0);
      OneLinePart(r, UpTo(r, ' '), 0);
    } else {
      var a := After(r, ' ');
      AfterAt(r, ' ');
      PlainPart(r, a, |r| - |a|);
      OneLinePart(r, a, |r| - |a|);
      WordsAreWords(a, i - 1);
    }
  }

  predicate IsDirective(t: string) {
    t != "" && '=' !in t && '\n' !in t && Plain(t)
  }

  /** The directive and the words of a dependency line. */
  lemma LineTokens(line: string)
    requires Plain(line) && OneLine(line) && Token(line, '=').Some? && Words(Token(line, '=').value.1) != []
    ensures IsDirective(Token(line, '=').value.0)
    ensures forall i :: 0 <= i < |Words(Token(line, '=').value.1)| ==> IsWord(Words(Token(line, '=').value.1)[i])
  {
    var r := Skip(line, '=');
    var t, rest := UpTo(r, '='), After(r, '=');
    SkipAt(line, '=');
    PlainPart(line, r, |line| - |r|);
    OneLinePart(line, r, |line| - |r|);
    UpToSplits(r, '=');
    if '=' !in r { UpToAll(r, '='); }
    UpToAt(r, '=');
    PlainPart(r, t, 0);
    OneLinePart(r, t, 0);
    AfterAt(r, '=');
    PlainPart(r, rest, |r| - |rest|);
    OneLinePart(r, rest, |r| - |rest|);
    forall i | 0 <= i < |Words(rest)| ensures IsWord(Words(rest)[i]) { WordsAreWords(rest, i); }
  }

  // ----- what is written for a word -----

  predicate IsTarget(u: string) {
    ' ' !in u && '\n' !in u && Plain(u)
  }

  lemma BareWord(w: string)
    requires IsWord(w)
    ensures IsTarget(Bare(w)) && (w == Bare(w) || w == Bare(w) + "\n") && (IsService(w) <==> IsService(Bare(w)))
  {
    var u := Bare(w);
    if u != w {
      assert w == u + "\n";
      assert w[0..|u|] == u;
      PlainPart(w, u, 0);
    }
  }

  /** Words that are written as they should be: services with a name and a kind, and anything that is
      not a service or that has no instances. */
  predicate WordKept(p: Platform, w: string) {
    IsService(w) ==>
      (w[0] != '.' && After(Bare(w), '.') != "") || (PerDpu(p, UpTo(w, '.')) && p.dpus == 0)
  }

  /** The tokenizer's name and kind of a word without a leading dot. */
  lemma {:induction false} ServiceParts(w: string)
    requires IsWord(w) && IsService(w) && w[0] != '.'
    ensures NameOf(w) == Some(UpTo(Bare(w), '.')) && UpTo(w, '.') == UpTo(Bare(w), '.')
    ensures KindOf(w) == if After(Bare(w), '.') == "" then None else Some(After(Bare(w), '.'))
    ensures Bare(w) == UpTo(Bare(w), '.') + "." + After(Bare(w), '.')
  {
    var u := Bare(w);
    var name, kind := UpTo(u, '.'), After(u, '.');
    BareWord(w);
    UpToSplits(u, '.');
    UpToWhole(name, '.', kind);
    if w == u {
      KindToken(kind, "");
      assert kind + "" == kind;
    } else {
      assert w == name + "." + (kind + "\n");
      UpToWhole(name, '.', kind + "\n");
      KindToken(kind, "\n");
    }
  }

  lemma KindToken(kind: string, end: string)
    requires '\n' !in kind && (end == "" || end == "\n")
    ensures Token(kind + end, '\n') == if kind == "" then None else Some((kind, ""))
  {
    if kind == "" {
      assert kind + end == end;
      if end == "\n" { assert end[1..] == ""; }
    } else if end == "" {
      assert kind + end == kind;
      UpToAll(kind, '\n');
    } else {
      assert kind + end == kind + ['\n'] + "";
      UpToWhole(kind, '\n', "");
    }
  }

  lemma InstancesDiffer(name: string, kind: string, name': string, kind': string, prefix: string, n: nat)
    requires n > 0 && (name != name' || kind != kind') && '@' !in name && '@' !in name'
    ensures Instances(name, prefix, n, kind) != Instances(name', prefix, n, kind')
  {
    var a, b := Instance(name, prefix, 0, kind), Instance(name', prefix, 0, kind');
    var t, t' := prefix + Natural(0) + "." + kind, prefix + Natural(0) + "." + kind';
    assert a == name + ['@'] + t && b == name' + ['@'] + t';
    UpToWhole(name, '@', t);
    UpToWhole(name', '@', t');
    assert t == (prefix + Natural(0) + ".") + kind && t' == (prefix + Natural(0) + ".") + kind';
    if kind != kind' { PrefixCancels(prefix + Natural(0) + ".", kind, kind'); }
    assert Instances(name, prefix, n, kind)[0] == a && Instances(name', prefix, n, kind')[0] == b;
  }

  lemma PrefixCancels(a: string, b: string, c: string)
    requires b != c
    ensures a + b != a + c
  {
    assert (a + b)[|a|..] == b && (a + c)[|a|..] == c;
  }

  lemma {:induction false} SkipKeeps(s: string, c: char, x: char)
    requires x !in s
    ensures x !in Skip(s, c)
  {
    if s != "" && s[0] == c { SkipKeeps(s[1..], c, x); }
  }

  lemma {:induction false} UpToKeeps(s: string, c: char, x: char)
    requires x !in s
    ensures x !in UpTo(s, c)
  {
    if s != "" && s[0] != c { UpToKeeps(s[1..], c, x); }
  }

  /** A word with a leading dot gets another name. */
  lemma {:induction false} LeadingDot(w: string)
    requires IsWord(w) && IsService(w) && w[0] == '.'
    ensures var name := Printed(NameOf(w)); name != "" && name[0] != '.' && '@' !in name
    ensures Bare(w) != "" && Bare(w)[0] == '.' && UpTo(w, '.') == "" && UpTo(Bare(w), '.') == ""
  {
    SkipKeeps(w, '.', '@');
    UpToKeeps(Skip(w, '.'), '.', '@');
    BareWord(w);
  }

  /** The code writes for a word the units that stand for it exactly when the word is kept. */
  lemma WordExact(p: Platform, w: string)
    requires IsWord(w)
    ensures WrittenTargets(p, w) == Targets(p, Bare(w)) <==> WordKept(p, w)
  {
    BareWord(w);
    if IsService(w) {
      if w[0] == '.' { LeadingDotLost(p, w); } else { ServiceExact(p, w); }
    }
  }

  lemma LeadingDotLost(p: Platform, w: string)
    requires IsWord(w) && IsService(w) && w[0] == '.'
    ensures WrittenTargets(p, w) != Targets(p, Bare(w)) && !WordKept(p, w)
  {
    var name, kind := Printed(NameOf(w)), Printed(KindOf(w));
    LeadingDot(w);
    BareWord(w);
    if PerAsic(p, "") {
      InstancesDiffer(name, kind, "", After(Bare(w), '.'), "", p.asics);
    } else {
      assert (name + "." + kind)[0] == name[0];
    }
  }

  lemma ServiceExact(p: Platform, w: string)
    requires IsWord(w) && IsService(w) && w[0] != '.'
    ensures WrittenTargets(p, w) == Targets(p, Bare(w)) <==> WordKept(p, w)
  {
    var u := Bare(w);
    var name, kind := UpTo(u, '.'), After(u, '.');
    BareWord(w);
    ServiceParts(w);
    if kind == "" {
      UpToKeeps(u, '.', '@');
      if PerAsic(p, name) {
        InstancesDiffer(name, "(null)", name, "", "", p.asics);
      } else if PerDpu(p, name) {
        if p.dpus > 0 { InstancesDiffer(name, "(null)", name, "", "dpu", p.dpus); }
      } else {
        PrefixCancels(name + ".", "(null)", "");
      }
    }
  }

  // ----- what is written is read again -----

  /** Lines that are read as `items` and leave the section as it was. */
  ghost predicate ReadAs(ls: seq<string>, items: seq<Item>) {
    AllEnded(ls) && (forall i :: 0 <= i < |ls| ==> Plain(ls[i])) && Items(ls, false) == items
  }

  predicate Flag(lines: seq<string>, done: bool) {
    if lines == [] then done else Flag(lines[1..], Done(lines[0], done))
  }

  lemma {:induction false} ItemsAppend(a: seq<string>, b: seq<string>, done: bool)
    ensures Items(a + b, done) == Items(a, done) + Items(b, Flag(a, done))
  {
    if a == [] {
      assert a + b == b;
    } else {
      assert (a + b)[1..] == a[1..] + b;
      ItemsAppend(a[1..], b, Done(a[0], done));
    }
  }

  lemma {:induction false} PlainFlag(ls: seq<string>)
    requires forall i :: 0 <= i < |ls| ==> Plain(ls[i])
    ensures !Flag(ls, false)
  {
    if ls != [] {
      assert Plain(ls[0]) && forall i :: 0 <= i < |ls[1..]| ==> ls[1..][i] == ls[i + 1];
      PlainIsDep(ls[0]);
      PlainFlag(ls[1..]);
    }
  }

  lemma ReadAsAppend(a: seq<string>, ia: seq<Item>, b: seq<string>, ib: seq<Item>)
    requires ReadAs(a, ia) && ReadAs(b, ib)
    ensures ReadAs(a + b, ia + ib)
  {
    ItemsAppend(a, b, false);
    PlainFlag(a);
  }

  lemma ReadAsNothing()
    ensures ReadAs([], [])
  {
  }

  lemma OneLineItems(line: string)
    ensures Items([line], false) == LineItems(line, false)
  {
    var ls := [line];
    assert ls[1..] == [];
  }

  lemma BlankLine()
    ensures ReadAs(["\n"], [])
  {
    PlainWithout("\n");
    PlainIsDep("\n");
    UpToAll("\n", '=');
    assert Words("") == [];
    assert Deps("\n", []) == [];
    OneLineItems("\n");
  }

  /** A line of one directive and one target is read as that. */
  lemma TargetLine(d: string, u: string)
    requires IsDirective(d) && IsTarget(u)
    ensures ReadAs([d + "=" + u + "\n"], [Dep(d, u)])
  {
    var line := d + "=" + u + "\n";
    assert line == d + ['='] + (u + "\n");
    PlainWithout("");
    assert u + "\n" == u + ['\n'] + "";
    PlainJoined(u, '\n', "");
    PlainJoined(d, '=', u + "\n");
    PlainIsDep(line);
    UpToWhole(d, '=', u + "\n");
    SoleWord(u + "\n");
    assert (u + "\n")[..|u|] == u;
    assert line[..|line| - 1] == d + "=" + u;
    assert Deps(d, [u + "\n"]) == [Dep(d, u)];
    OneLineItems(line);
  }

  lemma {:induction false} SoleWord(w: string)
    requires w != "" && ' ' !in w
    ensures Words(w) == [w]
  {
    UpToAll(w, ' ');
    assert Words("") == [];
  }
}
