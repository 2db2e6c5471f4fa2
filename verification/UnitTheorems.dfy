/** Whole files: what the rewriting writes is read as the dependencies of the platform. */
module UnitTheorems {
  import opened Text
  import opened UnitLines
  import opened UnitRewrite
  import opened UnitMeaning

  // ----- conditions -----

  /** The line for a target fits the buffer. */
  predicate TargetsFit(directive: string, targets: seq<string>) {
    forall i :: 0 <= i < |targets| ==> |directive| + |targets[i]| + 2 <= BUFFER
  }

  predicate WordOk(p: Platform, directive: string, w: string) {
    WordKept(p, w) && TargetsFit(directive, Targets(p, Bare(w)))
  }

  predicate WordsOk(p: Platform, directive: string, words: seq<string>) {
    forall i :: 0 <= i < |words| ==> WordOk(p, directive, words[i])
  }

  predicate LineOk(p: Platform, line: string, done: bool) {
    !IsVerbatim(line, done) && Token(line, '=').Some? ==>
      WordsOk(p, Token(line, '=').value.0, Words(Token(line, '=').value.1))
  }

  predicate LinesOk(p: Platform, lines: seq<string>, done: bool) {
    lines != [] ==> LineOk(p, lines[0], done) && LinesOk(p, lines[1..], Done(lines[0], done))
  }

  /** Every word among the dependencies is kept and fits the buffer with its directive. */
  predicate FileOk(p: Platform, text: string) {
    LinesOk(p, Lines(text), false)
  }

  // ----- one word -----

  predicate AllTargets(targets: seq<string>) {
    forall i :: 0 <= i < |targets| ==> IsTarget(targets[i])
  }

  predicate AllLines(good: string -> bool, ls: seq<string>) {
    forall i :: 0 <= i < |ls| ==> good(ls[i])
  }

  /** Every line could be rewritten again. */
  predicate Again(p: Platform, ls: seq<string>) {
    AllLines(line => LineOk(p, line, false), ls)
  }

  /** Lines of one target each, and blank lines, are what `good` says. */
  predicate TargetsGood(good: string -> bool, d: string, targets: seq<string>) {
    good("\n") && forall i :: 0 <= i < |targets| ==> good(d + "=" + targets[i] + "\n")
  }

  lemma {:induction false} WrittenTargetsRead(good: string -> bool, d: string, targets: seq<string>, end: string)
    returns (ls: seq<string>)
    requires IsDirective(d) && AllTargets(targets) && TargetsFit(d, targets) && TargetsGood(good, d, targets)
    requires end == "\n" || end == "\n\n"
    ensures WriteTargets(d, targets, end) == Concat(ls) && ReadAs(ls, WithTargets(d, targets)) && AllLines(good, ls)
  {
    if targets == [] {
      ls := [];
      ReadAsNothing();
    } else {
      var first := WrittenLineRead(good, d, targets[0], end);
      var rest := WrittenTargetsRead(good, d, targets[1..], end);
      ls := first + rest;
      assert ReadAs(ls, WithTargets(d, targets)) by {
        ReadAsAppend(first, [Dep(d, targets[0])], rest, WithTargets(d, targets[1..]));
        assert WithTargets(d, targets) == [Dep(d, targets[0])] + WithTargets(d, targets[1..]);
      }
      assert WriteTargets(d, targets, end) == Concat(ls) by { ConcatAppend(first, rest); }
    }
  }

  /** The buffer may cut off the second newline of a line, but nothing else. */
  lemma WrittenLineRead(good: string -> bool, d: string, u: string, end: string) returns (ls: seq<string>)
    requires IsDirective(d) && IsTarget(u) && |d| + |u| + 2 <= BUFFER && good(d + "=" + u + "\n") && good("\n")
    requires end == "\n" || end == "\n\n"
    ensures WrittenLine(d, u, end) == Concat(ls) && ReadAs(ls, [Dep(d, u)]) && AllLines(good, ls)
  {
    var line := d + "=" + u + "\n";
    TargetLine(d, u);
    ls := [line];
    ConcatOne(line);
    if end == "\n\n" {
      assert d + "=" + u + end == line + "\n";
      if |line| + 1 <= BUFFER {
        ls := [line] + ["\n"];
        WithBlank([line], [Dep(d, u)]);
        ConcatOne("\n");
      } else {
        assert (line + "\n")[..BUFFER] == line;
      }
    }
  }

  lemma {:induction false} WithBlank(ls: seq<string>, items: seq<Item>)
    requires ReadAs(ls, items)
    ensures ReadAs(ls + ["\n"], items) && Concat(ls + ["\n"]) == Concat(ls) + Concat(["\n"])
  {
    BlankLine();
    ReadAsAppend(ls, items, ["\n"], []);
    ConcatAppend(ls, ["\n"]);
    assert items + [] == items;
  }

  lemma {:induction false} BlankOk(p: Platform)
    ensures LineOk(p, "\n", false)
  {
    UpToAll("\n", '=');
    assert Words("") == [];
  }

  lemma LineOkAgain(p: Platform, d: string, u: string)
    requires IsDirective(d) && IsTarget(u) && WordOk(p, d, u + "\n")
    ensures LineOk(p, d + "=" + u + "\n", false)
  {
    assert d + "=" + u + "\n" == d + ['='] + (u + "\n");
    UpToWhole(d, '=', u + "\n");
    SoleWord(u + "\n");
  }

  lemma ConcatOne(s: string)
    ensures Concat([s]) == s
  {
    var ls := [s];
    assert ls[1..] == [];
  }

  lemma {:induction false} DigitsOnly(n: nat)
    ensures forall c :: c in Natural(n) ==> IsDigit(c)
  {
    if n >= 10 { DigitsOnly(n / 10); }
  }

  lemma {:induction false} CounterPlain(prefix: string, i: nat)
    requires prefix == "" || prefix == "dpu"
    ensures IsTarget(prefix + Natural(i))
  {
    DigitsOnly(i);
    var s := prefix + Natural(i);
    forall c | c in s ensures c != '[' && c != 'D' && c != ' ' && c != '\n' {
      assert c in prefix || c in Natural(i);
    }
    PlainWithout(s);
  }

  lemma TargetJoined(a: string, c: char, b: string)
    requires IsTarget(a) && IsTarget(b) && (c == '@' || c == '.')
    ensures IsTarget(a + [c] + b) && c in a + [c] + b
  {
    PlainJoined(a, c, b);
    assert (a + [c] + b)[|a|] == c;
  }

  lemma InstanceIsTarget(name: string, prefix: string, i: nat, kind: string)
    requires IsTarget(name) && IsTarget(kind) && (prefix == "" || prefix == "dpu")
    ensures IsTarget(Instance(name, prefix, i, kind)) && '@' in Instance(name, prefix, i, kind)
  {
    var middle := prefix + Natural(i);
    CounterPlain(prefix, i);
    TargetJoined(middle, '.', kind);
    TargetJoined(name, '@', middle + ['.'] + kind);
    assert Instance(name, prefix, i, kind) == name + ['@'] + (middle + ['.'] + kind);
  }

  lemma {:induction false} TargetParts(u: string)
    requires IsTarget(u)
    ensures IsTarget(UpTo(u, '.')) && IsTarget(After(u, '.'))
  {
    UpToSplits(u, '.');
    if '.' !in u { UpToAll(u, '.'); }
    UpToAt(u, '.');
    AfterAt(u, '.');
    PlainPart(u, UpTo(u, '.'), 0);
    PlainPart(u, After(u, '.'), |u| - |After(u, '.')|);
  }

  lemma TargetsAreTargets(p: Platform, u: string)
    requires IsTarget(u)
    ensures AllTargets(Targets(p, u))
  {
    var name, kind, ts := UpTo(u, '.'), After(u, '.'), Targets(p, u);
    TargetParts(u);
    forall i | 0 <= i < |ts| ensures IsTarget(ts[i]) {
      if IsService(u) && PerAsic(p, name) {
        InstanceIsTarget(name, "", i, kind);
      } else if IsService(u) && PerDpu(p, name) {
        InstanceIsTarget(name, "dpu", i, kind);
      }
    }
  }

  lemma InstanceMarked(name: string, prefix: string, i: nat, kind: string)
    ensures '@' in Instance(name, prefix, i, kind)
  {
    assert Instance(name, prefix, i, kind)[|name|] == '@';
  }

  /** What stands for a unit stands for itself. */
  lemma TargetsStable(p: Platform, u: string, i: nat)
    requires i < |Targets(p, u)|
    ensures var t := Targets(p, u)[i]; Targets(p, t) == [t] && (IsService(t) ==> t == u)
  {
    var name, kind := UpTo(u, '.'), After(u, '.');
    if IsService(u) && PerAsic(p, name) {
      InstanceMarked(name, "", i, kind);
    } else if IsService(u) && PerDpu(p, name) {
      InstanceMarked(name, "dpu", i, kind);
    }
  }

  lemma WordOkAgain(p: Platform, d: string, w: string, i: nat)
    requires IsWord(w) && WordOk(p, d, w) && i < |Targets(p, Bare(w))|
    ensures WordOk(p, d, Targets(p, Bare(w))[i] + "\n")
  {
    var u := Bare(w);
    var t := Targets(p, u)[i];
    TargetsStable(p, u, i);
    BareWord(w);
    assert Bare(t + "\n") == t;
    if IsService(t + "\n") {
      assert IsService(t);
      if w[0] != '.' { ServiceParts(w); } else { LeadingDot(w); }
    }
  }

  lemma WordRead(p: Platform, d: string, w: string) returns (ls: seq<string>)
    requires IsDirective(d) && IsWord(w) && WordOk(p, d, w)
    ensures WriteTargets(d, WrittenTargets(p, w), LineEnd(w)) == Concat(ls)
    ensures ReadAs(ls, WithTargets(d, Targets(p, Bare(w)))) && Again(p, ls)
  {
    BareWord(w);
    WordExact(p, w);
    TargetsAreTargets(p, Bare(w));
    BlankOk(p);
    var good, targets := (line: string) => LineOk(p, line, false), Targets(p, Bare(w));
    forall i | 0 <= i < |targets| ensures good(d + "=" + targets[i] + "\n") {
      WordOkAgain(p, d, w, i);
      LineOkAgain(p, d, targets[i]);
    }
    ls := WrittenTargetsRead(good, d, targets, LineEnd(w));
  }

  // ----- one line -----

  lemma {:induction false} ExpandAppend(expand: Item -> seq<Item>, a: seq<Item>, b: seq<Item>)
    ensures Expand(expand, a + b) == Expand(expand, a) + Expand(expand, b)
  {
    if a == [] {
      assert a + b == b;
    } else {
      assert (a + b)[1..] == a[1..] + b;
      ExpandAppend(expand, a[1..], b);
    }
  }

  lemma ExpandOne(expand: Item -> seq<Item>, item: Item)
    ensures Expand(expand, [item]) == expand(item)
  {
    var items := [item];
    assert items[1..] == [];
  }

  predicate AllWords(words: seq<string>) {
    forall i :: 0 <= i < |words| ==> IsWord(words[i])
  }

  lemma WordsFirst(p: Platform, d: string, words: seq<string>)
    requires words != [] && WordsOk(p, d, words) && AllWords(words)
    ensures IsWord(words[0]) && WordOk(p, d, words[0]) && WordsOk(p, d, words[1..]) && AllWords(words[1..])
  {
    assert forall i :: 0 <= i < |words[1..]| ==> words[1..][i] == words[i + 1];
  }

  lemma ExpandDeps(p: Platform, d: string, words: seq<string>)
    requires words != []
    ensures Expand(Expander(p), Deps(d, words)) ==
            WithTargets(d, Targets(p, Bare(words[0]))) + Expand(Expander(p), Deps(d, words[1..]))
  {
    assert Deps(d, words)[1..] == Deps(d, words[1..]);
  }

  lemma {:induction false} WordsRead(p: Platform, d: string, words: seq<string>) returns (ls: seq<string>)
    requires IsDirective(d) && WordsOk(p, d, words) && AllWords(words)
    ensures WriteWords(p, d, words) == Concat(ls) && ReadAs(ls, Expand(Expander(p), Deps(d, words))) && Again(p, ls)
  {
    if words == [] {
      ls := [];
      ReadAsNothing();
    } else {
      WordsFirst(p, d, words);
      var first := WordRead(p, d, words[0]);
      var rest := WordsRead(p, d, words[1..]);
      ls := first + rest;
      ConcatAppend(first, rest);
      ExpandDeps(p, d, words);
      ReadAsAppend(first, WithTargets(d, Targets(p, Bare(words[0]))), rest, Expand(Expander(p), Deps(d, words[1..])));
    }
  }

  lemma DepLineRead(p: Platform, line: string) returns (ls: seq<string>)
    requires Plain(line) && OneLine(line) && LineOk(p, line, false)
    ensures RewriteLine(p, line, false) == Concat(ls) && ReadAs(ls, Expand(Expander(p), LineItems(line, false)))
    ensures Again(p, ls)
  {
    PlainIsDep(line);
    var t := Token(line, '=');
    ls := [];
    ReadAsNothing();
    if t.Some? {
      if Words(t.value.1) == [] {
        assert Deps(t.value.0, []) == [];
      } else {
        LineTokens(line);
        ls := WordsRead(p, t.value.0, Words(t.value.1));
      }
    }
  }

  // ----- whole files -----

  lemma FirstLine(lines: seq<string>)
    requires lines != [] && AreLines(lines)
    ensures OneLine(lines[0]) && AreLines(lines[1..]) && (!Ended(lines[0]) ==> lines[1..] == [] && Open(lines[0]))
  {
    assert forall i :: 0 <= i < |lines[1..]| ==> lines[1..][i] == lines[i + 1];
  }

  lemma {:induction false} LinesMeaning(p: Platform, lines: seq<string>, done: bool)
    requires AreLines(lines) && LinesOk(p, lines, done)
    ensures Items(Lines(RewriteLines(p, lines, done)), done) == Expand(Expander(p), Items(lines, done))
    ensures LinesOk(p, Lines(RewriteLines(p, lines, done)), done)
  {
    if lines != [] {
      var line, done' := lines[0], Done(lines[0], done);
      var rest := RewriteLines(p, lines[1..], done');
      FirstLine(lines);
      LinesMeaning(p, lines[1..], done');
      ExpandAppend(Expander(p), LineItems(line, done), Items(lines[1..], done'));
      if IsVerbatim(line, done) {
        VerbatimMeaning(p, line, done, rest, lines[1..]);
      } else {
        DepMeaning(p, line, rest);
      }
    }
  }

  lemma {:induction false} VerbatimMeaning(p: Platform, line: string, done: bool, rest: string, lines: seq<string>)
    requires IsVerbatim(line, done) && (Ended(line) || (Open(line) && lines == [] && rest == ""))
    ensures Items(Lines(line + rest), done) == Expand(Expander(p), LineItems(line, done)) + Items(Lines(rest), Done(line, done))
    ensures LinesOk(p, Lines(rest), Done(line, done)) ==> LinesOk(p, Lines(line + rest), done)
  {
    ExpandOne(Expander(p), Verbatim(line));
    if Ended(line) {
      LinesOfEnded(line, rest);
      var ls := [line] + Lines(rest);
      assert ls[1..] == Lines(rest);
    } else {
      assert line + rest == line;
      LinesOfOpen(line);
      var ls := [line];
      assert ls[1..] == [];
    }
  }

  lemma {:induction false} DepMeaning(p: Platform, line: string, rest: string)
    requires !IsVerbatim(line, false) && OneLine(line) && LineOk(p, line, false)
    ensures Items(Lines(RewriteLine(p, line, false) + rest), false) ==
            Expand(Expander(p), LineItems(line, false)) + Items(Lines(rest), Done(line, false))
    ensures LinesOk(p, Lines(rest), Done(line, false)) ==> LinesOk(p, Lines(RewriteLine(p, line, false) + rest), false)
  {
    PlainIsDep(line);
    var ls := DepLineRead(p, line);
    LinesOfAllEnded(ls, rest);
    ItemsAppend(ls, Lines(rest), false);
    PlainFlag(ls);
    if LinesOk(p, Lines(rest), false) { LinesOkAppend(p, ls, Lines(rest)); }
  }

  lemma {:induction false} LinesOkAppend(p: Platform, ls: seq<string>, rest: seq<string>)
    requires Again(p, ls) && (forall i :: 0 <= i < |ls| ==> Plain(ls[i])) && LinesOk(p, rest, false)
    ensures LinesOk(p, ls + rest, false)
  {
    if ls == [] {
      assert ls + rest == rest;
    } else {
      assert LineOk(p, ls[0], false) && Plain(ls[0]);
      PlainIsDep(ls[0]);
      assert forall i :: 0 <= i < |ls[1..]| ==> ls[1..][i] == ls[i + 1];
      LinesOkAppend(p, ls[1..], rest);
      assert (ls + rest)[1..] == ls[1..] + rest;
    }
  }

  /** Read as lines and dependencies, the rewritten file is the file with every unit replaced by the units
      that stand for it on the platform, and everything else as it was, in order. */
  lemma RewriteMeaning(p: Platform, text: string)
    requires FileOk(p, text)
    ensures Meaning(Rewrite(p, text)) == Expand(Expander(p), Meaning(text))
    ensures FileOk(p, Rewrite(p, text))
  {
    LinesAreLines(text);
    LinesMeaning(p, Lines(text), false);
  }

  lemma {:induction false} ExpandTargets(p: Platform, d: string, targets: seq<string>)
    requires forall i :: 0 <= i < |targets| ==> Targets(p, targets[i]) == [targets[i]]
    ensures Expand(Expander(p), WithTargets(d, targets)) == WithTargets(d, targets)
  {
    if targets != [] {
      var items := WithTargets(d, targets);
      assert items[1..] == WithTargets(d, targets[1..]);
      ExpandTargets(p, d, targets[1..]);
      assert Expander(p)(items[0]) == WithTargets(d, [targets[0]]) == [items[0]];
      assert [items[0]] + items[1..] == items;
    }
  }
}
