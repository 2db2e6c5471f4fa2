/** Exactly when a rewritten unit file means what it should; and a second run changes nothing, whether it does or not. */
module UnitExact {
  import opened UnitLines
  import opened UnitRewrite
  import opened UnitMeaning
  import opened UnitTheorems

  // ----- conditions -----

  /** What is written for the word fits the buffer, and the code takes the word apart at all: that of a word with a
      leading dot has no defined result. */
  predicate WordFits(p: Platform, directive: string, w: string) {
    TargetsFit(directive, WrittenTargets(p, w)) && (IsService(w) ==> w[0] != '.')
  }

  type WordTest = (string, string) -> bool

  function Fitting(p: Platform): WordTest {
    (d: string, w: string) => WordFits(p, d, w)
  }

  function Keeping(p: Platform): WordTest {
    (d: string, w: string) => WordKept(p, w)
  }

  predicate WordsAll(test: WordTest, d: string, words: seq<string>) {
    words != [] ==> test(d, words[0]) && WordsAll(test, d, words[1..])
  }

  predicate LineAll(test: WordTest, line: string, done: bool) {
    !IsVerbatim(line, done) && Token(line, '=').Some? ==>
      WordsAll(test, Token(line, '=').value.0, Words(Token(line, '=').value.1))
  }

  predicate LinesAll(test: WordTest, lines: seq<string>, done: bool) {
    lines != [] ==> LineAll(test, lines[0], done) && LinesAll(test, lines[1..], Done(lines[0], done))
  }

  /** The test holds of all words among the dependencies. */
  predicate FileAll(test: WordTest, text: string) {
    LinesAll(test, Lines(text), false)
  }

  // ----- what the code writes, read as items -----

  function WrittenDeps(p: Platform, d: string, words: seq<string>): seq<Item> {
    if words == [] then [] else WithTargets(d, WrittenTargets(p, words[0])) + WrittenDeps(p, d, words[1..])
  }

  function LineWritten(p: Platform, line: string, done: bool): seq<Item> {
    if IsVerbatim(line, done) then [Verbatim(line)]
    else
      var t := Token(line, '=');
      if t.None? then [] else WrittenDeps(p, t.value.0, Words(t.value.1))
  }

  function LinesWritten(p: Platform, lines: seq<string>, done: bool): seq<Item> {
    if lines == [] then [] else LineWritten(p, lines[0], done) + LinesWritten(p, lines[1..], Done(lines[0], done))
  }

  lemma {:induction false} NullTarget()
    ensures IsTarget("(null)")
  {
    PlainWithout("(null)");
  }

  lemma {:induction false} WrittenAreTargets(p: Platform, w: string)
    requires IsWord(w) && (IsService(w) ==> w[0] != '.')
    ensures AllTargets(WrittenTargets(p, w))
  {
    var u, ts := Bare(w), WrittenTargets(p, w);
    BareWord(w);
    if IsService(w) {
      var name, kind := Printed(NameOf(w)), Printed(KindOf(w));
      ServiceParts(w);
      TargetParts(u);
      NullTarget();
      TargetJoined(name, '.', kind);
      forall i | 0 <= i < |ts| ensures IsTarget(ts[i]) {
        if PerAsic(p, UpTo(w, '.')) {
          InstanceIsTarget(name, "", i, kind);
        } else if PerDpu(p, UpTo(w, '.')) {
          InstanceIsTarget(name, "dpu", i, kind);
        }
      }
    }
  }

  /** A unit that is written stands for itself, and has a name and a kind if it is a service. */
  lemma {:induction false} WrittenStable(p: Platform, w: string, i: nat)
    requires IsWord(w) && (IsService(w) ==> w[0] != '.') && i < |WrittenTargets(p, w)|
    ensures var t := WrittenTargets(p, w)[i];
            Targets(p, t) == [t] && (IsService(t) ==> t[0] != '.' && After(t, '.') != "")
  {
    BareWord(w);
    if IsService(w) {
      var name, kind := Printed(NameOf(w)), Printed(KindOf(w));
      ServiceParts(w);
      if PerAsic(p, UpTo(w, '.')) {
        InstanceMarked(name, "", i, kind);
      } else if PerDpu(p, UpTo(w, '.')) {
        InstanceMarked(name, "dpu", i, kind);
      } else {
        NameStarts(Bare(w));
        UpToWhole(name, '.', kind);
        assert name + "." + kind == name + ['.'] + kind;
      }
    }
  }

  lemma {:induction false} NameStarts(u: string)
    requires u != "" && u[0] != '.'
    ensures UpTo(u, '.') != "" && UpTo(u, '.')[0] == u[0] && '.' !in UpTo(u, '.')
  {
    UpToLacks(u, '.');
  }

  lemma {:induction false} UpToLacks(s: string, c: char)
    ensures c !in UpTo(s, c)
  {
    if s != "" && s[0] != c { UpToLacks(s[1..], c); }
  }

  /** The line of a unit that is written can be rewritten. */
  lemma {:induction false} WrittenAgain(p: Platform, d: string, w: string, i: nat)
    requires IsDirective(d) && IsWord(w) && WordFits(p, d, w) && i < |WrittenTargets(p, w)|
    requires IsTarget(WrittenTargets(p, w)[i])
    ensures LineOk(p, d + "=" + WrittenTargets(p, w)[i] + "\n", false)
  {
    var t := WrittenTargets(p, w)[i];
    WrittenStable(p, w, i);
    assert Bare(t + "\n") == t;
    LineOkAgain(p, d, t);
  }

  lemma {:induction false} WordWritten(p: Platform, d: string, w: string) returns (ls: seq<string>)
    requires IsDirective(d) && IsWord(w) && WordFits(p, d, w)
    ensures WriteTargets(d, WrittenTargets(p, w), LineEnd(w)) == Concat(ls)
    ensures ReadAs(ls, WithTargets(d, WrittenTargets(p, w))) && Again(p, ls)
  {
    var good, targets := (line: string) => LineOk(p, line, false), WrittenTargets(p, w);
    WrittenAreTargets(p, w);
    BlankOk(p);
    forall i | 0 <= i < |targets| ensures good(d + "=" + targets[i] + "\n") { WrittenAgain(p, d, w, i); }
    ls := WrittenTargetsRead(good, d, targets, LineEnd(w));
  }

  lemma {:induction false} WordsWritten(p: Platform, d: string, words: seq<string>) returns (ls: seq<string>)
    requires IsDirective(d) && WordsAll(Fitting(p), d, words) && AllWords(words)
    ensures WriteWords(p, d, words) == Concat(ls) && ReadAs(ls, WrittenDeps(p, d, words)) && Again(p, ls)
  {
    if words == [] {
      ls := [];
      ReadAsNothing();
    } else {
      assert forall i :: 0 <= i < |words[1..]| ==> words[1..][i] == words[i + 1];
      var first := WordWritten(p, d, words[0]);
      var rest := WordsWritten(p, d, words[1..]);
      ls := first + rest;
      ConcatAppend(first, rest);
      ReadAsAppend(first, WithTargets(d, WrittenTargets(p, words[0])), rest, WrittenDeps(p, d, words[1..]));
    }
  }

  lemma {:induction false} DepLineWritten(p: Platform, line: string) returns (ls: seq<string>)
    requires Plain(line) && OneLine(line) && LineAll(Fitting(p), line, false)
    ensures RewriteLine(p, line, false) == Concat(ls) && ReadAs(ls, LineWritten(p, line, false)) && Again(p, ls)
  {
    PlainIsDep(line);
    var t := Token(line, '=');
    ls := [];
    ReadAsNothing();
    if t.Some? && Words(t.value.1) != [] {
      LineTokens(line);
      ls := WordsWritten(p, t.value.0, Words(t.value.1));
    }
  }

  /** Read as lines and dependencies, the rewritten file is what the code writes for each word; and it can be
      rewritten again. */
  lemma {:induction false} WrittenMeaning(p: Platform, lines: seq<string>, done: bool)
    requires AreLines(lines) && LinesAll(Fitting(p), lines, done)
    ensures Items(Lines(RewriteLines(p, lines, done)), done) == LinesWritten(p, lines, done)
    ensures LinesOk(p, Lines(RewriteLines(p, lines, done)), done)
  {
    if lines != [] {
      var line, done' := lines[0], Done(lines[0], done);
      var rest := RewriteLines(p, lines[1..], done');
      FirstLine(lines);
      WrittenMeaning(p, lines[1..], done');
      if IsVerbatim(line, done) {
        VerbatimMeaning(p, line, done, rest, lines[1..]);
        ExpandOne(Expander(p), Verbatim(line));
      } else {
        PlainIsDep(line);
        DepWritten(p, line, rest);
      }
    }
  }

  lemma {:induction false} DepWritten(p: Platform, line: string, rest: string)
    requires Plain(line) && OneLine(line) && LineAll(Fitting(p), line, false) && LinesOk(p, Lines(rest), false)
    ensures Items(Lines(RewriteLine(p, line, false) + rest), false) == LineWritten(p, line, false) + Items(Lines(rest), false)
    ensures LinesOk(p, Lines(RewriteLine(p, line, false) + rest), false)
  {
    var ls := DepLineWritten(p, line);
    LinesOfAllEnded(ls, rest);
    ItemsAppend(ls, Lines(rest), false);
    PlainFlag(ls);
    LinesOkAppend(p, ls, Lines(rest));
  }

  // ----- a second run -----

  lemma {:induction false} WordsStable(p: Platform, d: string, words: seq<string>)
    requires WordsAll(Fitting(p), d, words) && AllWords(words)
    ensures Expand(Expander(p), WrittenDeps(p, d, words)) == WrittenDeps(p, d, words)
  {
    if words != [] {
      var ts := WrittenTargets(p, words[0]);
      assert forall i :: 0 <= i < |words[1..]| ==> words[1..][i] == words[i + 1];
      WordsStable(p, d, words[1..]);
      forall i | 0 <= i < |ts| ensures Targets(p, ts[i]) == [ts[i]] { WrittenStable(p, words[0], i); }
      ExpandTargets(p, d, ts);
      ExpandAppend(Expander(p), WithTargets(d, ts), WrittenDeps(p, d, words[1..]));
    }
  }

  lemma {:induction false} LinesStable(p: Platform, lines: seq<string>, done: bool)
    requires AreLines(lines) && LinesAll(Fitting(p), lines, done)
    ensures Expand(Expander(p), LinesWritten(p, lines, done)) == LinesWritten(p, lines, done)
  {
    if lines != [] {
      var line, done' := lines[0], Done(lines[0], done);
      FirstLine(lines);
      LinesStable(p, lines[1..], done');
      ExpandAppend(Expander(p), LineWritten(p, line, done), LinesWritten(p, lines[1..], done'));
      LineStable(p, line, done);
    }
  }

  lemma {:induction false} LineStable(p: Platform, line: string, done: bool)
    requires OneLine(line) && LineAll(Fitting(p), line, done)
    ensures Expand(Expander(p), LineWritten(p, line, done)) == LineWritten(p, line, done)
  {
    if IsVerbatim(line, done) {
      ExpandOne(Expander(p), Verbatim(line));
    } else {
      PlainIsDep(line);
      var t := Token(line, '=');
      if t.Some? {
        if Words(t.value.1) != [] { LineTokens(line); }
        WordsStable(p, t.value.0, Words(t.value.1));
      }
    }
  }

  /** Rewriting a rewritten file changes no line and no dependency, even where the first run changed units. */
  lemma {:induction false} RewriteTwice(p: Platform, text: string)
    requires FileAll(Fitting(p), text)
    ensures Meaning(Rewrite(p, Rewrite(p, text))) == Meaning(Rewrite(p, text))
  {
    LinesAreLines(text);
    WrittenMeaning(p, Lines(text), false);
    LinesStable(p, Lines(text), false);
    RewriteMeaning(p, Rewrite(p, text));
  }

  // ----- piece by piece -----

  lemma {:induction false} SamePieces(a: seq<Item>, b: seq<Item>, c: seq<Item>, d: seq<Item>)
    requires |a| == |c|
    ensures a + b == c + d <==> a == c && b == d
  {
    if a + b == c + d {
      assert a == (a + b)[..|a|] == (c + d)[..|c|] == c;
      assert b == (a + b)[|a|..] == (c + d)[|c|..] == d;
    }
  }

  lemma {:induction false} SameTargets(d: string, a: seq<string>, b: seq<string>)
    ensures WithTargets(d, a) == WithTargets(d, b) <==> a == b
  {
    if WithTargets(d, a) == WithTargets(d, b) {
      assert |a| == |b|;
      forall i | 0 <= i < |a| ensures a[i] == b[i] {
        assert WithTargets(d, a)[i] == WithTargets(d, b)[i];
      }
    }
  }

  /** As many units are written for a word as stand for it. */
  lemma {:induction false} SameNumber(p: Platform, w: string)
    requires IsWord(w)
    ensures |WrittenTargets(p, w)| == |Targets(p, Bare(w))|
  {
    BareWord(w);
    if IsService(w) {
      if w[0] == '.' { LeadingDot(w); } else { ServiceParts(w); }
    }
  }

  lemma {:induction false} WordsExact(p: Platform, d: string, words: seq<string>)
    requires AllWords(words)
    ensures |WrittenDeps(p, d, words)| == |Expand(Expander(p), Deps(d, words))|
    ensures WrittenDeps(p, d, words) == Expand(Expander(p), Deps(d, words)) <==> WordsAll(Keeping(p), d, words)
  {
    if words == [] {
      assert Deps(d, words) == [];
    } else {
      var w, more := words[0], words[1..];
      assert forall i :: 0 <= i < |more| ==> more[i] == words[i + 1];
      WordsExact(p, d, more);
      ExpandDeps(p, d, words);
      SameNumber(p, w);
      WordExact(p, w);
      SameTargets(d, WrittenTargets(p, w), Targets(p, Bare(w)));
      SamePieces(WithTargets(d, WrittenTargets(p, w)), WrittenDeps(p, d, more), WithTargets(d, Targets(p, Bare(w))),
                 Expand(Expander(p), Deps(d, more)));
    }
  }

  lemma {:induction false} LineExact(p: Platform, line: string, done: bool)
    requires OneLine(line)
    ensures |LineWritten(p, line, done)| == |Expand(Expander(p), LineItems(line, done))|
    ensures LineWritten(p, line, done) == Expand(Expander(p), LineItems(line, done)) <==> LineAll(Keeping(p), line, done)
  {
    if IsVerbatim(line, done) {
      ExpandOne(Expander(p), Verbatim(line));
    } else {
      PlainIsDep(line);
      var t := Token(line, '=');
      if t.Some? {
        if Words(t.value.1) != [] { LineTokens(line); }
        WordsExact(p, t.value.0, Words(t.value.1));
      }
    }
  }

  lemma {:induction false} LinesExact(p: Platform, lines: seq<string>, done: bool)
    requires AreLines(lines)
    ensures |LinesWritten(p, lines, done)| == |Expand(Expander(p), Items(lines, done))|
    ensures LinesWritten(p, lines, done) == Expand(Expander(p), Items(lines, done)) <==> LinesAll(Keeping(p), lines, done)
  {
    if lines != [] {
      var line, done' := lines[0], Done(lines[0], done);
      FirstLine(lines);
      LineExact(p, line, done);
      LinesExact(p, lines[1..], done');
      ExpandAppend(Expander(p), LineItems(line, done), Items(lines[1..], done'));
      SamePieces(LineWritten(p, line, done), LinesWritten(p, lines[1..], done'), Expand(Expander(p), LineItems(line, done)),
                 Expand(Expander(p), Items(lines[1..], done')));
    }
  }

  /** A rewritten file means the file with every unit replaced by the units that stand for it exactly when every word
      among its dependencies is kept: no service without a type, unless it stands for no instance at all. */
  lemma {:induction false} RewriteExact(p: Platform, text: string)
    requires FileAll(Fitting(p), text)
    ensures Meaning(Rewrite(p, text)) == Expand(Expander(p), Meaning(text)) <==> FileAll(Keeping(p), text)
  {
    LinesAreLines(text);
    WrittenMeaning(p, Lines(text), false);
    LinesExact(p, Lines(text), false);
  }

  lemma {:induction false} OneDependency(p: Platform, test: WordTest, d: string, u: string)
    requires IsDirective(d) && IsTarget(u)
    ensures var text := d + "=" + u + "\n";
            && Lines(text) == [text] && Meaning(text) == [Dep(d, u)]
            && (FileAll(test, text) <==> test(d, u + "\n"))
            && LinesWritten(p, [text], false) == WithTargets(d, WrittenTargets(p, u + "\n"))
  {
    var text, w := d + "=" + u + "\n", u + "\n";
    TargetLine(d, u);
    assert Ended(text) && Plain(text);
    LinesOfEnded(text, "");
    var lines := [text];
    assert text + "" == text && lines[1..] == [] && Lines("") == [];
    assert text == d + ['='] + w;
    UpToWhole(d, '=', w);
    SoleWord(w);
    PlainIsDep(text);
    OneWord(p, test, d, w);
    assert LinesAll(test, lines, false) <==> LineAll(test, text, false);
  }

  lemma {:induction false} OneWord(p: Platform, test: WordTest, d: string, w: string)
    ensures WordsAll(test, d, [w]) <==> test(d, w)
    ensures WrittenDeps(p, d, [w]) == WithTargets(d, WrittenTargets(p, w))
  {
    assert [w][1..] == [];
    assert WrittenDeps(p, d, []) == [];
  }

  /** A dependency on any service without a type is written as one on other units, on every platform on which there
      are units that stand for it. */
  lemma {:induction false} RewriteWitness(p: Platform, d: string, name: string)
    requires IsDirective(d) && IsTarget(name) && name != "" && '.' !in name && '@' !in name
    requires !(PerDpu(p, name) && p.dpus == 0) && TargetsFit(d, WrittenTargets(p, name + ".\n"))
    ensures var text := d + "=" + name + ".\n";
            && FileAll(Fitting(p), text) && Meaning(text) == [Dep(d, name + ".")]
            && Meaning(Rewrite(p, text)) == WithTargets(d, WrittenTargets(p, name + ".\n"))
            && Meaning(Rewrite(p, text)) != Expand(Expander(p), Meaning(text))
  {
    var text, u, w := d + "=" + name + ".\n", name + ".", name + ".\n";
    assert w == u + "\n" && text == d + "=" + u + "\n" && u == name + ['.'] + "";
    PlainWithout("");
    PlainJoined(name, '.', "");
    UpToWhole(name, '.', "");
    assert w == name + ['.'] + "\n";
    UpToWhole(name, '.', "\n");
    assert w[0] == name[0] && Bare(w) == u && '.' in w;
    OneDependency(p, Fitting(p), d, u);
    OneDependency(p, Keeping(p), d, u);
    RewriteExact(p, text);
    LinesAreLines(text);
    WrittenMeaning(p, Lines(text), false);
  }
}
