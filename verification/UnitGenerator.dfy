/** The generator's pass over a unit file, line by line and word by word. */
module UnitGenerator {
  import opened Text
  import opened UnitLines
  import opened UnitRewrite
  import opened UnitExact

  /** Writes the instances 0, 1, ... of a service. */
  method WriteInstances(directive: string, name: string, prefix: string, count: nat, kind: string) returns (out: string)
    ensures out == WriteTargets(directive, Instances(name, prefix, count, kind), "\n")
  {
    out := "";
    ghost var all := Instances(name, prefix, count, kind);
    assert all[0..] == all;
    for i := 0 to count
      invariant out + WriteTargets(directive, all[i..], "\n") == WriteTargets(directive, all, "\n")
    {
      assert all[i..][1..] == all[i + 1..];
      out := out + WrittenLine(directive, Instance(name, prefix, i, kind), "\n");
    }
    assert all[count..] == [];
  }

  lemma {:induction false} WriteOne(directive: string, target: string, end: string)
    ensures WriteTargets(directive, [target], end) == WrittenLine(directive, target, end)
  {
    var ts := [target];
    assert ts[1..] == [];
  }

  /** Writes one word of a dependency line. */
  method WriteWord(p: Platform, directive: string, word: string) returns (out: string)
    ensures out == WriteTargets(directive, WrittenTargets(p, word), LineEnd(word))
  {
    if '.' !in word || '@' in word {
      out := Buffered(directive + "=" + word + "\n");
      WriteOne(directive, Bare(word), LineEnd(word));
      assert directive + "=" + word + "\n" == directive + "=" + Bare(word) + LineEnd(word);
      return;
    }
    var name, kind := Printed(NameOf(word)), Printed(KindOf(word));
    if p.asics > 1 && UpTo(word, '.') in p.multiInstance {
      out := WriteInstances(directive, name, "", p.asics, kind);
    } else if p.smartSwitchNpu && UpTo(word, '.') == "database" {
      out := WriteInstances(directive, name, "dpu", p.dpus, kind);
    } else {
      out := Buffered(directive + "=" + name + "." + kind + "\n");
      WriteOne(directive, name + "." + kind, "\n");
      assert directive + "=" + name + "." + kind + "\n" == directive + "=" + (name + "." + kind) + "\n";
    }
  }

  lemma {:induction false} WordsNext(rest: string)
    ensures match Token(rest, ' ')
            case None => Words(rest) == []
            case Some(t) => Words(rest) == [t.0] + Words(t.1)
  {
  }

  /** Writes a dependency line. */
  method WriteDepLine(p: Platform, line: string) returns (out: string)
    requires !IsVerbatim(line, false)
    ensures out == RewriteLine(p, line, false)
  {
    out := "";
    var token := Token(line, '=');
    if token.None? {
      return;
    }
    var directive, rest := token.value.0, token.value.1;
    ghost var all := WriteWords(p, directive, Words(rest));
    var word := Token(rest, ' ');
    while word.Some?
      invariant word == Token(rest, ' ')
      invariant out + WriteWords(p, directive, Words(rest)) == all
      decreases |rest|
    {
      WordsNext(rest);
      var w, after := word.value.0, word.value.1;
      assert Words(rest)[1..] == Words(after);
      var text := WriteWord(p, directive, w);
      assert (out + text) + WriteWords(p, directive, Words(after)) == out + (text + WriteWords(p, directive, Words(after)));
      out, rest := out + text, after;
      word := Token(rest, ' ');
    }
    WordsNext(rest);
    assert out + "" == out;
  }

  /** Writes one line and keeps track of the section. */
  method WriteLine(p: Platform, line: string, done: bool) returns (out: string, done': bool)
    ensures out == RewriteLine(p, line, done) && done' == Done(line, done)
  {
    out, done' := line, done;
    if Contains(line, "[Service]") || Contains(line, "[Timer]") {
      done' := true;
    } else if Contains(line, "[Install]") {
      done' := false;
    } else if !(Contains(line, "[Unit]") || Contains(line, "Description") || done) {
      out := WriteDepLine(p, line);
    }
  }

  /** Rewrites a unit file. If every word is kept and fits the buffer, the result depends on exactly the
      units that stand for the units of the file, and has all its other lines. */
  method ReplaceMultiInstDep(p: Platform, text: string) returns (out: string)
    ensures out == Rewrite(p, text)
    ensures FileAll(Fitting(p), text) ==>
              (Meaning(out) == Expand(Expander(p), Meaning(text)) <==> FileAll(Keeping(p), text))
  {
    out := "";
    var lines, sectionDone := Lines(text), false;
    assert lines[0..] == lines;
    for n := 0 to |lines|
      invariant out + RewriteLines(p, lines[n..], sectionDone) == Rewrite(p, text)
    {
      assert lines[n..][1..] == lines[n + 1..];
      ghost var rest := RewriteLines(p, lines[n + 1..], Done(lines[n], sectionDone));
      var written: string;
      written, sectionDone := WriteLine(p, lines[n], sectionDone);
      assert (out + written) + rest == out + (written + rest);
      out := out + written;
    }
    if FileAll(Fitting(p), text) { RewriteExact(p, text); }
  }
}
