/** Text as lines, and the tokenizer that takes it apart. */
module UnitLines {
  import opened Text

  // ----- lines -----

  /** The lines of a text, each with its newline; the last may lack one. */
  function Lines(s: string): seq<string> {
    if s == "" then []
    else
      var rest := Lines(s[1..]);
      if s[0] == '\n' then ["\n"] + rest
      else if rest == [] then [[s[0]]]
      else [[s[0]] + rest[0]] + rest[1..]
  }

  function Concat(parts: seq<string>): string {
    if parts == [] then "" else parts[0] + Concat(parts[1..])
  }

  /** A line that is not the last of its text. */
  predicate Ended(line: string) {
    line != "" && line[|line| - 1] == '\n' && '\n' !in line[..|line| - 1]
  }

  /** A last line without a newline. */
  predicate Open(line: string) {
    line != "" && '\n' !in line
  }

  lemma {:induction false} LinesOfEnded(line: string, rest: string)
    requires Ended(line)
    ensures Lines(line + rest) == [line] + Lines(rest)
  {
    assert (line + rest)[1..] == line[1..] + rest;
    if |line| == 1 {
      assert line == "\n" && line[1..] + rest == rest;
    } else {
      assert line[1..][..|line| - 2] == line[..|line| - 1][1..];
      LinesOfEnded(line[1..], rest);
      assert [line[0]] + line[1..] == line;
    }
  }

  lemma {:induction false} LinesOfOpen(line: string)
    requires Open(line)
    ensures Lines(line) == [line]
  {
    if |line| > 1 {
      LinesOfOpen(line[1..]);
      assert [line[0]] + line[1..] == line;
    } else {
      assert line[1..] == "" && line == [line[0]];
    }
  }

  /** What lines look like: all but the last are ended. */
  predicate AreLines(ls: seq<string>) {
    forall i :: 0 <= i < |ls| ==> Ended(ls[i]) || (i == |ls| - 1 && Open(ls[i]))
  }

  lemma {:induction false} LinesAreLines(s: string)
    ensures AreLines(Lines(s)) && Concat(Lines(s)) == s
  {
    if s != "" {
      var ls, rest := Lines(s), Lines(s[1..]);
      LinesAreLines(s[1..]);
      assert [s[0]] + s[1..] == s;
      if s[0] == '\n' {
        assert ls[1..] == rest;
      } else if rest != [] {
        assert ls[1..] == rest[1..];
        assert ls[0][..|ls[0]| - 1] == [s[0]] + rest[0][..|rest[0]| - 1];
        assert Concat(ls) == [s[0]] + rest[0] + Concat(rest[1..]);
      }
    }
  }

  lemma {:induction false} LinesOfConcat(ls: seq<string>)
    requires AreLines(ls)
    ensures Lines(Concat(ls)) == ls
  {
    if ls != [] {
      assert forall i :: 0 <= i < |ls[1..]| ==> ls[1..][i] == ls[i + 1];
      LinesOfConcat(ls[1..]);
      if Ended(ls[0]) {
        LinesOfEnded(ls[0], Concat(ls[1..]));
      } else {
        assert ls == [ls[0]] && ls[1..] == [];
        assert Concat(ls) == ls[0];
        LinesOfOpen(ls[0]);
      }
    }
  }

  lemma {:induction false} ConcatAppend(a: seq<string>, b: seq<string>)
    ensures Concat(a + b) == Concat(a) + Concat(b)
  {
    if a == [] {
      assert a + b == b;
    } else {
      assert (a + b)[1..] == a[1..] + b;
      ConcatAppend(a[1..], b);
    }
  }

  predicate AllEnded(ls: seq<string>) {
    forall i :: 0 <= i < |ls| ==> Ended(ls[i])
  }

  lemma {:induction false} LinesOfAllEnded(ls: seq<string>, rest: string)
    requires AllEnded(ls)
    ensures Lines(Concat(ls) + rest) == ls + Lines(rest)
  {
    if ls == [] {
      assert Concat(ls) + rest == rest;
    } else {
      assert forall i :: 0 <= i < |ls[1..]| ==> ls[1..][i] == ls[i + 1];
      assert Concat(ls) + rest == ls[0] + (Concat(ls[1..]) + rest);
      LinesOfEnded(ls[0], Concat(ls[1..]) + rest);
      LinesOfAllEnded(ls[1..], rest);
      assert [ls[0]] + (ls[1..] + Lines(rest)) == ls + Lines(rest);
    }
  }

  // ----- tokens -----

  function Skip(s: string, c: char): (r: string)
    ensures |r| <= |s| && (r != "" ==> r[0] != c)
  {
    if s != "" && s[0] == c then Skip(s[1..], c) else s
  }

  function UpTo(s: string, c: char): (r: string)
    ensures |r| <= |s| && c !in r
  {
    if s == "" || s[0] == c then "" else [s[0]] + UpTo(s[1..], c)
  }

  /** What follows the first `c`, or nothing if there is none. */
  function After(s: string, c: char): (r: string)
    ensures |r| <= |s| && (s != "" ==> |r| < |s|)
  {
    if s == "" then "" else if s[0] == c then s[1..] else After(s[1..], c)
  }

  /** The next token and the text behind its delimiter, as `strtok_r` finds them. */
  function Token(s: string, c: char): Option<(string, string)> {
    var r := Skip(s, c);
    if r == "" then None else Some((UpTo(r, c), After(r, c)))
  }

  /** All further tokens. */
  function Words(s: string): seq<string>
    decreases |s|
  {
    var r := Skip(s, ' ');
    if r == "" then [] else [UpTo(r, ' ')] + Words(After(r, ' '))
  }

  lemma {:induction false} UpToWhole(s: string, c: char, rest: string)
    requires c !in s
    ensures UpTo(s + [c] + rest, c) == s && After(s + [c] + rest, c) == rest
  {
    if s == "" {
      assert s + [c] + rest == [c] + rest;
      assert ([c] + rest)[1..] == rest;
    } else {
      assert (s + [c] + rest)[1..] == s[1..] + [c] + rest;
      UpToWhole(s[1..], c, rest);
    }
  }

  lemma {:induction false} UpToAll(s: string, c: char)
    requires c !in s
    ensures UpTo(s, c) == s && After(s, c) == ""
  {
    if s != "" {
      UpToAll(s[1..], c);
      assert [s[0]] + s[1..] == s;
    }
  }

  lemma {:induction false} UpToSplits(s: string, c: char)
    ensures if c in s then s == UpTo(s, c) + [c] + After(s, c) else s == UpTo(s, c)
  {
    if s != "" && s[0] != c {
      UpToSplits(s[1..], c);
      assert [s[0]] + s[1..] == s;
      assert c in s <==> c in s[1..];
    } else if s != "" {
      assert s == [c] + s[1..];
    }
  }

}
