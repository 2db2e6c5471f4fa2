/** The rendering as the code does it, in one buffer of characters closed by a NUL. */
module MidplaneBuffer {
  import opened Text
  import opened UnitMeaning
  import opened Midplane

  const NUL := '\0'

  /** The characters of a buffer hold the text `s`. */
  predicate HoldsText(chars: string, s: string) {
    |s| < |chars| && chars[..|s|] == s && chars[|s|] == NUL
  }

  predicate Holds(buf: array<char>, s: string)
    reads buf
  {
    HoldsText(buf[..], s)
  }

  /** Characters with `piece` written over them at `to`. */
  function Overwrite(chars: string, to: nat, piece: string): string
    requires to + |piece| <= |chars|
  {
    chars[..to] + piece + chars[to + |piece|..]
  }

  /** Where `t` first occurs from `from` on. */
  method Search(buf: array<char>, n: nat, t: string, from: nat, ghost text: string) returns (r: Option<nat>)
    requires Holds(buf, text) && from <= n == |text|
    ensures r == Find(text, t, from)
  {
    var i := from;
    while i <= n
      invariant from <= i <= n + 1
      invariant i <= n ==> Find(text, t, from) == Find(text, t, i)
      invariant i == n + 1 ==> Find(text, t, from).None?
    {
      if i + |t| <= n && buf[i..i + |t|] == t {
        assert text[i..i + |t|] == buf[i..i + |t|];
        return Some(i);
      }
      assert i + |t| <= n ==> text[i..i + |t|] == buf[i..i + |t|];
      i := i + 1;
    }
    r := None;
  }

  method EndOfLine(buf: array<char>, n: nat, from: nat, ghost text: string) returns (r: nat)
    requires Holds(buf, text) && from <= n == |text|
    ensures r == LineStop(text, from)
  {
    r := from;
    while r < n && buf[r] != '\n'
      invariant from <= r <= n && LineStop(text, from) == LineStop(text, r)
    {
      r := r + 1;
    }
    if r < n {
      r := r + 1;
    }
  }

  /** Moves `count` characters, which may overlap their new place. */
  method Move(buf: array<char>, to: nat, from: nat, count: nat)
    requires to + count <= buf.Length && from + count <= buf.Length
    modifies buf
    ensures buf[..] == Overwrite(old(buf[..]), to, old(buf[from..from + count]))
  {
    forall i | 0 <= i < count {
      buf[to + i] := buf[from + i];
    }
  }

  method CopyIn(buf: array<char>, to: nat, s: string)
    requires to + |s| <= buf.Length
    modifies buf
    ensures buf[..] == Overwrite(old(buf[..]), to, s)
  {
    forall i | 0 <= i < |s| {
      buf[to + i] := s[i];
    }
  }

  lemma Joined(s: string, k: nat, m: nat, e: nat)
    requires k <= m <= e <= |s|
    ensures s[..e] == s[..k] + s[k..m] + s[m..e]
  {
  }

  lemma OverwriteParts(chars: string, to: nat, piece: string)
    requires to + |piece| <= |chars|
    ensures var r := Overwrite(chars, to, piece);
            |r| == |chars| && r[..to] == chars[..to] && r[to..to + |piece|] == piece && r[to + |piece|..] == chars[to + |piece|..]
  {
  }

  lemma InsertText(chars: string, text: string, k: nat, ins: string)
    requires k <= |text| && HoldsText(chars, text) && |text| + |ins| < |chars|
    requires chars[|text| + |ins|] == NUL
    ensures HoldsText(Overwrite(Overwrite(chars, k + |ins|, text[k..]), k, ins), text[..k] + ins + text[k..])
  {
    var n, m, e := |text|, k + |ins|, |text| + |ins|;
    var moved := Overwrite(chars, m, text[k..]);
    var all := Overwrite(moved, k, ins);
    OverwriteParts(chars, m, text[k..]);
    OverwriteParts(moved, k, ins);
    Joined(all, k, m, e);
    assert all[..k] == moved[..k] == chars[..k] == text[..k];
    assert all[m..e] == moved[m..][..n - k] == moved[m..e];
    assert all[e] == moved[m..][n - k] == moved[e] == chars[e..][0];
  }

  /** Makes room for `ins` at `k` and puts it there. */
  method Insert(buf: array<char>, n: nat, k: nat, ins: string, ghost text: string)
    requires k <= n == |text| && Holds(buf, text) && n + |ins| < buf.Length
    requires buf[n + |ins|] == NUL
    modifies buf
    ensures Holds(buf, text[..k] + ins + text[k..])
  {
    InsertText(buf[..], text, k, ins);
    assert buf[k..n] == buf[..n][k..] == text[k..];
    Move(buf, k + |ins|, k, n - k);
    CopyIn(buf, k, ins);
  }

  lemma RemoveText(chars: string, text: string, i: nat, end: nat)
    requires i <= end <= |text| && HoldsText(chars, text)
    ensures HoldsText(Overwrite(chars, i, text[end..] + [NUL]), text[..i] + text[end..])
  {
    var piece := text[end..] + [NUL];
    var all, e := Overwrite(chars, i, piece), i + |text| - end;
    OverwriteParts(chars, i, piece);
    Joined(all, 0, i, e);
    assert all[..i] == chars[..i] == text[..i];
    assert all[i..e] == all[i..i + |piece|][..|text| - end] == text[end..];
    assert all[e] == all[i..i + |piece|][|text| - end];
  }

  /** Removes the characters from `i` to `end`; the closing NUL moves along. */
  method Remove(buf: array<char>, n: nat, i: nat, end: nat, ghost text: string)
    requires i <= end <= n == |text| && Holds(buf, text)
    modifies buf
    ensures Holds(buf, text[..i] + text[end..])
  {
    RemoveText(buf[..], text, i, end);
    assert buf[end..n + 1] == buf[..n][end..] + [buf[n]];
    Move(buf, i, end, n - end + 1);
  }

  lemma OccursInside(s: string, t: string, v: nat, i: nat, end: nat)
    requires i <= v && v + |t| <= end <= |s| && OccursAt(s, t, v)
    ensures Contains(s[i..end], t)
  {
    OccursEach(s, t, v);
    OccursEach(s[i..end], t, v - i);
  }

  lemma OccursOutside(s: string, t: string, i: nat, end: nat) returns (v: nat)
    requires i <= end <= |s| && Contains(s[i..end], t)
    ensures i <= v && v + |t| <= end && OccursAt(s, t, v)
  {
    var j: nat :| j <= end - i && OccursAt(s[i..end], t, j);
    v := i + j;
    OccursEach(s, t, v);
    OccursEach(s[i..end], t, j);
  }

  /** A name in a line is found before the end of the line, and the other way round. */
  lemma {:induction false} NameInLine(s: string, name: string, i: nat, end: nat)
    requires i < |s| && end == LineStop(s, i) && IsKey(name)
    ensures var r := Find(s, name, i); r.Some? && r.value < end <==> Contains(s[i..end], name)
  {
    var r := Find(s, name, i);
    FindFirst(s, name, i);
    EndsLine(s, i);
    if r.Some? && r.value < end {
      OccursEach(s, name, r.value);
      assert forall p :: r.value <= p < r.value + |name| ==> s[p] in name;
      OccursInside(s, name, r.value, i, end);
    } else if Contains(s[i..end], name) {
      var v := OccursOutside(s, name, i, end);
    }
  }

  lemma {:induction false} EndsLine(s: string, i: nat)
    requires i < |s|
    ensures LineStop(s, i) < |s| ==> s[LineStop(s, i) - 1] == '\n'
    decreases |s| - i
  {
    if s[i] != '\n' && i + 1 < |s| { EndsLine(s, i + 1); }
  }

  /** The text around a line: what is done, what precedes the line, the line, and what follows. */
  lemma Around(done: string, todo: string, i: nat, end: nat) returns (a: string, b: string, c: string)
    requires |done| <= i <= end <= |done + todo|
    ensures todo == a + b + c && |done + a| == i && |b| == end - i
    ensures (done + todo)[..i] == done + a && (done + todo)[..end] == done + a + b
    ensures (done + todo)[i..end] == b && (done + todo)[end..] == c
  {
    var pos := |done|;
    a, b, c := todo[..i - pos], todo[i - pos..end - pos], todo[end - pos..];
    Passed(done, a, b, c);
    Slices(done + todo, done + a, b, c);
  }

  lemma {:induction false} RoundScrub(key: string, name: string, done: string, todo: string, a: string, b: string, c: string)
    requires IsKey(key) && todo == a + b + c && Find(todo, key, 0) == Some(|a|) && LineStop(todo, |a|) == |a| + |b|
    ensures done + Scrub(key, name, todo) ==
            if Contains(b, name) then done + a + Scrub(key, name, c) else done + a + b + Scrub(key, name, c)
  {
    ScrubParts(key, name, todo, a, b, c);
    Passed(done, a, if Contains(b, name) then "" else b, Scrub(key, name, c));
  }

  lemma RoundPlace(key: string, done: string, todo: string, i: nat, end: nat)
    requires IsKey(key) && Find(done + todo, key, |done|) == Some(i) && end == LineStop(done + todo, i)
    ensures |done| <= i < end <= |done + todo|
    ensures Find(todo, key, 0) == Some(i - |done|) && LineStop(todo, i - |done|) == end - |done|
  {
    FindShift(done, todo, key, 0);
    StopShift(done, todo, i - |done|);
  }

  /** What one round leaves to scrub, whether it removes the line from `i` on or passes over it. */
  lemma {:induction false} RoundValue(key: string, name: string, done: string, todo: string, i: nat, end: nat)
    requires IsKey(key) && Find(done + todo, key, |done|) == Some(i) && end == LineStop(done + todo, i)
    ensures |done| <= i < end <= |done + todo|
    ensures var text := done + todo;
            var rest := Scrub(key, name, text[end..]);
            done + Scrub(key, name, todo) == if Contains(text[i..end], name) then text[..i] + rest else text[..end] + rest
  {
    RoundPlace(key, done, todo, i, end);
    var a, b, c := Around(done, todo, i, end);
    RoundScrub(key, name, done, todo, a, b, c);
  }

  /** One round: the line from the key at `i` on is removed or passed over, and less text is left. */
  method Round(buf: array<char>, n: nat, i: nat, key: string, name: string, ghost done: string, ghost todo: string)
    returns (len: nat, next: nat, ghost done': string, ghost todo': string)
    requires IsKey(key) && IsKey(name) && Holds(buf, done + todo) && n == |done + todo|
    requires Find(done + todo, key, |done|) == Some(i)
    modifies buf
    ensures Holds(buf, done' + todo') && len == |done' + todo'| && next == |done'| && |todo'| < |todo|
    ensures done' + Scrub(key, name, todo') == done + Scrub(key, name, todo)
  {
    ghost var text := done + todo;
    var end := EndOfLine(buf, n, i, text);
    var target := Search(buf, n, name, i, text);
    RoundValue(key, name, done, todo, i, end);
    NameInLine(text, name, i, end);
    todo' := text[end..];
    if target.Some? && target.value < end {
      Remove(buf, n, i, end, text);
      len, next, done' := n - (end - i), i, text[..i];
    } else {
      len, next, done' := n, end, text[..end];
      TakeDrop(text, end);
    }
  }

  lemma TakeDrop(s: string, i: nat)
    requires i <= |s|
    ensures s[..i] + s[i..] == s
  {
  }

  lemma Passed(done: string, a: string, b: string, c: string)
    ensures done + a + b + c == done + (a + b + c) && done + a + "" == done + a
  {
  }

  /** Scrubs the text from `start` on. */
  method RemoveStale(buf: array<char>, n: nat, start: nat, key: string, name: string, ghost pre: string, ghost tail: string)
    returns (len: nat)
    requires IsKey(key) && IsKey(name) && Holds(buf, pre + tail) && start == |pre| && n == |pre + tail|
    modifies buf
    ensures Holds(buf, pre + Scrub(key, name, tail)) && len == |pre + Scrub(key, name, tail)|
  {
    len := n;
    var pos: nat := start;
    ghost var done, todo := pre, tail;
    var found := Search(buf, len, key, pos, done + todo);
    while found.Some?
      invariant Holds(buf, done + todo) && len == |done + todo| && pos == |done|
      invariant found == Find(done + todo, key, pos)
      invariant done + Scrub(key, name, todo) == pre + Scrub(key, name, tail)
      decreases |todo|
    {
      len, pos, done, todo := Round(buf, len, found.value, key, name, done, todo);
      found := Search(buf, len, key, pos, done + todo);
    }
    ScrubNothing(key, name, done, todo);
  }

  lemma {:induction false} ScrubNothing(key: string, name: string, done: string, todo: string)
    requires IsKey(key) && Find(done + todo, key, |done|).None?
    ensures Scrub(key, name, todo) == todo
  {
    FindShift(done, todo, key, 0);
  }

  /** Renders the file in the buffer, which has room for the inserted line and a closing NUL. The file
      must have the section. */
  method RenderNetworkService(buf: array<char>, fileSize: nat, dpus: nat, ghost text: string) returns (ok: bool, len: nat)
    requires dpus > 0 && Holds(buf, text) && |text| == fileSize
    requires buf.Length == fileSize + |Inserted(MidplaneJob(dpus))| + 1
    requires buf[buf.Length - 1] == NUL
    modifies buf
    ensures var r := Render(MidplaneJob(dpus), text);
            (ok <==> r.Some?) && (ok ==> Holds(buf, r.value) && len == |r.value|)
  {
    var job := MidplaneJob(dpus);
    MidplaneGood(dpus);
    var i := Search(buf, fileSize, job.section, 0, text);
    ok, len := i.Some?, fileSize;
    if ok {
      var k := i.value + |job.section|;
      var ins := Inserted(job);
      Insert(buf, fileSize, k, ins, text);
      len := RemoveStale(buf, fileSize + |ins|, k + |ins|, job.key, job.name, text[..k] + ins, text[k..]);
    }
  }
}
