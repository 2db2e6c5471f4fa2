/** Strings as the sources handle them: stripping, splitting, joining, searching and decimal numbers. */
module Text {

  datatype Option<+T> = None | Some(value: T)

  /** Applies `f` to every element, failing if it fails on one. */
  function MapAll<A, B>(f: A -> Option<B>, xs: seq<A>): Option<seq<B>> {
    if xs == [] then Some([])
    else
      var init, last := MapAll(f, xs[..|xs| - 1]), f(xs[|xs| - 1]);
      if init.Some? && last.Some? then Some(init.value + [last.value]) else None
  }

  lemma {:induction false} MapAllAt<A, B>(f: A -> Option<B>, xs: seq<A>)
    ensures var ys := MapAll(f, xs);
            && (ys.Some? <==> forall i :: 0 <= i < |xs| ==> f(xs[i]).Some?)
            && (ys.Some? ==> |ys.value| == |xs| && forall i :: 0 <= i < |xs| ==> f(xs[i]) == Some(ys.value[i]))
  {
    if xs != [] { MapAllAt(f, xs[..|xs| - 1]); }
  }

  lemma {:induction false} MapAllPrefix<A, B>(f: A -> Option<B>, xs: seq<A>, n: nat)
    requires n <= |xs| && MapAll(f, xs[..n]).None?
    ensures MapAll(f, xs).None?
    decreases |xs|
  {
    if n < |xs| {
      assert xs[..|xs| - 1][..n] == xs[..n];
      MapAllPrefix(f, xs[..|xs| - 1], n);
    } else {
      assert xs[..n] == xs;
    }
  }

  /** Applies `f` to every item of a dictionary, failing if it fails on one. */
  function Collect<A, B>(f: (string, A) -> Option<B>, m: map<string, A>): Option<map<string, B>> {
    if forall k :: k in m ==> f(k, m[k]).Some? then Some(map k | k in m :: f(k, m[k]).value) else None
  }

  lemma SameMap<A>(m: map<string, A>, n: map<string, A>)
    ensures m == n <==> m.Keys == n.Keys && forall k :: k in m ==> k in n && m[k] == n[k]
  {
  }

  lemma CollectExact<A, B>(f: (string, A) -> Option<B>, m: map<string, A>, n: map<string, B>)
    ensures Collect(f, m) == Some(n) <==> m.Keys == n.Keys && forall k :: k in m ==> f(k, m[k]) == Some(n[k])
  {
    if forall k :: k in m ==> f(k, m[k]).Some? {
      var c := Collect(f, m).value;
      SameMap(c, n);
      assert c.Keys == m.Keys;
    }
  }

  /** The white-space characters that stripping removes. */
  predicate IsSpace(c: char) {
    var n := c as int;
    || 9 <= n <= 13 || 28 <= n <= 32 || n == 0x85 || n == 0xA0 || n == 0x1680 || 0x2000 <= n <= 0x200A
    || n == 0x2028 || n == 0x2029 || n == 0x202F || n == 0x205F || n == 0x3000
  }

  function StripLeft(s: string): (r: string)
    ensures |r| <= |s|
  {
    if s != "" && IsSpace(s[0]) then StripLeft(s[1..]) else s
  }

  function StripRight(s: string): (r: string)
    ensures |r| <= |s|
  {
    if s != "" && IsSpace(s[|s| - 1]) then StripRight(s[..|s| - 1]) else s
  }

  function Strip(s: string): string {
    StripRight(StripLeft(s))
  }

  /** Neither end is white space. */
  predicate Trimmed(s: string) {
    s != "" ==> !IsSpace(s[0]) && !IsSpace(s[|s| - 1])
  }

  lemma {:induction false} StripLeftTrims(s: string)
    ensures StripLeft(s) != "" ==> !IsSpace(StripLeft(s)[0])
    ensures s != "" && !IsSpace(s[|s| - 1]) ==> StripLeft(s) != "" && StripLeft(s)[|StripLeft(s)| - 1] == s[|s| - 1]
  {
    if s != "" && IsSpace(s[0]) { StripLeftTrims(s[1..]); }
  }

  lemma {:induction false} StripRightTrims(s: string)
    ensures StripRight(s) != "" ==> !IsSpace(StripRight(s)[|StripRight(s)| - 1])
    ensures StripRight(s) != "" ==> StripRight(s)[0] == s[0]
  {
    if s != "" && IsSpace(s[|s| - 1]) { StripRightTrims(s[..|s| - 1]); }
  }

  /** Stripping leaves trimmed text, and changes nothing exactly when the text is trimmed. */
  lemma StripTrims(s: string)
    ensures Trimmed(Strip(s))
    ensures Strip(s) == s <==> Trimmed(s)
  {
    StripLeftTrims(s);
    StripRightTrims(StripLeft(s));
    StripLeftTrims(StripLeft(s));
  }

  /** The parts between occurrences of `sep`; there is always at least one. */
  function Split(s: string, sep: char): (r: seq<string>)
    ensures r != []
  {
    if s == "" then [""]
    else if s[0] == sep then [""] + Split(s[1..], sep)
    else
      var r := Split(s[1..], sep);
      [[s[0]] + r[0]] + r[1..]
  }

  function Join(parts: seq<string>, sep: string): string {
    if parts == [] then ""
    else if |parts| == 1 then parts[0]
    else parts[0] + sep + Join(parts[1..], sep)
  }

  lemma {:induction false} JoinSplit(s: string, sep: char)
    ensures Join(Split(s, sep), [sep]) == s
  {
    if s != "" {
      var r := Split(s[1..], sep);
      JoinSplit(s[1..], sep);
      if s[0] == sep {
        assert ([""] + r)[1..] == r;
        assert "" + [sep] + s[1..] == s;
      } else if |r| == 1 {
        assert [s[0]] + s[1..] == s;
      } else {
        var t := [[s[0]] + r[0]] + r[1..];
        assert t[1..] == r[1..];
        assert t[0] + [sep] + Join(r[1..], [sep]) == [s[0]] + (r[0] + [sep] + Join(r[1..], [sep]));
        assert [s[0]] + s[1..] == s;
      }
    }
  }

  lemma {:induction false} SplitParts(s: string, sep: char)
    ensures forall p :: p in Split(s, sep) ==> sep !in p
  {
    if s != "" {
      SplitParts(s[1..], sep);
      var r := Split(s[1..], sep);
      if s[0] != sep {
        assert forall p :: p in r[1..] ==> p in r;
      }
    }
  }

  lemma {:induction false} SplitNoSep(s: string, sep: char)
    requires sep !in s
    ensures Split(s, sep) == [s]
  {
    if s != "" {
      SplitNoSep(s[1..], sep);
      assert [s[0]] + s[1..] == s;
    }
  }

  lemma {:induction false} SplitAt(a: string, b: string, sep: char)
    requires sep !in a
    ensures Split(a + [sep] + b, sep) == [a] + Split(b, sep)
  {
    if a == "" {
      assert a + [sep] + b == [sep] + b;
      assert ([sep] + b)[1..] == b;
    } else {
      SplitAt(a[1..], b, sep);
      assert (a + [sep] + b)[1..] == a[1..] + [sep] + b;
      assert [a[0]] + a[1..] == a;
    }
  }

  /** Splitting undoes joining when no part contains the separator. */
  lemma {:induction false} SplitJoin(parts: seq<string>, sep: char)
    requires parts != [] && forall p :: p in parts ==> sep !in p
    ensures Split(Join(parts, [sep]), sep) == parts
  {
    assert parts[0] in parts;
    if |parts| == 1 {
      SplitNoSep(parts[0], sep);
    } else {
      assert forall p :: p in parts[1..] ==> p in parts;
      SplitJoin(parts[1..], sep);
      SplitAt(parts[0], Join(parts[1..], [sep]), sep);
      assert [parts[0]] + parts[1..] == parts;
    }
  }

  predicate OccursAt(s: string, t: string, i: nat) {
    i + |t| <= |s| && s[i..i + |t|] == t
  }

  /** Whether `t` occurs in `s`. */
  predicate Contains(s: string, t: string) {
    exists i: nat :: i <= |s| && OccursAt(s, t, i)
  }

  // ----- decimal numbers -----

  predicate IsDigit(c: char) {
    '0' <= c <= '9'
  }

  function DigitOf(n: nat): char
    requires n < 10
  {
    ('0' as int + n) as char
  }

  function ValueOf(c: char): nat
    requires IsDigit(c)
  {
    c as int - '0' as int
  }

  function Natural(n: nat): (s: string)
    ensures s != "" && forall i :: 0 <= i < |s| ==> IsDigit(s[i])
  {
    if n < 10 then [DigitOf(n)] else Natural(n / 10) + [DigitOf(n % 10)]
  }

  function Decimal(n: int): string {
    if n < 0 then "-" + Natural(-n) else Natural(n)
  }

  predicate AllDigits(s: string) {
    forall i :: 0 <= i < |s| ==> IsDigit(s[i])
  }

  function DigitsValue(s: string): nat
    requires AllDigits(s)
  {
    if s == "" then 0 else 10 * DigitsValue(s[..|s| - 1]) + ValueOf(s[|s| - 1])
  }

  /** Digits without a superfluous leading zero. */
  predicate CanonicalNatural(s: string) {
    s != "" && AllDigits(s) && (s[0] == '0' ==> |s| == 1)
  }

  /** Decimal text as a number prints itself. */
  predicate Canonical(s: string) {
    CanonicalNatural(s) || (s != "" && s[0] == '-' && CanonicalNatural(s[1..]) && s[1] != '0')
  }

  lemma {:induction false} NaturalCanonical(n: nat)
    ensures CanonicalNatural(Natural(n)) && DigitsValue(Natural(n)) == n
    ensures Natural(n)[0] == '0' <==> n == 0
  {
    if n >= 10 {
      NaturalCanonical(n / 10);
      var s := Natural(n / 10);
      assert Natural(n)[..|s|] == s;
    }
  }

  lemma {:induction false} ValueCanonical(s: string)
    requires CanonicalNatural(s)
    ensures Natural(DigitsValue(s)) == s
  {
    var init, c := s[..|s| - 1], s[|s| - 1];
    assert s == init + [c];
    if init == "" {
      assert DigitsValue(s) == ValueOf(c);
    } else {
      assert init[0] == s[0];
      ValueCanonical(init);
      NaturalCanonical(DigitsValue(init));
      assert DigitsValue(s) / 10 == DigitsValue(init) && DigitsValue(s) % 10 == ValueOf(c);
      assert DigitsValue(init) > 0;
    }
  }

  // ----- reading integers -----

  /** Digits with single underscores between them. */
  predicate Grouped(s: string) {
    s != "" && IsDigit(s[0])
    && (|s| == 1 || Grouped(s[1..]) || (s[1] == '_' && Grouped(s[2..])))
  }

  function WithoutUnderscores(s: string): string {
    if s == "" then "" else (if s[0] == '_' then "" else [s[0]]) + WithoutUnderscores(s[1..])
  }

  lemma {:induction false} GroupedDigits(s: string)
    requires Grouped(s)
    ensures AllDigits(WithoutUnderscores(s))
  {
    if |s| == 1 {
      assert WithoutUnderscores(s[1..]) == "";
    } else if Grouped(s[1..]) {
      GroupedDigits(s[1..]);
    } else {
      GroupedDigits(s[2..]);
      assert s[1..][1..] == s[2..];
    }
  }

  lemma {:induction false} DigitsGrouped(s: string)
    requires s != "" && AllDigits(s)
    ensures Grouped(s) && WithoutUnderscores(s) == s
  {
    assert [s[0]] + s[1..] == s;
    if |s| > 1 { DigitsGrouped(s[1..]); }
  }

  function ParseNatural(s: string): Option<nat> {
    if Grouped(s) then GroupedDigits(s); Some(DigitsValue(WithoutUnderscores(s))) else None
  }

  /** Reads an integer the way the source's built-in conversion does. */
  function ParseInt(text: string): Option<int> {
    ParseSigned(Strip(text))
  }

  function ParseSigned(s: string): Option<int> {
    if s != "" && s[0] == '-' then Negated(ParseNatural(s[1..]))
    else if s != "" && s[0] == '+' then Positive(ParseNatural(s[1..]))
    else Positive(ParseNatural(s))
  }

  function Negated(n: Option<nat>): Option<int> {
    if n.Some? then Some(-(n.value as int)) else None
  }

  function Positive(n: Option<nat>): Option<int> {
    if n.Some? then Some(n.value) else None
  }

  lemma DecimalCanonical(n: int)
    ensures Canonical(Decimal(n))
  {
    NaturalCanonical(if n < 0 then -n else n);
    if n < 0 { assert Decimal(n)[1..] == Natural(-n); }
  }

  lemma CanonicalNaturalReads(s: string)
    requires CanonicalNatural(s)
    ensures ParseNatural(s).Some? && Natural(ParseNatural(s).value) == s
    ensures s[0] != '0' ==> ParseNatural(s).value > 0
  {
    DigitsGrouped(s);
    ValueCanonical(s);
    NaturalCanonical(DigitsValue(s));
  }

  lemma CanonicalReads(s: string)
    requires Canonical(s)
    ensures ParseSigned(s).Some? && Decimal(ParseSigned(s).value) == s
  {
    if CanonicalNatural(s) {
      CanonicalNaturalReads(s);
    } else {
      CanonicalNaturalReads(s[1..]);
      assert s == "-" + s[1..];
    }
  }

  lemma CanonicalTrimmed(s: string)
    requires Canonical(s)
    ensures Trimmed(s)
  {
    if !CanonicalNatural(s) { assert s[|s| - 1] == s[1..][|s| - 2]; }
  }

  /** Reading an integer and printing it gives the text back exactly when the text is canonical. */
  lemma IntRoundTrip(s: string)
    ensures ParseInt(s).Some? && Decimal(ParseInt(s).value) == s <==> Canonical(s)
  {
    if ParseInt(s).Some? { DecimalCanonical(ParseInt(s).value); }
    if Canonical(s) {
      CanonicalTrimmed(s);
      StripTrims(s);
      CanonicalReads(s);
    }
  }
}
