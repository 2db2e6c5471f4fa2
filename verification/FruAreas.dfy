/** What one area promises: it is as long as it says, it sums to nothing, and it reads back as it was
    written exactly when its fields fit their length characters. */
module FruAreas {
  import opened Sequences
  import opened Text
  import opened FruFormat

  // ----- size and checksum -----

  /** The steps in which an area grows can be counted beforehand; it grows only if it must, and no
      further than it must. */
  lemma {:induction false} GrownSteps(size: nat, length: nat)
    ensures Grown(size, length) == if length >= size then size + ((length - size) / 8 + 1) * 8 else size
    ensures Grown(size, length) == size || Grown(size, length) - 8 <= length
    ensures Grown(size, length) >= size && (Grown(size, length) - size) % 8 == 0
    decreases length + 1 - size
  {
    if length >= size { GrownSteps(size + 8, length); }
  }

  lemma {:induction false} SumAppend(a: Chars, b: Chars)
    ensures Sum(a + b) == Sum(a) + Sum(b)
  {
    if b == [] {
      assert a + b == a;
    } else {
      assert (a + b)[..|a + b| - 1] == a + b[..|b| - 1];
      SumAppend(a, b[..|b| - 1]);
    }
  }

  lemma {:induction false} ChecksumCloses(b: Chars)
    ensures Sum(b + [Checksum(b)]) % 0x100 == 0
  {
    var s, c := Sum(b), Checksum(b);
    assert (b + [c])[..|b|] == b;
    assert Sum(b + [c]) == s + c;
    assert s == s / 0x100 * 0x100 + s % 0x100;
  }

  lemma {:induction false} SealedSize(text: Chars, size: nat)
    requires |text| >= 2 && size % 8 == 0
    ensures var data := Sealed(text, size); |data| == Grown(size, |text|) && |data| % 8 == 0 && |data| == data[1] * 8
  {
    GrownSteps(size, |text|);
    MultipleOfEight(size, Grown(size, |text|));
  }

  lemma MultipleOfEight(size: nat, final: nat)
    requires size % 8 == 0 && final >= size && (final - size) % 8 == 0
    ensures final % 8 == 0 && final / 8 * 8 == final
  {
  }

  lemma SealedSum(text: Chars, size: nat)
    requires |text| >= 2
    ensures var data := Sealed(text, size); Sum(data) % 0x100 == 0 && data[|data| - 1] == Checksum(data[..|data| - 1])
  {
    var final := Grown(size, |text|);
    var body := text[1 := final / 8] + Zeros(final - 1 - |text|);
    ChecksumCloses(body);
    assert (body + [Checksum(body)])[..|body|] == body;
  }

  /** A sealed area has the size it declares, which is the least it could grow to, and sums to zero
      modulo 256. */
  lemma {:induction false} SealedArea(text: Chars, size: nat)
    requires |text| >= 2 && size % 8 == 0
    ensures var data := Sealed(text, size);
            && |data| == Grown(size, |text|) && |data| % 8 == 0 && |data| == data[1] * 8
            && Sum(data) % 0x100 == 0 && data[|data| - 1] == Checksum(data[..|data| - 1])
  {
    SealedSize(text, size);
    SealedSum(text, size);
  }

  // ----- fields -----

  predicate All(good: Chars -> bool, vs: seq<Chars>) {
    forall i :: 0 <= i < |vs| ==> good(vs[i])
  }

  lemma AllFirst(good: Chars -> bool, vs: seq<Chars>)
    requires vs != []
    ensures All(good, vs) <==> good(vs[0]) && All(good, vs[1..])
  {
    assert vs == [vs[0]] + vs[1..];
  }

  lemma SameFirst(v: Chars, rest: seq<Chars>, vs: seq<Chars>)
    requires vs != []
    ensures [v] + rest == vs <==> v == vs[0] && rest == vs[1..]
  {
    if [v] + rest == vs { assert vs[0] == v && vs[1..] == rest; }
  }

  lemma {:induction false} TextFirst(put: Chars -> Chars, vs: seq<Chars>, t: Chars)
    requires vs != []
    ensures FieldsText(put, vs) + t == put(vs[0]) + (FieldsText(put, vs[1..]) + t)
  {
  }

  /** `cut` undoes `put` on good fields and on no others. */
  ghost predicate Undoes(cut: Chars -> (Chars, Chars), put: Chars -> Chars, good: Chars -> bool) {
    forall v, t {:trigger cut(put(v) + t)} ::
      put(v) + t != [] && if good(v) then cut(put(v) + t) == (v, t) else cut(put(v) + t).0 != v
  }

  /** Fields come back exactly when all are good. */
  lemma {:induction false} FieldsExact(cut: Chars -> (Chars, Chars), put: Chars -> Chars, good: Chars -> bool,
                                       vs: seq<Chars>, t: Chars)
    requires Undoes(cut, put, good)
    ensures var r := ReadFields(cut, FieldsText(put, vs) + t, |vs|);
            && (r.Some? && r.value.0 == vs <==> All(good, vs))
            && (All(good, vs) ==> r.value.1 == t)
    decreases |vs|
  {
    var s := FieldsText(put, vs) + t;
    if vs == [] {
      assert s == t;
    } else {
      TextFirst(put, vs, t);
      AllFirst(good, vs);
      var c := cut(put(vs[0]) + (FieldsText(put, vs[1..]) + t));
      if good(vs[0]) { FieldsExact(cut, put, good, vs[1..], t); }
      var rest := ReadFields(cut, c.1, |vs| - 1);
      if rest.Some? { SameFirst(c.0, rest.value.0, vs); }
    }
  }

  /** The same for extra fields, which may also stop the reading; something always follows them. */
  ghost predicate UndoesUntil(cut: Chars -> (Chars, Chars), put: Chars -> Chars, stop: (int, Chars) -> bool, good: Chars -> bool) {
    forall v, t {:trigger cut(put(v) + t)} :: |t| > 1 ==>
      && put(v) + t != []
      && if good(v) then !stop(0, put(v) + t) && cut(put(v) + t) == (v, t)
         else stop(0, put(v) + t) || cut(put(v) + t).0 != v
  }

  lemma {:induction false} ExtrasExact(cut: Chars -> (Chars, Chars), put: Chars -> Chars, stop: (int, Chars) -> bool,
                                       good: Chars -> bool, vs: seq<Chars>, t: Chars, count: nat)
    requires UndoesUntil(cut, put, stop, good) && |vs| <= count && |t| > 1 && stop(0, t)
    ensures ReadExtras(cut, stop, 0, FieldsText(put, vs) + t, count) == Some(vs) <==> All(good, vs)
    decreases |vs|
  {
    var s := FieldsText(put, vs) + t;
    if vs == [] {
      assert s == t;
    } else {
      TextFirst(put, vs, t);
      AllFirst(good, vs);
      var c := cut(put(vs[0]) + (FieldsText(put, vs[1..]) + t));
      if good(vs[0]) { ExtrasExact(cut, put, stop, good, vs[1..], t, count - 1); }
      var rest := ReadExtras(cut, stop, 0, c.1, count - 1);
      if rest.Some? { SameFirst(c.0, rest.value, vs); }
    }
  }

  // ----- the length character -----

  predicate Short(v: Chars) {
    |v| < 0x40
  }

  predicate BoardExtraFits(v: Chars) {
    Short(v) && |v| != 1
  }

  predicate ProductExtraFits(v: Chars) {
    Short(v) && |v| > 1
  }

  /** Lengths below 64 can be told from their characters, no other length is ever told, and only the
      length 1 and some that cannot be told look like the end mark. */
  lemma LengthTold(n: nat)
    ensures DecodeLength(TypeLength(n)) < 0x40 && (n < 0x40 ==> DecodeLength(TypeLength(n)) == n)
    ensures (n == 1 ==> TypeLength(n) == END) && (TypeLength(n) == END ==> n == 1 || n >= 0x40)
  {
  }

  lemma CutField(v: Chars, t: Chars)
    ensures FieldText(v) + t != [] && (FieldText(v) + t)[0] == TypeLength(|v|)
    ensures if Short(v) then Cut(FieldText(v) + t) == (v, t) else Cut(FieldText(v) + t).0 != v
  {
    var s, n := FieldText(v) + t, DecodeLength(TypeLength(|v|));
    LengthTold(|v|);
    assert s[0] == TypeLength(|v|) && s[1..] == v + t;
    if Short(v) {
      assert (v + t)[..|v|] == v && s[|v| + 1..] == t;
      if t == [] { assert v + t == v; }
    } else {
      assert |Take(s[1..], n)| <= n;
    }
  }

  lemma CutUndoesField()
    ensures Undoes(Cut, FieldText, Short)
  {
    forall v, t
      ensures FieldText(v) + t != [] && if Short(v) then Cut(FieldText(v) + t) == (v, t) else Cut(FieldText(v) + t).0 != v
    {
      CutField(v, t);
    }
  }

  lemma CutUndoesBoardExtra()
    ensures UndoesUntil(Cut, FieldText, BoardStop, BoardExtraFits)
  {
    forall v, t: Chars | |t| > 1
      ensures FieldText(v) + t != []
      ensures if BoardExtraFits(v) then !BoardStop(0, FieldText(v) + t) && Cut(FieldText(v) + t) == (v, t)
              else BoardStop(0, FieldText(v) + t) || Cut(FieldText(v) + t).0 != v
    {
      CutField(v, t);
      LengthTold(|v|);
    }
  }

  lemma CutUndoesProductExtra()
    ensures UndoesUntil(Cut, FieldText, ProductStop, ProductExtraFits)
  {
    forall v, t: Chars | |t| > 1
      ensures FieldText(v) + t != []
      ensures if ProductExtraFits(v) then !ProductStop(0, FieldText(v) + t) && Cut(FieldText(v) + t) == (v, t)
              else ProductStop(0, FieldText(v) + t) || Cut(FieldText(v) + t).0 != v
    {
      CutField(v, t);
      LengthTold(|v|);
    }
  }

  // ----- whole areas -----

  predicate BoardFits(b: Board) {
    b.mfgDate < 0x1000000 && All(Short, BoardFields(b)) && All(BoardExtraFits, b.extras)
  }

  predicate ProductFits(p: Product) {
    All(Short, ProductFields(p)) && All(ProductExtraFits, p.extras)
  }

  /** A sealed text: its head but for the length, its fields and extra fields, and the end mark with
      something behind it. */
  lemma SealedParts(text: Chars, size: nat, head: Chars, f: Chars, x: Chars) returns (tail: Chars)
    requires |head| >= 2 && text == head + f + x + [END]
    ensures |tail| > 1 && tail[0] == END
    ensures var data := Sealed(text, size);
            |data| > |head| && data[2..|head|] == head[2..] && data[|head|..] == f + (x + tail)
  {
    var final, data := Grown(size, |text|), Sealed(text, size);
    var body := text[1 := final / 8] + Zeros(final - 1 - |text|);
    tail := [END] + Zeros(final - 1 - |text|) + [Checksum(body)];
    assert data == head[1 := final / 8] + (f + (x + tail));
  }

  /** The three characters of a date hold its low 24 bits. */
  lemma DateParts(date: nat)
    ensures date == date % 0x100 + 0x100 * (date / 0x100 % 0x100) + 0x10000 * (date / 0x10000)
  {
    var q := date / 0x100;
    Quotient(date, q / 0x100, date % 0x100 + 0x100 * (q % 0x100));
  }

  lemma Quotient(n: nat, q: nat, r: nat)
    requires n == 0x10000 * q + r && r < 0x10000
    ensures n / 0x10000 == q
  {
  }

  lemma DateExact(data: Chars, size: nat, date: nat)
    requires |data| >= 6 && data[2..6] == BoardHead(size, date)[2..]
    ensures DateOf(data) == date <==> date < 0x1000000
  {
    var high := date / 0x10000;
    assert data[3] == data[2..6][1] == date % 0x100;
    assert data[4] == data[2..6][2] == date / 0x100 % 0x100;
    assert data[5] == data[2..6][3] == high % 0x100;
    DateParts(date);
  }

  /** Fields and extra fields of an area, together. */
  lemma {:induction false} PartsBack(cut: Chars -> (Chars, Chars), put: Chars -> Chars, good: Chars -> bool, stop: (int, Chars) -> bool,
                  fits: Chars -> bool, kind: Kind, fields: seq<Chars>, extras: seq<Chars>, tail: Chars)
    requires Undoes(cut, put, good) && UndoesUntil(cut, put, stop, fits)
    requires |fields| == FieldCount(kind) && |extras| <= ExtraCount(kind) && |tail| > 1 && stop(0, tail)
    ensures var r := ReadParts(cut, stop, 0, FieldsText(put, fields) + (FieldsText(put, extras) + tail), kind);
            r == Some((fields, extras)) <==> All(good, fields) && All(fits, extras)
  {
    FieldsExact(cut, put, good, fields, FieldsText(put, extras) + tail);
    ExtrasExact(cut, put, stop, fits, extras, tail, ExtraCount(kind));
  }

  /** A board area reads back as it was written exactly when its date and its fields fit. */
  lemma BoardExact(b: Board, size: nat)
    requires |b.extras| <= ExtraCount(BoardArea)
    ensures ReadBoard(Sealed(BoardText(b, size), size)) == Some(b) <==> BoardFits(b)
  {
    var data, head, fields := Sealed(BoardText(b, size), size), BoardHead(size, b.mfgDate), BoardFields(b);
    var tail := SealedParts(BoardText(b, size), size, head, FieldsText(FieldText, fields), FieldsText(FieldText, b.extras));
    CutUndoesField();
    CutUndoesBoardExtra();
    PartsBack(Cut, FieldText, Short, BoardStop, BoardExtraFits, BoardArea, fields, b.extras, tail);
    DateExact(data, size, b.mfgDate);
    BoardParts(b);
  }

  lemma BoardParts(b: Board)
    ensures forall date, fs: seq<Chars>, extras :: |fs| == 5 ==>
              (BoardOf(date, fs, extras) == b <==> date == b.mfgDate && fs == BoardFields(b) && extras == b.extras)
  {
  }

  /** A product area reads back as it was written exactly when its fields fit. */
  lemma ProductExact(p: Product, size: nat)
    requires |p.extras| <= ExtraCount(ProductArea)
    ensures var data := Sealed(ProductText(p, size), size);
            ReadProduct(data, |data|) == Some(p) <==> ProductFits(p)
  {
    var head, fields := ProductHead(size), ProductFields(p);
    var tail := SealedParts(ProductText(p, size), size, head, FieldsText(FieldText, fields), FieldsText(FieldText, p.extras));
    CutUndoesField();
    CutUndoesProductExtra();
    PartsBack(Cut, FieldText, Short, ProductStop, ProductExtraFits, ProductArea, fields, p.extras, tail);
    ProductParts(p);
  }

  lemma ProductParts(p: Product)
    ensures forall fs: seq<Chars>, extras :: |fs| == 7 ==>
              (ProductOf(fs, extras) == p <==> fs == ProductFields(p) && extras == p.extras)
  {
  }
}
