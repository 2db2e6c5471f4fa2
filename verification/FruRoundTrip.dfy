/** Decoding an encoded image gives back every field of every area exactly when the fields fit. */
module FruRoundTrip {
  import opened Sequences
  import opened Text
  import opened FruFormat
  import opened FruAreas
  import opened FruImage

  /** Areas that can be found again: whole multiples of eight, no more extra fields than there are names
      for, and no offset left over from an area that is gone. */
  predicate Placed(f: Fru, stale: Offsets) {
    && (f.chassis.Some? ==> f.chassis.value.size == CHASSIS_SIZE == |f.chassis.value.info|)
    && (f.board.Some? ==> f.board.value.size % 8 == 0 && |f.board.value.info.extras| <= ExtraCount(BoardArea))
    && (f.product.Some? ==> f.product.value.size % 8 == 0 && |f.product.value.info.extras| <= ExtraCount(ProductArea))
    && (f.chassis.None? ==> stale.chassis == 0) && (f.board.None? ==> stale.board == 0)
    && (f.product.None? ==> stale.product == 0) && (!f.multiRecord ==> stale.multiRecord == 0)
  }

  predicate Fits(f: Fru) {
    (f.board.Some? ==> BoardFits(f.board.value.info)) && (f.product.Some? ==> ProductFits(f.product.value.info))
  }

  lemma NegatedModulo(s: nat)
    ensures (0x100 - s) % 0x100 == (0x100 - s % 0x100) % 0x100
  {
    assert s == s / 0x100 * 0x100 + s % 0x100;
  }

  lemma HeaderChecks(o: Offsets)
    ensures |Header(o)| == HEADER_SIZE && ChecksumOk(Header(o))
  {
    var h := Header(o);
    var s := 1 + o.chassis + o.board + o.product + o.multiRecord;
    assert h[..7] == [1, 0, o.chassis, o.board, o.product, o.multiRecord, 0];
    SumOfSeven(1, 0, o.chassis, o.board, o.product, o.multiRecord, 0);
    NegatedModulo(s);
  }

  lemma SumOfSeven(a: nat, b: nat, c: nat, d: nat, e: nat, f: nat, g: nat)
    ensures Sum([a, b, c, d, e, f, g]) == a + b + c + d + e + f + g
  {
    SumAppend([a, b, c, d], [e, f, g]);
    SumAppend([a, b], [c, d]);
    SumAppend([e, f], [g]);
    SumAppend([a], [b]);
    SumAppend([c], [d]);
    SumAppend([e], [f]);
    assert [a] + [b] == [a, b] && [c] + [d] == [c, d] && [e] + [f] == [e, f];
    assert [a, b] + [c, d] == [a, b, c, d] && [e, f] + [g] == [e, f, g];
    assert [a, b, c, d] + [e, f, g] == [a, b, c, d, e, f, g];
  }

  lemma SliceOf(e: Chars, before: Chars, data: Chars, after: Chars)
    requires e == before + (data + after)
    ensures Slice(e, |before|, |data|) == data
  {
    if data + after == [] {
      assert e == before;
    } else {
      assert Drop(e, |before|) == data + after;
      if after == [] { assert data + after == data; }
    }
  }

  lemma AreaFound(e: Chars, before: Chars, data: Chars, after: Chars, offset: nat)
    requires e == before + (data + after) && |before| == offset * 8
    requires |data| >= 2 && |data| == data[1] * 8 && ChecksumOk(data)
    ensures AreaAt(e, offset) == Some((|data|, data))
  {
    SliceOf(e, before, data, after);
    assert e[offset * 8 + 1] == data[1];
  }

  lemma BoardFound(e: Chars, before: Chars, a: Area<Board>, after: Chars, offset: nat)
    requires e == before + (BoardData(a) + after) && |before| == offset * 8
    requires a.size % 8 == 0 && |a.info.extras| <= ExtraCount(BoardArea)
    ensures BoardAt(e, offset) == Some(a.(size := |BoardData(a)|)) <==> BoardFits(a.info)
  {
    SealedArea(BoardText(a.info, a.size), a.size);
    AreaFound(e, before, BoardData(a), after, offset);
    BoardExact(a.info, a.size);
  }

  lemma ProductFound(e: Chars, before: Chars, a: Area<Product>, after: Chars, offset: nat)
    requires e == before + (ProductData(a) + after) && |before| == offset * 8
    requires a.size % 8 == 0 && |a.info.extras| <= ExtraCount(ProductArea)
    ensures ProductAt(e, offset) == Some(a.(size := |ProductData(a)|)) <==> ProductFits(a.info)
  {
    SealedArea(ProductText(a.info, a.size), a.size);
    AreaFound(e, before, ProductData(a), after, offset);
    ProductExact(a.info, a.size);
  }

  lemma PaddedParts(h: Chars, c: Chars, b: Chars, p: Chars, again: Chars, eepromSize: nat) returns (rest: Chars)
    requires Padded(h + (c + b + p + again), eepromSize).Some?
    ensures Padded(h + (c + b + p + again), eepromSize).value == h + (c + (b + (p + rest)))
  {
    rest := again + Zeros(eepromSize - |h + (c + b + p + again)|);
  }

  /** The parts of an image. */
  lemma ImageParts(f: Fru, stale: Offsets, eepromSize: nat) returns (rest: Chars)
    requires Image(f, stale, eepromSize).Some?
    ensures Image(f, stale, eepromSize).value ==
            Header(Layout(f, stale)) + (ChassisChars(f) + (BoardChars(f) + (ProductChars(f) + rest)))
  {
    var again := if f.multiRecord then ProductChars(f) else [];
    rest := PaddedParts(Header(Layout(f, stale)), ChassisChars(f), BoardChars(f), ProductChars(f), again, eepromSize);
  }

  function Length(n: Option<nat>): nat {
    if n.Some? then n.value else 0
  }

  /** Areas follow each other at multiples of eight. */
  lemma PlaceAligned(chassis: Option<nat>, board: Option<nat>, product: Option<nat>, multiRecord: bool, stale: Offsets)
    requires Length(chassis) % 8 == 0 && Length(board) % 8 == 0 && Length(product) % 8 == 0
    ensures var o := Place(chassis, board, product, multiRecord, stale);
            && (chassis.Some? ==> o.chassis == 1)
            && (board.Some? ==> o.board > 0 && o.board * 8 == HEADER_SIZE + Length(chassis))
            && (product.Some? ==> o.product > 0 && o.product * 8 == HEADER_SIZE + Length(chassis) + Length(board))
            && (multiRecord ==> o.multiRecord > 0)
  {
  }

  lemma LayoutAligned(f: Fru, stale: Offsets)
    requires Placed(f, stale)
    ensures var o := Layout(f, stale);
            && (if f.chassis.Some? then o.chassis == 1 else o.chassis == 0)
            && (if f.board.Some? then o.board > 0 && o.board * 8 == HEADER_SIZE + |ChassisChars(f)| else o.board == 0)
            && (if f.product.Some? then o.product > 0 && o.product * 8 == HEADER_SIZE + |ChassisChars(f)| + |BoardChars(f)|
                else o.product == 0)
            && (f.multiRecord <==> o.multiRecord > 0)
  {
    var g := Resized(f);
    PlacedSizes(f, stale);
    PlaceAligned(AreaSize(g.chassis), AreaSize(g.board), AreaSize(g.product), f.multiRecord, stale);
  }

  lemma PlacedSizes(f: Fru, stale: Offsets)
    requires Placed(f, stale)
    ensures var c, b, p := AreaSize(f.chassis), AreaSize(Resized(f).board), AreaSize(Resized(f).product);
            && Length(c) == |ChassisChars(f)| && Length(b) == |BoardChars(f)| && Length(p) == |ProductChars(f)|
            && Length(c) % 8 == 0 && Length(b) % 8 == 0 && Length(p) % 8 == 0
  {
    if f.board.Some? { SealedSize(BoardText(f.board.value.info, f.board.value.size), f.board.value.size); }
    if f.product.Some? { SealedSize(ProductText(f.product.value.info, f.product.value.size), f.product.value.size); }
  }

  /** Reading gives the areas of `g` exactly when it gives its board and its product. */
  lemma AssembledExact(e: Chars, board: Option<Area<Board>>, product: Option<Area<Product>>, g: Fru, o: Offsets)
    requires |e| >= HEADER_SIZE && e[2] == o.chassis && e[3] == o.board && e[4] == o.product && e[5] == o.multiRecord
    requires g.multiRecord == (o.multiRecord != 0) && (g.board.Some? <==> o.board != 0) && (g.product.Some? <==> o.product != 0)
    requires g.chassis == if o.chassis == 0 then None else Some(Area(CHASSIS_SIZE, Slice(e, o.chassis * 8, CHASSIS_SIZE)))
    ensures Assembled(e, board, product) == Some((g, o)) <==>
            (g.board.Some? ==> board == g.board) && (g.product.Some? ==> product == g.product)
  {
  }

  lemma BoardInImage(f: Fru, e: Chars, h: Chars, rest: Chars, offset: nat)
    requires f.board.Some? && e == h + (ChassisChars(f) + (BoardChars(f) + rest))
    requires |h| + |ChassisChars(f)| == offset * 8
    requires f.board.value.size % 8 == 0 && |f.board.value.info.extras| <= ExtraCount(BoardArea)
    ensures BoardAt(e, offset) == Resized(f).board <==> BoardFits(f.board.value.info)
  {
    var c, b := ChassisChars(f), BoardChars(f);
    assert e == (h + c) + (b + rest);
    BoardFound(e, h + c, f.board.value, rest, offset);
  }

  lemma ProductInImage(f: Fru, e: Chars, h: Chars, rest: Chars, offset: nat)
    requires f.product.Some? && e == h + (ChassisChars(f) + (BoardChars(f) + (ProductChars(f) + rest)))
    requires |h| + |ChassisChars(f)| + |BoardChars(f)| == offset * 8
    requires f.product.value.size % 8 == 0 && |f.product.value.info.extras| <= ExtraCount(ProductArea)
    ensures ProductAt(e, offset) == Resized(f).product <==> ProductFits(f.product.value.info)
  {
    var c, b, p := ChassisChars(f), BoardChars(f), ProductChars(f);
    assert e == (h + c + b) + (p + rest);
    ProductFound(e, h + c + b, f.product.value, rest, offset);
  }

  lemma HeaderFound(e: Chars, o: Offsets, body: Chars)
    requires e == Header(o) + body
    ensures HeaderOk(e) && e[2] == o.chassis && e[3] == o.board && e[4] == o.product && e[5] == o.multiRecord
  {
    var h := Header(o);
    HeaderChecks(o);
    assert e[..HEADER_SIZE] == h;
    assert e[0] == h[0] && e[1] == h[1] && e[2] == h[2] && e[3] == h[3] && e[4] == h[4] && e[5] == h[5];
  }

  /** An image of placed areas decodes to those areas, each of the size it was written in, exactly when
      every field fits. */
  lemma ImageExact(f: Fru, stale: Offsets, eepromSize: nat)
    requires Placed(f, stale) && Image(f, stale, eepromSize).Some?
    ensures DecodeBin(Image(f, stale, eepromSize).value) == Some((Resized(f), Layout(f, stale))) <==> Fits(f)
  {
    var e, o := Image(f, stale, eepromSize).value, Layout(f, stale);
    var h, c, b, p := Header(o), ChassisChars(f), BoardChars(f), ProductChars(f);
    var rest := ImageParts(f, stale, eepromSize);
    HeaderFound(e, o, c + (b + (p + rest)));
    LayoutAligned(f, stale);
    if f.chassis.Some? { SliceOf(e, h, c, b + (p + rest)); }
    if f.board.Some? { BoardInImage(f, e, h, p + rest, o.board); }
    if f.product.Some? { ProductInImage(f, e, h, rest, o.product); }
    AssembledExact(e, BoardAt(e, o.board), ProductAt(e, o.product), Resized(f), o);
  }

  // ----- every character is a byte -----

  predicate BytesFields(vs: seq<Chars>) {
    forall i :: 0 <= i < |vs| ==> Bytes(vs[i])
  }

  lemma BytesAppend(a: Chars, b: Chars)
    ensures Bytes(a + b) <==> Bytes(a) && Bytes(b)
  {
    if Bytes(a + b) {
      forall i | 0 <= i < |a| ensures a[i] < 0x100 { assert (a + b)[i] == a[i]; }
      forall i | 0 <= i < |b| ensures b[i] < 0x100 { assert (a + b)[|a| + i] == b[i]; }
    }
  }

  lemma {:induction false} FieldsBytes(vs: seq<Chars>)
    requires All(Short, vs) && BytesFields(vs)
    ensures Bytes(FieldsText(FieldText, vs))
  {
    if vs != [] {
      AllFirst(Short, vs);
      FieldsBytes(vs[1..]);
      BytesAppend(FieldText(vs[0]), FieldsText(FieldText, vs[1..]));
    }
  }

  lemma SealedBytes(text: Chars, size: nat)
    requires |text| >= 2 && Bytes(text) && |Sealed(text, size)| < 0x800
    ensures Bytes(Sealed(text, size))
  {
  }

  lemma BoardBytes(a: Area<Board>)
    requires BoardFits(a.info) && BytesFields(BoardFields(a.info)) && BytesFields(a.info.extras)
    requires |BoardData(a)| < 0x800
    ensures Bytes(BoardData(a))
  {
    var f, x := FieldsText(FieldText, BoardFields(a.info)), FieldsText(FieldText, a.info.extras);
    var head := BoardHead(a.size, a.info.mfgDate);
    FieldsBytes(BoardFields(a.info));
    assert All(Short, a.info.extras) by { assert All(BoardExtraFits, a.info.extras); }
    FieldsBytes(a.info.extras);
    assert a.size <= |BoardData(a)|;
    AreaBytes(BoardText(a.info, a.size), a.size, head, f, x);
  }

  lemma ProductBytes(a: Area<Product>)
    requires ProductFits(a.info) && BytesFields(ProductFields(a.info)) && BytesFields(a.info.extras)
    requires |ProductData(a)| < 0x800
    ensures Bytes(ProductData(a))
  {
    var f, x := FieldsText(FieldText, ProductFields(a.info)), FieldsText(FieldText, a.info.extras);
    FieldsBytes(ProductFields(a.info));
    assert All(Short, a.info.extras) by { assert All(ProductExtraFits, a.info.extras); }
    FieldsBytes(a.info.extras);
    assert a.size <= |ProductData(a)|;
    AreaBytes(ProductText(a.info, a.size), a.size, ProductHead(a.size), f, x);
  }

  lemma AreaBytes(text: Chars, size: nat, head: Chars, f: Chars, x: Chars)
    requires text == head + f + x + [END] && |head| >= 2 && Bytes(head) && Bytes(f) && Bytes(x)
    requires |Sealed(text, size)| < 0x800
    ensures Bytes(Sealed(text, size))
  {
    BytesAppend(head, f);
    BytesAppend(head + f, x);
    BytesAppend(head + f + x, [END]);
    SealedBytes(text, size);
  }

  predicate BytesFru(f: Fru) {
    && (f.chassis.Some? ==> Bytes(f.chassis.value.info))
    && (f.board.Some? ==> BytesFields(BoardFields(f.board.value.info)) && BytesFields(f.board.value.info.extras))
    && (f.product.Some? ==> BytesFields(ProductFields(f.product.value.info)) && BytesFields(f.product.value.info.extras))
  }

  lemma BodyBytes(f: Fru)
    requires Fits(f) && BytesFru(f) && |BoardChars(f)| < 0x800 && |ProductChars(f)| < 0x800
    ensures Bytes(ChassisChars(f)) && Bytes(BoardChars(f)) && Bytes(ProductChars(f))
  {
    if f.board.Some? { BoardBytes(f.board.value); }
    if f.product.Some? { ProductBytes(f.product.value); }
  }

  lemma PaddedBytes(h: Chars, c: Chars, b: Chars, p: Chars, again: Chars, eepromSize: nat)
    requires Bytes(h) && Bytes(c) && Bytes(b) && Bytes(p) && Bytes(again)
    requires Padded(h + (c + b + p + again), eepromSize).Some?
    ensures Bytes(Padded(h + (c + b + p + again), eepromSize).value)
  {
    BytesAppend(c, b);
    BytesAppend(c + b, p);
    BytesAppend(c + b + p, again);
    BytesAppend(h, c + b + p + again);
    BytesAppend(h + (c + b + p + again), Zeros(eepromSize - |h + (c + b + p + again)|));
  }

  /** In an EEPROM of at most 2048 bytes all offsets, lengths and checksums fit into a byte. */
  lemma ImageBytes(f: Fru, stale: Offsets, eepromSize: nat)
    requires Placed(f, stale) && Fits(f) && BytesFru(f) && eepromSize <= 0x800
    requires Image(f, stale, eepromSize).Some?
    ensures Bytes(Image(f, stale, eepromSize).value)
  {
    var o := Layout(f, stale);
    var c, b, p := ChassisChars(f), BoardChars(f), ProductChars(f);
    var again := if f.multiRecord then p else [];
    assert |Header(o) + (c + b + p + again)| < 0x800;
    BodyBytes(f);
    HeaderBytes(f, stale);
    PaddedBytes(Header(o), c, b, p, again, eepromSize);
  }

  lemma HeaderBytes(f: Fru, stale: Offsets)
    requires Placed(f, stale) && |ChassisChars(f)| + |BoardChars(f)| + |ProductChars(f)| < 0x800 - HEADER_SIZE
    ensures Bytes(Header(Layout(f, stale)))
  {
    LayoutAligned(f, stale);
    MultiRecordPlace(f, stale);
  }

  lemma MultiRecordPlace(f: Fru, stale: Offsets)
    requires Placed(f, stale)
    ensures Layout(f, stale).multiRecord * 8 <= HEADER_SIZE + |ChassisChars(f)| + |BoardChars(f)| + |ProductChars(f)|
  {
  }
}
