/** The area objects and the FRU object, which decode and recompute their data in place. */
module FruDevice {
  import opened Sequences
  import opened Text
  import opened FruFormat
  import opened FruAreas
  import opened FruImage
  import opened FruRoundTrip

  method ComputeChecksum(b: Chars) returns (r: nat)
    ensures r == Checksum(b)
  {
    var result := 0;
    for i := 0 to |b|
      invariant result == Sum(b[..i])
    {
      assert b[..i + 1][..i] == b[..i];
      result := result + b[i];
    }
    assert b[..|b|] == b;
    r := (0x100 - result % 0x100) % 0x100;
  }

  /** The field at `index`, which may run past the end of the data. */
  method DecodeField(data: Chars, index: nat) returns (v: Chars, next: nat)
    requires index < |data|
    ensures (v, Drop(data, next)) == Cut(Drop(data, index)) && next > index
  {
    var templen := DecodeLength(data[index]);
    v := Take(data[index + 1..], templen);
    next := index + templen + 1;
    assert Drop(data, index)[1..] == data[index + 1..];
    if next < |data| { assert data[index..][templen + 1..] == data[next..]; }
  }

  function Prepended(fields: seq<Chars>, r: Option<(seq<Chars>, Chars)>): Option<(seq<Chars>, Chars)> {
    if r.None? then None else Some((fields + r.value.0, r.value.1))
  }

  lemma PrependedNext(fields: seq<Chars>, cut: Chars -> (Chars, Chars), s: Chars, count: nat)
    requires s != [] && count > 0
    ensures Prepended(fields, ReadFields(cut, s, count)) == Prepended(fields + [cut(s).0], ReadFields(cut, cut(s).1, count - 1))
  {
    var rest := ReadFields(cut, cut(s).1, count - 1);
    if rest.Some? { assert fields + ([cut(s).0] + rest.value.0) == (fields + [cut(s).0]) + rest.value.0; }
  }

  /** The fields of fixed number, read one after another. */
  method DecodeFields(data: Chars, start: nat, count: nat) returns (ok: bool, fields: seq<Chars>, index: nat)
    ensures ok ==> ReadFields(Cut, Drop(data, start), count) == Some((fields, Drop(data, index))) && |fields| == count
    ensures ok <==> ReadFields(Cut, Drop(data, start), count).Some?
  {
    fields, index := [], start;
    ghost var cut := Cut;
    var i := 0;
    assert Prepended([], ReadFields(cut, Drop(data, start), count)) == ReadFields(cut, Drop(data, start), count) by {
      var r := ReadFields(cut, Drop(data, start), count);
      if r.Some? { assert [] + r.value.0 == r.value.0; }
    }
    while i < count
      invariant i <= count && |fields| == i
      invariant ReadFields(cut, Drop(data, start), count) == Prepended(fields, ReadFields(cut, Drop(data, index), count - i))
    {
      if index >= |data| {
        return false, fields, index;
      }
      PrependedNext(fields, cut, Drop(data, index), count - i);
      var v: Chars;
      v, index := DecodeField(data, index);
      fields := fields + [v];
      i := i + 1;
    }
    ok := true;
    assert fields + [] == fields;
  }

  function PrependedExtras(fields: seq<Chars>, r: Option<seq<Chars>>): Option<seq<Chars>> {
    if r.None? then None else Some(fields + r.value)
  }

  lemma ExtrasNext(fields: seq<Chars>, cut: Chars -> (Chars, Chars), stop: (int, Chars) -> bool, slack: int, s: Chars, count: nat)
    requires s != [] && count > 0 && !stop(slack, s)
    ensures PrependedExtras(fields, ReadExtras(cut, stop, slack, s, count)) ==
            PrependedExtras(fields + [cut(s).0], ReadExtras(cut, stop, slack, cut(s).1, count - 1))
  {
    var rest := ReadExtras(cut, stop, slack, cut(s).1, count - 1);
    if rest.Some? { assert fields + ([cut(s).0] + rest.value) == (fields + [cut(s).0]) + rest.value; }
  }

  /** At most `count` extra fields, until `stop` says so of the data from the index on. */
  method DecodeExtras(data: Chars, start: nat, stop: (int, Chars) -> bool, slack: int, count: nat) returns (r: Option<seq<Chars>>)
    ensures r == ReadExtras(Cut, stop, slack, Drop(data, start), count)
  {
    var extras: seq<Chars> := [];
    var index: nat := start;
    ghost var cut, all := Cut, ReadExtras(Cut, stop, slack, Drop(data, start), count);
    assert PrependedExtras([], all) == all by { if all.Some? { assert [] + all.value == all.value; } }
    for i := 0 to count
      invariant all == PrependedExtras(extras, ReadExtras(cut, stop, slack, Drop(data, index), count - i))
    {
      if index >= |data| {
        return None;
      }
      if stop(slack, Drop(data, index)) {
        assert extras + [] == extras;
        return Some(extras);
      }
      ExtrasNext(extras, cut, stop, slack, Drop(data, index), count - i);
      var v: Chars;
      v, index := DecodeField(data, index);
      extras := extras + [v];
    }
    assert extras + [] == extras;
    r := Some(extras);
  }

  method DecodeParts(data: Chars, kind: Kind, stop: (int, Chars) -> bool, slack: int) returns (r: Option<(seq<Chars>, seq<Chars>)>)
    ensures r == ReadParts(Cut, stop, slack, data, kind)
  {
    var ok, fields, index := DecodeFields(data, 0, FieldCount(kind));
    assert Drop(data, 0) == data;
    if !ok {
      return None;
    }
    var extras := DecodeExtras(data, index, stop, slack, ExtraCount(kind));
    r := if extras.Some? then Some((fields, extras.value)) else None;
  }

  method DecodeBoard(data: Chars) returns (r: Option<Board>)
    ensures r == ReadBoard(data)
  {
    if |data| < 6 {
      return None;
    }
    var parts := DecodeParts(data[6..], BoardArea, BoardStop, 0);
    r := if parts.Some? then Some(BoardOf(DateOf(data), parts.value.0, parts.value.1)) else None;
  }

  method DecodeProduct(data: Chars, size: nat) returns (r: Option<Product>)
    ensures r == ReadProduct(data, size)
  {
    if |data| < 3 {
      return None;
    }
    var parts := DecodeParts(data[3..], ProductArea, ProductStop, size - |data|);
    r := ProductFrom(parts);
  }

  lemma {:induction false} FieldsTextSnoc(put: Chars -> Chars, vs: seq<Chars>, v: Chars)
    ensures FieldsText(put, vs + [v]) == FieldsText(put, vs) + put(v)
  {
    if vs == [] {
      assert vs + [v] == [v] && [v][1..] == [];
    } else {
      assert (vs + [v])[1..] == vs[1..] + [v];
      FieldsTextSnoc(put, vs[1..], v);
    }
  }

  /** Appends fields behind their type/length characters. */
  method AppendFields(data: Chars, vs: seq<Chars>) returns (text: Chars)
    ensures text == data + FieldsText(FieldText, vs)
  {
    text := data;
    ghost var put := FieldText;
    for i := 0 to |vs|
      invariant text == data + FieldsText(put, vs[..i])
    {
      assert vs[..i + 1] == vs[..i] + [vs[i]];
      FieldsTextSnoc(put, vs[..i], vs[i]);
      text := text + [TypeLength(|vs[i]|)] + vs[i];
    }
    assert vs[..|vs|] == vs;
  }

  /** Grows the area if the text does not fit, writes the length, pads and appends the checksum. */
  method Seal(text: Chars, size: nat) returns (data: Chars, final: nat)
    requires |text| >= 2
    ensures data == Sealed(text, size) && final == Grown(size, |text|) == |data|
  {
    GrownSteps(size, |text|);
    final := size;
    if |text| >= size {
      var incr := (|text| - size) / 8 + 1;
      final := size + incr * 8;
    }
    data := text[..1] + [final / 8] + text[2..];
    assert data == text[1 := final / 8];
    data := data + Zeros(final - 1 - |data|);
    var checksum := ComputeChecksum(data);
    data := data + [checksum];
  }

  class ChassisInfoArea {
    var size: nat
    var data: Chars

    constructor (size: nat, data: Chars)
      ensures this.size == size && this.data == data
    {
      this.size, this.data := size, data;
    }
  }

  class BoardInfoArea {
    var size: nat
    var data: Chars
    var info: Board

    constructor (size: nat, data: Chars)
      ensures this.size == size && this.data == data
    {
      this.size, this.data := size, data;
      info := Board(0, [], [], [], [], [], []);
    }

    method DecodeData() returns (ok: bool)
      modifies this`info
      ensures ok <==> ReadBoard(data).Some?
      ensures ok ==> Some(info) == ReadBoard(data)
    {
      var r := DecodeBoard(data);
      ok := r.Some?;
      if ok {
        info := r.value;
      }
    }

    /** Stamps the area with the date and writes its data. */
    method Recalcute(minutes: nat)
      modifies this
      ensures info == old(info).(mfgDate := minutes)
      ensures data == BoardData(Area(old(size), info)) && size == |data|
    {
      info := info.(mfgDate := minutes);
      var text := BoardHead(size, minutes);
      text := AppendFields(text, BoardFields(info));
      text := AppendFields(text, info.extras);
      text := text + [END];
      data, size := Seal(text, size);
    }
  }

  class ProductInfoArea {
    var size: nat
    var data: Chars
    var info: Product

    constructor (size: nat, data: Chars)
      ensures this.size == size && this.data == data
    {
      this.size, this.data := size, data;
      info := Product([], [], [], [], [], [], [], []);
    }

    method DecodeData() returns (ok: bool)
      modifies this`info
      ensures ok <==> ReadProduct(data, size).Some?
      ensures ok ==> Some(info) == ReadProduct(data, size)
    {
      var r := DecodeProduct(data, size);
      ok := r.Some?;
      if ok {
        info := r.value;
      }
    }

    method Recalcute()
      modifies this
      ensures info == old(info) && data == ProductData(Area(old(size), info)) && size == |data|
    {
      var text := ProductHead(size);
      text := AppendFields(text, ProductFields(info));
      text := AppendFields(text, info.extras);
      text := text + [END];
      data, size := Seal(text, size);
    }
  }

  /** Areas that an image does not have stay what they were. */
  function Merged(before: Fru, read: Fru): Fru {
    Fru(if read.chassis.Some? then read.chassis else before.chassis, if read.board.Some? then read.board else before.board,
        if read.product.Some? then read.product else before.product, read.multiRecord || before.multiRecord)
  }

  function MergedOffsets(before: Offsets, read: Offsets): Offsets {
    Offsets(if read.chassis != 0 then read.chassis else before.chassis, if read.board != 0 then read.board else before.board,
            if read.product != 0 then read.product else before.product,
            if read.multiRecord != 0 then read.multiRecord else before.multiRecord)
  }

  /** The board area with the date of writing. */
  function Stamped(f: Fru, minutes: nat): Fru {
    if f.board.None? then f
    else f.(board := Some(f.board.value.(info := f.board.value.info.(mfgDate := minutes))))
  }

  class IpmiFru {
    var chassis: ChassisInfoArea?
    var board: BoardInfoArea?
    var product: ProductInfoArea?
    var multiRecord: bool
    var offsets: Offsets
    var bindata: Chars
    var bodybin: Chars

    constructor ()
      ensures View() == Fru(None, None, None, false) && offsets == Offsets(0, 0, 0, 0)
    {
      chassis, board, product, multiRecord := null, null, null, false;
      offsets, bindata, bodybin := Offsets(0, 0, 0, 0), [], [];
    }

    /** The areas as values. */
    function View(): Fru
      reads this, chassis, board, product
    {
      Fru(if chassis == null then None else Some(Area(chassis.size, chassis.data)),
          if board == null then None else Some(Area(board.size, board.info)),
          if product == null then None else Some(Area(product.size, product.info)), multiRecord)
    }

    /** Reads an area that declares its length, checking its checksum. */
    static method ReadArea(eeprom: Chars, offset: nat) returns (r: Option<(nat, Chars)>)
      ensures r == AreaAt(eeprom, offset)
    {
      if offset * 8 + 1 >= |eeprom| {
        return None;
      }
      var size := eeprom[offset * 8 + 1] * 8;
      var data := Slice(eeprom, offset * 8, size);
      if data == [] {
        return None;
      }
      var checksum := ComputeChecksum(data[..|data| - 1]);
      r := if checksum == data[|data| - 1] then Some((size, data)) else None;
    }

    static method ReadBoardArea(eeprom: Chars, offset: nat) returns (b: BoardInfoArea?)
      ensures b == null <==> BoardAt(eeprom, offset).None?
      ensures b != null ==> fresh(b) && BoardAt(eeprom, offset) == Some(Area(b.size, b.info))
    {
      b := null;
      var found := ReadArea(eeprom, offset);
      if found.Some? {
        var area := new BoardInfoArea(found.value.0, found.value.1);
        var ok := area.DecodeData();
        if ok {
          b := area;
        }
      }
    }

    static method ReadProductArea(eeprom: Chars, offset: nat) returns (p: ProductInfoArea?)
      ensures p == null <==> ProductAt(eeprom, offset).None?
      ensures p != null ==> fresh(p) && ProductAt(eeprom, offset) == Some(Area(p.size, p.info))
    {
      p := null;
      var found := ReadArea(eeprom, offset);
      if found.Some? {
        var area := new ProductInfoArea(found.value.0, found.value.1);
        var ok := area.DecodeData();
        if ok {
          p := area;
        }
      }
    }

    static method ReadHeader(eeprom: Chars) returns (ok: bool)
      ensures ok <==> HeaderOk(eeprom)
    {
      if |eeprom| < HEADER_SIZE || eeprom[0] != 1 {
        return false;
      }
      var head := eeprom[..HEADER_SIZE];
      var checksum := ComputeChecksum(head[..7]);
      ok := checksum == head[7] && head[1] == 0;
    }

    /** Reads an image. The areas that the header names replace those of the object. */
    method DecodeBin(eeprom: Chars) returns (ok: bool)
      modifies this
      ensures ok <==> FruImage.DecodeBin(eeprom).Some?
      ensures ok ==> var read := FruImage.DecodeBin(eeprom).value;
                     View() == Merged(old(View()), read.0) && offsets == MergedOffsets(old(offsets), read.1)
    {
      ok := ReadHeader(eeprom);
      if !ok {
        return;
      }
      var b: BoardInfoArea?, p: ProductInfoArea? := null, null;
      if eeprom[3] != 0 {
        b := ReadBoardArea(eeprom, eeprom[3]);
      }
      if eeprom[4] != 0 {
        p := ReadProductArea(eeprom, eeprom[4]);
      }
      ok := (eeprom[3] != 0 ==> b != null) && (eeprom[4] != 0 ==> p != null);
      if ok {
        TakeAreas(eeprom, b, p, BoardAt(eeprom, eeprom[3]), ProductAt(eeprom, eeprom[4]));
      }
    }

    /** Replaces the areas that the header names. */
    method TakeAreas(eeprom: Chars, b: BoardInfoArea?, p: ProductInfoArea?, ghost board': Option<Area<Board>>,
                     ghost product': Option<Area<Product>>)
      requires |eeprom| >= HEADER_SIZE && (eeprom[3] != 0 <==> b != null) && (eeprom[4] != 0 <==> p != null)
      requires b != null ==> Some(Area(b.size, b.info)) == board'
      requires p != null ==> Some(Area(p.size, p.info)) == product'
      modifies this
      ensures var read := Assembled(eeprom, board', product');
              && read.Some? && View() == Merged(old(View()), read.value.0)
              && offsets == MergedOffsets(old(offsets), read.value.1)
    {
      if eeprom[2] != 0 {
        chassis := new ChassisInfoArea(CHASSIS_SIZE, Slice(eeprom, eeprom[2] * 8, CHASSIS_SIZE));
      }
      if b != null {
        board := b;
      }
      if p != null {
        product := p;
      }
      multiRecord := multiRecord || eeprom[5] != 0;
      offsets := MergedOffsets(offsets, Offsets(eeprom[2], eeprom[3], eeprom[4], eeprom[5]));
    }

    /** Writes the areas behind each other. */
    method RecalcuteBin(minutes: nat) returns (ok: bool)
      modifies this`bodybin, board, product
      ensures View() == Resized(Stamped(old(View()), minutes))
      ensures ok <==> Body(Stamped(old(View()), minutes)).Some?
      ensures ok ==> Some(bodybin) == Body(Stamped(old(View()), minutes))
    {
      var c, b, p := [], [], [];
      if chassis != null {
        c := chassis.data;
      }
      if board != null {
        board.Recalcute(minutes);
        b := board.data;
      }
      if product != null {
        product.Recalcute();
        p := product.data;
      }
      ok := !multiRecord || product != null;
      bodybin := c + b + p + if multiRecord then p else [];
    }

    /** Computes the header and pads the image; an image that does not fit is refused. */
    method RecalcuteCommonHead(eepromSize: nat) returns (ok: bool)
      modifies this`offsets, this`bindata
      ensures offsets == PlaceOf(View(), old(offsets))
      ensures ok <==> Padded(Header(offsets) + bodybin, eepromSize).Some?
      ensures ok ==> Some(bindata) == Padded(Header(offsets) + bodybin, eepromSize)
    {
      offsets := Place(if chassis == null then None else Some(chassis.size), if board == null then None else Some(board.size),
                       if product == null then None else Some(product.size), multiRecord, offsets);
      bindata := Header(offsets) + bodybin;
      ok := |bindata| < eepromSize;
      if ok {
        bindata := bindata + Zeros(eepromSize - |bindata|);
      }
    }

    /** Writes the image: exactly the one that decodes to these areas again if their fields fit. */
    method Recalcute(minutes: nat, eepromSize: nat) returns (ok: bool)
      modifies this`offsets, this`bindata, this`bodybin, board, product
      ensures ok <==> Image(Stamped(old(View()), minutes), old(offsets), eepromSize).Some?
      ensures ok ==>
                && Some(bindata) == Image(Stamped(old(View()), minutes), old(offsets), eepromSize)
                && View() == Resized(Stamped(old(View()), minutes))
                && offsets == Layout(Stamped(old(View()), minutes), old(offsets))
    {
      ok := RecalcuteBin(minutes);
      if ok {
        ok := RecalcuteCommonHead(eepromSize);
      }
    }

    /** Writes an image and reads it into another object: it has the same areas exactly when the image fits the
        EEPROM and all fields fit. */
    method WriteAndRead(minutes: nat, eepromSize: nat) returns (ok: bool, other: IpmiFru)
      requires Placed(Stamped(View(), minutes), offsets)
      modifies this`offsets, this`bindata, this`bodybin, board, product
      ensures ok && other.View() == View() && other.offsets == offsets <==>
              Image(Stamped(old(View()), minutes), old(offsets), eepromSize).Some? && Fits(Stamped(old(View()), minutes))
    {
      ghost var f, stale := Stamped(View(), minutes), offsets;
      ok := Recalcute(minutes, eepromSize);
      ghost var mine := View();
      if !ok {
        other := this;
      } else {
        ReadsBack(f, stale, eepromSize, bindata);
        ok, other := Read(bindata);
        assert View() == mine;
      }
    }

    static method Read(eeprom: Chars) returns (ok: bool, fru: IpmiFru)
      ensures fresh(fru) && (ok <==> FruImage.DecodeBin(eeprom).Some?)
      ensures ok ==> Some((fru.View(), fru.offsets)) == FruImage.DecodeBin(eeprom)
    {
      fru := new IpmiFru();
      ok := fru.DecodeBin(eeprom);
      if ok {
        MergedEmpty(FruImage.DecodeBin(eeprom).value);
      }
    }
  }

  lemma MergedEmpty(read: (Fru, Offsets))
    ensures Merged(Fru(None, None, None, false), read.0) == read.0 && MergedOffsets(Offsets(0, 0, 0, 0), read.1) == read.1
  {
  }

  lemma ReadsBack(f: Fru, stale: Offsets, eepromSize: nat, e: Chars)
    requires Placed(f, stale) && Some(e) == Image(f, stale, eepromSize)
    ensures FruImage.DecodeBin(e) == Some((Resized(f), Layout(f, stale))) <==> Fits(f)
  {
    ImageExact(f, stale, eepromSize);
  }
}
