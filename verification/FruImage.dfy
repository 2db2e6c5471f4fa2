/** The whole image: a header of offsets, the areas behind each other, and padding to the EEPROM size. */
module FruImage {
  import opened Sequences
  import opened Text
  import opened FruFormat

  datatype Area<T> = Area(size: nat, info: T)

  /** The areas of an object; a chassis area is kept as it was read. */
  datatype Fru = Fru(chassis: Option<Area<Chars>>, board: Option<Area<Board>>, product: Option<Area<Product>>,
                     multiRecord: bool)

  /** Offsets in units of eight characters, zero for an area that is not there. */
  datatype Offsets = Offsets(chassis: nat, board: nat, product: nat, multiRecord: nat)

  // ----- reading -----

  function Slice(e: Chars, lo: nat, n: nat): Chars {
    Take(Drop(e, lo), n)
  }

  predicate ChecksumOk(data: Chars) {
    data != [] && Checksum(data[..|data| - 1]) == data[|data| - 1]
  }

  /** An area that declares its own length: its size and data, if the length can be read and the
      checksum is right. */
  function AreaAt(e: Chars, offset: nat): Option<(nat, Chars)> {
    if offset * 8 + 1 >= |e| then None
    else
      var size := e[offset * 8 + 1] * 8;
      var data := Slice(e, offset * 8, size);
      if ChecksumOk(data) then Some((size, data)) else None
  }

  function BoardAt(e: Chars, offset: nat): Option<Area<Board>> {
    var a := AreaAt(e, offset);
    if a.None? then None
    else
      var b := ReadBoard(a.value.1);
      if b.None? then None else Some(Area(a.value.0, b.value))
  }

  function ProductAt(e: Chars, offset: nat): Option<Area<Product>> {
    var a := AreaAt(e, offset);
    if a.None? then None
    else
      var p := ReadProduct(a.value.1, a.value.0);
      if p.None? then None else Some(Area(a.value.0, p.value))
  }

  /** The header is there, of the right version and checksum, and has no internal use area: assigning
      that area never returns. */
  predicate HeaderOk(e: Chars) {
    |e| >= HEADER_SIZE && e[0] == 1 && ChecksumOk(e[..HEADER_SIZE]) && e[1] == 0
  }

  function DecodeBin(e: Chars): Option<(Fru, Offsets)> {
    if HeaderOk(e) then Assembled(e, BoardAt(e, e[3]), ProductAt(e, e[4])) else None
  }

  /** The areas that the header says are there; one that is but could not be read is an error. */
  function Assembled(e: Chars, board: Option<Area<Board>>, product: Option<Area<Product>>): Option<(Fru, Offsets)>
    requires |e| >= HEADER_SIZE
  {
    if (e[3] != 0 && board.None?) || (e[4] != 0 && product.None?) then None
    else
      var chassis := if e[2] == 0 then None else Some(Area(CHASSIS_SIZE, Slice(e, e[2] * 8, CHASSIS_SIZE)));
      Some((Fru(chassis, if e[3] == 0 then None else board, if e[4] == 0 then None else product, e[5] != 0),
            Offsets(e[2], e[3], e[4], e[5])))
  }

  // ----- writing -----

  function BoardData(a: Area<Board>): Chars {
    Sealed(BoardText(a.info, a.size), a.size)
  }

  function ProductData(a: Area<Product>): Chars {
    Sealed(ProductText(a.info, a.size), a.size)
  }

  /** The areas after writing: board and product have the size of what was written. */
  function Resized(f: Fru): Fru {
    f.(board := if f.board.None? then None else Some(f.board.value.(size := |BoardData(f.board.value)|)),
       product := if f.product.None? then None else Some(f.product.value.(size := |ProductData(f.product.value)|)))
  }

  function ChassisChars(f: Fru): Chars {
    if f.chassis.Some? then f.chassis.value.info else []
  }

  function BoardChars(f: Fru): Chars {
    if f.board.Some? then BoardData(f.board.value) else []
  }

  function ProductChars(f: Fru): Chars {
    if f.product.Some? then ProductData(f.product.value) else []
  }

  /** The areas behind each other; a multi-record area repeats the product area, and fails without one. */
  function Body(f: Fru): Option<Chars> {
    if f.multiRecord && f.product.None? then None
    else Some(ChassisChars(f) + BoardChars(f) + ProductChars(f) + if f.multiRecord then ProductChars(f) else [])
  }

  /** Where areas of the given sizes go, if they are there; the offset of an area that is not there
      stays what it was. */
  function Place(chassis: Option<nat>, board: Option<nat>, product: Option<nat>, multiRecord: bool, stale: Offsets): Offsets {
    var first := HEADER_SIZE;
    var second := first + if chassis.Some? then chassis.value else 0;
    var third := second + if board.Some? then board.value else 0;
    var fourth := third + if product.Some? then product.value else 0;
    Offsets(if chassis.Some? then first / 8 else stale.chassis, if board.Some? then second / 8 else stale.board,
            if product.Some? then third / 8 else stale.product, if multiRecord then fourth / 8 else stale.multiRecord)
  }

  function AreaSize<T>(a: Option<Area<T>>): Option<nat> {
    if a.Some? then Some(a.value.size) else None
  }

  /** Where the areas of `f` go with the sizes they have. */
  function PlaceOf(f: Fru, stale: Offsets): Offsets {
    Place(AreaSize(f.chassis), AreaSize(f.board), AreaSize(f.product), f.multiRecord, stale)
  }

  /** Where they go once they are written. */
  function Layout(f: Fru, stale: Offsets): Offsets {
    PlaceOf(Resized(f), stale)
  }

  function Header(o: Offsets): Chars {
    var zero: int := 0x100 - 1 - o.chassis - o.product - o.board - o.multiRecord;
    [1, 0, o.chassis, o.board, o.product, o.multiRecord, 0, zero % 0x100]
  }

  /** The image, if it is smaller than the EEPROM. */
  function Image(f: Fru, stale: Offsets, eepromSize: nat): Option<Chars> {
    var body := Body(f);
    if body.None? then None else Padded(Header(Layout(f, stale)) + body.value, eepromSize)
  }

  function Padded(bin: Chars, eepromSize: nat): Option<Chars> {
    if |bin| < eepromSize then Some(bin + Zeros(eepromSize - |bin|)) else None
  }

  // ----- any one changed byte is noticed -----

  lemma {:induction false} SumUpdate(b: Chars, p: nat, v: nat)
    requires p < |b|
    ensures Sum(b[p := v]) == Sum(b) - b[p] + v
  {
    var n := |b| - 1;
    if p < n {
      assert b[p := v][..n] == b[..n][p := v];
      SumUpdate(b[..n], p, v);
    } else {
      assert b[p := v][..n] == b[..n];
    }
  }

  lemma {:induction false} ChecksumSums(data: Chars)
    requires data != [] && data[|data| - 1] < 0x100
    ensures ChecksumOk(data) <==> Sum(data) % 0x100 == 0
  {
    var s, c := Sum(data[..|data| - 1]), data[|data| - 1];
    assert s == s / 0x100 * 0x100 + s % 0x100;
  }

  lemma ChangedSum(s: nat, was: nat, now: nat)
    requires s % 0x100 == 0 && was <= s && was < 0x100 && now < 0x100 && was != now
    ensures (s - was + now) % 0x100 != 0
  {
  }

  lemma {:induction false} SumAtLeast(b: Chars, p: nat)
    requires p < |b|
    ensures b[p] <= Sum(b)
  {
    if p < |b| - 1 { SumAtLeast(b[..|b| - 1], p); }
  }

  lemma ChangeBreaksChecksum(data: Chars, p: nat, v: nat)
    requires p < |data| && ChecksumOk(data) && data[p] < 0x100 && v < 0x100 && v != data[p]
    requires data[|data| - 1] < 0x100
    ensures !ChecksumOk(data[p := v])
  {
    ChecksumSums(data);
    SumUpdate(data, p, v);
    SumAtLeast(data, p);
    ChangedSum(Sum(data), data[p], v);
    ChecksumSums(data[p := v]);
  }

  predicate Bytes(e: Chars) {
    forall i :: 0 <= i < |e| ==> e[i] < 0x100
  }

  /** Inside an area that declares its length, but not at its length. */
  predicate InArea(e: Chars, offset: nat, p: nat) {
    offset * 8 + 1 < |e| && offset * 8 <= p < offset * 8 + e[offset * 8 + 1] * 8 && p != offset * 8 + 1
  }

  lemma SliceUpdate(e: Chars, lo: nat, n: nat, p: nat, v: nat)
    requires lo <= p < lo + n && p < |e|
    ensures p - lo < |Slice(e, lo, n)| && Slice(e, lo, n)[p - lo] == e[p]
    ensures Slice(e[p := v], lo, n) == Slice(e, lo, n)[p - lo := v]
  {
  }

  lemma ChangeBreaksArea(e: Chars, offset: nat, p: nat, v: nat)
    requires Bytes(e) && p < |e| && InArea(e, offset, p) && AreaAt(e, offset).Some? && v < 0x100 && v != e[p]
    ensures AreaAt(e[p := v], offset).None?
  {
    var n := e[offset * 8 + 1] * 8;
    var data := Slice(e, offset * 8, n);
    SliceUpdate(e, offset * 8, n, p, v);
    assert data[|data| - 1] < 0x100 by { SliceBytes(e, offset * 8, n); }
    ChangeBreaksChecksum(data, p - offset * 8, v);
  }

  lemma SliceBytes(e: Chars, lo: nat, n: nat)
    requires Bytes(e)
    ensures Bytes(Slice(e, lo, n))
  {
  }

  lemma ChangeBreaksHeader(e: Chars, p: nat, v: nat)
    requires Bytes(e) && p < HEADER_SIZE && HeaderOk(e) && v < 0x100 && v != e[p]
    ensures !HeaderOk(e[p := v])
  {
    assert e[p := v][..HEADER_SIZE] == e[..HEADER_SIZE][p := v];
    ChangeBreaksChecksum(e[..HEADER_SIZE], p, v);
  }

  /** Of an accepted image, no one byte of the header, and none of a board or product area but its
      length, can change without the image being refused. */
  lemma OneByteNoticed(e: Chars, p: nat, v: nat)
    requires Bytes(e) && DecodeBin(e).Some? && p < |e| && v < 0x100 && v != e[p]
    requires p < HEADER_SIZE || (e[3] != 0 && InArea(e, e[3], p)) || (e[4] != 0 && InArea(e, e[4], p))
    ensures DecodeBin(e[p := v]).None?
  {
    if p < HEADER_SIZE {
      ChangeBreaksHeader(e, p, v);
    } else if e[3] != 0 && InArea(e, e[3], p) {
      ChangeBreaksArea(e, e[3], p, v);
    } else {
      ChangeBreaksArea(e, e[4], p, v);
    }
  }
}
