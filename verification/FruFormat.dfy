/** FRU information storage: areas of length-prefixed fields, each sealed with a checksum, behind a header
    of offsets. Characters are code points, as the source keeps them. */
module FruFormat {
  import opened Sequences
  import opened Text

  type Chars = seq<nat>

  datatype Board = Board(mfgDate: nat, manufacturer: Chars, productName: Chars, serialNumber: Chars, partNumber: Chars,
                         fileId: Chars, extras: seq<Chars>)

  datatype Product = Product(manufacturer: Chars, name: Chars, partModelName: Chars, version: Chars, serialNumber: Chars,
                             assetTag: Chars, fileId: Chars, extras: seq<Chars>)

  const END := 0xC1
  const LANGUAGE := 25
  const HEADER_SIZE := 8
  const CHASSIS_SIZE := 32

  datatype Kind = BoardArea | ProductArea

  /** The number of fields that an area always has. */
  function FieldCount(kind: Kind): nat {
    match kind
    case BoardArea => 5
    case ProductArea => 7
  }

  /** The number of extra fields that an area has names for. */
  function ExtraCount(kind: Kind): nat {
    match kind
    case BoardArea => 10
    case ProductArea => 10
  }

  function Checksum(b: Chars): nat {
    (0x100 - Sum(b) % 0x100) % 0x100
  }

  // ----- writing -----

  /** The type/length character: 8-bit text of `n` characters, with the length in the low six bits. */
  function TypeLength(n: nat): nat {
    if n == 0 then 0 else n - n % 0x100 + 0xC0 + n % 0x40
  }

  /** A field behind its type/length character. */
  function FieldText(v: Chars): Chars {
    [TypeLength(|v|)] + v
  }

  function FieldsText(put: Chars -> Chars, vs: seq<Chars>): Chars {
    if vs == [] then [] else put(vs[0]) + FieldsText(put, vs[1..])
  }

  /** The size of an area after it has taken a text of `length` characters and a checksum: it grows in
      steps of eight until there is room. */
  function Grown(size: nat, length: nat): (r: nat)
    ensures r > length
    decreases length + 1 - size
  {
    if length >= size then Grown(size + 8, length) else size
  }

  function Zeros(n: nat): Chars {
    seq(n, _ => 0)
  }

  /** The text with its final length, padded and closed by the checksum. */
  function Sealed(text: Chars, size: nat): Chars
    requires |text| >= 2
  {
    var final := Grown(size, |text|);
    var body := text[1 := final / 8] + Zeros(final - 1 - |text|);
    body + [Checksum(body)]
  }

  function BoardFields(b: Board): seq<Chars> {
    [b.manufacturer, b.productName, b.serialNumber, b.partNumber, b.fileId]
  }

  function BoardHead(size: nat, date: nat): Chars {
    [1, size / 8, LANGUAGE, date % 0x100, date / 0x100 % 0x100, date / 0x10000 % 0x100]
  }

  function BoardText(b: Board, size: nat): Chars {
    BoardHead(size, b.mfgDate) + FieldsText(FieldText, BoardFields(b)) + FieldsText(FieldText, b.extras) + [END]
  }

  function ProductFields(p: Product): seq<Chars> {
    [p.manufacturer, p.name, p.partModelName, p.version, p.serialNumber, p.assetTag, p.fileId]
  }

  function ProductHead(size: nat): Chars {
    [1, size / 8, LANGUAGE]
  }

  function ProductText(p: Product, size: nat): Chars {
    ProductHead(size) + FieldsText(FieldText, ProductFields(p)) + FieldsText(FieldText, p.extras) + [END]
  }

  // ----- reading -----

  function DecodeLength(c: nat): nat {
    c % 0x40
  }

  /** The field at the start of `s`, and what follows it. */
  function Cut(s: Chars): (Chars, Chars) {
    if s == [] then ([], []) else (Take(s[1..], DecodeLength(s[0])), Drop(s, DecodeLength(s[0]) + 1))
  }

  /** `count` fields from the start of `s`, and what follows them; None is an index past the data. */
  function ReadFields(cut: Chars -> (Chars, Chars), s: Chars, count: nat): (r: Option<(seq<Chars>, Chars)>)
    ensures r.Some? ==> |r.value.0| == count
    decreases count
  {
    if count == 0 then Some(([], s))
    else if s == [] then None
    else
      var rest := ReadFields(cut, cut(s).1, count - 1);
      if rest.None? then None else Some(([cut(s).0] + rest.value.0, rest.value.1))
  }

  /** At most `count` extra fields, until `stop` says so; `slack` is by how much the declared size of the
      area exceeds its data. */
  function ReadExtras(cut: Chars -> (Chars, Chars), stop: (int, Chars) -> bool, slack: int, s: Chars, count: nat)
    : Option<seq<Chars>>
    decreases count
  {
    if count == 0 then Some([])
    else if s == [] then None
    else if stop(slack, s) then Some([])
    else
      var rest := ReadExtras(cut, stop, slack, cut(s).1, count - 1);
      if rest.None? then None else Some([cut(s).0] + rest.value)
  }

  /** Extra fields of a board end at the end mark. */
  predicate BoardStop(slack: int, s: Chars) {
    s != [] && s[0] == END
  }

  /** Those of a product end at the end mark, at an empty field or at the last character of the area. */
  predicate ProductStop(slack: int, s: Chars) {
    s != [] && (s[0] == END || slack + |s| <= 1 || DecodeLength(s[0]) == 0)
  }

  /** The fields of an area and the extra fields behind them. */
  function ReadParts(cut: Chars -> (Chars, Chars), stop: (int, Chars) -> bool, slack: int, s: Chars, kind: Kind)
    : (r: Option<(seq<Chars>, seq<Chars>)>)
    ensures r.Some? ==> |r.value.0| == FieldCount(kind)
  {
    var fields := ReadFields(cut, s, FieldCount(kind));
    if fields.None? then None
    else
      var extras := ReadExtras(cut, stop, slack, fields.value.1, ExtraCount(kind));
      if extras.None? then None else Some((fields.value.0, extras.value))
  }

  function ReadBoard(data: Chars): Option<Board> {
    var parts := if |data| < 6 then None else ReadParts(Cut, BoardStop, 0, data[6..], BoardArea);
    if parts.None? then None else Some(BoardOf(DateOf(data), parts.value.0, parts.value.1))
  }

  function DateOf(data: Chars): nat
    requires |data| >= 6
  {
    data[3] + 0x100 * data[4] + 0x10000 * data[5]
  }

  function BoardOf(date: nat, fs: seq<Chars>, extras: seq<Chars>): Board
    requires |fs| == 5
  {
    Board(date, fs[0], fs[1], fs[2], fs[3], fs[4], extras)
  }

  /** `size` is the declared size, which may exceed the data. */
  function ReadProduct(data: Chars, size: nat): Option<Product> {
    if |data| < 3 then None else ProductFrom(ReadParts(Cut, ProductStop, size - |data|, data[3..], ProductArea))
  }

  function ProductFrom(parts: Option<(seq<Chars>, seq<Chars>)>): Option<Product>
    requires parts.Some? ==> |parts.value.0| == FieldCount(ProductArea)
  {
    if parts.None? then None else Some(ProductOf(parts.value.0, parts.value.1))
  }

  function ProductOf(fs: seq<Chars>, extras: seq<Chars>): Product
    requires |fs| == 7
  {
    Product(fs[0], fs[1], fs[2], fs[3], fs[4], fs[5], fs[6], extras)
  }
}
