/** The fan EEPROM: a header, four type-length-value records and a byte sum in a buffer of 256 bytes. */
module FanTlv {
  import opened Sequences
  import opened Text

  type Bytes = seq<nat>

  datatype Fan = Fan(name: Bytes, serial: Bytes, hardware: Bytes, device: Option<nat>)

  const SIZE := 256
  const HEAD: Bytes := [0x01, 0x7E, 0x01, 0xF1]
  const HEADER_LENGTH := 6
  const NAME := 0x02
  const SERIAL := 0x03
  const HARDWARE := 0x05
  const DEVICE := 0x06

  predicate AreBytes(s: Bytes) {
    forall i :: 0 <= i < |s| ==> s[i] < 0x100
  }

  // ----- the device type -----

  /** Four bytes, the most significant first. */
  function FourBytes(n: nat): Bytes {
    [n / 0x1000000 % 0x100, n / 0x10000 % 0x100, n / 0x100 % 0x100, n % 0x100]
  }

  function HexDigits(n: nat): nat {
    if n < 16 then 1 else 1 + HexDigits(n / 16)
  }

  /** The number is printed with at least eight hexadecimal digits, and only an even number of them makes bytes. */
  predicate Printable(n: nat) {
    n < 0x1_0000_0000 || HexDigits(n) % 2 == 0
  }

  /** The bytes of the printed number, at least four. */
  function DeviceBytes(n: nat): Bytes {
    if n < 0x1_0000_0000 then FourBytes(n) else DeviceBytes(n / 0x100) + [n % 0x100]
  }

  function Number(s: Bytes): nat {
    if s == [] then 0 else 0x100 * Number(s[..|s| - 1]) + s[|s| - 1]
  }

  // ----- writing -----

  function Record(kind: nat, value: Bytes): Bytes {
    [kind, |value|] + value
  }

  function Records(f: Fan): Bytes
    requires f.device.Some?
  {
    Record(NAME, f.name) + Record(SERIAL, f.serial) + Record(HARDWARE, f.hardware) + Record(DEVICE, DeviceBytes(f.device.value))
  }

  /** Whether the records fit and the device type can be written. */
  predicate CanGenerate(f: Fan) {
    f.device.Some? && Printable(f.device.value) && |Records(f)| <= SIZE - HEADER_LENGTH - 2
  }

  function Covered(f: Fan): Bytes
    requires CanGenerate(f)
  {
    HEAD + [|Records(f)| / 0x100, |Records(f)| % 0x100] + Records(f)
  }

  function Generated(f: Fan): Bytes
    requires CanGenerate(f)
  {
    var body := Covered(f) + [Sum(Covered(f)) / 0x100, Sum(Covered(f)) % 0x100];
    body + seq(SIZE - |body|, _ => 0xFF)
  }

  // ----- reading -----

  /** What one record does to the fields. A record of another kind is an error; a device type without a
      value is ignored. */
  function Applied(f: Fan, kind: nat, value: Bytes): Option<Fan> {
    if kind == NAME then Some(f.(name := value))
    else if kind == SERIAL then Some(f.(serial := value))
    else if kind == HARDWARE then Some(f.(hardware := value))
    else if kind == DEVICE then Some(if value == [] then f else f.(device := Some(Number(value))))
    else None
  }

  /** A record in front of a text: its kind, its value, what follows it, and its declared length. */
  datatype Piece = Piece(kind: nat, value: Bytes, rest: Bytes, length: nat)

  function Cut(s: Bytes): Piece {
    if |s| < 2 then Piece(0, [], [], 0) else Piece(s[0], Take(s[2..], s[1]), Drop(s, s[1] + 2), s[1])
  }

  /** Records from the start of `s` on, until `room` bytes are used up or less than three are left. */
  function ReadRecords(cut: Bytes -> Piece, apply: (Fan, nat, Bytes) -> Option<Fan>, f: Fan, s: Bytes, room: int): Option<Fan>
    decreases if room > 0 then room else 0
  {
    if |s| <= 2 || room <= 0 then Some(f)
    else
      var p := cut(s);
      var g := apply(f, p.kind, p.value);
      if g.None? then None else ReadRecords(cut, apply, g.value, p.rest, room - p.length - 2)
  }

  function Decoded(f: Fan, e: Bytes): Option<Fan> {
    if |e| < HEADER_LENGTH || e[..4] != HEAD then None
    else
      var length := 0x100 * e[4] + e[5];
      var end := HEADER_LENGTH + length;
      if |e| < end + 2 || Sum(e[..end]) != 0x100 * e[end] + e[end + 1] then None
      else ReadRecords(Cut, Applied, f, e[HEADER_LENGTH..], length)
  }

  // ----- the round trip -----

  lemma {:induction false} SumBound(s: Bytes)
    requires AreBytes(s)
    ensures Sum(s) <= 0xFF * |s|
  {
    if s != [] { SumBound(s[..|s| - 1]); }
  }

  lemma NumberOfFour(n: nat)
    requires n < 0x1_0000_0000
    ensures Number(FourBytes(n)) == n && AreBytes(FourBytes(n))
  {
    var b := FourBytes(n);
    var q1, q2 := n / 0x100, n / 0x10000;
    assert q2 == q1 / 0x100 && n / 0x1000000 == q2 / 0x100;
    assert n == 0x100 * q1 + n % 0x100 && q1 == 0x100 * q2 + q1 % 0x100 && q2 == 0x100 * (q2 / 0x100) + q2 % 0x100;
    assert b[..3] == [b[0], b[1], b[2]] && b[..3][..2] == [b[0], b[1]] && b[..3][..2][..1] == [b[0]];
    NumberSteps(b[0], b[1], b[2], b[3]);
  }

  lemma NumberSteps(a: nat, b: nat, c: nat, d: nat)
    ensures Number([a, b, c, d]) == 0x1000000 * a + 0x10000 * b + 0x100 * c + d
  {
    var s, t, u, v := [a, b, c, d], [a, b, c], [a, b], [a];
    assert s[..3] == t && t[..2] == u && u[..1] == v && v[..0] == [];
    assert Number(v) == a;
    assert Number(u) == 0x100 * a + b;
    assert Number(t) == 0x100 * (0x100 * a + b) + c;
  }

  /** The bytes give the number back, however many they are. */
  lemma {:induction false} NumberOfDevice(n: nat)
    ensures Number(DeviceBytes(n)) == n && AreBytes(DeviceBytes(n)) && |DeviceBytes(n)| >= 4
  {
    if n < 0x1_0000_0000 {
      NumberOfFour(n);
    } else {
      var s := DeviceBytes(n / 0x100);
      NumberOfDevice(n / 0x100);
      assert (s + [n % 0x100])[..|s|] == s;
    }
  }

  lemma CutRecord(kind: nat, value: Bytes, rest: Bytes)
    ensures Cut(Record(kind, value) + rest) == Piece(kind, value, rest, |value|) && |Record(kind, value) + rest| >= |value| + 2
  {
    var s := Record(kind, value) + rest;
    assert s[2..] == value + rest;
    assert Take(value + rest, |value|) == value by { if rest == [] { assert value + rest == value; } }
    assert Drop(s, |value| + 2) == rest;
  }

  /** Reading two known records. */
  lemma TwoRead(cut: Bytes -> Piece, apply: (Fan, nat, Bytes) -> Option<Fan>, f: Fan, g: Fan, h: Fan, s: Bytes, t: Bytes,
                u: Bytes, p: Piece, q: Piece, room: int)
    requires |s| > 2 && |t| > 2 && cut(s) == p && p.rest == t && cut(t) == q && q.rest == u
    requires apply(f, p.kind, p.value) == Some(g) && apply(g, q.kind, q.value) == Some(h) && room > p.length + 2
    ensures ReadRecords(cut, apply, f, s, room) == ReadRecords(cut, apply, h, u, room - p.length - q.length - 4)
  {
    OneRead(cut, apply, f, s, room, p, g);
    OneRead(cut, apply, g, t, room - p.length - 2, q, h);
  }

  lemma OneRead(cut: Bytes -> Piece, apply: (Fan, nat, Bytes) -> Option<Fan>, f: Fan, s: Bytes, room: int, p: Piece, g: Fan)
    requires |s| > 2 && room > 0 && cut(s) == p && apply(f, p.kind, p.value) == Some(g)
    ensures ReadRecords(cut, apply, f, s, room) == ReadRecords(cut, apply, g, p.rest, room - p.length - 2)
  {
  }

  lemma {:induction false} FirstTwo(f: Fan, name: Bytes, serial: Bytes, u: Bytes, room: int)
    requires |u| > 0 && room > |name| + 2
    ensures ReadRecords(Cut, Applied, f, Record(NAME, name) + (Record(SERIAL, serial) + u), room) ==
            ReadRecords(Cut, Applied, f.(name := name, serial := serial), u, room - |name| - |serial| - 4)
  {
    var t := Record(SERIAL, serial) + u;
    CutRecord(NAME, name, t);
    CutRecord(SERIAL, serial, u);
    TwoRead(Cut, Applied, f, f.(name := name), f.(name := name, serial := serial), Record(NAME, name) + t, t, u,
            Piece(NAME, name, t, |name|), Piece(SERIAL, serial, u, |serial|), room);
  }

  lemma {:induction false} LastTwo(f: Fan, hardware: Bytes, d: Bytes, u: Bytes, room: int)
    requires |d| > 0 && room == |hardware| + |d| + 4
    ensures ReadRecords(Cut, Applied, f, Record(HARDWARE, hardware) + (Record(DEVICE, d) + u), room) ==
            Some(f.(hardware := hardware, device := Some(Number(d))))
  {
    var t, g := Record(DEVICE, d) + u, f.(hardware := hardware);
    CutRecord(HARDWARE, hardware, t);
    CutRecord(DEVICE, d, u);
    TwoRead(Cut, Applied, f, g, g.(device := Some(Number(d))), Record(HARDWARE, hardware) + t, t, u,
            Piece(HARDWARE, hardware, t, |hardware|), Piece(DEVICE, d, u, |d|), room);
  }

  lemma Grouped(a: Bytes, b: Bytes, c: Bytes, d: Bytes, e: Bytes)
    ensures a + b + c + d + e == a + (b + (c + (d + e)))
  {
  }

  /** The four records set the four fields, whatever they were before. */
  lemma {:induction false} RecordsRead(f: Fan, before: Fan, rest: Bytes)
    requires f.device.Some?
    ensures ReadRecords(Cut, Applied, before, Records(f) + rest, |Records(f)|) == Some(f)
  {
    var d := DeviceBytes(f.device.value);
    var u := Record(HARDWARE, f.hardware) + (Record(DEVICE, d) + rest);
    Grouped(Record(NAME, f.name), Record(SERIAL, f.serial), Record(HARDWARE, f.hardware), Record(DEVICE, d), rest);
    NumberOfDevice(f.device.value);
    FirstTwo(before, f.name, f.serial, u, |Records(f)|);
    LastTwo(before.(name := f.name, serial := f.serial), f.hardware, d, rest, |f.hardware| + |d| + 4);
  }

  predicate BytesFan(f: Fan) {
    AreBytes(f.name) && AreBytes(f.serial) && AreBytes(f.hardware)
  }

  lemma CoveredBytes(f: Fan)
    requires CanGenerate(f) && BytesFan(f)
    ensures AreBytes(Covered(f)) && Sum(Covered(f)) < 0x10000
  {
    NumberOfDevice(f.device.value);
    assert AreBytes(Record(NAME, f.name)) && AreBytes(Record(SERIAL, f.serial)) && AreBytes(Record(HARDWARE, f.hardware));
    SumBound(Covered(f));
  }

  /** The buffer has 256 bytes, and its sum fits the two bytes for it. */
  lemma GeneratedBytes(f: Fan)
    requires CanGenerate(f) && BytesFan(f)
    ensures |Generated(f)| == SIZE && AreBytes(Generated(f))
  {
    CoveredBytes(f);
  }

  /** Decoding a generated buffer gives back all four fields. */
  lemma FanRoundTrip(f: Fan, before: Fan)
    requires CanGenerate(f)
    ensures Decoded(before, Generated(f)) == Some(f)
  {
    var e, n, c := Generated(f), |Records(f)|, Covered(f);
    var end := HEADER_LENGTH + n;
    var pad := seq(SIZE - end - 2, _ => 0xFF);
    var rest := [Sum(c) / 0x100, Sum(c) % 0x100] + pad;
    assert e == c + rest;
    assert e[..end] == c && e[..4] == HEAD;
    assert e[4] == n / 0x100 && e[5] == n % 0x100;
    assert e[HEADER_LENGTH..] == Records(f) + rest;
    RecordsRead(f, before, rest);
  }

  // ----- the object -----

  class FanDevice {
    var typename: Bytes
    var typesn: Bytes
    var typehwinfo: Bytes
    var typedevtype: Option<nat>

    constructor ()
      ensures View() == Fan([], [], [], None)
    {
      typename, typesn, typehwinfo, typedevtype := [], [], [], None;
    }

    function View(): Fan
      reads this
    {
      Fan(typename, typesn, typehwinfo, typedevtype)
    }

    static method FanCrc(t: Bytes) returns (sum: nat)
      ensures sum == Sum(t)
    {
      sum := 0;
      for i := 0 to |t|
        invariant sum == Sum(t[..i])
      {
        assert t[..i + 1][..i] == t[..i];
        sum := sum + t[i];
      }
      assert t[..|t|] == t;
    }

    /** Writes bytes into the buffer at an index. */
    static method Put(buffer: array<nat>, index: nat, bytes: Bytes) returns (next: nat)
      requires index + |bytes| <= buffer.Length
      modifies buffer
      ensures next == index + |bytes| && buffer[..next] == old(buffer[..index]) + bytes
      ensures forall i :: next <= i < buffer.Length ==> buffer[i] == old(buffer[i])
    {
      forall i | 0 <= i < |bytes| {
        buffer[index + i] := bytes[i];
      }
      next := index + |bytes|;
    }

    /** Fills a buffer with the header, the records and their sum. It fails exactly when the records do not
        fit or the device type is no number, or one with more than eight and an odd number of digits. */
    method GenerateFanValue() returns (r: Option<array<nat>>)
      ensures r.Some? <==> CanGenerate(View())
      ensures r.Some? ==> fresh(r.value) && r.value[..] == Generated(View())
    {
      if typedevtype.None? || !Printable(typedevtype.value) {
        return None;
      }
      var device := DeviceBytes(typedevtype.value);
      var total := |typename| + |typesn| + |typehwinfo| + |device| + 8;
      if total > SIZE - HEADER_LENGTH - 2 {
        return None;
      }
      var buffer := new nat[SIZE](_ => 0xFF);
      var index := Put(buffer, 0, HEAD + [total / 0x100, total % 0x100]);
      index := PutRecords(buffer, index, device);
      assert buffer[..index] == Covered(View());
      PutSum(buffer, index);
      r := Some(buffer);
    }

    /** Closes the buffer with the sum of what is in it. */
    static method PutSum(buffer: array<nat>, start: nat)
      requires start + 2 <= buffer.Length && forall i :: start <= i < buffer.Length ==> buffer[i] == 0xFF
      modifies buffer
      ensures var covered := old(buffer[..start]);
              buffer[..] == covered + [Sum(covered) / 0x100, Sum(covered) % 0x100] + seq(buffer.Length - start - 2, _ => 0xFF)
    {
      var sum := FanCrc(buffer[..start]);
      var index := Put(buffer, start, [sum / 0x100, sum % 0x100]);
      assert buffer[..] == buffer[..index] + buffer[index..];
    }

    method PutRecords(buffer: array<nat>, start: nat, device: Bytes) returns (index: nat)
      requires typedevtype.Some? && device == DeviceBytes(typedevtype.value) && start + |Records(View())| <= buffer.Length
      modifies buffer
      ensures index == start + |Records(View())| && buffer[..index] == old(buffer[..start]) + Records(View())
      ensures forall i :: index <= i < buffer.Length ==> buffer[i] == old(buffer[i])
    {
      index := Put(buffer, start, Record(NAME, typename));
      index := Put(buffer, index, Record(SERIAL, typesn));
      index := Put(buffer, index, Record(HARDWARE, typehwinfo));
      index := Put(buffer, index, Record(DEVICE, device));
    }

    /** Sets the field that a record names. */
    method Decoder(kind: nat, value: Bytes) returns (ok: bool)
      modifies this
      ensures ok <==> Applied(old(View()), kind, value).Some?
      ensures ok ==> Some(View()) == Applied(old(View()), kind, value)
    {
      ok := true;
      if kind == NAME {
        typename := value;
      } else if kind == SERIAL {
        typesn := value;
      } else if kind == HARDWARE {
        typehwinfo := value;
      } else if kind == DEVICE {
        if value != [] {
          typedevtype := Some(Number(value));
        }
      } else {
        ok := false;
      }
    }

    /** Reads a buffer. Every round of the loop consumes at least two bytes. */
    method Decode(e: Bytes) returns (ok: bool)
      modifies this
      ensures ok <==> Decoded(old(View()), e).Some?
      ensures ok ==> Some(View()) == Decoded(old(View()), e)
    {
      if |e| < HEADER_LENGTH || e[..4] != HEAD {
        return false;
      }
      var length := 0x100 * e[4] + e[5];
      var end := HEADER_LENGTH + length;
      if |e| < end + 2 {
        return false;
      }
      var sum := FanCrc(e[..end]);
      if sum != 0x100 * e[end] + e[end + 1] {
        return false;
      }
      ReadFromIndex(Cut, Applied, e, end, View(), HEADER_LENGTH);
      assert Drop(e, HEADER_LENGTH) == e[HEADER_LENGTH..];
      ok := DecodeRecords(e, HEADER_LENGTH, end, Applied);
    }

    method DecodeRecords(e: Bytes, start: nat, end: nat, ghost apply: (Fan, nat, Bytes) -> Option<Fan>) returns (ok: bool)
      requires forall f, kind, value {:trigger apply(f, kind, value)} :: apply(f, kind, value) == Applied(f, kind, value)
      modifies this
      ensures ok <==> ReadFrom(apply, e, end, old(View()), start).Some?
      ensures ok ==> Some(View()) == ReadFrom(apply, e, end, old(View()), start)
    {
      var index: nat := start;
      ok := true;
      while index + 2 < |e| && index < end
        invariant ok && ReadFrom(apply, e, end, old(View()), start) == ReadFrom(apply, e, end, View(), index)
        decreases end - index
      {
        ok := Decoder(e[index], Take(e[index + 2..], e[index + 1]));
        if !ok {
          return;
        }
        index := index + e[index + 1] + 2;
      }
    }
  }

  /** Reading by a moving index. */
  function ReadFrom(apply: (Fan, nat, Bytes) -> Option<Fan>, e: Bytes, end: nat, f: Fan, index: nat): Option<Fan>
    decreases if end > index then end - index else 0
  {
    if index + 2 < |e| && index < end then
      var g := apply(f, e[index], Take(e[index + 2..], e[index + 1]));
      if g.None? then None else ReadFrom(apply, e, end, g.value, index + e[index + 1] + 2)
    else Some(f)
  }

  lemma {:induction false} ReadFromIndex(cut: Bytes -> Piece, apply: (Fan, nat, Bytes) -> Option<Fan>, e: Bytes, end: nat,
                                         f: Fan, index: nat)
    requires cut == Cut
    ensures ReadFrom(apply, e, end, f, index) == ReadRecords(cut, apply, f, Drop(e, index), end - index)
    decreases if end > index then end - index else 0
  {
    if index + 2 < |e| && index < end {
      CutAt(e, index);
      var p := cut(Drop(e, index));
      var g := apply(f, p.kind, p.value);
      if g.Some? {
        ReadFromIndex(cut, apply, e, end, g.value, index + e[index + 1] + 2);
        OneRead(cut, apply, f, Drop(e, index), end - index, p, g.value);
      }
    }
  }

  lemma CutAt(e: Bytes, index: nat)
    requires index + 2 < |e|
    ensures Cut(Drop(e, index)) == Piece(e[index], Take(e[index + 2..], e[index + 1]), Drop(e, index + e[index + 1] + 2), e[index + 1])
    ensures |Drop(e, index)| > 2
  {
    var s, n := e[index..], e[index + 1];
    assert s[2..] == e[index + 2..];
    if n + 2 < |s| { assert s[n + 2..] == e[index + n + 2..]; }
  }
}
