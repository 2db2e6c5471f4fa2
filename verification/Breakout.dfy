/** Breaking a port out: the lanes of an interface are dealt out to child ports. */
module Breakout {
  import opened Text

  /** One part of a breakout mode: so many ports of a speed on so many lanes. */
  datatype Entry = Entry(ports: nat, speed: nat, lanes: nat)

  /** The lanes from `start` on that one child port gets. */
  datatype Block = Block(start: nat, width: nat, speed: nat)

  datatype Port = Port(alias: string, lanes: string, speed: string, index: string, subport: string)

  /** An interface: its number, lanes, indexes, the entries of its mode and the aliases for its ports. */
  datatype Interface = Interface(base: int, lanes: seq<string>, indexes: seq<string>, entries: seq<Entry>, aliases: seq<string>)

  // ----- which lanes go where -----

  function Width(e: Entry): nat
    requires e.ports > 0
  {
    e.lanes / e.ports
  }

  function EntryBlocks(ports: nat, start: nat, width: nat, speed: nat): seq<Block> {
    if ports == 0 then [] else [Block(start, width, speed)] + EntryBlocks(ports - 1, start + width, width, speed)
  }

  predicate AllPositive(entries: seq<Entry>) {
    forall i :: 0 <= i < |entries| ==> entries[i].ports > 0
  }

  function Blocks(entries: seq<Entry>, start: nat): seq<Block>
    requires AllPositive(entries)
  {
    if entries == [] then []
    else
      var e := entries[0];
      EntryBlocks(e.ports, start, Width(e), e.speed) + Blocks(entries[1..], start + e.ports * Width(e))
  }

  function LanesUsed(entries: seq<Entry>): nat {
    if entries == [] then 0 else entries[0].lanes + LanesUsed(entries[1..])
  }

  function PortCount(entries: seq<Entry>): nat {
    if entries == [] then 0 else entries[0].ports + PortCount(entries[1..])
  }

  /** The blocks lie behind each other from `start` to `end`. */
  predicate Chained(blocks: seq<Block>, start: nat, end: nat) {
    if blocks == [] then start == end
    else blocks[0].start == start && Chained(blocks[1..], start + blocks[0].width, end)
  }

  lemma {:induction false} ChainedAppend(a: seq<Block>, b: seq<Block>, start: nat, middle: nat, end: nat)
    requires Chained(a, start, middle) && Chained(b, middle, end)
    ensures Chained(a + b, start, end)
  {
    if a == [] {
      assert a + b == b;
    } else {
      ChainedAppend(a[1..], b, start + a[0].width, middle, end);
      assert (a + b)[1..] == a[1..] + b;
    }
  }

  lemma {:induction false} EntryChained(ports: nat, start: nat, width: nat, speed: nat)
    ensures var bs := EntryBlocks(ports, start, width, speed);
            && |bs| == ports && Chained(bs, start, start + ports * width)
            && forall i :: 0 <= i < |bs| ==> bs[i].width == width && bs[i].speed == speed
  {
    if ports > 0 {
      EntryChained(ports - 1, start + width, width, speed);
      assert ports * width == width + (ports - 1) * width;
      var bs := EntryBlocks(ports, start, width, speed);
      assert bs[1..] == EntryBlocks(ports - 1, start + width, width, speed);
    }
  }

  /** Every entry has a lane for each of its ports; only a last entry of one port may do without. */
  predicate EnoughLanes(entries: seq<Entry>) {
    forall i :: 0 <= i < |entries| ==>
      entries[i].ports <= entries[i].lanes || (i == |entries| - 1 && entries[i].ports == 1)
  }

  lemma WidthBounds(e: Entry)
    requires e.ports > 0
    ensures e.ports * Width(e) <= e.lanes && (Width(e) > 0 <==> e.ports <= e.lanes)
  {
    assert e.lanes == e.ports * (e.lanes / e.ports) + e.lanes % e.ports;
  }

  /** The blocks of a mode follow each other without gaps, one for each port, and stay within the lanes
      that the mode uses. */
  lemma {:induction false} BlocksChained(entries: seq<Entry>, start: nat) returns (end: nat)
    requires AllPositive(entries)
    ensures Chained(Blocks(entries, start), start, end) && start <= end <= start + LanesUsed(entries)
    ensures |Blocks(entries, start)| == PortCount(entries)
  {
    if entries == [] {
      end := start;
    } else {
      var e := entries[0];
      WidthBounds(e);
      EntryChained(e.ports, start, Width(e), e.speed);
      end := BlocksChained(entries[1..], start + e.ports * Width(e));
      ChainedAppend(EntryBlocks(e.ports, start, Width(e), e.speed), Blocks(entries[1..], start + e.ports * Width(e)),
                    start, start + e.ports * Width(e), end);
    }
  }

  /** All blocks but the last have lanes. */
  predicate Positive(blocks: seq<Block>) {
    forall i :: 0 <= i < |blocks| - 1 ==> blocks[i].width > 0
  }

  lemma PositiveAppend(a: seq<Block>, b: seq<Block>)
    requires b != []
    ensures Positive(a + b) <==> (forall i :: 0 <= i < |a| ==> a[i].width > 0) && Positive(b)
  {
    if Positive(a + b) {
      assert forall i :: 0 <= i < |a| ==> (a + b)[i] == a[i];
      assert forall i :: 0 <= i < |b| - 1 ==> b[i] == (a + b)[|a| + i];
    }
  }

  lemma {:induction false} EntryPositive(ports: nat, start: nat, width: nat, speed: nat)
    requires ports > 0
    ensures var bs := EntryBlocks(ports, start, width, speed);
            && ((forall i :: 0 <= i < |bs| ==> bs[i].width > 0) <==> width > 0)
            && (Positive(bs) <==> width > 0 || ports == 1)
  {
    var bs := EntryBlocks(ports, start, width, speed);
    EntryChained(ports, start, width, speed);
    assert bs[0].width == width;
  }

  lemma {:induction false} BlocksPositive(entries: seq<Entry>, start: nat)
    requires AllPositive(entries)
    ensures Positive(Blocks(entries, start)) <==> EnoughLanes(entries)
  {
    if entries != [] {
      var e, rest := entries[0], entries[1..];
      var next := start + e.ports * Width(e);
      var a, b := EntryBlocks(e.ports, start, Width(e), e.speed), Blocks(rest, next);
      WidthBounds(e);
      EntryPositive(e.ports, start, Width(e), e.speed);
      if rest == [] {
        assert a + b == a;
      } else {
        BlocksPositive(rest, next);
        var end := BlocksChained(rest, next);
        PositiveAppend(a, b);
        EnoughFirst(entries);
      }
    }
  }

  lemma EnoughFirst(entries: seq<Entry>)
    requires |entries| > 1
    ensures EnoughLanes(entries) <==> entries[0].ports <= entries[0].lanes && EnoughLanes(entries[1..])
  {
    if EnoughLanes(entries) {
      assert forall i :: 0 <= i < |entries[1..]| ==> entries[1..][i] == entries[i + 1];
    }
  }

  /** Chained blocks of positive width are disjoint and in order. */
  lemma {:induction false} ChainedApart(blocks: seq<Block>, start: nat, end: nat, i: nat, j: nat)
    requires Chained(blocks, start, end) && i < j < |blocks|
    ensures start <= blocks[i].start && blocks[i].start + blocks[i].width <= blocks[j].start
    ensures blocks[j].start + blocks[j].width <= end
  {
    if i == 0 {
      ChainedWithin(blocks[1..], start + blocks[0].width, end, j - 1);
    } else {
      ChainedApart(blocks[1..], start + blocks[0].width, end, i - 1, j - 1);
    }
  }

  lemma {:induction false} ChainedWithin(blocks: seq<Block>, start: nat, end: nat, i: nat)
    requires Chained(blocks, start, end) && i < |blocks|
    ensures start <= blocks[i].start && blocks[i].start + blocks[i].width <= end
  {
    if i == 0 { ChainedEnds(blocks[1..], start + blocks[0].width, end); }
    else { ChainedWithin(blocks[1..], start + blocks[0].width, end, i - 1); }
  }

  lemma {:induction false} ChainedEnds(blocks: seq<Block>, start: nat, end: nat)
    requires Chained(blocks, start, end)
    ensures start <= end
  {
    if blocks != [] { ChainedEnds(blocks[1..], start + blocks[0].width, end); }
  }

  /** The lanes of all blocks, one after another. */
  function Dealt(lanes: seq<string>, blocks: seq<Block>): seq<string>
    requires forall i :: 0 <= i < |blocks| ==> blocks[i].start + blocks[i].width <= |lanes|
  {
    if blocks == [] then []
    else lanes[blocks[0].start..blocks[0].start + blocks[0].width] + Dealt(lanes, blocks[1..])
  }

  /** Together the ports get a prefix of the lanes, each lane once and in order. */
  lemma {:induction false} DealtPrefix(lanes: seq<string>, blocks: seq<Block>, start: nat, end: nat)
    requires Chained(blocks, start, end) && end <= |lanes|
    requires forall i :: 0 <= i < |blocks| ==> blocks[i].start + blocks[i].width <= |lanes|
    ensures start <= end && Dealt(lanes, blocks) == lanes[start..end]
  {
    if blocks != [] {
      var next := start + blocks[0].width;
      DealtPrefix(lanes, blocks[1..], next, end);
      assert lanes[start..next] + lanes[next..end] == lanes[start..end];
    }
  }

  // ----- the child ports -----

  function PortName(id: int): string {
    "Ethernet" + Decimal(id)
  }

  lemma NamesDiffer(a: int, b: int)
    requires a != b
    ensures PortName(a) != PortName(b)
  {
    DecimalDiffers(a, b);
    var p := "Ethernet";
    assert (p + Decimal(a))[|p|..] == Decimal(a) && (p + Decimal(b))[|p|..] == Decimal(b);
  }

  lemma DecimalDiffers(a: int, b: int)
    requires a != b
    ensures Decimal(a) != Decimal(b)
  {
    var x, y := if a < 0 then -a else a, if b < 0 then -b else b;
    NaturalCanonical(x);
    NaturalCanonical(y);
    assert ("-" + Natural(x))[1..] == Natural(x) && ("-" + Natural(y))[1..] == Natural(y);
  }

  /** Whether the configuration can be made: the lanes suffice, every entry has ports, and there is an alias
      for every port and an index for its first lane. */
  predicate CanConfigure(i: Interface) {
    && LanesUsed(i.entries) <= |i.lanes| && AllPositive(i.entries) && PortCount(i.entries) <= |i.aliases|
    && forall n :: 0 <= n < |Blocks(i.entries, 0)| ==> Blocks(i.entries, 0)[n].start < |i.indexes|
  }

  predicate Fitting(i: Interface, blocks: seq<Block>) {
    && |blocks| <= |i.aliases|
    && forall n :: 0 <= n < |blocks| ==> blocks[n].start < |i.indexes| && blocks[n].start + blocks[n].width <= |i.lanes|
  }

  /** Port `n` of `total`, on the lanes of block `b`. */
  function MakePort(i: Interface, b: Block, n: nat, total: nat): Port
    requires n < |i.aliases| && b.start < |i.indexes| && b.start + b.width <= |i.lanes|
  {
    Port(i.aliases[n], Join(i.lanes[b.start..b.start + b.width], ","), Decimal(b.speed), i.indexes[b.start],
         if total == 1 then "0" else Decimal(n + 1))
  }

  function PortAt(i: Interface, blocks: seq<Block>, n: nat): Port
    requires Fitting(i, blocks) && n < |blocks|
  {
    MakePort(i, blocks[n], n, PortCount(i.entries))
  }

  /** The child ports in order, each with its number. */
  function Ports(i: Interface, blocks: seq<Block>): seq<(int, Port)>
    requires Fitting(i, blocks)
  {
    seq(|blocks|, n requires 0 <= n < |blocks| => (i.base + blocks[n].start, PortAt(i, blocks, n)))
  }

  /** The table that they are written into one by one. */
  function Table(name: int -> string, ports: seq<(int, Port)>): map<string, Port> {
    if ports == [] then map[]
    else
      var n := |ports| - 1;
      Table(name, ports[..n])[name(ports[n].0) := ports[n].1]
  }

  lemma BlocksFit(i: Interface)
    requires CanConfigure(i)
    ensures |Blocks(i.entries, 0)| == PortCount(i.entries) && Fitting(i, Blocks(i.entries, 0))
  {
    var blocks := Blocks(i.entries, 0);
    var end := BlocksChained(i.entries, 0);
    forall n | 0 <= n < |blocks| ensures blocks[n].start + blocks[n].width <= |i.lanes| {
      ChainedWithin(blocks, 0, end, n);
    }
  }

  function PortsOf(i: Interface): seq<(int, Port)>
    requires CanConfigure(i)
  {
    BlocksFit(i);
    Ports(i, Blocks(i.entries, 0))
  }

  function Config(i: Interface): map<string, Port>
    requires CanConfigure(i)
  {
    Table(PortName, PortsOf(i))
  }

  // ----- no port is lost -----

  ghost predicate Injective(name: int -> string) {
    forall a, b :: a != b ==> name(a) != name(b)
  }

  lemma NamesInjective()
    ensures Injective(PortName)
  {
    forall a, b | a != b ensures PortName(a) != PortName(b) { NamesDiffer(a, b); }
  }

  predicate Increasing(ports: seq<(int, Port)>) {
    forall i, j :: 0 <= i < j < |ports| ==> ports[i].0 < ports[j].0
  }

  lemma {:induction false} TableKeys(name: int -> string, ports: seq<(int, Port)>, key: string)
    ensures key in Table(name, ports) <==> exists n :: 0 <= n < |ports| && key == name(ports[n].0)
  {
    if ports != [] {
      var k := |ports| - 1;
      TableKeys(name, ports[..k], key);
      if key in Table(name, ports) && key != name(ports[k].0) {
        var n :| 0 <= n < |ports[..k]| && key == name(ports[..k][n].0);
        assert ports[n] == ports[..k][n];
      } else if n :| 0 <= n < |ports| && key == name(ports[n].0) {
        if n < k { assert ports[..k][n] == ports[n]; }
      }
    }
  }

  lemma {:induction false} TableAt(name: int -> string, ports: seq<(int, Port)>, n: nat)
    requires Injective(name) && Increasing(ports) && n < |ports|
    ensures name(ports[n].0) in Table(name, ports) && Table(name, ports)[name(ports[n].0)] == ports[n].1
  {
    var k := |ports| - 1;
    if n < k {
      TableAt(name, ports[..k], n);
      assert ports[n].0 < ports[k].0;
    }
  }

  lemma {:induction false} TableSize(name: int -> string, ports: seq<(int, Port)>)
    requires Injective(name) && Increasing(ports)
    ensures |Table(name, ports)| == |ports|
  {
    if ports != [] {
      var k := |ports| - 1;
      TableSize(name, ports[..k]);
      TableKeys(name, ports[..k], name(ports[k].0));
    }
  }

  lemma {:induction false} TableShrinks(name: int -> string, ports: seq<(int, Port)>)
    ensures |Table(name, ports)| <= |ports|
  {
    if ports != [] { TableShrinks(name, ports[..|ports| - 1]); }
  }

  /** Two ports of one number share one place. */
  lemma {:induction false} TableCollides(name: int -> string, ports: seq<(int, Port)>, m: nat, n: nat)
    requires m < n < |ports| && ports[m].0 == ports[n].0
    ensures |Table(name, ports)| < |ports|
  {
    var k := |ports| - 1;
    if n < k {
      TableCollides(name, ports[..k], m, n);
    } else {
      TableShrinks(name, ports[..k]);
      TableKeys(name, ports[..k], name(ports[k].0));
      assert ports[..k][m] == ports[m];
    }
  }

  lemma {:induction false} ChainedNext(blocks: seq<Block>, start: nat, end: nat, n: nat)
    requires Chained(blocks, start, end) && n + 1 < |blocks|
    ensures blocks[n + 1].start == blocks[n].start + blocks[n].width
  {
    if n > 0 { ChainedNext(blocks[1..], start + blocks[0].width, end, n - 1); }
  }

  lemma PortsIncrease(i: Interface)
    requires CanConfigure(i) && EnoughLanes(i.entries)
    ensures Increasing(PortsOf(i))
  {
    var blocks := Blocks(i.entries, 0);
    BlocksFit(i);
    BlocksPositive(i.entries, 0);
    var end := BlocksChained(i.entries, 0);
    forall m, n | 0 <= m < n < |blocks| ensures blocks[m].start < blocks[n].start {
      ChainedApart(blocks, 0, end, m, n);
    }
  }

  /** Every port has its own place in the table, under its own name, exactly when the entries have enough
      lanes; otherwise ports are lost. */
  lemma ConfigExact(i: Interface)
    requires CanConfigure(i)
    ensures |PortsOf(i)| == PortCount(i.entries)
    ensures |Config(i)| == PortCount(i.entries) <==> EnoughLanes(i.entries)
    ensures EnoughLanes(i.entries) ==> forall n :: 0 <= n < |PortsOf(i)| ==>
              PortName(PortsOf(i)[n].0) in Config(i) && Config(i)[PortName(PortsOf(i)[n].0)] == PortsOf(i)[n].1
  {
    var ports, blocks := PortsOf(i), Blocks(i.entries, 0);
    BlocksFit(i);
    if EnoughLanes(i.entries) {
      PortsIncrease(i);
      NamesInjective();
      TableSize(PortName, ports);
      forall n | 0 <= n < |ports|
        ensures PortName(ports[n].0) in Config(i) && Config(i)[PortName(ports[n].0)] == ports[n].1
      {
        TableAt(PortName, ports, n);
      }
    } else {
      BlocksPositive(i.entries, 0);
      var n :| 0 <= n < |blocks| - 1 && blocks[n].width == 0;
      var end := BlocksChained(i.entries, 0);
      ChainedNext(blocks, 0, end, n);
      TableCollides(PortName, ports, n, n + 1);
    }
  }

  lemma {:induction false} NoWidth(ports: nat, start: nat, speed: nat)
    ensures forall n :: 0 <= n < |EntryBlocks(ports, start, 0, speed)| ==> EntryBlocks(ports, start, 0, speed)[n].start == start
  {
    if ports > 0 { NoWidth(ports - 1, start, speed); }
  }

  lemma {:induction false} OnePlace(name: int -> string, ports: seq<(int, Port)>, base: int)
    requires ports != [] && forall n :: 0 <= n < |ports| ==> ports[n].0 == base
    ensures Table(name, ports) == map[name(base) := ports[|ports| - 1].1]
  {
    var n := |ports| - 1;
    if n > 0 { OnePlace(name, ports[..n], base); }
  }

  /** Of the ports of any one entry with fewer lanes than ports only the last is left. */
  lemma {:induction false} LostPorts(i: Interface, e: Entry)
    requires i.entries == [e] && e.lanes < e.ports && e.lanes <= |i.lanes| && e.ports <= |i.aliases| && i.indexes != []
    ensures CanConfigure(i) && |PortsOf(i)| == e.ports && Config(i) == map[PortName(i.base) := PortsOf(i)[e.ports - 1].1]
    ensures e.ports > 1 ==> |Config(i)| != PortCount(i.entries)
  {
    WidthBounds(e);
    assert i.entries[1..] == [] && LanesUsed([]) == 0 && PortCount([]) == 0;
    var blocks := EntryBlocks(e.ports, 0, 0, e.speed);
    assert Blocks(i.entries, 0) == blocks by { assert Blocks([], 0) == []; assert blocks + [] == blocks; }
    NoWidth(e.ports, 0, e.speed);
    EntryChained(e.ports, 0, 0, e.speed);
    OnePlace(PortName, PortsOf(i), i.base);
  }

  /** Together the ports have the first lanes of the interface, each lane once. */
  lemma LanesDealt(i: Interface)
    requires CanConfigure(i)
    ensures Fitting(i, Blocks(i.entries, 0)) && Dealt(i.lanes, Blocks(i.entries, 0)) <= i.lanes
  {
    BlocksFit(i);
    var end := BlocksChained(i.entries, 0);
    DealtPrefix(i.lanes, Blocks(i.entries, 0), 0, end);
  }

  // ----- several interfaces -----

  /** The child ports of all interfaces, written into one table. */
  function Merged(tables: seq<map<string, Port>>): map<string, Port> {
    if tables == [] then map[] else Merged(tables[..|tables| - 1]) + tables[|tables| - 1]
  }

  /** The numbers of the lanes of two interfaces do not overlap. */
  predicate Apart(a: Interface, b: Interface) {
    a.base + LanesUsed(a.entries) <= b.base || b.base + LanesUsed(b.entries) <= a.base
  }

  /** Every entry has a lane for each of its ports. */
  predicate OneLaneEach(entries: seq<Entry>) {
    forall k :: 0 <= k < |entries| ==> entries[k].ports <= entries[k].lanes
  }

  predicate Proper(i: Interface) {
    CanConfigure(i) && OneLaneEach(i.entries)
  }

  lemma {:induction false} AllWide(entries: seq<Entry>, start: nat)
    requires AllPositive(entries) && forall k :: 0 <= k < |entries| ==> entries[k].ports <= entries[k].lanes
    ensures forall n :: 0 <= n < |Blocks(entries, start)| ==> Blocks(entries, start)[n].width > 0
  {
    if entries != [] {
      var e := entries[0];
      WidthBounds(e);
      EntryPositive(e.ports, start, Width(e), e.speed);
      AllWide(entries[1..], start + e.ports * Width(e));
    }
  }

  /** The number of every child port is that of one of the lanes of its interface. */
  lemma PortsWithin(i: Interface, n: nat)
    requires Proper(i) && n < |PortsOf(i)|
    ensures i.base <= PortsOf(i)[n].0 < i.base + LanesUsed(i.entries)
  {
    BlocksFit(i);
    AllWide(i.entries, 0);
    var end := BlocksChained(i.entries, 0);
    ChainedWithin(Blocks(i.entries, 0), 0, end, n);
  }

  lemma NoCommonPort(a: Interface, b: Interface, key: string)
    requires Proper(a) && Proper(b) && Apart(a, b) && key in Config(a)
    ensures key !in Config(b)
  {
    TableKeys(PortName, PortsOf(a), key);
    TableKeys(PortName, PortsOf(b), key);
    var m :| 0 <= m < |PortsOf(a)| && key == PortName(PortsOf(a)[m].0);
    PortsWithin(a, m);
    forall n | 0 <= n < |PortsOf(b)| ensures key != PortName(PortsOf(b)[n].0) {
      PortsWithin(b, n);
      NamesDiffer(PortsOf(a)[m].0, PortsOf(b)[n].0);
    }
  }

  /** The numbers of the child ports: those of their first lanes. */
  function Numbers(i: Interface): set<int> {
    if !AllPositive(i.entries) then {}
    else set n | 0 <= n < |Blocks(i.entries, 0)| :: i.base + Blocks(i.entries, 0)[n].start
  }

  /** Every interface has enough lanes for its ports, and no two have ports of one number. */
  predicate Lossless(all: seq<Interface>) {
    && (forall n :: 0 <= n < |all| ==> EnoughLanes(all[n].entries))
    && forall m, n :: 0 <= m < n < |all| ==> Numbers(all[m]) !! Numbers(all[n])
  }

  predicate IsTable(i: Interface, table: map<string, Port>) {
    CanConfigure(i) && table == Config(i)
  }

  predicate AreTables(all: seq<Interface>, tables: seq<map<string, Port>>) {
    |all| == |tables| && forall n :: 0 <= n < |all| ==> IsTable(all[n], tables[n])
  }

  lemma NumbersOf(i: Interface, id: int)
    requires CanConfigure(i)
    ensures id in Numbers(i) <==> exists n :: 0 <= n < |PortsOf(i)| && PortsOf(i)[n].0 == id
  {
    BlocksFit(i);
    var ports, blocks := PortsOf(i), Blocks(i.entries, 0);
    assert |ports| == |blocks| && forall n :: 0 <= n < |ports| ==> ports[n].0 == i.base + blocks[n].start;
  }

  lemma NumberNamed(i: Interface, id: int)
    requires CanConfigure(i)
    ensures id in Numbers(i) <==> PortName(id) in Config(i)
  {
    NumbersOf(i, id);
    TableKeys(PortName, PortsOf(i), PortName(id));
    if PortName(id) in Config(i) {
      var n :| 0 <= n < |PortsOf(i)| && PortName(id) == PortName(PortsOf(i)[n].0);
      if PortsOf(i)[n].0 != id { NamesDiffer(PortsOf(i)[n].0, id); }
    }
  }

  lemma NamedByNumber(i: Interface, key: string) returns (id: int)
    requires CanConfigure(i) && key in Config(i)
    ensures id in Numbers(i) && key == PortName(id)
  {
    TableKeys(PortName, PortsOf(i), key);
    var n :| 0 <= n < |PortsOf(i)| && key == PortName(PortsOf(i)[n].0);
    id := PortsOf(i)[n].0;
    NumbersOf(i, id);
  }

  /** Tables have a port name in common exactly when their interfaces have a port number in common. */
  lemma CommonNames(a: Interface, b: Interface, s: map<string, Port>, t: map<string, Port>)
    requires IsTable(a, s) && IsTable(b, t)
    ensures s.Keys !! t.Keys <==> Numbers(a) !! Numbers(b)
  {
    if id :| id in Numbers(a) && id in Numbers(b) {
      NumberNamed(a, id);
      NumberNamed(b, id);
      assert PortName(id) in s.Keys && PortName(id) in t.Keys;
    }
    if key :| key in s.Keys && key in t.Keys {
      var id := NamedByNumber(a, key);
      NumberNamed(b, id);
    }
  }

  lemma {:induction false} MergedLast(tables: seq<map<string, Port>>, k: nat, key: string)
    requires k < |tables| && key in tables[k] && forall n :: k < n < |tables| ==> key !in tables[n]
    ensures key in Merged(tables) && Merged(tables)[key] == tables[k][key]
  {
    var n := |tables| - 1;
    if k < n { MergedLast(tables[..n], k, key); }
  }

  /** Interfaces without common numbers keep all their child ports when their tables are merged. */
  lemma {:induction false} MergedKeeps(all: seq<Interface>, tables: seq<map<string, Port>>, k: nat, m: nat)
    requires AreTables(all, tables) && Lossless(all) && k < |all| && m < |PortsOf(all[k])|
    ensures var p := PortsOf(all[k])[m]; PortName(p.0) in Merged(tables) && Merged(tables)[PortName(p.0)] == p.1
  {
    var key := PortName(PortsOf(all[k])[m].0);
    assert IsTable(all[k], tables[k]);
    ConfigExact(all[k]);
    forall n | k < n < |tables| ensures key !in tables[n] {
      assert IsTable(all[n], tables[n]);
      CommonNames(all[k], all[n], tables[k], tables[n]);
      assert key in tables[k].Keys;
    }
    MergedLast(tables, k, key);
  }

  function TotalPorts(all: seq<Interface>): nat {
    if all == [] then 0 else TotalPorts(all[..|all| - 1]) + PortCount(all[|all| - 1].entries)
  }

  lemma UnionSize(a: map<string, Port>, b: map<string, Port>)
    ensures |a + b| <= |a| + |b| && (|a + b| == |a| + |b| <==> a.Keys !! b.Keys)
  {
    assert (a + b).Keys == a.Keys + b.Keys;
    assert |a.Keys + b.Keys| + |a.Keys * b.Keys| == |a.Keys| + |b.Keys|;
  }

  lemma TableCount(i: Interface, table: map<string, Port>)
    requires IsTable(i, table)
    ensures |table| <= PortCount(i.entries) && (|table| == PortCount(i.entries) <==> EnoughLanes(i.entries))
  {
    ConfigExact(i);
    TableShrinks(PortName, PortsOf(i));
  }

  lemma LosslessNext(all: seq<Interface>)
    requires all != []
    ensures var n := |all| - 1;
            Lossless(all) <==> Lossless(all[..n]) && EnoughLanes(all[n].entries)
                               && forall m :: 0 <= m < n ==> Numbers(all[m]) !! Numbers(all[n])
  {
  }

  lemma {:induction false} ApartFromMerged(tables: seq<map<string, Port>>, t: map<string, Port>)
    ensures Merged(tables).Keys !! t.Keys <==> forall m :: 0 <= m < |tables| ==> tables[m].Keys !! t.Keys
  {
    if tables != [] {
      var n := |tables| - 1;
      ApartFromMerged(tables[..n], t);
      assert Merged(tables).Keys == Merged(tables[..n]).Keys + tables[n].Keys;
      assert forall m :: 0 <= m < n ==> tables[..n][m] == tables[m];
    }
  }

  lemma {:induction false} MergedApart(all: seq<Interface>, tables: seq<map<string, Port>>)
    requires AreTables(all, tables) && all != []
    ensures var n := |all| - 1;
            Merged(tables[..n]).Keys !! tables[n].Keys <==> forall m :: 0 <= m < n ==> Numbers(all[m]) !! Numbers(all[n])
  {
    var n := |all| - 1;
    ApartFromMerged(tables[..n], tables[n]);
    forall m | 0 <= m < n ensures tables[..n][m].Keys !! tables[n].Keys <==> Numbers(all[m]) !! Numbers(all[n]) {
      assert IsTable(all[m], tables[m]) && IsTable(all[n], tables[n]);
      CommonNames(all[m], all[n], tables[m], tables[n]);
    }
  }

  /** The merged table has as many ports as all the modes ask for exactly when every interface has enough lanes and
      no two have ports of one number; otherwise it has fewer. */
  lemma {:induction false} MergedExact(all: seq<Interface>, tables: seq<map<string, Port>>)
    requires AreTables(all, tables)
    ensures |Merged(tables)| <= TotalPorts(all) && (|Merged(tables)| == TotalPorts(all) <==> Lossless(all))
  {
    var n := |all| - 1;
    if all != [] {
      assert forall m :: 0 <= m < n ==> all[..n][m] == all[m] && tables[..n][m] == tables[m];
      MergedExact(all[..n], tables[..n]);
      assert IsTable(all[n], tables[n]);
      TableCount(all[n], tables[n]);
      UnionSize(Merged(tables[..n]), tables[n]);
      MergedApart(all, tables);
      LosslessNext(all);
    }
  }

  /** Every port has a lane, and no two interfaces overlap. */
  predicate Separated(all: seq<Interface>) {
    && (forall n :: 0 <= n < |all| ==> OneLaneEach(all[n].entries))
    && forall i, j :: 0 <= i < j < |all| ==> Apart(all[i], all[j])
  }

  lemma ProperApart(a: Interface, b: Interface)
    requires Proper(a) && Proper(b) && Apart(a, b)
    ensures Numbers(a) !! Numbers(b)
  {
    if id :| id in Numbers(a) && id in Numbers(b) {
      NumberNamed(a, id);
      NumberNamed(b, id);
      NoCommonPort(a, b, PortName(id));
    }
  }

  /** Interfaces that do not overlap lose no port. */
  lemma SeparatedLossless(all: seq<Interface>)
    requires (forall n :: 0 <= n < |all| ==> CanConfigure(all[n])) && Separated(all)
    ensures Lossless(all)
  {
    forall m, n | 0 <= m < n < |all| ensures Numbers(all[m]) !! Numbers(all[n]) {
      assert CanConfigure(all[m]) && CanConfigure(all[n]);
      assert OneLaneEach(all[m].entries) && OneLaneEach(all[n].entries);
      ProperApart(all[m], all[n]);
    }
    forall n | 0 <= n < |all| ensures EnoughLanes(all[n].entries) {
      assert OneLaneEach(all[n].entries);
    }
  }

  // ----- the code -----

  /** Adds up lanes and ports of the entries. */
  method Totals(entries: seq<Entry>) returns (lanes: nat, ports: nat)
    ensures lanes == LanesUsed(entries) && ports == PortCount(entries)
  {
    lanes, ports := 0, 0;
    assert entries[0..] == entries;
    for k := 0 to |entries|
      invariant lanes + LanesUsed(entries[k..]) == LanesUsed(entries)
      invariant ports + PortCount(entries[k..]) == PortCount(entries)
    {
      assert entries[k..][1..] == entries[k + 1..];
      lanes, ports := lanes + entries[k].lanes, ports + entries[k].ports;
    }
  }

  /** The blocks of the ports, with running lane numbers. */
  method DealLanes(entries: seq<Entry>) returns (ok: bool, blocks: seq<Block>)
    ensures ok <==> AllPositive(entries)
    ensures ok ==> blocks == Blocks(entries, 0)
  {
    blocks := [];
    var laneId: nat := 0;
    for k := 0 to |entries|
      invariant forall i :: 0 <= i < k ==> entries[i].ports > 0
      invariant AllPositive(entries) ==> blocks + Blocks(entries[k..], laneId) == Blocks(entries, 0)
    {
      var e := entries[k];
      if e.ports == 0 {
        return false, blocks;
      }
      assert entries[k..][1..] == entries[k + 1..];
      var more, next := DealEntry(e.ports, laneId, e.lanes / e.ports, e.speed);
      blocks, laneId := blocks + more, next;
    }
    ok := true;
    assert entries[|entries|..] == [];
  }

  method DealEntry(ports: nat, start: nat, width: nat, speed: nat) returns (blocks: seq<Block>, laneId: nat)
    ensures blocks == EntryBlocks(ports, start, width, speed) && laneId == start + ports * width
  {
    blocks, laneId := [], start;
    for port := 0 to ports
      invariant blocks + EntryBlocks(ports - port, laneId, width, speed) == EntryBlocks(ports, start, width, speed)
      invariant laneId == start + port * width
    {
      blocks := blocks + [Block(laneId, width, speed)];
      laneId := laneId + width;
      assert (port + 1) * width == port * width + width;
    }
  }

  lemma PortsNext(i: Interface, blocks: seq<Block>, b: Block)
    requires Fitting(i, blocks + [b])
    ensures Fitting(i, blocks)
    ensures Ports(i, blocks + [b]) == Ports(i, blocks) + [(i.base + b.start, PortAt(i, blocks + [b], |blocks|))]
  {
    assert forall m :: 0 <= m < |blocks| ==> (blocks + [b])[m] == blocks[m];
  }

  lemma FittingNext(i: Interface, blocks: seq<Block>, b: Block)
    requires b.start + b.width <= |i.lanes|
    ensures Fitting(i, blocks + [b]) <==> Fitting(i, blocks) && |blocks| < |i.aliases| && b.start < |i.indexes|
  {
    if Fitting(i, blocks + [b]) {
      assert (blocks + [b])[|blocks|] == b;
      assert forall m :: 0 <= m < |blocks| ==> (blocks + [b])[m] == blocks[m];
    }
  }

  lemma TableNext(name: int -> string, i: Interface, blocks: seq<Block>, b: Block)
    requires Fitting(i, blocks + [b]) && Fitting(i, blocks)
    ensures Table(name, Ports(i, blocks + [b])) ==
            Table(name, Ports(i, blocks))[name(i.base + b.start) := PortAt(i, blocks + [b], |blocks|)]
  {
    PortsNext(i, blocks, b);
    var ports := Ports(i, blocks + [b]);
    assert ports[..|blocks|] == Ports(i, blocks);
  }

  /** Writes the ports into a table; too few aliases or indexes are an error. */
  method WritePorts(name: int -> string, i: Interface, blocks: seq<Block>, total: nat) returns (r: Option<map<string, Port>>)
    requires total == PortCount(i.entries) && forall n :: 0 <= n < |blocks| ==> blocks[n].start + blocks[n].width <= |i.lanes|
    ensures r.Some? <==> Fitting(i, blocks)
    ensures r.Some? ==> r.value == Table(name, Ports(i, blocks))
  {
    var ports: map<string, Port> := map[];
    ghost var done: seq<Block> := [];
    for n := 0 to |blocks|
      invariant done == blocks[..n] && Fitting(i, done) && ports == Table(name, Ports(i, done))
    {
      var b := blocks[n];
      assert blocks[..n + 1] == done + [b];
      FittingNext(i, done, b);
      if n >= |i.aliases| || b.start >= |i.indexes| {
        return None;
      }
      TableNext(name, i, done, b);
      var port := MakePort(i, b, n, total);
      ports := ports[name(i.base + b.start) := port];
      done := done + [b];
    }
    assert blocks[..|blocks|] == blocks;
    r := Some(ports);
  }

  /** The child ports of an interface; None is an exception. */
  method GetConfig(i: Interface) returns (r: Option<map<string, Port>>)
    ensures r.Some? <==> CanConfigure(i)
    ensures r.Some? ==> r.value == Config(i)
  {
    var lanes, total := Totals(i.entries);
    if lanes > |i.lanes| {
      return None;
    }
    var ok, blocks := DealLanes(i.entries);
    if !ok {
      return None;
    }
    var end := BlocksChained(i.entries, 0);
    forall n | 0 <= n < |blocks| ensures blocks[n].start + blocks[n].width <= |i.lanes| {
      ChainedWithin(blocks, 0, end, n);
    }
    r := WritePorts(PortName, i, blocks, total);
  }

  function Configured(i: Interface): Option<map<string, Port>> {
    if CanConfigure(i) then Some(Config(i)) else None
  }

  /** `get` configures the given interfaces. */
  ghost predicate Configures(get: Interface -> Option<map<string, Port>>, all: seq<Interface>) {
    all != [] ==> get(all[|all| - 1]) == Configured(all[|all| - 1]) && Configures(get, all[..|all| - 1])
  }

  lemma {:induction false} ConfiguresAt(get: Interface -> Option<map<string, Port>>, all: seq<Interface>, k: nat)
    requires Configures(get, all) && k < |all|
    ensures get(all[k]) == Configured(all[k])
  {
    if k < |all| - 1 { ConfiguresAt(get, all[..|all| - 1], k); }
  }

  method ChildPorts(all: seq<Interface>, k: nat, ghost get: Interface -> Option<map<string, Port>>)
    returns (r: Option<map<string, Port>>)
    requires Configures(get, all) && k < |all|
    ensures r == get(all[k])
  {
    ConfiguresAt(get, all, k);
    r := GetConfig(all[k]);
  }

  lemma {:induction false} MergedNext(get: Interface -> Option<map<string, Port>>, all: seq<Interface>, k: nat, tables: seq<map<string, Port>>)
    requires k < |all| && MapAll(get, all[..k]) == Some(tables)
    ensures var next := get(all[k]);
            if next.None? then MapAll(get, all[..k + 1]).None?
            else && MapAll(get, all[..k + 1]) == Some(tables + [next.value])
                 && Merged(tables + [next.value]) == Merged(tables) + next.value
  {
    assert all[..k + 1][..k] == all[..k];
    if get(all[k]).Some? { assert (tables + [get(all[k]).value])[..|tables|] == tables; }
  }

  /** The child ports of all interfaces in one table; an exception for one interface ends it. */
  method MergeChildPorts(all: seq<Interface>, ghost get: Interface -> Option<map<string, Port>>)
    returns (r: Option<map<string, Port>>)
    requires Configures(get, all)
    ensures var tables := MapAll(get, all); r == if tables.Some? then Some(Merged(tables.value)) else None
  {
    var ports: map<string, Port> := map[];
    ghost var tables: seq<map<string, Port>> := [];
    for k := 0 to |all|
      invariant MapAll(get, all[..k]) == Some(tables) && ports == Merged(tables)
    {
      var childPorts := ChildPorts(all, k, get);
      MergedNext(get, all, k, tables);
      if childPorts.None? {
        MapAllPrefix(get, all, k + 1);
        return None;
      }
      tables := tables + [childPorts.value];
      ports := ports + childPorts.value;
    }
    assert all[..|all|] == all;
    r := Some(ports);
  }

  /** The child ports of all modes in one table. All are there, under their names and as they were configured, exactly
      when no number is used twice; interfaces that do not overlap use none twice. */
  method ParsePlatform(all: seq<Interface>) returns (r: Option<map<string, Port>>)
    ensures r.Some? <==> forall n :: 0 <= n < |all| ==> CanConfigure(all[n])
    ensures r.Some? ==> r.value == Merged(TablesOf(all)) && (|r.value| == TotalPorts(all) <==> Lossless(all))
    ensures r.Some? && Separated(all) ==> Lossless(all)
    ensures r.Some? && Lossless(all) ==> forall k, m :: 0 <= k < |all| && 0 <= m < |PortsOf(all[k])| ==>
              var p := PortsOf(all[k])[m]; PortName(p.0) in r.value && r.value[PortName(p.0)] == p.1
  {
    ghost var get := Configured;
    AllConfigures(all);
    MapAllAt(get, all);
    r := MergeChildPorts(all, get);
    assert r.Some? <==> forall n :: 0 <= n < |all| ==> CanConfigure(all[n]) by { Failing(all, get); }
    if r.Some? {
      ghost var tables := MapAll(get, all).value;
      AllTables(all, tables, get);
      assert tables == TablesOf(all);
      NothingLost(all, tables);
    }
  }

  /** The tables of interfaces that can all be configured. */
  function TablesOf(all: seq<Interface>): seq<map<string, Port>>
    requires forall n :: 0 <= n < |all| ==> CanConfigure(all[n])
  {
    seq(|all|, n requires 0 <= n < |all| => Config(all[n]))
  }

  lemma {:induction false} Failing(all: seq<Interface>, get: Interface -> Option<map<string, Port>>)
    requires Configures(get, all)
    ensures (forall n :: 0 <= n < |all| ==> get(all[n]).Some?) <==> forall n :: 0 <= n < |all| ==> CanConfigure(all[n])
  {
    forall n | 0 <= n < |all| ensures get(all[n]).Some? <==> CanConfigure(all[n]) {
      ConfiguresAt(get, all, n);
    }
  }

  lemma {:induction false} NothingLost(all: seq<Interface>, tables: seq<map<string, Port>>)
    requires AreTables(all, tables)
    ensures |Merged(tables)| == TotalPorts(all) <==> Lossless(all)
    ensures Separated(all) ==> Lossless(all)
    ensures Lossless(all) ==> forall k, m :: 0 <= k < |all| && 0 <= m < |PortsOf(all[k])| ==>
              var p := PortsOf(all[k])[m]; PortName(p.0) in Merged(tables) && Merged(tables)[PortName(p.0)] == p.1
  {
    MergedExact(all, tables);
    if Separated(all) { SeparatedLossless(all); }
    if Lossless(all) {
      forall k, m | 0 <= k < |all| && 0 <= m < |PortsOf(all[k])|
        ensures var p := PortsOf(all[k])[m]; PortName(p.0) in Merged(tables) && Merged(tables)[PortName(p.0)] == p.1
      {
        MergedKeeps(all, tables, k, m);
      }
    }
  }

  lemma {:induction false} AllConfigures(all: seq<Interface>)
    ensures Configures(Configured, all)
  {
    if all != [] { AllConfigures(all[..|all| - 1]); }
  }

  lemma {:induction false} AllTables(all: seq<Interface>, tables: seq<map<string, Port>>,
                                     get: Interface -> Option<map<string, Port>>)
    requires |all| == |tables| && Configures(get, all) && forall n :: 0 <= n < |all| ==> get(all[n]) == Some(tables[n])
    ensures AreTables(all, tables)
  {
    forall n | 0 <= n < |all| ensures IsTable(all[n], tables[n]) {
      ConfiguresAt(get, all, n);
    }
  }
}
