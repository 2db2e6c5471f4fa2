/** Package versions stored in layers, one per (component type, distribution, architecture),
    and the operations of the version manager on lists of layers. */
module VersionLayers {
  import opened StableSort

  const ALL: Part := "all"

  /** A distribution or architecture name; an empty one is read as ALL when a component is built. */
  type Part = s: string | s != "" witness "all"

  function NameOrAll(s: string): Part {
    if s == "" then ALL else s
  }

  type Versions = map<string, string>

  datatype Key = Key(ctype: string, dist: Part, arch: Part)

  datatype Layer = Layer(key: Key, versions: Versions)

  /** A layer with key `k` may take versions from a layer with key `base`. */
  predicate Inherits(k: Key, base: Key) {
    && k.ctype == base.ctype
    && (k.dist == base.dist || base.dist == ALL)
    && (k.arch == base.arch || base.arch == ALL)
  }

  /** ALL sorts in front of every name. */
  function OrderPart(s: Part): string {
    if s == ALL then "" else s
  }

  predicate KeyLe(a: Layer, b: Layer) {
    PartsLe([a.key.ctype, OrderPart(a.key.dist), OrderPart(a.key.arch)],
            [b.key.ctype, OrderPart(b.key.dist), OrderPart(b.key.arch)])
  }

  predicate PartsLe(a: seq<string>, b: seq<string>) {
    a == [] || (b != [] && (if a[0] == b[0] then PartsLe(a[1..], b[1..]) else StringLe(a[0], b[0])))
  }

  /** The ways the operations pick layers out of a list. */
  datatype Choice =
    | AtKey(key: Key)
    | AppliesAt(target: Key)
    | OfType(ctype: string)
    | HasEntries
    | Loaded(dist: string, arch: string)  // the filter of a load; an empty name filters nothing

  predicate Picks(c: Choice, l: Layer) {
    match c
    case AtKey(k) => l.key == k
    case AppliesAt(t) => Inherits(t, l.key)
    case OfType(ctype) => l.key.ctype == ctype
    case HasEntries => l.versions != map[]
    case Loaded(dist, arch) =>
      && (dist == "" || l.key.dist == dist || l.key.dist == ALL)
      && (arch == "" || l.key.arch == arch || l.key.arch == ALL)
  }

  function Select(c: Choice, s: seq<Layer>): seq<Layer> {
    if s == [] then []
    else
      var r := Select(c, s[..|s| - 1]);
      if Picks(c, s[|s| - 1]) then r + [s[|s| - 1]] else r
  }

  /** Versions of a list of layers, later layers winning. */
  function Overlay(s: seq<Layer>): Versions {
    if s == [] then map[] else Overlay(s[..|s| - 1]) + s[|s| - 1].versions
  }

  /** What a list in generic-to-specific order supplies to key `k`. */
  function Inherited(s: seq<Layer>, k: Key): Versions {
    Overlay(Select(AppliesAt(k), s))
  }

  /** The versions that target `k` gets from the layers `s` in any order. */
  function Resolve(s: seq<Layer>, k: Key): Versions {
    Inherited(Sort(KeyLe, Select(OfType(k.ctype), s)), k)
  }

  /** `m` without the entries that `base` already supplies. */
  function Cut(m: Versions, base: Versions): (r: Versions) {
    map p | p in m && !(p in base && base[p] == m[p]) :: m[p]
  }

  /** Component types in order of first appearance. */
  function CTypes(s: seq<Layer>): seq<string> {
    if s == [] then []
    else
      var r, c := CTypes(s[..|s| - 1]), s[|s| - 1].key.ctype;
      if c in r then r else r + [c]
  }

  /** What a list of layers in generic-to-specific order supplies to a key. */
  type Source = (seq<Layer>, Key) -> Versions

  /** Cuts each layer against what `source` draws from the already cut layers in front of it. */
  function CutAgainst(s: seq<Layer>, source: Source): (r: seq<Layer>)
    ensures |r| == |s| && forall i :: 0 <= i < |s| ==> r[i].key == s[i].key
  {
    if s == [] then []
    else
      var l, r := s[|s| - 1], CutAgainst(s[..|s| - 1], source);
      r + [l.(versions := Cut(l.versions, source(r, l.key)))]
  }

  /** Cuts the sorted layers of one component type and drops those left empty. */
  function CutGroup(s: seq<Layer>, source: Source): seq<Layer> {
    Select(HasEntries, CutAgainst(Sort(KeyLe, s), source))
  }

  function CutTypes(types: seq<string>, s: seq<Layer>, source: Source): seq<Layer> {
    if types == [] then []
    else CutTypes(types[..|types| - 1], s, source) + CutGroup(Select(OfType(types[|types| - 1]), s), source)
  }

  /** Drops the entries that more generic layers of the same list supply. */
  function Adjust(s: seq<Layer>): seq<Layer> {
    CutTypes(CTypes(s), s, Inherited)
  }

  /** Adds the versions `m` to every layer with key `k`. */
  function MergeAt(s: seq<Layer>, k: Key, m: Versions): (r: seq<Layer>)
    ensures |r| == |s| && forall i :: 0 <= i < |s| ==> r[i].key == s[i].key
  {
    if s == [] then []
    else
      var l := s[|s| - 1];
      MergeAt(s[..|s| - 1], k, m) + [if l.key == k then l.(versions := l.versions + m) else l]
  }

  function OverwriteOne(s: seq<Layer>, b: Layer): seq<Layer> {
    if Select(AtKey(b.key), s) != [] then MergeAt(s, b.key, b.versions) else s + [b]
  }

  function OverwriteEach(s: seq<Layer>, bs: seq<Layer>): seq<Layer> {
    if bs == [] then s else OverwriteOne(OverwriteEach(s, bs[..|bs| - 1]), bs[|bs| - 1])
  }

  /** The layers of `module` laid over those of `s`, then redundant entries dropped. */
  function Overwrite(s: seq<Layer>, module_: seq<Layer>): seq<Layer> {
    Adjust(OverwriteEach(s, Sort(KeyLe, module_)))
  }

  /** The versions that target `k` gets from a module over its default module. */
  function Config(defaults: seq<Layer>, s: seq<Layer>, k: Key): Versions {
    Resolve(Overwrite(defaults, s), k)
  }

  function ConfigOver(defaults: seq<Layer>): Source {
    (s, k) => Config(defaults, s, k)
  }

  /** A module stored as its difference to the defaults. */
  function Subtract(s: seq<Layer>, defaults: seq<Layer>): seq<Layer> {
    CutTypes(CTypes(s), s, ConfigOver(defaults))
  }
}
