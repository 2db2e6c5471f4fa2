/** Rewriting the dependencies of unit files: every unit of which there are several instances is replaced
    by its instances. */
module UnitRewrite {
  import opened Text
  import opened UnitLines

  /** What the generator knows of the platform. */
  datatype Platform = Platform(asics: int, dpus: nat, smartSwitchNpu: bool, multiInstance: set<string>)

  const BUFFER := 511

  // ----- what a unit file means -----

  /** A unit file as a list of lines kept as they are and of dependencies. */
  datatype Item = Verbatim(line: string) | Dep(directive: string, target: string)

  predicate EndsDeps(line: string) {
    Contains(line, "[Service]") || Contains(line, "[Timer]")
  }

  predicate StartsDeps(line: string) {
    Contains(line, "[Install]")
  }

  predicate IsHeading(line: string) {
    Contains(line, "[Unit]") || Contains(line, "Description")
  }

  predicate IsVerbatim(line: string, done: bool) {
    EndsDeps(line) || StartsDeps(line) || IsHeading(line) || done
  }

  /** Whether the dependencies are over after the line. */
  predicate Done(line: string, done: bool) {
    if EndsDeps(line) then true else if StartsDeps(line) then false else done
  }

  /** A word without its newline. */
  function Bare(word: string): string {
    if word != "" && word[|word| - 1] == '\n' then word[..|word| - 1] else word
  }

  function Deps(directive: string, words: seq<string>): seq<Item> {
    seq(|words|, i requires 0 <= i < |words| => Dep(directive, Bare(words[i])))
  }

  function LineItems(line: string, done: bool): seq<Item> {
    if IsVerbatim(line, done) then [Verbatim(line)]
    else
      var t := Token(line, '=');
      if t.None? then [] else Deps(t.value.0, Words(t.value.1))
  }

  function Items(lines: seq<string>, done: bool): seq<Item> {
    if lines == [] then [] else LineItems(lines[0], done) + Items(lines[1..], Done(lines[0], done))
  }

  function Meaning(text: string): seq<Item> {
    Items(Lines(text), false)
  }

  // ----- what the rewriting should mean -----

  function Instance(name: string, prefix: string, i: nat, kind: string): string {
    name + "@" + prefix + Natural(i) + "." + kind
  }

  function Instances(name: string, prefix: string, n: nat, kind: string): seq<string> {
    seq(n, i requires 0 <= i < n => Instance(name, prefix, i, kind))
  }

  /** A name with a dot that is not an instance already. */
  predicate IsService(target: string) {
    '.' in target && '@' !in target
  }

  predicate PerAsic(p: Platform, name: string) {
    p.asics > 1 && name in p.multiInstance
  }

  predicate PerDpu(p: Platform, name: string) {
    !PerAsic(p, name) && p.smartSwitchNpu && name == "database"
  }

  /** The units that stand for one unit on the platform. */
  function Targets(p: Platform, target: string): seq<string> {
    var name, kind := UpTo(target, '.'), After(target, '.');
    if !IsService(target) then [target]
    else if PerAsic(p, name) then Instances(name, "", p.asics, kind)
    else if PerDpu(p, name) then Instances(name, "dpu", p.dpus, kind)
    else [target]
  }

  function WithTargets(directive: string, targets: seq<string>): seq<Item> {
    seq(|targets|, i requires 0 <= i < |targets| => Dep(directive, targets[i]))
  }

  function ExpandItem(p: Platform, item: Item): seq<Item> {
    if item.Verbatim? then [item] else WithTargets(item.directive, Targets(p, item.target))
  }

  function Expand(expand: Item -> seq<Item>, items: seq<Item>): seq<Item> {
    if items == [] then [] else expand(items[0]) + Expand(expand, items[1..])
  }

  function Expander(p: Platform): Item -> seq<Item> {
    item => ExpandItem(p, item)
  }

  // ----- what the code writes -----

  /** A string that the buffer holds, with a missing part printed as C prints it. */
  function Printed(part: Option<string>): string {
    if part.Some? then part.value else "(null)"
  }

  function Buffered(line: string): string {
    if |line| > BUFFER then line[..BUFFER] else line
  }

  /** The name and the kind of a service, as the tokenizer takes a word apart. */
  function NameOf(word: string): Option<string> {
    var t := Token(word, '.');
    if t.Some? then Some(t.value.0) else None
  }

  function KindOf(word: string): Option<string> {
    var t := Token(word, '.');
    var k := Token(if t.Some? then t.value.1 else "", '\n');
    if k.Some? then Some(k.value.0) else None
  }

  /** The units that the code writes for a word. */
  function WrittenTargets(p: Platform, word: string): seq<string> {
    var name, kind := Printed(NameOf(word)), Printed(KindOf(word));
    if !IsService(word) then [Bare(word)]
    else if PerAsic(p, UpTo(word, '.')) then Instances(name, "", p.asics, kind)
    else if PerDpu(p, UpTo(word, '.')) then Instances(name, "dpu", p.dpus, kind)
    else [name + "." + kind]
  }

  /** The end of a written line: a word that is not taken apart keeps its own newline. */
  function LineEnd(word: string): string {
    if !IsService(word) && Bare(word) != word then "\n\n" else "\n"
  }

  function WrittenLine(directive: string, target: string, end: string): string {
    Buffered(directive + "=" + target + end)
  }

  function WriteTargets(directive: string, targets: seq<string>, end: string): string {
    if targets == [] then "" else WrittenLine(directive, targets[0], end) + WriteTargets(directive, targets[1..], end)
  }

  function WriteWords(p: Platform, directive: string, words: seq<string>): string {
    if words == [] then ""
    else WriteTargets(directive, WrittenTargets(p, words[0]), LineEnd(words[0])) + WriteWords(p, directive, words[1..])
  }

  function RewriteLine(p: Platform, line: string, done: bool): string {
    if IsVerbatim(line, done) then line
    else
      var t := Token(line, '=');
      if t.None? then "" else WriteWords(p, t.value.0, Words(t.value.1))
  }

  function RewriteLines(p: Platform, lines: seq<string>, done: bool): string {
    if lines == [] then "" else RewriteLine(p, lines[0], done) + RewriteLines(p, lines[1..], Done(lines[0], done))
  }

  function Rewrite(p: Platform, text: string): string {
    RewriteLines(p, Lines(text), false)
  }
}
