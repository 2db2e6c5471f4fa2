/** Leaf values: from database text to typed YANG values and back, and exactly which text survives. */
module YangValues {
  import opened Text
  import opened YangModel

  predicate IsUint(leaf: Leaf) {
    Contains(leaf.typeName, "uint")
  }

  predicate IsBoolean(leaf: Leaf) {
    leaf.typeName == "boolean"
  }

  // ----- database to YANG -----

  /** The typed value of one text; text that is no number has none under an unsigned type. */
  function Convert(leaf: Leaf, text: string): Option<Yang> {
    if IsUint(leaf) then
      var n := ParseInt(text);
      if n.Some? then Some(YInt(n.value)) else None
    else Some(YStr(text))
  }

  function Converter(leaf: Leaf): string -> Option<Yang> {
    text => Convert(leaf, text)
  }

  function StripAll(texts: seq<string>): seq<string> {
    seq(|texts|, i requires 0 <= i < |texts| => Strip(texts[i]))
  }

  /** The elements of a leaf-list field; a text without a separator is taken character by character. */
  function Items(name: string, field: string, v: Value): Option<seq<string>> {
    match v
    case Str(s) =>
      var sep := Separator(name, field);
      if sep.Some? then Some(StripAll(Split(s, sep.value)))
      else Some(seq(|s|, i requires 0 <= i < |s| => [s[i]]))
    case Arr(items) => Some(items)
    case Obj(_) => None
  }

  /** The text of a value under a leaf that is not a list. */
  function TextOf(v: Value): Option<string> {
    match v
    case Str(s) => Some(s)
    case Arr(items) => Some("[" + Join(seq(|items|, i requires 0 <= i < |items| => "'" + items[i] + "'"), ", ") + "]")
    case Obj(_) => None
  }

  function Forward(table: TableName, field: string, leaf: Leaf, v: Value): Option<Yang> {
    if leaf.isList then
      var items := Items(table.written, field, v);
      if items.None? then None
      else
        var ys := MapAll(Converter(leaf), items.value);
        if ys.Some? then Some(YArr(ys.value)) else None
    else
      var text := TextOf(v);
      if text.Some? then Convert(leaf, text.value) else None
  }

  // ----- the data tree between the two directions -----

  /** The data tree holds the text of a boolean leaf as a boolean and everything else as it is given. */
  function LoadItem(leaf: Leaf, y: Yang): Yang {
    if IsBoolean(leaf) && y == YStr("true") then YBool(true)
    else if IsBoolean(leaf) && y == YStr("false") then YBool(false)
    else y
  }

  function LoadAll(leaf: Leaf, ys: seq<Yang>): seq<Yang> {
    seq(|ys|, i requires 0 <= i < |ys| => LoadItem(leaf, ys[i]))
  }

  function LoadValue(leaf: Leaf, y: Yang): Yang {
    if leaf.isList && y.YArr? then YArr(LoadAll(leaf, y.items)) else LoadItem(leaf, y)
  }

  // ----- YANG to database -----

  function Printed(y: Yang): Option<string> {
    match y
    case YStr(s) => Some(s)
    case YInt(i) => Some(Decimal(i))
    case YBool(b) => Some(if b then "True" else "False")
    case YArr(_) => None
    case YObj(_) => None
  }

  predicate Truthy(y: Yang) {
    match y
    case YStr(s) => s != ""
    case YInt(i) => i != 0
    case YBool(b) => b
    case YArr(items) => items != []
    case YObj(fields) => fields != map[]
  }

  function Backward(table: string, field: string, leaf: Leaf, y: Yang): Option<Value> {
    if leaf.isList then
      if !y.YArr? then None
      else
        var texts := MapAll(Printed, y.items);
        if texts.None? then None
        else
          var sep := Separator(table, field);
          if sep.Some? then Some(Str(Join(texts.value, [sep.value]))) else Some(Arr(texts.value))
    else if IsBoolean(leaf) then Some(Str(if Truthy(y) then "true" else "false"))
    else
      var text := Printed(y);
      if text.Some? then Some(Str(text.value)) else None
  }

  // ----- which values survive -----

  predicate ItemClean(leaf: Leaf, text: string) {
    && (IsUint(leaf) ==> Canonical(text))
    && (IsBoolean(leaf) ==> text != "true" && text != "false")
  }

  /** The values that come back as they were: a separated list is one text of trimmed elements, any
      other list is a list, numbers are canonical, and a boolean reads true or false. If a list is separated
      only where it is read, a text of at most one character comes back. */
  predicate ValueClean(table: TableName, field: string, leaf: Leaf, v: Value) {
    if leaf.isList then
      var sep := Separator(table.read, field);
      if sep.None? then v.Arr? && forall p :: p in v.items ==> ItemClean(leaf, p)
      else if Separator(table.written, field).None? then v.Str? && (v.s == "" || (|v.s| == 1 && ItemClean(leaf, v.s)))
      else v.Str? && forall p :: p in Split(v.s, sep.value) ==> Trimmed(p) && ItemClean(leaf, p)
    else
      && v.Str?
      && (IsUint(leaf) ==> Canonical(v.s))
      && (IsBoolean(leaf) ==> v.s == "true" || v.s == "false")
  }

  lemma BooleanIsNoUint(leaf: Leaf)
    requires IsBoolean(leaf)
    ensures !IsUint(leaf)
  {
    var s := leaf.typeName;
    forall i: nat | i <= |s| ensures !OccursAt(s, "uint", i) {
      if i + 4 <= |s| {
        assert s[i] != 'u';
        assert s[i..i + 4][0] == s[i];
      }
    }
  }

  /** What comes back for one element, if anything. */
  function ItemBack(leaf: Leaf, text: string): Option<string> {
    var y := Convert(leaf, text);
    if y.Some? then Printed(LoadItem(leaf, y.value)) else None
  }

  lemma ItemExact(leaf: Leaf, text: string)
    ensures ItemBack(leaf, text) == Some(text) <==> ItemClean(leaf, text)
  {
    IntRoundTrip(text);
    if IsBoolean(leaf) { BooleanIsNoUint(leaf); }
  }

  /** The elements of a list come back one by one. */
  function ItemsBack(leaf: Leaf, texts: seq<string>): Option<seq<string>> {
    var ys := MapAll(Converter(leaf), texts);
    if ys.Some? then MapAll(Printed, LoadAll(leaf, ys.value)) else None
  }

  lemma ItemBackAt(leaf: Leaf, texts: seq<string>, ys: seq<Yang>, i: nat)
    requires |texts| == |ys| && i < |texts| && Converter(leaf)(texts[i]) == Some(ys[i])
    ensures Printed(LoadAll(leaf, ys)[i]) == ItemBack(leaf, texts[i])
  {
  }

  lemma PrintedSome(leaf: Leaf, text: string)
    requires Converter(leaf)(text).Some?
    ensures ItemBack(leaf, text).Some?
  {
  }

  lemma ItemsBackAt(leaf: Leaf, texts: seq<string>)
    ensures var back := ItemsBack(leaf, texts);
            && (back.Some? <==> forall i :: 0 <= i < |texts| ==> ItemBack(leaf, texts[i]).Some?)
            && (back.Some? ==> |back.value| == |texts|
                               && forall i :: 0 <= i < |texts| ==> ItemBack(leaf, texts[i]) == Some(back.value[i]))
  {
    var f := Converter(leaf);
    MapAllAt(f, texts);
    var ys := MapAll(f, texts);
    if ys.Some? {
      var zs := LoadAll(leaf, ys.value);
      MapAllAt(Printed, zs);
      forall i | 0 <= i < |texts| ensures Printed(zs[i]) == ItemBack(leaf, texts[i]) && Printed(zs[i]).Some? {
        assert f(texts[i]) == Some(ys.value[i]);
        ItemBackAt(leaf, texts, ys.value, i);
        PrintedSome(leaf, texts[i]);
      }
    } else {
      var i :| 0 <= i < |texts| && f(texts[i]).None?;
      assert ItemBack(leaf, texts[i]).None?;
    }
  }

  /** A list comes back as `want` exactly when each element does. */
  lemma ItemsBackExact(leaf: Leaf, texts: seq<string>, want: seq<string>)
    requires |texts| == |want|
    ensures ItemsBack(leaf, texts) == Some(want) <==>
            forall i :: 0 <= i < |texts| ==> ItemBack(leaf, texts[i]) == Some(want[i])
  {
    ItemsBackAt(leaf, texts);
    var back := ItemsBack(leaf, texts);
    if back.Some? && back.value != want {
      var i :| 0 <= i < |want| && back.value[i] != want[i];
      assert ItemBack(leaf, texts[i]) == Some(back.value[i]);
    }
  }

  lemma {:induction false} DecimalPlain(n: int)
    ensures ',' !in Decimal(n) && ';' !in Decimal(n)
  {
  }

  lemma SeparatorPlain(table: string, field: string)
    ensures Separator(table, field).Some? ==> Separator(table, field).value in {',', ';'}
  {
  }

  /** What comes back for an element does not contain the separator. */
  lemma ItemBackPlain(leaf: Leaf, text: string, sep: char)
    requires sep in {',', ';'} && sep !in text && ItemBack(leaf, text).Some?
    ensures sep !in ItemBack(leaf, text).value
  {
    if IsUint(leaf) { DecimalPlain(ParseInt(text).value); }
  }

  lemma {:induction false} StripLeftSubset(s: string, c: char)
    requires c !in s
    ensures c !in StripLeft(s)
  {
    if s != "" && IsSpace(s[0]) { StripLeftSubset(s[1..], c); }
  }

  lemma {:induction false} StripRightSubset(s: string, c: char)
    requires c !in s
    ensures c !in StripRight(s)
  {
    if s != "" && IsSpace(s[|s| - 1]) { StripRightSubset(s[..|s| - 1], c); }
  }

  /** An element of a separated text survives exactly when it is trimmed and clean. */
  lemma SeparatedItemExact(leaf: Leaf, part: string)
    ensures ItemBack(leaf, Strip(part)) == Some(part) <==> Trimmed(part) && ItemClean(leaf, part)
  {
    StripTrims(part);
    ItemExact(leaf, part);
    if Trimmed(part) {
    } else if ItemBack(leaf, Strip(part)).Some? {
      ItemBackTrimmed(leaf, Strip(part));
    }
  }

  /** What comes back for a trimmed element is trimmed. */
  lemma ItemBackTrimmed(leaf: Leaf, text: string)
    requires Trimmed(text) && ItemBack(leaf, text).Some?
    ensures Trimmed(ItemBack(leaf, text).value)
  {
    if IsUint(leaf) {
      if ParseInt(text).Some? {
        DecimalCanonical(ParseInt(text).value);
        CanonicalTrimmed(Decimal(ParseInt(text).value));
      }
    } else if IsBoolean(leaf) {
      StripTrims("True");
      StripTrims("False");
    }
  }

  /** What comes back for a value after both directions and the data tree, if anything. */
  function ValueBack(table: TableName, field: string, leaf: Leaf, v: Value): Option<Value> {
    var y := Forward(table, field, leaf, v);
    if y.Some? then Backward(table.read, field, leaf, LoadValue(leaf, y.value)) else None
  }

  lemma ScalarExact(table: TableName, field: string, leaf: Leaf, v: Value)
    requires !leaf.isList
    ensures ValueBack(table, field, leaf, v) == Some(v) <==> ValueClean(table, field, leaf, v)
  {
    if v.Str? {
      IntRoundTrip(v.s);
      if IsBoolean(leaf) { BooleanIsNoUint(leaf); }
    }
  }

  /** The way of a leaf-list value there and back. */
  lemma ListValueBack(table: TableName, field: string, leaf: Leaf, v: Value)
    requires leaf.isList
    ensures var items, sep := Items(table.written, field, v), Separator(table.read, field);
            ValueBack(table, field, leaf, v) ==
            if items.None? || ItemsBack(leaf, items.value).None? then None
            else
              var back := ItemsBack(leaf, items.value).value;
              Some(if sep.Some? then Str(Join(back, [sep.value])) else Arr(back))
  {
  }

  lemma PlainListExact(table: TableName, field: string, leaf: Leaf, v: Value)
    requires leaf.isList && Separator(table.read, field).None?
    ensures ValueBack(table, field, leaf, v) == Some(v) <==> ValueClean(table, field, leaf, v)
  {
    ListValueBack(table, field, leaf, v);
    if v.Arr? {
      ItemsBackExact(leaf, v.items, v.items);
      forall p | p in v.items ensures ItemBack(leaf, p) == Some(p) <==> ItemClean(leaf, p) { ItemExact(leaf, p); }
    }
  }

  lemma SeparatedPartsPlain(leaf: Leaf, parts: seq<string>, sep: char, back: seq<string>)
    requires sep in {',', ';'} && (forall p :: p in parts ==> sep !in p)
    requires |back| == |parts| && forall i :: 0 <= i < |parts| ==> ItemBack(leaf, Strip(parts[i])) == Some(back[i])
    ensures forall p :: p in back ==> sep !in p
  {
    forall i | 0 <= i < |back| ensures sep !in back[i] {
      assert parts[i] in parts;
      StripLeftSubset(parts[i], sep);
      StripRightSubset(StripLeft(parts[i]), sep);
      ItemBackPlain(leaf, Strip(parts[i]), sep);
    }
  }

  lemma SeparatedListExact(table: TableName, field: string, leaf: Leaf, v: Value)
    requires leaf.isList && Separator(table.read, field).Some? && Separator(table.written, field).Some?
    ensures ValueBack(table, field, leaf, v) == Some(v) <==> ValueClean(table, field, leaf, v)
  {
    ListValueBack(table, field, leaf, v);
    if v.Str? {
      SeparatorPlain(table.read, field);
      SameSeparator(table.written, table.read, field);
      SeparatedTextExact(leaf, v.s, Separator(table.read, field).value);
      SeparatedAllExact(leaf, Split(v.s, Separator(table.read, field).value));
    }
  }

  lemma SeparatedAllExact(leaf: Leaf, parts: seq<string>)
    ensures ItemsBack(leaf, StripAll(parts)) == Some(parts) <==> forall p :: p in parts ==> Trimmed(p) && ItemClean(leaf, p)
  {
    ItemsBackExact(leaf, StripAll(parts), parts);
    forall p | p in parts ensures ItemBack(leaf, Strip(p)) == Some(p) <==> Trimmed(p) && ItemClean(leaf, p) {
      SeparatedItemExact(leaf, p);
    }
  }

  /** A separated text comes back exactly when its parts do. */
  lemma {:induction false} SeparatedTextExact(leaf: Leaf, s: string, sep: char)
    requires sep in {',', ';'}
    ensures var parts := Split(s, sep);
            var back := ItemsBack(leaf, StripAll(parts));
            back.Some? && Join(back.value, [sep]) == s <==> back == Some(parts)
  {
    var parts := Split(s, sep);
    var back := ItemsBack(leaf, StripAll(parts));
    SplitParts(s, sep);
    JoinSplit(s, sep);
    ItemsBackAt(leaf, StripAll(parts));
    if back.Some? {
      SeparatedPartsPlain(leaf, parts, sep, back.value);
      SplitJoin(back.value, sep);
    }
  }

  lemma {:induction false} JoinLength(parts: seq<string>, sep: char)
    requires forall i :: 0 <= i < |parts| ==> parts[i] != ""
    ensures parts != [] ==> |Join(parts, [sep])| >= 2 * |parts| - 1
  {
    if |parts| > 1 { JoinLength(parts[1..], sep); }
  }

  lemma ItemBackNonEmpty(leaf: Leaf, text: string)
    requires text != "" && ItemBack(leaf, text).Some?
    ensures ItemBack(leaf, text).value != ""
  {
  }

  /** A text taken character by character and joined with separators has grown, unless it is short. */
  lemma {:induction false} UnseparatedTextExact(table: TableName, field: string, leaf: Leaf, v: Value)
    requires leaf.isList && Separator(table.read, field).Some? && Separator(table.written, field).None?
    ensures ValueBack(table, field, leaf, v) == Some(v) <==> ValueClean(table, field, leaf, v)
  {
    ListValueBack(table, field, leaf, v);
    if v.Str? {
      var sep, items := Separator(table.read, field).value, Items(table.written, field, v).value;
      var back := ItemsBack(leaf, items);
      ItemsBackAt(leaf, items);
      if back.Some? {
        forall i | 0 <= i < |items| ensures back.value[i] != "" { ItemBackNonEmpty(leaf, items[i]); }
        JoinLength(back.value, sep);
      }
      if |v.s| == 1 {
        assert items[0] == v.s;
        ItemExact(leaf, v.s);
        ItemsBackExact(leaf, items, items);
      }
    }
  }

  /** A value comes back from the data tree as it was exactly when it is clean. */
  lemma ValueExact(table: TableName, field: string, leaf: Leaf, v: Value)
    ensures ValueBack(table, field, leaf, v) == Some(v) <==> ValueClean(table, field, leaf, v)
  {
    if !leaf.isList { ScalarExact(table, field, leaf, v); }
    else if Separator(table.read, field).None? { PlainListExact(table, field, leaf, v); }
    else if Separator(table.written, field).None? { UnseparatedTextExact(table, field, leaf, v); }
    else { SeparatedListExact(table, field, leaf, v); }
  }
}
