/** Composite table keys: one text in the database, one leaf per part in YANG. */
module YangKeys {
  import opened Sequences
  import opened Text
  import opened YangModel
  import opened YangValues

  function KeyDict(keys: seq<string>, parts: seq<string>): map<string, Yang>
    requires |keys| == |parts|
  {
    if keys == [] then map[]
    else
      var n := |keys| - 1;
      KeyDict(keys[..n], parts[..n])[keys[n] := YStr(Strip(parts[n]))]
  }

  /** The key leaves of a table key, if it has as many parts as the list has keys. */
  function ExtractKey(tableKey: string, keys: seq<string>): Option<map<string, Yang>> {
    var parts := Split(tableKey, '|');
    if |keys| != |parts| then None else Some(KeyDict(keys, parts))
  }

  /** The printed key leaves of an entry, each followed by a bar; a missing or empty one is an error. */
  function KeyText(entry: map<string, Yang>, keys: seq<string>): Option<string> {
    if keys == [] then Some("")
    else
      var n := |keys| - 1;
      var init := KeyText(entry, keys[..n]);
      if init.None? || keys[n] !in entry || !Truthy(entry[keys[n]]) || Printed(entry[keys[n]]).None? then None
      else Some(init.value + Printed(entry[keys[n]]).value + "|")
  }

  function StripBars(s: string): string {
    if s != "" && s[|s| - 1] == '|' then StripBars(s[..|s| - 1]) else s
  }

  function CreateKey(entry: map<string, Yang>, keys: seq<string>): Option<string> {
    var text := KeyText(entry, keys);
    if text.Some? then Some(StripBars(text.value)) else None
  }

  /** Every part of the key is non-empty and trimmed. */
  predicate KeyClean(tableKey: string) {
    forall p :: p in Split(tableKey, '|') ==> p != "" && Trimmed(p)
  }

  lemma {:induction false} KeyDictKeys(keys: seq<string>, parts: seq<string>)
    requires |keys| == |parts|
    ensures forall k :: k in KeyDict(keys, parts) <==> k in keys
  {
    if keys != [] {
      var n := |keys| - 1;
      KeyDictKeys(keys[..n], parts[..n]);
      assert forall k :: k in keys <==> k in keys[..n] || k == keys[n];
    }
  }

  lemma {:induction false} KeyDictAt(keys: seq<string>, parts: seq<string>, i: nat)
    requires |keys| == |parts| && i < |keys| && Distinct(keys)
    ensures keys[i] in KeyDict(keys, parts) && KeyDict(keys, parts)[keys[i]] == YStr(Strip(parts[i]))
  {
    var n := |keys| - 1;
    if i < n {
      KeyDictAt(keys[..n], parts[..n], i);
      assert keys[i] != keys[n];
    }
  }

  function JoinBars(parts: seq<string>): string {
    if parts == [] then "" else JoinBars(parts[..|parts| - 1]) + parts[|parts| - 1] + "|"
  }

  /** The key text of an entry whose key leaves are the texts `parts`. */
  lemma {:induction false} KeyTextOf(entry: map<string, Yang>, keys: seq<string>, parts: seq<string>)
    requires |keys| == |parts|
    requires forall i :: 0 <= i < |keys| ==> keys[i] in entry && entry[keys[i]] == YStr(parts[i])
    ensures KeyText(entry, keys) == if "" in parts then None else Some(JoinBars(parts))
  {
    if keys != [] {
      var n := |keys| - 1;
      KeyTextOf(entry, keys[..n], parts[..n]);
      assert parts == parts[..n] + [parts[n]];
    }
  }

  lemma {:induction false} JoinSnoc(parts: seq<string>, last: string, sep: string)
    requires parts != []
    ensures Join(parts + [last], sep) == Join(parts, sep) + sep + last
  {
    if |parts| > 1 {
      JoinSnoc(parts[1..], last, sep);
      assert (parts + [last])[1..] == parts[1..] + [last];
    }
  }

  lemma {:induction false} JoinBarsIsJoin(parts: seq<string>)
    requires parts != []
    ensures JoinBars(parts) == Join(parts, "|") + "|"
  {
    var init, last := parts[..|parts| - 1], parts[|parts| - 1];
    assert parts == init + [last];
    if init == [] {
      assert JoinBars(init) == "";
    } else {
      JoinBarsIsJoin(init);
      JoinSnoc(init, last, "|");
    }
  }

  lemma {:induction false} JoinEnd(parts: seq<string>)
    requires parts != [] && parts[|parts| - 1] != ""
    ensures Join(parts, "|") != ""
    ensures Join(parts, "|")[|Join(parts, "|")| - 1] == parts[|parts| - 1][|parts[|parts| - 1]| - 1]
  {
    if |parts| > 1 { JoinEnd(parts[1..]); }
  }

  lemma {:induction false} StripBarsOf(parts: seq<string>)
    requires parts != [] && parts[|parts| - 1] != "" && forall p :: p in parts ==> '|' !in p
    ensures StripBars(JoinBars(parts)) == Join(parts, "|")
  {
    JoinBarsIsJoin(parts);
    JoinEnd(parts);
    var s := Join(parts, "|");
    assert (s + "|")[..|s|] == s;
    assert parts[|parts| - 1] in parts;
    assert s[|s| - 1] != '|';
  }

  /** An entry with the key leaves of a table key. */
  ghost predicate HasKey(entry: map<string, Yang>, keys: seq<string>, tableKey: string) {
    var kd := ExtractKey(tableKey, keys);
    kd.Some? && forall k :: k in kd.value ==> k in entry && entry[k] == kd.value[k]
  }

  lemma {:induction false} KeyTextOfKey(entry: map<string, Yang>, keys: seq<string>, tableKey: string)
    requires Distinct(keys) && HasKey(entry, keys, tableKey)
    ensures var parts := StripAll(Split(tableKey, '|'));
            CreateKey(entry, keys) == if "" in parts then None else Some(Join(parts, "|"))
  {
    var raw := Split(tableKey, '|');
    var parts := StripAll(raw);
    forall i | 0 <= i < |keys| ensures keys[i] in entry && entry[keys[i]] == YStr(parts[i]) {
      KeyDictAt(keys, raw, i);
    }
    KeyTextOf(entry, keys, parts);
    if "" !in parts {
      StrippedPlain(tableKey);
      StripBarsOf(parts);
    }
  }

  lemma {:induction false} StrippedPlain(tableKey: string)
    ensures forall p :: p in StripAll(Split(tableKey, '|')) ==> '|' !in p
  {
    var raw := Split(tableKey, '|');
    SplitParts(tableKey, '|');
    forall i | 0 <= i < |raw| ensures '|' !in StripAll(raw)[i] {
      assert raw[i] in raw;
      StripLeftSubset(raw[i], '|');
      StripRightSubset(StripLeft(raw[i]), '|');
    }
  }

  /** A table key is rebuilt from its leaves exactly when every part is non-empty and trimmed. */
  lemma KeyExact(entry: map<string, Yang>, keys: seq<string>, tableKey: string)
    requires Distinct(keys) && HasKey(entry, keys, tableKey)
    ensures CreateKey(entry, keys) == Some(tableKey) <==> KeyClean(tableKey)
  {
    var raw := Split(tableKey, '|');
    var parts := StripAll(raw);
    KeyTextOfKey(entry, keys, tableKey);
    JoinSplit(tableKey, '|');
    if KeyClean(tableKey) {
      forall i | 0 <= i < |raw| ensures parts[i] == raw[i] != "" { assert raw[i] in raw; StripTrims(raw[i]); }
      assert parts == raw;
    } else if "" !in parts && Join(parts, "|") == tableKey {
      StrippedPlain(tableKey);
      SplitJoin(parts, '|');
      forall p | p in raw ensures p != "" && Trimmed(p) {
        var i :| 0 <= i < |raw| && raw[i] == p;
        StripTrims(p);
      }
    }
  }

  /** Whatever key is rebuilt, it is one that is rebuilt as itself. */
  lemma RebuiltKeyClean(entry: map<string, Yang>, keys: seq<string>, tableKey: string, key: string)
    requires Distinct(keys) && HasKey(entry, keys, tableKey) && CreateKey(entry, keys) == Some(key)
    ensures KeyClean(key)
  {
    var parts := StripAll(Split(tableKey, '|'));
    KeyTextOfKey(entry, keys, tableKey);
    StrippedPlain(tableKey);
    SplitJoin(parts, '|');
    forall p | p in parts ensures p != "" && Trimmed(p) {
      var i :| 0 <= i < |parts| && parts[i] == p;
      StripTrims(Split(tableKey, '|')[i]);
    }
  }
}
