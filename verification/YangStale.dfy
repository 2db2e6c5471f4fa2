/** A failed load can make the next load fail: the name that it leaves on the path takes the separators from
    the first table that follows. */
module YangStale {
  import opened Text
  import opened YangModel
  import opened YangValues
  import opened YangEntries
  import opened YangContainers
  import opened YangDatabase

  /** A list of numbers in one text is refused wherever the text is not separated. */
  lemma {:induction false} UnseparatedRefused(table: TableName, field: string, leaf: Leaf, s: string, sep: char)
    requires leaf.isList && IsUint(leaf) && Separator(table.written, field).None? && sep in {',', ';'} && sep in s
    ensures Forward(table, field, leaf, Str(s)).None?
  {
    var items := Items(table.written, field, Str(s)).value;
    var i :| 0 <= i < |s| && s[i] == sep;
    assert items[i] == [sep];
    NoNumber(sep);
    MapAllAt(Converter(leaf), items);
    assert Converter(leaf)(items[i]).None?;
  }

  lemma {:induction false} NoNumber(c: char)
    requires c in {',', ';'}
    ensures ParseInt([c]).None?
  {
    assert StripLeft([c]) == [c] && StripRight([c]) == [c];
  }

  /** A container with nothing but leaves takes a configuration exactly when the leaves do. */
  lemma {:induction false} OnlyLeaves(c: Container, table: TableName, cfg: Config)
    requires c.lists == [] && c.containers == []
    ensures CanTranslate(c, table, cfg) <==> Collect(Writer(false, table, c.leaves), cfg).Some?
    ensures Clean(c, table, cfg) <==> FieldsClean(table, c.leaves, cfg)
  {
    assert Leftover(ActiveLists(c), table, cfg) == cfg;
    assert Outside(cfg, c.containers) == cfg;
  }

  function LeavesTable(name: string, leaves: Leaves): TableModel {
    TableModel("module", "top", Container(name, [], [], leaves))
  }

  function TwoTables(t: string, u: string, field: string, leaf: Leaf): Schema {
    map[u := LeavesTable(u, map[]), t := LeavesTable(t, map[field := leaf])]
  }

  /** Text that comes back under its own table. */
  predicate Numbers(t: string, field: string, leaf: Leaf, s: string) {
    && leaf.isList && IsUint(leaf) && Separator(t, field).Some? && Separator(t, field).value in s
    && forall p :: p in Split(s, Separator(t, field).value) ==> Trimmed(p) && Canonical(p)
  }

  lemma {:induction false} NumbersClean(t: string, field: string, leaf: Leaf, s: string)
    requires Numbers(t, field, leaf, s)
    ensures ValueClean(TableName(t, t), field, leaf, Str(s)) && Forward(TableName(t, t), field, leaf, Str(s)).Some?
  {
    if IsBoolean(leaf) { BooleanIsNoUint(leaf); }
    ValueExact(TableName(t, t), field, leaf, Str(s));
  }

  lemma {:induction false} GoodByItself(t: string, u: string, field: string, leaf: Leaf, s: string)
    requires t != u && Numbers(t, field, leaf, s)
    ensures var schema, db := TwoTables(t, u, field, leaf), map[t := map[field := Str(s)]];
            CleanDatabase(schema, OWN, db) && CanTranslateAll(schema, OWN, db)
  {
    var c, cfg := LeavesTable(t, map[field := leaf]).container, map[field := Str(s)];
    NumbersClean(t, field, leaf, s);
    OnlyLeaves(c, TableName(t, t), cfg);
    assert NameIn(OWN, t) == TableName(t, t);
  }

  lemma {:induction false} BadAfter(t: string, u: string, field: string, leaf: Leaf, s: string)
    requires t != u && Numbers(t, field, leaf, s) && Separator(u, field).None?
    ensures !CanTranslate(LeavesTable(t, map[field := leaf]).container, TableName(u, t), map[field := Str(s)])
  {
    var c, cfg := LeavesTable(t, map[field := leaf]).container, map[field := Str(s)];
    SeparatorPlain(t, field);
    UnseparatedRefused(TableName(u, t), field, leaf, s, Separator(t, field).value);
    OnlyLeaves(c, TableName(u, t), cfg);
    assert Writer(false, TableName(u, t), c.leaves)(field, cfg[field]).None?;
  }

  lemma {:induction false} UnknownField(u: string, x: string, v: Value)
    ensures !CanTranslate(LeavesTable(u, map[]).container, TableName(u, u), map[x := v])
  {
    var c, cfg := LeavesTable(u, map[]).container, map[x := v];
    OnlyLeaves(c, TableName(u, u), cfg);
    assert Writer(false, TableName(u, u), c.leaves)(x, cfg[x]).None?;
  }

  lemma {:induction false} CoveredWhole(schema: Schema, db: Database)
    requires db.Keys <= schema.Keys
    ensures Covered(schema, db) == db
  {
  }

  /** The only table of a database is written under the name of the only table that failed. */
  lemma {:induction false} StaleFails(schema: Schema, bad: Database, db: Database, u: string, t: string, stale: seq<string>,
                                      tables: seq<string>)
    requires bad.Keys == {u} && db.Keys == {t} && u in schema && t in schema
    requires FailedAt(schema, OWN, bad, stale) && Enumerates(tables, db.Keys)
    ensures CanTranslateAll(schema, Naming(stale, tables), db) <==> CanTranslate(schema[t].container, TableName(u, t), db[t])
  {
    assert t in db.Keys;
    assert tables[0] in tables;
    assert NameIn(Naming(stale, tables), t) == TableName(u, t);
  }

  /** After the only table of one database failed, the only table of another is written under its name. */
  lemma {:induction false} SecondLoad(schema: Schema, u: string, before: Database, t: string, db: Database)
    requires u in schema && t in schema && before.Keys == {u} && db.Keys == {t}
    requires !CanTranslate(schema[u].container, TableName(u, u), before[u])
    ensures !CanTranslateAll(schema, OWN, Covered(schema, before))
    ensures forall stale, tables {:trigger Naming(stale, tables)} ::
              FailedAt(schema, OWN, Covered(schema, before), stale) && Enumerates(tables, Covered(schema, db).Keys) ==>
                (CanTranslateAll(schema, Naming(stale, tables), Covered(schema, db))
                 <==> CanTranslate(schema[t].container, TableName(u, t), db[t]))
  {
    CoveredWhole(schema, before);
    CoveredWhole(schema, db);
    assert u in before && NameIn(OWN, u) == TableName(u, u);
    forall stale, tables | FailedAt(schema, OWN, before, stale) && Enumerates(tables, db.Keys)
      ensures CanTranslateAll(schema, Naming(stale, tables), db) <==> CanTranslate(schema[t].container, TableName(u, t), db[t])
    {
      StaleFails(schema, before, db, u, t, stale, tables);
    }
  }

  /** Loads a database with one table that fails, then another database with one table: that is loaded exactly when it
      can be translated under the name of the first. */
  method LoadAfterFailure(schema: Schema, u: string, bad: Config, t: string, config: Config) returns (first: bool, second: bool)
    requires SchemaWellFormed(schema) && u in schema && t in schema
    requires !CanTranslate(schema[u].container, TableName(u, u), bad)
    ensures !first && (second <==> CanTranslate(schema[t].container, TableName(u, t), config))
  {
    var before, db := map[u := bad], map[t := config];
    SecondLoad(schema, u, before, t, db);
    ghost var stale, tables;
    first, second, stale, tables := SonicYang.LoadTwice(schema, before, db);
  }

  lemma {:induction false} TwoTablesWellFormed(t: string, u: string, field: string, leaf: Leaf)
    requires t != u && ':' !in t && ':' !in u
    ensures SchemaWellFormed(TwoTables(t, u, field, leaf))
  {
  }

  /** One load fails, for a field that no leaf takes; then the load of a database that is clean and loads by itself
      fails too. It does so for all tables, fields and numbers for which the field is separated in the table to be
      loaded but not in the table that failed. */
  method StaleLoadFails(t: string, u: string, field: string, leaf: Leaf, s: string, x: string, v: Value)
    returns (first: bool, second: bool)
    requires t != u && ':' !in t && ':' !in u && Numbers(t, field, leaf, s) && Separator(u, field).None?
    ensures var schema, db := TwoTables(t, u, field, leaf), map[t := map[field := Str(s)]];
            CleanDatabase(schema, OWN, db) && CanTranslateAll(schema, OWN, db)
    ensures !first && !second
  {
    TwoTablesWellFormed(t, u, field, leaf);
    GoodByItself(t, u, field, leaf, s);
    BadAfter(t, u, field, leaf, s);
    UnknownField(u, x, v);
    first, second := LoadAfterFailure(TwoTables(t, u, field, leaf), u, map[x := v], t, map[field := Str(s)]);
  }
}
