/** Whole databases: loading splits off the tables without a schema, translates the rest and fills the
    data tree; reading translates the tree back. */
module YangDatabase {
  import opened Sequences
  import opened Text
  import opened YangModel
  import opened YangEntries
  import opened YangContainers
  import opened YangTranslator
  import opened YangTree
  import opened YangExact

  type Database = map<string, Config>

  /** Top-level containers by module, and in each its tables. */
  type YangData = map<string, map<string, map<string, Yang>>>

  datatype TableModel = TableModel(moduleName: string, top: string, container: Container)

  type Schema = map<string, TableModel>

  function TopKey(m: TableModel): string {
    m.moduleName + ":" + m.top
  }

  function SubKey(m: TableModel): string {
    m.top + ":" + m.container.name
  }

  /** The table a container name stands for, with or without the prefix of its module. */
  function TableOf(name: string): Option<string> {
    var names := Split(name, ':');
    if |names| > 2 then None else Some(names[|names| - 1])
  }

  /** Tables are found under the names of their containers; identifiers have no colons. */
  predicate SchemaWellFormed(schema: Schema) {
    forall t :: t in schema ==>
      schema[t].container.name == t && WellFormed(schema[t].container) && ':' !in t && ':' !in schema[t].top
  }

  lemma TableOfSubKey(schema: Schema, t: string)
    requires SchemaWellFormed(schema) && t in schema
    ensures TableOf(SubKey(schema[t])) == Some(t)
  {
    var parts := [schema[t].top, t];
    SplitJoin(parts, ':');
    assert Join(parts, ":") == SubKey(schema[t]) by {
      assert parts[..1] == [schema[t].top];
    }
  }

  // ----- database to YANG -----

  /** The name under which the values of a table are written. */
  type Writing = string -> string

  /** Every table is written under its own name, but for the first of `tables` if something is left on the path. */
  function Naming(path: seq<string>, tables: seq<string>): Writing {
    t => if path != [] && tables != [] && t == tables[0] then path[0] else t
  }

  const OWN: Writing := t => t

  function NameIn(writing: Writing, t: string): TableName {
    TableName(writing(t), t)
  }

  ghost predicate TableIn(schema: Schema, writing: Writing, t: string, config: Config, y: YangData)
    requires t in schema
  {
    var top, sub := TopKey(schema[t]), SubKey(schema[t]);
    top in y && sub in y[top] && Translated(false, schema[t].container, NameIn(writing, t), config, y[top][sub])
  }

  ghost predicate FromTables(schema: Schema, tables: seq<string>, top: string, sub: string) {
    exists t :: t in tables && t in schema && top == TopKey(schema[t]) && sub == SubKey(schema[t])
  }

  /** `y` holds the translations of `tables` of the database and nothing else. */
  ghost predicate DataOf(schema: Schema, writing: Writing, db: Database, tables: seq<string>, y: YangData) {
    && (forall t :: t in tables ==> t in schema && t in db && TableIn(schema, writing, t, db[t], y))
    && (forall top, sub :: top in y && sub in y[top] ==> FromTables(schema, tables, top, sub))
  }

  function WithTable(y: YangData, top: string, sub: string, fields: map<string, Yang>): YangData {
    y[top := (if top in y then y[top] else map[])[sub := fields]]
  }

  lemma {:induction false} DataNext(schema: Schema, writing: Writing, db: Database, tables: seq<string>, t: string, y: YangData,
                                    fields: map<string, Yang>)
    requires SchemaWellFormed(schema) && t in schema && t in db && t !in tables
    requires DataOf(schema, writing, db, tables, y) && Translated(false, schema[t].container, NameIn(writing, t), db[t], fields)
    ensures DataOf(schema, writing, db, tables + [t], WithTable(y, TopKey(schema[t]), SubKey(schema[t]), fields))
  {
    var top, sub := TopKey(schema[t]), SubKey(schema[t]);
    var z := WithTable(y, top, sub, fields);
    forall u | u in tables + [t] ensures u in schema && u in db && TableIn(schema, writing, u, db[u], z) {
      if u != t {
        assert u in tables && TableIn(schema, writing, u, db[u], y);
        TableOfSubKey(schema, t);
        TableOfSubKey(schema, u);
      }
    }
    forall o, p | o in z && p in z[o] ensures FromTables(schema, tables + [t], o, p) {
      SourceNext(schema, tables, t, y, fields, o, p);
    }
  }

  lemma SourceNext(schema: Schema, tables: seq<string>, t: string, y: YangData, fields: map<string, Yang>, top: string,
                   sub: string)
    requires t in schema && forall o, p :: o in y && p in y[o] ==> FromTables(schema, tables, o, p)
    requires var z := WithTable(y, TopKey(schema[t]), SubKey(schema[t]), fields); top in z && sub in z[top]
    ensures FromTables(schema, tables + [t], top, sub)
  {
    if top == TopKey(schema[t]) && sub == SubKey(schema[t]) {
      assert t in tables + [t];
    } else {
      assert FromTables(schema, tables, top, sub);
      var u :| u in tables && u in schema && top == TopKey(schema[u]) && sub == SubKey(schema[u]);
      assert u in tables + [t];
    }
  }

  // ----- the data tree -----

  function LoadTable(schema: Schema, name: string, fields: map<string, Yang>): map<string, Yang> {
    var t := TableOf(name);
    if t.Some? && t.value in schema then LoadContainer(schema[t.value].container, fields) else fields
  }

  function LoadTree(schema: Schema, y: YangData): YangData {
    map top | top in y :: map sub | sub in y[top] :: LoadTable(schema, sub, y[top][sub])
  }

  // ----- YANG to database -----

  /** What a container is read as, under its own name or under a name left on the path. */
  function TableBack(schema: Schema, stale: Option<string>, name: string, fields: map<string, Yang>): Option<(string, Config)> {
    var t := TableOf(name);
    if t.None? || t.value !in schema then None
    else
      var back := ContainerBack(schema[t.value].container, if stale.Some? then stale.value else t.value, fields);
      if back.Some? then Some((t.value, back.value)) else None
  }

  function StaleName(path: seq<string>): Option<string> {
    if path == [] then None else Some(path[0])
  }

  /** Which container is read under a name that was left on the path: the first, if any. */
  datatype Left = Nothing | Left(name: string, top: string, sub: string)

  type Reading = (string, string, map<string, Yang>) -> Option<(string, Config)>

  function TableReader(schema: Schema, left: Left): Reading {
    (top: string, sub: string, fields: map<string, Yang>) =>
      TableBack(schema, if left.Left? && left.top == top && left.sub == sub then Some(left.name) else None, sub, fields)
  }

  predicate AllRead(read: Reading, top: string, tables: map<string, map<string, Yang>>) {
    forall sub :: sub in tables ==> read(top, sub, tables[sub]).Some?
  }

  predicate EverythingRead(read: Reading, y: YangData) {
    forall top :: top in y ==> AllRead(read, top, y[top])
  }

  ghost predicate ReadFrom(read: Reading, top: string, tables: map<string, map<string, Yang>>, t: string, config: Config) {
    exists sub :: sub in tables && read(top, sub, tables[sub]) == Some((t, config))
  }

  /** `db` has a table for every container of `y`, and only what some container reads as. */
  ghost predicate ReadAs(read: Reading, y: YangData, db: Database) {
    && (forall top, sub :: top in y && sub in y[top] ==>
          read(top, sub, y[top][sub]).Some? && read(top, sub, y[top][sub]).value.0 in db)
    && (forall t :: t in db ==> exists top :: top in y && ReadFrom(read, top, y[top], t, db[t]))
  }

  /** Part of the database that the schema covers. */
  function Covered(schema: Schema, db: Database): Database {
    map t | t in db && t in schema :: db[t]
  }

  function Uncovered(schema: Schema, db: Database): Database {
    map t | t in db && t !in schema :: db[t]
  }

  ghost predicate CleanDatabase(schema: Schema, writing: Writing, db: Database) {
    forall t :: t in db && t in schema ==> Clean(schema[t].container, NameIn(writing, t), db[t])
  }

  // ----- the round trip -----

  lemma TreeAt(schema: Schema, y: YangData, top: string, sub: string)
    requires top in y && sub in y[top]
    ensures top in LoadTree(schema, y) && sub in LoadTree(schema, y)[top]
    ensures LoadTree(schema, y)[top][sub] == LoadTable(schema, sub, y[top][sub])
  {
  }

  lemma {:induction false} TableReads(schema: Schema, table: TableName, config: Config, fields: map<string, Yang>)
    requires SchemaWellFormed(schema) && table.read in schema && Clean(schema[table.read].container, table, config)
    requires Translated(false, schema[table.read].container, table, config, fields)
    ensures var sub := SubKey(schema[table.read]);
            TableBack(schema, None, sub, LoadTable(schema, sub, fields)) == Some((table.read, config))
  {
    TableOfSubKey(schema, table.read);
    TableExact(schema[table.read].container, table, config, fields);
  }

  /** Every container of the tree reads as its table. */
  lemma TreeReads(schema: Schema, writing: Writing, db: Database, tables: seq<string>, y: YangData, top: string, sub: string) returns (t: string)
    requires SchemaWellFormed(schema) && CleanDatabase(schema, writing, db) && DataOf(schema, writing, db, tables, y)
    requires top in y && sub in y[top]
    ensures t in tables && t in db && TableBack(schema, None, sub, LoadTable(schema, sub, y[top][sub])) == Some((t, db[t]))
  {
    assert FromTables(schema, tables, top, sub);
    t :| t in tables && t in schema && top == TopKey(schema[t]) && sub == SubKey(schema[t]);
    TableReads(schema, NameIn(writing, t), db[t], y[top][sub]);
  }

  /** Reading the tree back succeeds. */
  lemma TreeAllRead(schema: Schema, writing: Writing, db: Database, tables: seq<string>, y: YangData, top: string)
    requires SchemaWellFormed(schema) && CleanDatabase(schema, writing, db) && DataOf(schema, writing, db, tables, y)
    requires top in y
    ensures AllRead(TableReader(schema, Nothing), top, LoadTree(schema, y)[top])
  {
    forall sub | sub in y[top] ensures TableBack(schema, None, sub, LoadTree(schema, y)[top][sub]).Some? {
      var t := TreeReads(schema, writing, db, tables, y, top, sub);
      TreeAt(schema, y, top, sub);
    }
  }

  lemma Origin(schema: Schema, y: YangData, db: Database, t: string) returns (top: string, sub: string)
    requires ReadAs(TableReader(schema, Nothing), y, db) && t in db
    ensures top in y && sub in y[top] && TableBack(schema, None, sub, y[top][sub]) == Some((t, db[t]))
  {
    var read := TableReader(schema, Nothing);
    top :| top in y && ReadFrom(read, top, y[top], t, db[t]);
    sub :| sub in y[top] && read(top, sub, y[top][sub]) == Some((t, db[t]));
  }

  lemma BackInDatabase(schema: Schema, writing: Writing, db: Database, tables: seq<string>, y: YangData, back: Database, t: string)
    requires SchemaWellFormed(schema) && CleanDatabase(schema, writing, db) && DataOf(schema, writing, db, tables, y)
    requires ReadAs(TableReader(schema, Nothing), LoadTree(schema, y), back) && t in back
    ensures t in db && back[t] == db[t]
  {
    var z := LoadTree(schema, y);
    var top, sub := Origin(schema, z, back, t);
    TreeAt(schema, y, top, sub);
    var u := TreeReads(schema, writing, db, tables, y, top, sub);
  }

  lemma DatabaseInBack(schema: Schema, writing: Writing, db: Database, tables: seq<string>, y: YangData, back: Database, t: string)
    requires SchemaWellFormed(schema) && DataOf(schema, writing, db, tables, y)
    requires ReadAs(TableReader(schema, Nothing), LoadTree(schema, y), back) && t in tables
    ensures t in back
  {
    assert t in schema && TableIn(schema, writing, t, db[t], y);
    TreeAt(schema, y, TopKey(schema[t]), SubKey(schema[t]));
    TableInBack(schema, LoadTree(schema, y), back, t);
  }

  lemma TableInBack(schema: Schema, z: YangData, back: Database, t: string)
    requires SchemaWellFormed(schema) && t in schema && ReadAs(TableReader(schema, Nothing), z, back)
    requires var top, sub := TopKey(schema[t]), SubKey(schema[t]); top in z && sub in z[top]
    ensures t in back
  {
    TableOfSubKey(schema, t);
    var top, sub := TopKey(schema[t]), SubKey(schema[t]);
    BackNamed(schema, None, sub, z[top][sub], t);
    assert TableReader(schema, Nothing)(top, sub, z[top][sub]).value.0 in back;
  }

  lemma BackNamed(schema: Schema, stale: Option<string>, name: string, fields: map<string, Yang>, t: string)
    requires TableOf(name) == Some(t)
    ensures TableBack(schema, stale, name, fields).Some? ==> TableBack(schema, stale, name, fields).value.0 == t
  {
  }

  /** Whatever order the tables are visited in, reading the tree of a clean database gives it back. */
  lemma DatabaseRoundTrip(schema: Schema, writing: Writing, db: Database, tables: seq<string>, y: YangData, back: Database)
    requires SchemaWellFormed(schema) && CleanDatabase(schema, writing, db)
    requires Enumerates(tables, db.Keys) && DataOf(schema, writing, db, tables, y)
    requires ReadAs(TableReader(schema, Nothing), LoadTree(schema, y), back)
    ensures back == db
  {
    forall t | t in back ensures t in db && back[t] == db[t] {
      BackInDatabase(schema, writing, db, tables, y, back, t);
    }
    forall t | t in db ensures t in back {
      DatabaseInBack(schema, writing, db, tables, y, back, t);
    }
    SameTables(back, db);
  }

  /** A table that came back as it was is clean. */
  lemma {:induction false} TableCameBack(schema: Schema, writing: Writing, db: Database, tables: seq<string>, y: YangData, back: Database, t: string)
    requires SchemaWellFormed(schema) && DataOf(schema, writing, db, tables, y)
    requires ReadAs(TableReader(schema, Nothing), LoadTree(schema, y), back)
    requires t in tables && t in back && back[t] == db[t]
    ensures Clean(schema[t].container, NameIn(writing, t), db[t])
  {
    var top, sub := Origin(schema, LoadTree(schema, y), back, t);
    TreeAt(schema, y, top, sub);
    assert FromTables(schema, tables, top, sub);
    var u :| u in tables && u in schema && top == TopKey(schema[u]) && sub == SubKey(schema[u]);
    TableOfSubKey(schema, u);
    assert TableIn(schema, writing, t, db[t], y);
    TableExact(schema[t].container, NameIn(writing, t), db[t], y[top][sub]);
  }

  lemma SameTables(a: Database, b: Database)
    requires (forall t :: t in a ==> t in b && a[t] == b[t]) && forall t :: t in b ==> t in a
    ensures a == b
  {
  }

  lemma Recombined(schema: Schema, db: Database)
    ensures Covered(schema, db) + Uncovered(schema, db) == db
  {
  }

  predicate CanTranslateAll(schema: Schema, writing: Writing, db: Database)
    requires db.Keys <= schema.Keys
  {
    forall t :: t in db ==> CanTranslate(schema[t].container, NameIn(writing, t), db[t])
  }

  ghost predicate TranslatedInto(schema: Schema, name: string, t: string, config: Config, before: YangData, after: YangData)
    requires t in schema
  {
    exists fields ::
      && Translated(false, schema[t].container, TableName(name, t), config, fields)
      && after == WithTable(before, TopKey(schema[t]), SubKey(schema[t]), fields)
  }

  lemma DataStep(schema: Schema, writing: Writing, db: Database, tables: seq<string>, t: string, y: YangData, z: YangData)
    requires SchemaWellFormed(schema) && t in schema && t in db && t !in tables
    requires DataOf(schema, writing, db, tables, y) && TranslatedInto(schema, writing(t), t, db[t], y, z)
    ensures DataOf(schema, writing, db, tables + [t], z)
  {
    var fields :| Translated(false, schema[t].container, NameIn(writing, t), db[t], fields)
                  && z == WithTable(y, TopKey(schema[t]), SubKey(schema[t]), fields);
    DataNext(schema, writing, db, tables, t, y, fields);
  }

  /** What reading the containers in `done` made of `config`. */
  ghost predicate TablesRead(read: Reading, top: string, tables: map<string, map<string, Yang>>, done: set<string>, config: Database,
                             rows: Database) {
    && (forall sub :: sub in done && sub in tables ==>
          read(top, sub, tables[sub]).Some? && read(top, sub, tables[sub]).value.0 in rows)
    && (forall t :: t in config ==> t in rows)
    && (forall t :: t in rows ==> (t in config && config[t] == rows[t]) || ReadFrom(read, top, tables, t, rows[t]))
  }

  lemma ReadNext(read: Reading, top: string, tables: map<string, map<string, Yang>>, done: set<string>, config: Database,
                 rows: Database, name: string)
    requires TablesRead(read, top, tables, done, config, rows)
    requires name in tables && read(top, name, tables[name]).Some?
    ensures var t := read(top, name, tables[name]).value;
            TablesRead(read, top, tables, done + {name}, config, rows[t.0 := t.1])
  {
  }

  ghost predicate ReadSoFar(read: Reading, y: YangData, tops: seq<string>, rows: Database) {
    && (forall top, sub :: top in tops && top in y && sub in y[top] ==>
          read(top, sub, y[top][sub]).Some? && read(top, sub, y[top][sub]).value.0 in rows)
    && (forall t :: t in rows ==> exists top :: top in y && ReadFrom(read, top, y[top], t, rows[t]))
  }

  lemma ReadTop(read: Reading, y: YangData, tops: seq<string>, rows: Database, top: string, more: Database)
    requires ReadSoFar(read, y, tops, rows) && top in y && TablesRead(read, top, y[top], y[top].Keys, rows, more)
    ensures ReadSoFar(read, y, tops + [top], more)
  {
  }

  // ----- cropping -----

  /** The input after the tables in `done` were looked at. */
  function Uncropped(schema: Schema, db: Database, done: seq<string>): Database {
    map t | t in db && (t in schema || t !in done) :: db[t]
  }

  function Cropped(schema: Schema, db: Database, done: seq<string>): Database {
    map t | t in db && t !in schema && t in done :: db[t]
  }

  lemma CropNext(schema: Schema, db: Database, done: seq<string>, t: string)
    requires t in db
    ensures Uncropped(schema, db, done + [t]) ==
            if t in schema then Uncropped(schema, db, done) else Uncropped(schema, db, done) - {t}
    ensures Cropped(schema, db, done + [t]) ==
            if t in schema then Cropped(schema, db, done) else Cropped(schema, db, done)[t := db[t]]
  {
  }

  lemma AddUpdate(a: Database, b: Database, t: string, config: Config)
    ensures (a + b)[t := config] == a + b[t := config]
  {
  }

  lemma AllCropped(schema: Schema, db: Database, done: seq<string>)
    requires Enumerates(done, db.Keys)
    ensures Uncropped(schema, db, done) == Covered(schema, db) && Cropped(schema, db, done) == Uncovered(schema, db)
  {
  }

  lemma NothingAdded(a: Database)
    ensures map[] + a == a
  {
  }

  lemma Reunited(schema: Schema, writing: Writing, config: Database, tables: seq<string>, y: YangData, root: YangData, r: Option<Database>)
    requires SchemaWellFormed(schema) && CleanDatabase(schema, writing, config)
    requires Enumerates(tables, Covered(schema, config).Keys) && DataOf(schema, writing, Covered(schema, config), tables, y)
    requires root == LoadTree(schema, y)
    requires r.Some? <==> EverythingRead(TableReader(schema, Nothing), root)
    requires r.Some? ==> ReadAs(TableReader(schema, Nothing), root, r.value)
    ensures r.Some? && r.value + Uncovered(schema, config) == config
  {
    var db := Covered(schema, config);
    assert CleanDatabase(schema, writing, db);
    forall top | top in root ensures AllRead(TableReader(schema, Nothing), top, root[top]) {
      TreeAllRead(schema, writing, db, tables, y, top);
    }
    DatabaseRoundTrip(schema, writing, db, tables, y, r.value);
    Recombined(schema, config);
  }

  /** If the database came back as it was, it is clean. */
  lemma OnlyCleanReunited(schema: Schema, writing: Writing, config: Database, tables: seq<string>, y: YangData, back: Database)
    requires SchemaWellFormed(schema)
    requires Enumerates(tables, Covered(schema, config).Keys) && DataOf(schema, writing, Covered(schema, config), tables, y)
    requires ReadAs(TableReader(schema, Nothing), LoadTree(schema, y), back) && back + Uncovered(schema, config) == config
    ensures CleanDatabase(schema, writing, config)
  {
    var db := Covered(schema, config);
    forall t | t in config && t in schema ensures Clean(schema[t].container, NameIn(writing, t), config[t]) {
      assert t in db && t in tables && t !in Uncovered(schema, config);
      assert t in back && back[t] == db[t];
      TableCameBack(schema, writing, db, tables, y, back, t);
    }
  }

  /** The path starts with the name under which some table that cannot be translated was written. */
  ghost predicate FailedAt(schema: Schema, writing: Writing, db: Database, path: seq<string>)
    requires db.Keys <= schema.Keys
  {
    path != [] && exists t :: t in db && path[0] == writing(t) && !CanTranslate(schema[t].container, NameIn(writing, t), db[t])
  }

  /** What is left for the containers `names` of `top`. */
  ghost predicate LeftFor(left: Left, path: seq<string>, top: string, names: seq<string>) {
    if path != [] && names != [] then left == Left(path[0], top, names[0]) else left.Nothing? || left.top != top
  }

  /** Something left on the path is there for a container of `y`, if `y` has any. */
  ghost predicate LeftIn(left: Left, path: seq<string>, y: YangData) {
    && (left.Nothing? <==> path == [] || forall top :: top in y ==> y[top] == map[])
    && (left.Left? ==> left.name == path[0] && left.top in y && left.sub in y[left.top])
  }

  ghost predicate LeftSoFar(left: Left, path: seq<string>, y: YangData, tops: seq<string>, now: seq<string>) {
    && (left.Nothing? ==> now == path && (path != [] ==> forall top :: top in tops && top in y ==> y[top] == map[]))
    && (left.Left? ==> && path != [] && now == [] && left.name == path[0]
                       && left.top in tops && left.top in y && left.sub in y[left.top])
  }

  /** Without containers so far, any reading has read them all. */
  lemma NothingReadYet(read: Reading, y: YangData, tops: seq<string>)
    requires forall top :: top in tops && top in y ==> y[top] == map[]
    ensures ReadSoFar(read, y, tops, map[]) && forall top :: top in tops && top in y ==> AllRead(read, top, y[top])
  {
  }

  /** What was read after the top-level containers `tops`, and which name was left for the first of their tables. */
  ghost predicate TopsRead(read: Reading, left: Left, path: seq<string>, y: YangData, tops: seq<string>, now: seq<string>,
                           rows: Database) {
    && LeftSoFar(left, path, y, tops, now) && (left.Nothing? && path != [] ==> rows == map[])
    && ReadSoFar(read, y, tops, rows) && forall top :: top in tops && top in y ==> AllRead(read, top, y[top])
  }

  /** A table that takes the name is the first of all, so that what was read before is read by the new reading too. */
  lemma TopsAgain(before: Reading, read: Reading, was: Left, left: Left, path: seq<string>, y: YangData, tops: seq<string>,
                  now: seq<string>, rows: Database)
    requires TopsRead(before, was, path, y, tops, now, rows)
    requires if left.Left? && was.Nothing? then path != [] else before == read
    ensures ReadSoFar(read, y, tops, rows) && forall top :: top in tops && top in y ==> AllRead(read, top, y[top])
  {
    if left.Left? && was.Nothing? { NothingReadYet(read, y, tops); }
  }

  lemma TopsNext(read: Reading, left: Left, path: seq<string>, y: YangData, tops: seq<string>, now: seq<string>,
                 rows: Database, top: string, more: Database)
    requires top in y && ReadSoFar(read, y, tops, rows) && forall t :: t in tops && t in y ==> AllRead(read, t, y[t])
    requires AllRead(read, top, y[top]) && TablesRead(read, top, y[top], y[top].Keys, rows, more)
    requires LeftSoFar(left, path, y, tops + [top], now) && (left.Nothing? && path != [] ==> rows == map[])
    ensures TopsRead(read, left, path, y, tops + [top], now, more)
  {
    ReadTop(read, y, tops, rows, top, more);
    if left.Nothing? && path != [] {
      assert top in tops + [top];
      assert y[top] == map[];
      assert more == map[];
    }
  }

  lemma NoTablesNoData(schema: Schema, writing: Writing, db: Database, tables: seq<string>, y: YangData)
    requires DataOf(schema, writing, db, tables, y)
    ensures tables == [] ==> forall top :: top in LoadTree(schema, y) ==> LoadTree(schema, y)[top] == map[]
  {
    if tables == [] {
      forall top, sub ensures !(top in y && sub in y[top]) {
        assert !FromTables(schema, tables, top, sub);
      }
      forall top | top in y ensures y[top] == map[] {
        assert y[top].Keys == {};
      }
    }
  }

  /** Without anything left on the path every table has its own name. */
  lemma OwnNames(schema: Schema, tables: seq<string>, db: Database)
    requires db.Keys <= schema.Keys
    ensures CanTranslateAll(schema, Naming([], tables), db) <==> CanTranslateAll(schema, OWN, db)
    ensures forall path :: FailedAt(schema, Naming([], tables), db, path) <==> FailedAt(schema, OWN, db, path)
  {
    assert forall t :: NameIn(Naming([], tables), t) == NameIn(OWN, t);
  }

  // ----- the object -----

  /** A dictionary of tables that a caller shares with the object. */
  class ConfigDict {
    var tables: Database

    constructor (tables: Database)
      ensures this.tables == tables
    {
      this.tables := tables;
    }
  }

  class SonicYang {
    const schema: Schema
    const translator: Translator
    var jIn: ConfigDict
    var tablesWithOutYang: Database
    var xlateJson: YangData
    var revXlateJson: Database
    var root: Option<YangData>

    constructor (schema: Schema)
      ensures this.schema == schema && fresh(translator) && translator.elementPath == [] && root.None?
    {
      this.schema := schema;
      translator := new Translator();
      jIn := new ConfigDict(map[]);
      tablesWithOutYang, xlateJson, revXlateJson, root := map[], map[], map[], None;
    }

    /** Moves the tables without a schema out of the input, which is the caller's own dictionary. */
    method CropConfigDB()
      modifies jIn, this`tablesWithOutYang
      ensures jIn.tables == Covered(schema, old(jIn.tables))
      ensures tablesWithOutYang == old(tablesWithOutYang) + Uncovered(schema, old(jIn.tables))
    {
      ghost var before, aside := jIn.tables, tablesWithOutYang;
      var tables := IterationOrder(jIn.tables.Keys);
      for i := 0 to |tables|
        invariant jIn.tables == Uncropped(schema, before, tables[..i])
        invariant tablesWithOutYang == aside + Cropped(schema, before, tables[..i])
      {
        var table := tables[i];
        assert table in tables;
        TakeNext(tables, i);
        CropNext(schema, before, tables[..i], table);
        if table !in schema {
          assert table !in tables[..i];
          AddUpdate(aside, Cropped(schema, before, tables[..i]), table, before[table]);
          tablesWithOutYang := tablesWithOutYang[table := jIn.tables[table]];
          jIn.tables := jIn.tables - {table};
        }
      }
      assert tables[..|tables|] == tables;
      AllCropped(schema, before, tables);
    }

    /** One table under its top-level container. Its values are written under the name at the start of the path,
        which is another if something was left there. The path is reset only when the table went through. */
    method XlateTable(table: string) returns (ok: bool)
      requires SchemaWellFormed(schema) && table in schema && table in jIn.tables
      modifies this`xlateJson, translator
      ensures var path := old(translator.elementPath);
              var name := if path == [] then table else path[0];
              && (ok <==> CanTranslate(schema[table].container, TableName(name, table), jIn.tables[table]))
              && (ok ==> translator.elementPath == [] && TranslatedInto(schema, name, table, jIn.tables[table], old(xlateJson), xlateJson))
              && (!ok ==> translator.Within(name) && xlateJson == old(xlateJson))
    {
      var cmap := schema[table];
      translator.elementPath := translator.elementPath + [table];
      ghost var name := translator.elementPath[0];
      var r := translator.XlateContainer(cmap.container, jIn.tables[table], TableName(name, table));
      ok := r.Some?;
      if ok {
        xlateJson := WithTable(xlateJson, TopKey(cmap), SubKey(cmap), r.value);
        translator.elementPath := [];
      }
    }

    /** All tables; the first that fails ends the translation. */
    method XlateConfigDBtoYang() returns (ok: bool, ghost tables: seq<string>)
      requires SchemaWellFormed(schema) && jIn.tables.Keys <= schema.Keys && xlateJson == map[]
      modifies this`xlateJson, translator
      ensures Enumerates(tables, jIn.tables.Keys)
      ensures var path := old(translator.elementPath);
              var writing := Naming(path, tables);
              && (ok <==> CanTranslateAll(schema, writing, jIn.tables))
              && (ok ==> DataOf(schema, writing, jIn.tables, tables, xlateJson) && translator.elementPath == if tables == [] then path else [])
              && (!ok ==> FailedAt(schema, writing, jIn.tables, translator.elementPath))
    {
      var order := IterationOrder(jIn.tables.Keys);
      tables := order;
      ghost var path := translator.elementPath;
      ghost var writing := Naming(path, tables);
      for i := 0 to |order|
        invariant translator.elementPath == if i == 0 then path else []
        invariant DataOf(schema, writing, jIn.tables, order[..i], xlateJson)
        invariant forall t :: t in order[..i] ==> CanTranslate(schema[t].container, NameIn(writing, t), jIn.tables[t])
      {
        ghost var before := xlateJson;
        assert order[i] in order;
        ok := XlateTable(order[i]);
        if !ok {
          return;
        }
        TakeNext(order, i);
        DataStep(schema, writing, jIn.tables, order[..i], order[i], before, xlateJson);
      }
      assert order[..|order|] == order;
      ok := true;
    }

    /** One container of the YANG data, read back under the table it stands for or under a name left on the path. */
    method RevXlateTable(name: string, fields: map<string, Yang>) returns (r: Option<(string, Config)>)
      modifies translator
      ensures r == TableBack(schema, StaleName(old(translator.elementPath)), name, fields)
      ensures r.Some? ==> translator.elementPath == []
    {
      var names := Split(name, ':');
      if |names| > 2 {
        return None;
      }
      var table := if |names| == 1 then names[0] else names[1];
      if table !in schema {
        return None;
      }
      translator.elementPath := translator.elementPath + [table];
      var config := translator.RevXlateContainer(schema[table].container, fields, translator.elementPath[0]);
      if config.None? {
        return None;
      }
      translator.elementPath := [];
      r := Some((table, config.value));
    }

    /** The tables of one top-level container; a table read twice keeps the later reading. */
    method RevXlateTables(top: string, tables: map<string, map<string, Yang>>, names: seq<string>, config: Database,
                          ghost left: Left) returns (r: Option<Database>)
      requires Enumerates(names, tables.Keys) && LeftFor(left, translator.elementPath, top, names)
      modifies translator
      ensures var read := TableReader(schema, left);
              && (r.Some? <==> AllRead(read, top, tables))
              && (r.Some? ==> TablesRead(read, top, tables, tables.Keys, config, r.value))
      ensures r.Some? ==> translator.elementPath == if names == [] then old(translator.elementPath) else []
    {
      var rows := config;
      ghost var done, read := {}, TableReader(schema, left);
      for i := 0 to |names|
        invariant translator.elementPath == if i == 0 then old(translator.elementPath) else []
        invariant TablesRead(read, top, tables, done, config, rows)
        invariant forall sub :: sub in done <==> sub in names[..i]
      {
        var name := names[i];
        assert name in names;
        TakeNext(names, i);
        var t := RevXlateTable(name, tables[name]);
        assert t == read(top, name, tables[name]);
        if t.None? {
          return None;
        }
        ReadNext(read, top, tables, done, config, rows, name);
        rows := rows[t.value.0 := t.value.1];
        done := done + {name};
      }
      assert names[..|names|] == names;
      assert done == tables.Keys;
      r := Some(rows);
    }

    /** One top-level container; the first of its tables takes what is left on the path. */
    method RevXlateTop(top: string, tables: map<string, map<string, Yang>>, config: Database, ghost before: Left)
      returns (r: Option<Database>, ghost left: Left)
      requires before.Nothing? || (before.top != top && translator.elementPath == [])
      modifies translator
      ensures if old(translator.elementPath) != [] && tables != map[]
              then left.Left? && left.name == old(translator.elementPath)[0] && left.top == top && left.sub in tables
              else left == before
      ensures var read := TableReader(schema, left);
              && (r.Some? <==> AllRead(read, top, tables))
              && (r.Some? ==> TablesRead(read, top, tables, tables.Keys, config, r.value))
      ensures r.Some? ==> translator.elementPath == if tables == map[] then old(translator.elementPath) else []
    {
      left := before;
      var names := IterationOrder(tables.Keys);
      if names != [] {
        assert names[0] in names;
        if translator.elementPath != [] {
          left := Left(translator.elementPath[0], top, names[0]);
        }
      } else {
        assert tables.Keys == {};
      }
      r := RevXlateTables(top, tables, names, config, left);
    }

    /** Reads `xlateJson` back into a database. The first container, if there is one, is read under a name that was
        left on the path. */
    method RevXlateYangtoConfigDB() returns (r: Option<Database>, ghost left: Left)
      modifies translator
      ensures LeftIn(left, old(translator.elementPath), xlateJson)
      ensures var read := TableReader(schema, left);
              && (r.Some? <==> EverythingRead(read, xlateJson))
              && (r.Some? ==> ReadAs(read, xlateJson, r.value))
      ensures r.Some? && old(translator.elementPath) == [] ==> translator.elementPath == []
    {
      var rows: Database := map[];
      var tops := IterationOrder(xlateJson.Keys);
      ghost var y, path := xlateJson, translator.elementPath;
      left := Nothing;
      for i := 0 to |tops|
        invariant TopsRead(TableReader(schema, left), left, path, y, tops[..i], translator.elementPath, rows)
      {
        var top := tops[i];
        assert top in tops;
        TakeNext(tops, i);
        ghost var was, now := left, translator.elementPath;
        var more;
        more, left := RevXlateTop(top, xlateJson[top], rows, left);
        if more.None? {
          return None, left;
        }
        ghost var read := TableReader(schema, left);
        TopsAgain(TableReader(schema, was), read, was, left, path, y, tops[..i], now, rows);
        TopsNext(read, left, path, y, tops[..i], translator.elementPath, rows, top, more.value);
        rows := more.value;
      }
      assert tops[..|tops|] == tops;
      r := Some(rows);
    }

    /** Loads a database, whatever is left on the path. The caller's dictionary loses the tables without a schema. A
        failure leaves on the path the name under which the failed table was written, and no data tree. */
    method LoadData(config: ConfigDict) returns (ok: bool, ghost tables: seq<string>)
      requires SchemaWellFormed(schema)
      modifies config, this`jIn, this`tablesWithOutYang, this`xlateJson, this`root, translator
      ensures jIn == config && config.tables == Covered(schema, old(config.tables))
      ensures tablesWithOutYang == Uncovered(schema, old(config.tables)) && Enumerates(tables, config.tables.Keys)
      ensures var path := old(translator.elementPath);
              var writing := Naming(path, tables);
              && (ok <==> CanTranslateAll(schema, writing, config.tables))
              && (ok ==> && DataOf(schema, writing, config.tables, tables, xlateJson)
                         && root == Some(LoadTree(schema, xlateJson))
                         && translator.elementPath == if tables == [] then path else [])
              && (!ok ==> root.None? && FailedAt(schema, writing, config.tables, translator.elementPath))
    {
      jIn, xlateJson, tablesWithOutYang := config, map[], map[];
      CropConfigDB();
      NothingAdded(Uncovered(schema, old(config.tables)));
      ok, tables := XlateConfigDBtoYang();
      root := if ok then Some(LoadTree(schema, xlateJson)) else None;
    }

    /** Reads the data tree back. It fails if there is none: before the first load, and after one that failed. */
    method GetData() returns (r: Option<Database>, ghost left: Left)
      modifies this`xlateJson, this`revXlateJson, translator
      ensures root.None? ==> r.None? && xlateJson == old(xlateJson) && revXlateJson == old(revXlateJson)
                             && translator.elementPath == old(translator.elementPath)
      ensures root.Some? ==>
                var read := TableReader(schema, left);
                && LeftIn(left, old(translator.elementPath), root.value)
                && (r.Some? <==> EverythingRead(read, root.value))
                && (r.Some? ==> ReadAs(read, root.value, r.value) && revXlateJson == r.value)
      ensures r.Some? && old(translator.elementPath) == [] ==> translator.elementPath == []
    {
      if root.None? {
        return None, Nothing;
      }
      xlateJson, revXlateJson := root.value, map[];
      r, left := RevXlateYangtoConfigDB();
      if r.Some? {
        revXlateJson := r.value;
      }
    }

    /** Loads a database and reads it back. If it loads, what is read and the tables set aside make up the
        database again exactly when it is clean, for the name under which each table is written. */
    method LoadAndGet(config: ConfigDict) returns (r: Option<Database>, ghost tables: seq<string>)
      requires SchemaWellFormed(schema)
      modifies config, this`jIn, this`tablesWithOutYang, this`xlateJson, this`revXlateJson, this`root, translator
      ensures config.tables == Covered(schema, old(config.tables)) && Enumerates(tables, config.tables.Keys)
      ensures tablesWithOutYang == Uncovered(schema, old(config.tables))
      ensures var writing := Naming(old(translator.elementPath), tables);
              && (r.Some? ==> CanTranslateAll(schema, writing, config.tables))
              && (CanTranslateAll(schema, writing, config.tables) ==>
                    (r.Some? && r.value + tablesWithOutYang == old(config.tables) <==>
                     CleanDatabase(schema, writing, old(config.tables))))
    {
      ghost var path, before := translator.elementPath, config.tables;
      var ok;
      ok, tables := LoadData(config);
      if !ok {
        return None, tables;
      }
      ghost var y, writing := xlateJson, Naming(path, tables);
      ghost var left;
      NoTablesNoData(schema, writing, jIn.tables, tables, y);
      r, left := GetData();
      if CleanDatabase(schema, writing, before) {
        Reunited(schema, writing, before, tables, y, root.value, r);
      } else if r.Some? && r.value + tablesWithOutYang == before {
        OnlyCleanReunited(schema, writing, before, tables, y, r.value);
      }
    }

    /** Two loads on a new object. If the first fails, the second writes its first table under the name of a table
        that failed: it succeeds exactly when that table can be translated under that name and all others under their
        own. */
    static method LoadTwice(schema: Schema, before: Database, config: Database)
      returns (first: bool, second: bool, ghost stale: seq<string>, ghost tables: seq<string>)
      requires SchemaWellFormed(schema)
      ensures first <==> CanTranslateAll(schema, OWN, Covered(schema, before))
      ensures if first then stale == [] else FailedAt(schema, OWN, Covered(schema, before), stale)
      ensures Enumerates(tables, Covered(schema, config).Keys)
      ensures second <==> CanTranslateAll(schema, Naming(stale, tables), Covered(schema, config))
    {
      var yang := new SonicYang(schema);
      var former := new ConfigDict(before);
      var dict := new ConfigDict(config);
      ghost var tried;
      first, tried := yang.LoadData(former);
      OwnNames(schema, tried, former.tables);
      stale := yang.translator.elementPath;
      second, tables := yang.LoadData(dict);
    }
  }
}
