/** The database backup: what is written out, and how it is put back without breaking a
    foreign key. */
module Backup {
  import opened BackupCodec
  import Sets

  datatype Target = NoTarget | Refers(table: nat)

  datatype Column = Column(name: string, kind: ColumnType, nullable: bool, target: Target)

  /** Column 0 is the key, and the only column a foreign key names. */
  datatype Table = Table(name: string, columns: seq<Column>)

  /** The tables in the order they can be created in, and those a backup leaves out. */
  datatype Schema = Schema(tables: seq<Table>, excluded: set<string>)

  type Row = seq<Cell>

  type Tables = seq<set<Row>>

  predicate Excluded(s: Schema, t: nat)
    requires t < |s.tables|
  {
    s.tables[t].name in s.excluded
  }

  /** Parents come before children, names are distinct, and nothing in a backup refers to
      anything left out of it. */
  predicate ValidSchema(s: Schema) {
    && (forall t :: 0 <= t < |s.tables| ==> ValidTable(s, t))
    && (forall t, u :: 0 <= t < u < |s.tables| ==> s.tables[t].name != s.tables[u].name)
    && exists t :: 0 <= t < |s.tables| && s.tables[t].name == "users" && !Excluded(s, t)
  }

  predicate ValidTable(s: Schema, t: nat)
    requires t < |s.tables|
  {
    var columns := s.tables[t].columns;
    && columns != []
    && (forall c, d :: 0 <= c < d < |columns| ==> columns[c].name != columns[d].name)
    && (forall c :: 0 <= c < |columns| && columns[c].target.Refers? ==>
          columns[c].target.table < t && (!Excluded(s, t) ==> !Excluded(s, columns[c].target.table)))
  }

  // ----- foreign keys -----

  predicate HasKey(rows: set<Row>, key: Cell) {
    exists q :: q in rows && |q| > 0 && q[0] == key
  }

  /** The row fits its columns. */
  predicate FitsTable(table: Table, r: Row) {
    |r| == |table.columns| && forall c :: 0 <= c < |r| ==> Fits(table.columns[c].kind, r[c]) && (r[c] == Null ==> table.columns[c].nullable)
  }

  /** Everything the row points at is there. */
  predicate Rooted(s: Schema, db: Tables, t: nat, r: Row)
    requires t < |s.tables| == |db| && ValidTable(s, t)
  {
    |r| == |s.tables[t].columns| && forall c :: 0 <= c < |r| && s.tables[t].columns[c].target.Refers? ==>
      (r[c] == Null && s.tables[t].columns[c].nullable) || HasKey(db[s.tables[t].columns[c].target.table], r[c])
  }

  predicate KeysDistinct(rows: set<Row>) {
    forall q, r :: q in rows && r in rows && q != r && |q| > 0 && |r| > 0 ==> q[0] != r[0]
  }

  predicate TableConsistent(s: Schema, db: Tables, t: nat)
    requires t < |s.tables| == |db| && ValidTable(s, t)
  {
    KeysDistinct(db[t]) && forall r :: r in db[t] ==> FitsTable(s.tables[t], r) && Rooted(s, db, t, r)
  }

  predicate Consistent(s: Schema, db: Tables)
    requires ValidSchema(s)
  {
    |db| == |s.tables| && forall t :: 0 <= t < |db| ==> TableConsistent(s, db, t)
  }

  /** No row of another table points at this one, so emptying it sets off nothing. */
  predicate NothingRefers(s: Schema, db: Tables, t: nat)
    requires |db| == |s.tables|
  {
    forall u :: 0 <= u < |db| && u != t ==> ChildFree(s, db, u, t)
  }

  predicate ChildFree(s: Schema, db: Tables, u: nat, t: nat)
    requires u < |db| == |s.tables|
  {
    forall r, c :: r in db[u] && 0 <= c < |r| && c < |s.tables[u].columns| && s.tables[u].columns[c].target == Refers(t) ==> r[c] == Null
  }

  // ----- the file -----

  /** One row as the file has it, and one table; either may not be what it should. */
  datatype RawRow = NotAnObject | Fields(fields: map<string, Json>)
  datatype RawTable = NotAList | RawRows(rows: seq<RawRow>)
  datatype File = NotJson | File(format: string, version: int, tables: RawTables)
  datatype RawTables = NoTables | RawTables(tables: map<string, RawTable>)

  const FORMAT: string := "im-telligence-backup"
  const VERSION: int := 1

  datatype Problem = InvalidBackup | IntegrityError

  datatype Outcome<T> = Ok(value: T) | Err(problem: Problem)

  // ----- rows in the file -----

  /** A row as the file has it, up to column `n`. */
  function EncodeTo(f: Formats, table: Table, r: Row, n: nat): map<string, Json>
    requires n <= |r| == |table.columns|
  {
    if n == 0 then map[] else EncodeTo(f, table, r, n - 1)[table.columns[n - 1].name := Serialize(f, r[n - 1])]
  }

  function EncodeRow(f: Formats, table: Table, r: Row): RawRow
    requires |r| == |table.columns|
  {
    Fields(EncodeTo(f, table, r, |r|))
  }

  /** The columns the file names; a column it does not have is left empty. */
  function DecodeTo(f: Formats, table: Table, fields: map<string, Json>, n: nat): Read<Row>
    requires n <= |table.columns|
  {
    if n == 0 then Value([])
    else
      var column := table.columns[n - 1];
      match DecodeTo(f, table, fields, n - 1)
      case Unreadable => Unreadable
      case Value(front) =>
        if column.name !in fields then Value(front + [Null])
        else match Deserialize(f, column.kind, fields[column.name])
             case Unreadable => Unreadable
             case Value(c) => Value(front + [c])
  }

  function DecodeRows(f: Formats, table: Table, raw: seq<RawRow>): Read<seq<Row>> {
    if raw == [] then Value([])
    else
      match DecodeRows(f, table, raw[..|raw| - 1])
      case Unreadable => Unreadable
      case Value(front) =>
        match raw[|raw| - 1]
        case NotAnObject => Unreadable
        case Fields(fields) =>
          match DecodeTo(f, table, fields, |table.columns|)
          case Unreadable => Unreadable
          case Value(r) => Value(front + [r])
  }

  // ----- statements -----

  /** One row inserted, as the database lets it be. */
  predicate Insertable(s: Schema, db: Tables, t: nat, r: Row)
    requires t < |s.tables| == |db| && ValidTable(s, t)
  {
    FitsTable(s.tables[t], r) && Rooted(s, db, t, r) && !HasKey(db[t], r[0])
  }

  function InsertAll(s: Schema, db: Tables, t: nat, rows: seq<Row>): (o: Outcome<Tables>)
    requires t < |s.tables| == |db| && ValidTable(s, t)
    ensures o.Ok? ==> |o.value| == |db| && forall u :: 0 <= u < |db| && u != t ==> o.value[u] == db[u]
  {
    if rows == [] then Ok(db)
    else
      match InsertAll(s, db, t, rows[..|rows| - 1])
      case Err(p) => Err(p)
      case Ok(next) =>
        var r := rows[|rows| - 1];
        if Insertable(s, next, t, r) then Ok(next[t := next[t] + {r}]) else Err(IntegrityError)
  }

  /** The stashed rows that still point somewhere, all put back by one statement. */
  function Surviving(s: Schema, db: Tables, t: nat, stash: set<Row>): set<Row>
    requires t < |s.tables| == |db| && ValidTable(s, t)
  {
    set r | r in stash && Rooted(s, db, t, r)
  }

  function PutBack(s: Schema, db: Tables, t: nat, stash: set<Row>): (o: Outcome<Tables>)
    requires t < |s.tables| == |db| && ValidTable(s, t)
    ensures o.Ok? ==> |o.value| == |db| && forall u :: 0 <= u < |db| && u != t ==> o.value[u] == db[u]
  {
    var rows := Surviving(s, db, t, stash);
    if forall r :: r in rows ==> |r| > 0 && !HasKey(db[t], r[0]) then Ok(db[t := db[t] + rows]) else Err(IntegrityError)
  }

  function Cleared(s: Schema): Tables {
    seq(|s.tables|, t => {})
  }

  /** The first `n` tables loaded from the file. */
  function Loaded(s: Schema, f: Formats, tables: map<string, RawTable>, n: nat): (o: Outcome<Tables>)
    requires ValidSchema(s) && n <= |s.tables|
    ensures o.Ok? ==> |o.value| == |s.tables|
  {
    if n == 0 then Ok(Cleared(s))
    else
      match Loaded(s, f, tables, n - 1)
      case Err(p) => Err(p)
      case Ok(db) => LoadTable(s, f, tables, db, n - 1)
  }

  function LoadTable(s: Schema, f: Formats, tables: map<string, RawTable>, db: Tables, t: nat): (o: Outcome<Tables>)
    requires ValidSchema(s) && t < |s.tables| == |db|
    ensures o.Ok? ==> |o.value| == |db| && forall u :: 0 <= u < |db| && u != t ==> o.value[u] == db[u]
  {
    var table := s.tables[t];
    if table.name !in tables then Ok(db)
    else match tables[table.name]
         case NotAList => Err(InvalidBackup)
         case RawRows(raw) =>
           match DecodeRows(f, table, raw)
           case Unreadable => Err(InvalidBackup)
           case Value(rows) => InsertAll(s, db, t, rows)
  }

  /** The stashed tables among the first `n` put back. */
  function Returned(s: Schema, db: Tables, stash: Tables, n: nat): (o: Outcome<Tables>)
    requires ValidSchema(s) && n <= |s.tables| == |db| == |stash|
    ensures o.Ok? ==> |o.value| == |db|
  {
    if n == 0 then Ok(db)
    else
      match Returned(s, db, stash, n - 1)
      case Err(p) => Err(p)
      case Ok(next) => if Excluded(s, n - 1) then PutBack(s, next, n - 1, stash[n - 1]) else Ok(next)
  }

  predicate Readable(file: File) {
    file.File? && file.format == FORMAT && file.version == VERSION && file.tables.RawTables? && "users" in file.tables.tables
  }

  /** The whole restore of a file over a database. */
  function Restored(s: Schema, f: Formats, db: Tables, file: File): (o: Outcome<Tables>)
    requires ValidSchema(s) && |db| == |s.tables|
    ensures o.Ok? ==> |o.value| == |db|
  {
    if !Readable(file) then Err(InvalidBackup)
    else
      match Loaded(s, f, file.tables.tables, |db|)
      case Err(p) => Err(p)
      case Ok(next) => Returned(s, next, db, |db|)
  }

  // ----- the service -----

  class Database {
    const schema: Schema
    const formats: Formats
    var tables: Tables

    constructor (schema: Schema, formats: Formats, tables: Tables)
      ensures this.schema == schema && this.formats == formats && this.tables == tables
    {
      this.schema := schema;
      this.formats := formats;
      this.tables := tables;
    }

    ghost predicate Valid()
      reads this
    {
      ValidSchema(schema) && |tables| == |schema.tables|
    }

    /** Write out every table that is not left out. */
    method Snapshot() returns (file: File)
      requires Valid() && Consistent(schema, tables)
      ensures IsSnapshot(schema, formats, tables, file)
    {
      var out: map<string, RawTable> := map[];
      for t := 0 to |schema.tables|
        invariant WrittenTo(schema, formats, tables, out, t)
      {
        if !Excluded(schema, t) {
          assert TableConsistent(schema, tables, t);
          ghost var before := out;
          var order, raw := WriteTable(t);
          WroteTable(schema, formats, tables, before, t, order, raw);
          out := out[schema.tables[t].name := RawRows(raw)];
        }
      }
      file := File(FORMAT, VERSION, RawTables(out));
    }

    method WriteTable(t: nat) returns (ghost order: seq<Row>, raw: seq<RawRow>)
      requires Valid() && t < |tables| && ValidTable(schema, t) && TableConsistent(schema, tables, t)
      ensures WritesAs(formats, schema.tables[t], tables[t], RawRows(raw), order)
    {
      var rows := Sets.Enumerate(tables[t]);
      assert forall i :: 0 <= i < |rows| ==> rows[i] in rows && FitsTable(schema.tables[t], rows[i]);
      raw := seq(|rows|, i requires 0 <= i < |rows| => EncodeRow(formats, schema.tables[t], rows[i]));
      order := rows;
    }

    /** Empty one table. Nothing points at it by then, so no cascade and no restriction acts. */
    method DeleteAll(t: nat)
      requires Valid() && t < |tables| && NothingRefers(schema, tables, t)
      modifies this`tables
      ensures tables == old(tables)[t := {}]
    {
      tables := tables[t := {}];
    }

    /** Replace what a backup holds, keep what it leaves out; all of it or nothing. */
    method Restore(file: File) returns (o: Outcome<seq<string>>)
      requires Valid()
      modifies this`tables
      ensures Restored(schema, formats, old(tables), file).Ok? ==>
        o.Ok? && tables == Restored(schema, formats, old(tables), file).value
      ensures Restored(schema, formats, old(tables), file).Err? ==>
        o == Err(Restored(schema, formats, old(tables), file).problem) && tables == old(tables)
      ensures o.Ok? ==> o.value == NamesIn(schema, file, |schema.tables|)
    {
      if !Readable(file) {
        return Err(InvalidBackup);
      }
      var was := tables;
      Sweep();
      var loaded := LoadAll(file.tables.tables);
      if loaded.Err? {
        tables := was;
        return Err(loaded.problem);
      }
      var returned := ReturnAll(was);
      if returned.Err? {
        tables := was;
        return Err(returned.problem);
      }
      return Ok(NamesIn(schema, file, |schema.tables|));
    }

    /** Every table the file has, parents before children. */
    method LoadAll(raw: map<string, RawTable>) returns (o: Outcome<()>)
      requires Valid() && tables == Cleared(schema)
      modifies this`tables
      ensures |tables| == |schema.tables|
      ensures Loaded(schema, formats, raw, |schema.tables|) == if o.Ok? then Ok(tables) else Err(o.problem)
    {
      for t := 0 to |schema.tables|
        invariant Valid() && Loaded(schema, formats, raw, t) == Ok(tables)
      {
        var next := LoadTable(schema, formats, raw, tables, t);
        if next.Err? {
          LoadFailed(schema, formats, raw, t + 1, |schema.tables|);
          return Err(next.problem);
        }
        tables := next.value;
      }
      return Ok(());
    }

    /** The stashed tables, each put back as far as it still points somewhere. */
    method ReturnAll(stash: Tables) returns (o: Outcome<()>)
      requires Valid() && |stash| == |tables|
      modifies this`tables
      ensures |tables| == |schema.tables|
      ensures Returned(schema, old(tables), stash, |stash|) == if o.Ok? then Ok(tables) else Err(o.problem)
    {
      for t := 0 to |schema.tables|
        invariant Valid() && Returned(schema, old(tables), stash, t) == Ok(tables)
      {
        if Excluded(schema, t) {
          var next := PutBack(schema, tables, t, stash[t]);
          if next.Err? {
            ReturnFailed(schema, old(tables), stash, t + 1, |schema.tables|);
            return Err(next.problem);
          }
          tables := next.value;
        }
      }
      return Ok(());
    }

    /** Every table emptied, children before parents. */
    method Sweep()
      requires Valid()
      modifies this`tables
      ensures tables == Cleared(schema)
    {
      for t := |tables| downto 0
        invariant |tables| == |old(tables)|
        invariant forall u :: t <= u < |tables| ==> tables[u] == {}
      {
        assert NothingRefers(schema, tables, t) by {
          forall u | 0 <= u < |tables| && u != t ensures ChildFree(schema, tables, u, t) {
            assert ValidTable(schema, u);
          }
        }
        DeleteAll(t);
      }
    }
  }

  /** The tables of the first `n` that the file names, in order. */
  function NamesIn(s: Schema, file: File, n: nat): seq<string>
    requires n <= |s.tables|
  {
    if n == 0 || !Readable(file) then []
    else NamesIn(s, file, n - 1) + if s.tables[n - 1].name in file.tables.tables then [s.tables[n - 1].name] else []
  }

  lemma {:induction false} LoadFailed(s: Schema, f: Formats, tables: map<string, RawTable>, t: nat, n: nat)
    requires ValidSchema(s) && t <= n <= |s.tables| && Loaded(s, f, tables, t).Err?
    ensures Loaded(s, f, tables, n) == Loaded(s, f, tables, t)
  {
    if t < n {
      LoadFailed(s, f, tables, t, n - 1);
    }
  }

  lemma {:induction false} ReturnFailed(s: Schema, db: Tables, stash: Tables, t: nat, n: nat)
    requires ValidSchema(s) && t <= n <= |s.tables| == |db| == |stash| && Returned(s, db, stash, t).Err?
    ensures Returned(s, db, stash, n) == Returned(s, db, stash, t)
  {
    if t < n {
      ReturnFailed(s, db, stash, t, n - 1);
    }
  }

  // ----- what a snapshot is -----

  /** The table's rows, each once, in some order. */
  ghost predicate Writes(f: Formats, table: Table, rows: set<Row>, raw: RawTable) {
    exists order: seq<Row> :: WritesAs(f, table, rows, raw, order)
  }

  ghost predicate WritesAs(f: Formats, table: Table, rows: set<Row>, raw: RawTable, order: seq<Row>) {
    && raw.RawRows? && |raw.rows| == |order|
    && (forall r :: r in order <==> r in rows)
    && (forall i, j :: 0 <= i < j < |order| ==> order[i] != order[j])
    && (forall i :: 0 <= i < |order| ==> |order[i]| == |table.columns| && raw.rows[i] == EncodeRow(f, table, order[i]))
  }

  /** The included tables of the first `n`, written, and no others. */
  ghost predicate WrittenTo(s: Schema, f: Formats, db: Tables, out: map<string, RawTable>, n: nat)
    requires n <= |s.tables| == |db|
  {
    && (forall t :: 0 <= t < n && !Excluded(s, t) ==> s.tables[t].name in out && Writes(f, s.tables[t], db[t], out[s.tables[t].name]))
    && (forall name :: name in out ==> exists t :: 0 <= t < n && s.tables[t].name == name && !Excluded(s, t))
  }

  ghost predicate IsSnapshot(s: Schema, f: Formats, db: Tables, file: File)
    requires |s.tables| == |db|
  {
    && file.File? && file.format == FORMAT && file.version == VERSION && file.tables.RawTables?
    && WrittenTo(s, f, db, file.tables.tables, |db|)
  }

  lemma WroteTable(s: Schema, f: Formats, db: Tables, out: map<string, RawTable>, t: nat, order: seq<Row>, raw: seq<RawRow>)
    requires ValidSchema(s) && t < |s.tables| == |db| && !Excluded(s, t)
    requires WrittenTo(s, f, db, out, t) && WritesAs(f, s.tables[t], db[t], RawRows(raw), order)
    ensures WrittenTo(s, f, db, out[s.tables[t].name := RawRows(raw)], t + 1)
  {
    var next := out[s.tables[t].name := RawRows(raw)];
    forall u | 0 <= u < t + 1 && !Excluded(s, u) ensures s.tables[u].name in next && Writes(f, s.tables[u], db[u], next[s.tables[u].name]) {
      if u < t {
        assert s.tables[u].name != s.tables[t].name;
      }
    }
    forall name | name in next ensures exists u :: 0 <= u < t + 1 && s.tables[u].name == name && !Excluded(s, u) {
      if name != s.tables[t].name {
        var u :| 0 <= u < t && s.tables[u].name == name && !Excluded(s, u);
      }
    }
  }
}
