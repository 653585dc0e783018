/** What a restore leaves: the snapshot where there is one, and of what a backup leaves out
    every row that still has somewhere to point. */
module BackupRules {
  import opened BackupCodec
  import opened Backup

  /** Every value of the row survives being written and read. */
  predicate Plainly(r: Row) {
    forall c :: 0 <= c < |r| ==> !Disguised(r[c])
  }

  predicate AllPlainly(s: Schema, db: Tables)
    requires |db| == |s.tables|
  {
    forall t :: 0 <= t < |db| && !Excluded(s, t) ==> forall r :: r in db[t] ==> Plainly(r)
  }

  // ----- rows -----

  lemma {:induction false} EncodedField(f: Formats, table: Table, r: Row, n: nat, c: nat)
    requires c < n <= |r| == |table.columns|
    requires forall i, j :: 0 <= i < j < |table.columns| ==> table.columns[i].name != table.columns[j].name
    ensures table.columns[c].name in EncodeTo(f, table, r, n) && EncodeTo(f, table, r, n)[table.columns[c].name] == Serialize(f, r[c])
  {
    if c < n - 1 {
      EncodedField(f, table, r, n - 1, c);
    }
  }

  lemma {:induction false} RowRoundTrip(f: Formats, table: Table, r: Row, n: nat)
    requires Faithful(f) && FitsTable(table, r) && n <= |r| && Plainly(r)
    requires forall i, j :: 0 <= i < j < |table.columns| ==> table.columns[i].name != table.columns[j].name
    ensures DecodeTo(f, table, EncodeTo(f, table, r, |r|), n) == Value(r[..n])
  {
    if n > 0 {
      RowRoundTrip(f, table, r, n - 1);
      EncodedField(f, table, r, |r|, n - 1);
      ValueRoundTrip(f, table.columns[n - 1].kind, r[n - 1]);
      assert r[..n] == r[..n - 1] + [r[n - 1]];
    }
  }

  lemma {:induction false} RowsRoundTrip(f: Formats, table: Table, order: seq<Row>, raw: seq<RawRow>)
    requires Faithful(f) && |raw| == |order|
    requires forall i, j :: 0 <= i < j < |table.columns| ==> table.columns[i].name != table.columns[j].name
    requires forall i :: 0 <= i < |order| ==> FitsTable(table, order[i]) && Plainly(order[i]) && raw[i] == EncodeRow(f, table, order[i])
    ensures DecodeRows(f, table, raw) == Value(order)
  {
    if raw != [] {
      var n := |raw| - 1;
      RowsRoundTrip(f, table, order[..n], raw[..n]);
      RowRoundTrip(f, table, order[n], |order[n]|);
      assert order[n][..|order[n]|] == order[n];
      assert order == order[..n] + [order[n]];
    }
  }

  // ----- inserting -----

  function Elements(rows: seq<Row>): set<Row> {
    set r | r in rows
  }

  predicate DistinctKeys(rows: seq<Row>) {
    forall i, j :: 0 <= i < j < |rows| ==> |rows[i]| > 0 && |rows[j]| > 0 && rows[i][0] != rows[j][0]
  }

  /** Rows that fit and have their parents in place. */
  predicate Sound(s: Schema, db: Tables, t: nat, rows: seq<Row>)
    requires t < |s.tables| == |db| && ValidTable(s, t)
  {
    forall i :: 0 <= i < |rows| ==> FitsTable(s.tables[t], rows[i]) && Rooted(s, db, t, rows[i])
  }

  lemma InsertsOne(s: Schema, db: Tables, t: nat, front: seq<Row>, last: Row)
    requires t < |s.tables| == |db| && ValidTable(s, t) && db[t] == {}
    requires FitsTable(s.tables[t], last) && Rooted(s, db, t, last) && DistinctKeys(front + [last])
    ensures Insertable(s, db[t := Elements(front)], t, last)
    ensures Elements(front + [last]) == Elements(front) + {last}
  {
    var next := db[t := Elements(front)];
    assert Rooted(s, next, t, last);
    var rows := front + [last];
    forall q | q in front && |q| > 0 ensures q[0] != last[0] {
      var i :| 0 <= i < |front| && front[i] == q;
      assert rows[i] == q && rows[|front|] == last;
    }
  }

  lemma InsertsNext(s: Schema, db: Tables, t: nat, front: seq<Row>, last: Row)
    requires t < |s.tables| == |db| && ValidTable(s, t) && db[t] == {}
    requires FitsTable(s.tables[t], last) && Rooted(s, db, t, last) && DistinctKeys(front + [last])
    requires InsertAll(s, db, t, front) == Ok(db[t := Elements(front)])
    ensures InsertAll(s, db, t, front + [last]) == Ok(db[t := Elements(front + [last])])
  {
    var rows := front + [last];
    assert rows[..|front|] == front && rows[|front|] == last;
    InsertsOne(s, db, t, front, last);
    assert db[t := Elements(front)][t := Elements(front) + {last}] == db[t := Elements(rows)];
  }

  /** Rows go in one by one when they fit, point somewhere and bring keys of their own. */
  lemma {:induction false} InsertsAll(s: Schema, db: Tables, t: nat, rows: seq<Row>)
    requires t < |s.tables| == |db| && ValidTable(s, t) && db[t] == {}
    requires Sound(s, db, t, rows) && DistinctKeys(rows)
    ensures InsertAll(s, db, t, rows) == Ok(db[t := Elements(rows)])
  {
    if rows == [] {
      InsertsNone(db, t);
    } else {
      var front, last := rows[..|rows| - 1], rows[|rows| - 1];
      InsertsAll(s, db, t, front);
      assert rows == front + [last];
      InsertsNext(s, db, t, front, last);
    }
  }

  lemma InsertsNone(db: Tables, t: nat)
    requires t < |db| && db[t] == {}
    ensures db[t := Elements([])] == db
  {
    assert Elements([]) == {};
  }

  /** The rows of one table, as far as the first `n` tables of a snapshot are loaded. */
  predicate LoadedSoFar(s: Schema, source: Tables, db: Tables, n: nat)
    requires n <= |s.tables| == |source|
  {
    |db| == |source| && forall t :: 0 <= t < |db| ==> db[t] == if t < n && !Excluded(s, t) then source[t] else {}
  }

  lemma RootedWhereLoaded(s: Schema, source: Tables, db: Tables, t: nat, r: Row)
    requires ValidSchema(s) && t < |s.tables| == |source| && LoadedSoFar(s, source, db, t) && !Excluded(s, t)
    requires Rooted(s, source, t, r)
    ensures Rooted(s, db, t, r)
  {
    assert ValidTable(s, t);
  }

  /** The rows of a written table, ready to be inserted. */
  lemma WrittenRows(s: Schema, f: Formats, source: Tables, db: Tables, t: nat, raw: RawTable, order: seq<Row>)
    requires ValidSchema(s) && Consistent(s, source) && AllPlainly(s, source)
    requires t < |s.tables| && !Excluded(s, t) && LoadedSoFar(s, source, db, t)
    requires WritesAs(f, s.tables[t], source[t], raw, order)
    ensures ValidTable(s, t) && Sound(s, db, t, order) && DistinctKeys(order)
    ensures forall i :: 0 <= i < |order| ==> Plainly(order[i])
    ensures Elements(order) == source[t]
  {
    assert ValidTable(s, t) && TableConsistent(s, source, t);
    assert forall i :: 0 <= i < |order| ==> order[i] in order && order[i] in source[t];
    forall i | 0 <= i < |order| ensures Rooted(s, db, t, order[i]) {
      RootedWhereLoaded(s, source, db, t, order[i]);
    }
  }

  lemma LoadsTable(s: Schema, f: Formats, source: Tables, tables: map<string, RawTable>, db: Tables, t: nat)
    requires ValidSchema(s) && Faithful(f) && Consistent(s, source) && AllPlainly(s, source)
    requires t < |s.tables| && !Excluded(s, t) && LoadedSoFar(s, source, db, t)
    requires s.tables[t].name in tables && Writes(f, s.tables[t], source[t], tables[s.tables[t].name])
    ensures LoadTable(s, f, tables, db, t) == Ok(db[t := source[t]])
  {
    var raw := tables[s.tables[t].name];
    var order :| WritesAs(f, s.tables[t], source[t], raw, order);
    WrittenRows(s, f, source, db, t, raw, order);
    RowsRoundTrip(f, s.tables[t], order, raw.rows);
    InsertsAll(s, db, t, order);
  }

  lemma NotWritten(s: Schema, f: Formats, source: Tables, tables: map<string, RawTable>, t: nat)
    requires ValidSchema(s) && t < |s.tables| == |source| && Excluded(s, t) && WrittenTo(s, f, source, tables, |source|)
    ensures s.tables[t].name !in tables
  {
  }

  lemma LoadedOneMore(s: Schema, source: Tables, db: Tables, t: nat)
    requires t < |s.tables| == |source| && LoadedSoFar(s, source, db, t)
    ensures LoadedSoFar(s, source, if Excluded(s, t) then db else db[t := source[t]], t + 1)
  {
  }

  /** A file that holds the snapshot of a consistent database. */
  ghost predicate Holds(s: Schema, f: Formats, source: Tables, tables: map<string, RawTable>) {
    && ValidSchema(s) && Faithful(f)
    && Consistent(s, source) && AllPlainly(s, source)
    && WrittenTo(s, f, source, tables, |source|)
  }

  lemma LoadsNext(s: Schema, f: Formats, source: Tables, tables: map<string, RawTable>, db: Tables, t: nat)
    requires Holds(s, f, source, tables) && t < |s.tables| && LoadedSoFar(s, source, db, t)
    ensures var o := LoadTable(s, f, tables, db, t);
      o.Ok? && LoadedSoFar(s, source, o.value, t + 1)
  {
    LoadedOneMore(s, source, db, t);
    if Excluded(s, t) {
      NotWritten(s, f, source, tables, t);
    } else {
      LoadsTable(s, f, source, tables, db, t);
    }
  }

  ghost predicate LoadsEach(s: Schema, f: Formats, source: Tables, tables: map<string, RawTable>)
    requires ValidSchema(s) && |source| == |s.tables|
  {
    forall db: Tables, t: nat :: t < |s.tables| && LoadedSoFar(s, source, db, t) ==>
      LoadTable(s, f, tables, db, t).Ok? && LoadedSoFar(s, source, LoadTable(s, f, tables, db, t).value, t + 1)
  }

  /** Loading a snapshot breaks nothing and gives every table the snapshot has. */
  lemma {:induction false} LoadsSnapshot(s: Schema, f: Formats, source: Tables, tables: map<string, RawTable>, n: nat)
    requires ValidSchema(s) && |source| == |s.tables| && LoadsEach(s, f, source, tables) && n <= |s.tables|
    ensures Loaded(s, f, tables, n).Ok? && LoadedSoFar(s, source, Loaded(s, f, tables, n).value, n)
  {
    if n > 0 {
      LoadsSnapshot(s, f, source, tables, n - 1);
    }
  }

  lemma LoadsWhole(s: Schema, f: Formats, source: Tables, tables: map<string, RawTable>)
    requires Holds(s, f, source, tables)
    ensures Loaded(s, f, tables, |source|).Ok? && LoadedSoFar(s, source, Loaded(s, f, tables, |source|).value, |source|)
  {
    forall db: Tables, t: nat | t < |s.tables| && LoadedSoFar(s, source, db, t)
      ensures LoadTable(s, f, tables, db, t).Ok? && LoadedSoFar(s, source, LoadTable(s, f, tables, db, t).value, t + 1)
    {
      LoadsNext(s, f, source, tables, db, t);
    }
    LoadsSnapshot(s, f, source, tables, |source|);
  }

  // ----- putting back -----

  /** Of the tables a backup leaves out, exactly the rows whose parents are there. */
  predicate ReturnedSoFar(s: Schema, source: Tables, was: Tables, db: Tables, n: nat)
    requires ValidSchema(s) && n <= |s.tables| == |source| == |was|
  {
    |db| == |source| && forall t :: 0 <= t < |db| ==>
      db[t] == if !Excluded(s, t) then source[t] else if t < n then Surviving(s, db, t, was[t]) else {}
  }

  lemma SurvivorsStay(s: Schema, db: Tables, next: Tables, t: nat, n: nat, stash: set<Row>)
    requires ValidSchema(s) && t <= n < |s.tables| == |db| == |next|
    requires forall u :: 0 <= u < |db| && u != n ==> next[u] == db[u]
    ensures Surviving(s, next, t, stash) == Surviving(s, db, t, stash)
  {
    assert ValidTable(s, t);
    assert forall r :: Rooted(s, next, t, r) <==> Rooted(s, db, t, r);
  }

  lemma ReturnsTable(s: Schema, source: Tables, was: Tables, db: Tables, t: nat)
    requires ValidSchema(s) && t < |s.tables| == |source| == |was| && Excluded(s, t)
    requires ReturnedSoFar(s, source, was, db, t)
    ensures PutBack(s, db, t, was[t]).Ok? && ReturnedSoFar(s, source, was, PutBack(s, db, t, was[t]).value, t + 1)
  {
    assert ValidTable(s, t);
    var rows := Surviving(s, db, t, was[t]);
    var next := db[t := rows];
    assert db[t] + rows == rows;
    assert forall r :: r in rows ==> |r| > 0 && !HasKey(db[t], r[0]);
    forall u | 0 <= u <= t && Excluded(s, u) ensures Surviving(s, next, u, was[u]) == Surviving(s, db, u, was[u]) {
      SurvivorsStay(s, db, next, u, t, was[u]);
    }
  }

  lemma {:induction false} ReturnsAll(s: Schema, source: Tables, was: Tables, db: Tables, n: nat)
    requires ValidSchema(s) && n <= |s.tables| == |source| == |was| && LoadedSoFar(s, source, db, |source|)
    ensures Returned(s, db, was, n).Ok? && ReturnedSoFar(s, source, was, Returned(s, db, was, n).value, n)
  {
    if n > 0 {
      ReturnsAll(s, source, was, db, n - 1);
      if Excluded(s, n - 1) {
        ReturnsTable(s, source, was, Returned(s, db, was, n - 1).value, n - 1);
      }
    }
  }

  // ----- what a restore can hold -----

  lemma {:induction false} DecodedPlain(f: Formats, table: Table, fields: map<string, Json>, n: nat)
    requires n <= |table.columns|
    ensures DecodeTo(f, table, fields, n).Value? ==> Plainly(DecodeTo(f, table, fields, n).value)
  {
    if n > 0 {
      DecodedPlain(f, table, fields, n - 1);
      var column := table.columns[n - 1];
      if column.name in fields {
        ReadIsNeverDisguised(f, column.kind, fields[column.name]);
      }
    }
  }

  predicate AllRowsPlain(rows: seq<Row>) {
    forall i :: 0 <= i < |rows| ==> Plainly(rows[i])
  }

  lemma {:induction false} DecodedRowsPlain(f: Formats, table: Table, raw: seq<RawRow>)
    ensures DecodeRows(f, table, raw).Value? ==> AllRowsPlain(DecodeRows(f, table, raw).value)
  {
    if raw != [] {
      DecodedRowsPlain(f, table, raw[..|raw| - 1]);
      if raw[|raw| - 1].Fields? {
        DecodedPlain(f, table, raw[|raw| - 1].fields, |table.columns|);
      }
    }
  }

  predicate PlainTable(rows: set<Row>) {
    forall r :: r in rows ==> Plainly(r)
  }

  lemma {:induction false} InsertedPlain(s: Schema, db: Tables, t: nat, rows: seq<Row>)
    requires t < |s.tables| == |db| && ValidTable(s, t) && PlainTable(db[t]) && AllRowsPlain(rows)
    ensures InsertAll(s, db, t, rows).Ok? ==> PlainTable(InsertAll(s, db, t, rows).value[t])
  {
    if rows != [] {
      InsertedPlain(s, db, t, rows[..|rows| - 1]);
    }
  }

  lemma LoadsPlain(s: Schema, f: Formats, tables: map<string, RawTable>, db: Tables, t: nat)
    requires ValidSchema(s) && t < |s.tables| == |db| && PlainTable(db[t])
    ensures LoadTable(s, f, tables, db, t).Ok? ==> PlainTable(LoadTable(s, f, tables, db, t).value[t])
  {
    var table := s.tables[t];
    assert ValidTable(s, t);
    if table.name in tables && tables[table.name].RawRows? {
      DecodedRowsPlain(f, table, tables[table.name].rows);
      if DecodeRows(f, table, tables[table.name].rows).Value? {
        InsertedPlain(s, db, t, DecodeRows(f, table, tables[table.name].rows).value);
      }
    }
  }

  lemma {:induction false} LoadedPlain(s: Schema, f: Formats, tables: map<string, RawTable>, n: nat, t: nat)
    requires ValidSchema(s) && n <= |s.tables| && t < |s.tables|
    ensures Loaded(s, f, tables, n).Ok? ==> PlainTable(Loaded(s, f, tables, n).value[t])
  {
    if n > 0 && Loaded(s, f, tables, n).Ok? {
      LoadedPlain(s, f, tables, n - 1, t);
      if t == n - 1 {
        LoadsPlain(s, f, tables, Loaded(s, f, tables, n - 1).value, t);
      }
    }
  }

  lemma {:induction false} ReturnLeavesIncluded(s: Schema, db: Tables, stash: Tables, n: nat, t: nat)
    requires ValidSchema(s) && n <= |s.tables| == |db| == |stash| && t < |s.tables| && !Excluded(s, t)
    ensures Returned(s, db, stash, n).Ok? ==> Returned(s, db, stash, n).value[t] == db[t]
  {
    if n > 0 && Returned(s, db, stash, n).Ok? {
      ReturnLeavesIncluded(s, db, stash, n - 1, t);
    }
  }

  /** Whatever the file, a restored table holds no object with the bytes mark. */
  lemma RestoredIsPlain(s: Schema, f: Formats, was: Tables, file: File)
    requires ValidSchema(s) && |was| == |s.tables|
    ensures Restored(s, f, was, file).Ok? ==> AllPlainly(s, Restored(s, f, was, file).value)
  {
    if Restored(s, f, was, file).Ok? {
      var loaded := Loaded(s, f, file.tables.tables, |was|).value;
      forall t | 0 <= t < |was| && !Excluded(s, t) ensures PlainTable(Restored(s, f, was, file).value[t]) {
        LoadedPlain(s, f, file.tables.tables, |was|, t);
        ReturnLeavesIncluded(s, loaded, was, |was|, t);
      }
    }
  }

  // ----- main results -----

  lemma SnapshotReadable(s: Schema, f: Formats, source: Tables, file: File)
    requires ValidSchema(s) && |source| == |s.tables| && IsSnapshot(s, f, source, file)
    ensures Readable(file)
  {
    var users :| 0 <= users < |s.tables| && s.tables[users].name == "users" && !Excluded(s, users);
    assert "users" in file.tables.tables;
  }

  lemma ReturnedStaysConsistent(s: Schema, source: Tables, was: Tables, now: Tables)
    requires ValidSchema(s) && Consistent(s, source) && Consistent(s, was)
    requires ReturnedSoFar(s, source, was, now, |s.tables|)
    ensures Consistent(s, now)
  {
    forall t | 0 <= t < |s.tables| ensures TableConsistent(s, now, t) {
      StaysConsistent(s, source, was, now, t);
    }
  }

  lemma PlainRestores(s: Schema, f: Formats, source: Tables, was: Tables, file: File)
    requires ValidSchema(s) && Faithful(f) && Consistent(s, source) && AllPlainly(s, source)
    requires Consistent(s, was) && IsSnapshot(s, f, source, file)
    ensures PutsBack(s, f, source, was, file) && Consistent(s, Restored(s, f, was, file).value)
  {
    var tables := file.tables.tables;
    SnapshotReadable(s, f, source, file);
    LoadsWhole(s, f, source, tables);
    var loaded := Loaded(s, f, tables, |was|).value;
    ReturnsAll(s, source, was, loaded, |was|);
    var now := Returned(s, loaded, was, |was|).value;
    ReturnedStaysConsistent(s, source, was, now);
    forall t, r | 0 <= t < |now| && Excluded(s, t) ensures r in now[t] <==> r in was[t] && KeepsParents(s, source, now, t, r) {
      SurvivorsSpelledOut(s, source, was, now, t, r);
    }
  }

  /** A row of the key is in the table. */
  predicate Keyed(rows: set<Row>, key: Cell) {
    exists q :: q in rows && q != [] && q[0] == key
  }

  /** What each foreign key of a row names is in `source`, or in `now` for the tables a backup
      leaves out; one that may be empty and is names nothing. */
  predicate KeepsParents(s: Schema, source: Tables, now: Tables, t: nat, r: Row)
    requires ValidSchema(s) && t < |s.tables| == |source| == |now|
  {
    var columns := s.tables[t].columns;
    forall c :: 0 <= c < |columns| && columns[c].target.Refers? ==>
      c < |r| && columns[c].target.table < t
      && ((r[c] == Null && columns[c].nullable)
          || Keyed(if Excluded(s, columns[c].target.table) then now[columns[c].target.table] else source[columns[c].target.table], r[c]))
  }

  /** Every table the snapshot holds becomes what it was, and of the rest each row is kept or
      dropped by itself: it stays exactly when its own parents are there. */
  ghost predicate PutsBack(s: Schema, f: Formats, source: Tables, was: Tables, file: File)
    requires ValidSchema(s) && |source| == |was| == |s.tables|
  {
    var o := Restored(s, f, was, file);
    && o.Ok?
    && (forall t :: 0 <= t < |o.value| && !Excluded(s, t) ==> o.value[t] == source[t])
    && (forall t, r :: 0 <= t < |o.value| && Excluded(s, t) ==>
          (r in o.value[t] <==> r in was[t] && KeepsParents(s, source, o.value, t, r)))
  }

  lemma ParentSpelledOut(s: Schema, source: Tables, now: Tables, u: nat, key: Cell)
    requires u < |s.tables| == |source| == |now| && (!Excluded(s, u) ==> now[u] == source[u])
    ensures HasKey(now[u], key) <==> Keyed(if Excluded(s, u) then now[u] else source[u], key)
  {
  }

  lemma RootedSpelledOut(s: Schema, source: Tables, now: Tables, t: nat, r: Row)
    requires ValidSchema(s) && t < |s.tables| == |source| == |now| && ValidTable(s, t) && |r| == |s.tables[t].columns|
    requires forall u :: 0 <= u < |now| && !Excluded(s, u) ==> now[u] == source[u]
    ensures Rooted(s, now, t, r) <==> KeepsParents(s, source, now, t, r)
  {
    forall u, key | 0 <= u < |now|
      ensures HasKey(now[u], key) <==> Keyed(if Excluded(s, u) then now[u] else source[u], key)
    {
      ParentSpelledOut(s, source, now, u, key);
    }
  }

  lemma SurvivorsSpelledOut(s: Schema, source: Tables, was: Tables, now: Tables, t: nat, r: Row)
    requires ValidSchema(s) && |s.tables| == |source| == |was| == |now| && t < |was| && Excluded(s, t)
    requires Consistent(s, was) && ReturnedSoFar(s, source, was, now, |s.tables|)
    ensures r in now[t] <==> r in was[t] && KeepsParents(s, source, now, t, r)
  {
    assert ValidTable(s, t) && TableConsistent(s, was, t);
    assert now[t] == Surviving(s, now, t, was[t]);
    if r in was[t] {
      assert FitsTable(s.tables[t], r);
      RootedSpelledOut(s, source, now, t, r);
    }
  }

  /** A snapshot of a consistent database is put back onto any other exactly when no row in it
      keeps an object with the bytes mark; and the whole is consistent then. */
  lemma RestorePutsBack(s: Schema, f: Formats, source: Tables, was: Tables, file: File)
    requires ValidSchema(s) && Faithful(f) && Consistent(s, source)
    requires Consistent(s, was) && IsSnapshot(s, f, source, file)
    ensures PutsBack(s, f, source, was, file) <==> AllPlainly(s, source)
    ensures PutsBack(s, f, source, was, file) ==> Consistent(s, Restored(s, f, was, file).value)
  {
    if AllPlainly(s, source) {
      PlainRestores(s, f, source, was, file);
    } else {
      RestoredIsPlain(s, f, was, file);
      var t :| 0 <= t < |source| && !Excluded(s, t) && !PlainTable(source[t]);
      assert Restored(s, f, was, file).Ok? ==> PlainTable(Restored(s, f, was, file).value[t]);
    }
  }

  predicate ServiceRow(r: Row) {
    forall c :: 0 <= c < |r| && r[c].Tree? ==> ServiceTree(r[c].json)
  }

  /** Every JSON value is one the service keeps. */
  predicate ServiceRows(rows: set<Row>) {
    forall r :: r in rows ==> ServiceRow(r)
  }

  lemma ServiceRowsArePlain(rows: set<Row>)
    requires ServiceRows(rows)
    ensures PlainTable(rows)
  {
    forall r | r in rows ensures Plainly(r) {
      forall c | 0 <= c < |r| ensures !Disguised(r[c]) {
        ServiceTreesArePlain(r[c]);
      }
    }
  }

  /** What the service's JSON columns can hold is never such an object, so its backups always
      restore. */
  lemma ServiceBackupsRestore(s: Schema, f: Formats, source: Tables, was: Tables, file: File)
    requires ValidSchema(s) && Faithful(f) && Consistent(s, source) && Consistent(s, was) && IsSnapshot(s, f, source, file)
    requires forall t :: 0 <= t < |source| ==> ServiceRows(source[t])
    ensures PutsBack(s, f, source, was, file) && Consistent(s, Restored(s, f, was, file).value)
    ensures was == source ==> Restored(s, f, was, file) == Ok(source)
  {
    forall t | 0 <= t < |source| ensures PlainTable(source[t]) {
      ServiceRowsArePlain(source[t]);
    }
    RestorePutsBack(s, f, source, was, file);
    if was == source {
      SnapshotThenRestore(s, f, source, file);
    }
  }

  lemma StaysConsistent(s: Schema, source: Tables, was: Tables, now: Tables, t: nat)
    requires ValidSchema(s) && Consistent(s, source) && Consistent(s, was) && t < |s.tables|
    requires ReturnedSoFar(s, source, was, now, |s.tables|)
    ensures TableConsistent(s, now, t)
  {
    assert ValidTable(s, t) && TableConsistent(s, source, t) && TableConsistent(s, was, t);
    if !Excluded(s, t) {
      forall r | r in now[t] ensures Rooted(s, now, t, r) {
        assert Rooted(s, source, t, r);
      }
    }
  }

  /** Restoring a database's own snapshot changes nothing at all, on the same condition. */
  lemma SnapshotThenRestore(s: Schema, f: Formats, db: Tables, file: File)
    requires ValidSchema(s) && Faithful(f) && Consistent(s, db) && IsSnapshot(s, f, db, file)
    ensures Restored(s, f, db, file) == Ok(db) <==> AllPlainly(s, db)
  {
    RestorePutsBack(s, f, db, db, file);
    if AllPlainly(s, db) {
      var now := Restored(s, f, db, file).value;
      SameUpTo(s, db, now, |db|);
      assert now == db;
    }
    RestoredIsPlain(s, f, db, file);
  }

  lemma {:induction false} SameUpTo(s: Schema, db: Tables, now: Tables, n: nat)
    requires ValidSchema(s) && Consistent(s, db) && |now| == |db| && n <= |db|
    requires |s.tables| == |db| && forall t :: 0 <= t < |now| && !Excluded(s, t) ==> now[t] == db[t]
    requires forall t, r :: 0 <= t < |now| && Excluded(s, t) ==> (r in now[t] <==> r in db[t] && KeepsParents(s, db, now, t, r))
    ensures forall t :: 0 <= t < n ==> now[t] == db[t]
  {
    if n > 0 {
      SameUpTo(s, db, now, n - 1);
      if Excluded(s, n - 1) {
        var rows := db[n - 1];
        assert ValidTable(s, n - 1) && TableConsistent(s, db, n - 1);
        forall r | r in rows ensures KeepsParents(s, db, now, n - 1, r) {
          assert Rooted(s, db, n - 1, r);
        }
      }
    }
  }

  /** Whatever the file, a restore that is accepted leaves every foreign key satisfied. */
  lemma RestoreKeepsConsistency(s: Schema, f: Formats, was: Tables, file: File)
    requires ValidSchema(s) && Consistent(s, was)
    ensures Restored(s, f, was, file).Ok? ==> Consistent(s, Restored(s, f, was, file).value)
  {
    if Restored(s, f, was, file).Ok? {
      LoadedConsistent(s, f, file.tables.tables, |was|);
      ReturnedConsistent(s, Loaded(s, f, file.tables.tables, |was|).value, was, |was|);
    }
  }

  /** A row of a table as it should be: whole, empty only where it may be, with everything it
      points at in place, and with a key of its own. */
  ghost predicate SoundRow(s: Schema, db: Tables, t: nat, r: Row)
    requires t < |s.tables| == |db|
  {
    var columns := s.tables[t].columns;
    && r != [] && |r| == |columns|
    && (forall c :: 0 <= c < |r| && r[c] == Null ==> columns[c].nullable)
    && (forall c :: 0 <= c < |r| && columns[c].target.Refers? && r[c] != Null ==>
          columns[c].target.table < t && Keyed(db[columns[c].target.table], r[c]))
    && (forall q :: q in db[t] && q != r && q != [] ==> q[0] != r[0])
  }

  /** Whatever the file, every row of every table is sound after a restore that is accepted. */
  lemma AcceptedRowsAreSound(s: Schema, f: Formats, was: Tables, file: File, t: nat, r: Row)
    requires ValidSchema(s) && Consistent(s, was) && t < |s.tables|
    requires Restored(s, f, was, file).Ok? && r in Restored(s, f, was, file).value[t]
    ensures SoundRow(s, Restored(s, f, was, file).value, t, r)
  {
    var now := Restored(s, f, was, file).value;
    RestoreKeepsConsistency(s, f, was, file);
    assert ValidTable(s, t) && TableConsistent(s, now, t);
    forall u, key | 0 <= u < |now| ensures HasKey(now[u], key) <==> Keyed(now[u], key) {
      KeyedHere(now[u], key);
    }
  }

  /** A row fits its table exactly when it is as long and each of its cells is empty where it may
      be, or of the column's type. */
  lemma FitsExactly(table: Table, r: Row)
    ensures FitsTable(table, r) <==>
      |r| == |table.columns| && forall c :: 0 <= c < |r| ==> if r[c] == Null then table.columns[c].nullable else Fits(table.columns[c].kind, r[c])
  {
  }

  lemma KeyedHere(rows: set<Row>, key: Cell)
    ensures HasKey(rows, key) <==> Keyed(rows, key)
  {
  }

  /** A file that is not one of this service's backups, of this version and with its users in it,
      is refused for that. */
  lemma ForeignFilesAreRefused(s: Schema, f: Formats, was: Tables, file: File)
    requires ValidSchema(s) && |was| == |s.tables|
    requires !(file.File? && file.format == "im-telligence-backup" && file.version == 1 && file.tables.RawTables? && "users" in file.tables.tables)
    ensures Restored(s, f, was, file) == Err(InvalidBackup)
  {
  }

  /** What a restore reports are the tables it found in the file, each once. */
  lemma {:induction false} NamesAreOfTables(s: Schema, file: File, n: nat, name: string)
    requires ValidSchema(s) && n <= |s.tables|
    ensures name in NamesIn(s, file, n) <==>
      Readable(file) && name in file.tables.tables && exists t :: 0 <= t < n && s.tables[t].name == name
    ensures forall i, j :: 0 <= i < j < |NamesIn(s, file, n)| ==> NamesIn(s, file, n)[i] != NamesIn(s, file, n)[j]
  {
    if n > 0 {
      NamesAreOfTables(s, file, n - 1, name);
      if Readable(file) && s.tables[n - 1].name in file.tables.tables {
        NamesAreOfTables(s, file, n - 1, s.tables[n - 1].name);
        assert s.tables[n - 1].name !in NamesIn(s, file, n - 1);
      }
    }
  }

  /** Emptying a table nothing refers to orphans no row of another. */
  lemma EmptyingOrphansNothing(s: Schema, db: Tables, t: nat, u: nat, r: Row)
    requires ValidSchema(s) && t < |s.tables| == |db| && NothingRefers(s, db, t)
    requires u < |db| && u != t && r in db[u] && FitsTable(s.tables[u], r) && Rooted(s, db, u, r)
    ensures Rooted(s, db[t := {}], u, r)
  {
    assert ValidTable(s, u) && ChildFree(s, db, u, t);
  }

  lemma LoadKeepsConsistent(s: Schema, f: Formats, tables: map<string, RawTable>, db: Tables, t: nat)
    requires ValidSchema(s) && t < |s.tables| && Consistent(s, db)
    ensures LoadTable(s, f, tables, db, t).Ok? ==> Consistent(s, LoadTable(s, f, tables, db, t).value)
  {
    var table := s.tables[t];
    if table.name in tables && tables[table.name].RawRows? && DecodeRows(f, table, tables[table.name].rows).Value? {
      InsertKeepsConsistent(s, db, t, DecodeRows(f, table, tables[table.name].rows).value);
    }
  }

  lemma ClearedConsistent(s: Schema)
    requires ValidSchema(s)
    ensures Consistent(s, Cleared(s))
  {
    assert forall t :: 0 <= t < |s.tables| ==> TableConsistent(s, Cleared(s), t);
  }

  ghost predicate LoadKeepsEach(s: Schema, f: Formats, tables: map<string, RawTable>)
    requires ValidSchema(s)
  {
    forall db: Tables, t: nat :: t < |s.tables| && Consistent(s, db) && LoadTable(s, f, tables, db, t).Ok? ==>
      Consistent(s, LoadTable(s, f, tables, db, t).value)
  }

  lemma {:induction false} LoadedStaysConsistent(s: Schema, f: Formats, tables: map<string, RawTable>, n: nat)
    requires ValidSchema(s) && n <= |s.tables| && LoadKeepsEach(s, f, tables) && Consistent(s, Cleared(s))
    ensures Loaded(s, f, tables, n).Ok? ==> Consistent(s, Loaded(s, f, tables, n).value)
  {
    if n > 0 && Loaded(s, f, tables, n).Ok? {
      LoadedStaysConsistent(s, f, tables, n - 1);
    }
  }

  lemma LoadedConsistent(s: Schema, f: Formats, tables: map<string, RawTable>, n: nat)
    requires ValidSchema(s) && n <= |s.tables|
    ensures Loaded(s, f, tables, n).Ok? ==> Consistent(s, Loaded(s, f, tables, n).value)
  {
    ClearedConsistent(s);
    forall db: Tables, t: nat | t < |s.tables| && Consistent(s, db) && LoadTable(s, f, tables, db, t).Ok?
      ensures Consistent(s, LoadTable(s, f, tables, db, t).value)
    {
      LoadKeepsConsistent(s, f, tables, db, t);
    }
    LoadedStaysConsistent(s, f, tables, n);
  }

  /** A table grown by rows that are themselves sound leaves every table sound. */
  lemma GrowKeepsConsistent(s: Schema, db: Tables, t: nat, rows: set<Row>)
    requires ValidSchema(s) && Consistent(s, db) && t < |db|
    requires KeysDistinct(db[t] + rows)
    requires forall r :: r in rows ==> FitsTable(s.tables[t], r) && Rooted(s, db, t, r)
    ensures Consistent(s, db[t := db[t] + rows])
  {
    var next := db[t := db[t] + rows];
    forall u | 0 <= u < |db| ensures TableConsistent(s, next, u) {
      assert ValidTable(s, u) && TableConsistent(s, db, u);
      forall r | r in next[u] ensures FitsTable(s.tables[u], r) && Rooted(s, next, u, r) {
        assert Rooted(s, db, u, r);
        forall c | 0 <= c < |r| && s.tables[u].columns[c].target.Refers? && HasKey(db[s.tables[u].columns[c].target.table], r[c])
          ensures HasKey(next[s.tables[u].columns[c].target.table], r[c])
        {
          var p := s.tables[u].columns[c].target.table;
          var q :| q in db[p] && |q| > 0 && q[0] == r[c];
          assert q in next[p];
        }
      }
    }
  }

  lemma {:induction false} InsertKeepsConsistent(s: Schema, db: Tables, t: nat, rows: seq<Row>)
    requires ValidSchema(s) && Consistent(s, db) && t < |db|
    ensures InsertAll(s, db, t, rows).Ok? ==> Consistent(s, InsertAll(s, db, t, rows).value)
  {
    if rows != [] && InsertAll(s, db, t, rows).Ok? {
      InsertKeepsConsistent(s, db, t, rows[..|rows| - 1]);
      var next, r := InsertAll(s, db, t, rows[..|rows| - 1]).value, rows[|rows| - 1];
      assert TableConsistent(s, next, t);
      assert forall q :: q in next[t] && |q| > 0 ==> q[0] != r[0];
      GrowKeepsConsistent(s, next, t, {r});
    }
  }

  lemma PutBackKeepsConsistent(s: Schema, db: Tables, was: Tables, t: nat)
    requires ValidSchema(s) && Consistent(s, db) && Consistent(s, was) && t < |db|
    ensures PutBack(s, db, t, was[t]).Ok? ==> Consistent(s, PutBack(s, db, t, was[t]).value)
  {
    assert ValidTable(s, t) && TableConsistent(s, was, t) && TableConsistent(s, db, t);
    if PutBack(s, db, t, was[t]).Ok? {
      var rows := Surviving(s, db, t, was[t]);
      forall q, r | q in db[t] && r in rows && |q| > 0 ensures q[0] != r[0] {
        assert !HasKey(db[t], r[0]);
      }
      GrowKeepsConsistent(s, db, t, rows);
    }
  }

  lemma {:induction false} ReturnedConsistent(s: Schema, db: Tables, was: Tables, n: nat)
    requires ValidSchema(s) && Consistent(s, db) && Consistent(s, was) && n <= |db|
    ensures Returned(s, db, was, n).Ok? ==> Consistent(s, Returned(s, db, was, n).value)
  {
    if n > 0 && Returned(s, db, was, n).Ok? {
      ReturnedConsistent(s, db, was, n - 1);
      PutBackKeepsConsistent(s, Returned(s, db, was, n - 1).value, was, n - 1);
    }
  }
}
