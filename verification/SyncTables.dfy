/**
 * Tables, keys and foreign keys as values, and what the three passes of
 * scripts/sync_prod_to_test_db.py do to them, one table at a time.
 */
module SyncTables {
  import opened Prelude
  import opened DependencyOrder

  datatype Value = Null | Num(n: int) | Text(s: string)

  datatype Row = Row(cells: seq<Value>)

  datatype Key = Key(parts: seq<Value>)

  type Table = map<Key, Row>

  type Db = map<Name, Table>

  datatype SequenceColumn = SequenceColumn(column: nat, sequence: Name)

  datatype TableSpec = TableSpec(columns: seq<Name>, primaryKey: seq<nat>, sequences: seq<SequenceColumn>)

  const PIECES := Name("performance_pieces")
  const PERFORMANCE_ID := Name("performance_id")

  function Cell(row: Row, column: nat): Value {
    if column < |row.cells| then row.cells[column] else Null
  }

  function Project(row: Row, columns: seq<nat>): Key {
    Key(seq(|columns|, i requires 0 <= i < |columns| => Cell(row, columns[i])))
  }

  /** MATCH SIMPLE: a reference with a NULL part refers to nothing. */
  predicate Refers(row: Row, fk: ForeignKey) {
    Null !in Project(row, fk.childColumns).parts
  }

  predicate RefHolds(db: Db, fk: ForeignKey, row: Row)
    requires fk.parentTable in db
  {
    Refers(row, fk) ==> Project(row, fk.childColumns) in db[fk.parentTable]
  }

  /** Both ends of every foreign key are tables of the database. */
  predicate Scoped(db: Db, fks: seq<ForeignKey>) {
    forall fk :: fk in fks ==> fk.parentTable in db && fk.childTable in db
  }

  /** No row refers to a missing parent. */
  predicate Intact(db: Db, fks: seq<ForeignKey>)
    requires Scoped(db, fks)
  {
    forall fk, k :: fk in fks && k in db[fk.childTable] ==> RefHolds(db, fk, db[fk.childTable][k])
  }

  /** The parent has a row whose key is what stands in the reference columns. */
  ghost predicate HasParentRow(db: Db, fk: ForeignKey, row: Row)
    requires fk.parentTable in db
  {
    exists p :: p in db[fk.parentTable] && |p.parts| == |fk.childColumns| &&
      forall i :: 0 <= i < |fk.childColumns| ==> p.parts[i] == Cell(row, fk.childColumns[i])
  }

  ghost predicate SomeColumnIsNull(row: Row, columns: seq<nat>) {
    exists i :: 0 <= i < |columns| && Cell(row, columns[i]) == Null
  }

  lemma ReferenceHolds(db: Db, fk: ForeignKey, row: Row)
    requires fk.parentTable in db
    ensures RefHolds(db, fk, row) <==> SomeColumnIsNull(row, fk.childColumns) || HasParentRow(db, fk, row)
  {
    var key := Project(row, fk.childColumns);
    assert Null in key.parts <==> SomeColumnIsNull(row, fk.childColumns) by {
      if i :| 0 <= i < |fk.childColumns| && Cell(row, fk.childColumns[i]) == Null {
        assert key.parts[i] == Null;
      }
    }
    if HasParentRow(db, fk, row) {
      var p :| p in db[fk.parentTable] && |p.parts| == |fk.childColumns| && forall i :: 0 <= i < |fk.childColumns| ==> p.parts[i] == Cell(row, fk.childColumns[i]);
      assert p.parts == key.parts && p == key;
    }
    if key in db[fk.parentTable] {
      assert HasParentRow(db, fk, row);
    }
  }

  /** A database is intact when every row, in every reference, has a NULL column or a parent row. */
  lemma IntactMeans(db: Db, fks: seq<ForeignKey>)
    requires Scoped(db, fks)
    ensures Intact(db, fks) <==> forall fk, k :: fk in fks && k in db[fk.childTable] ==>
              SomeColumnIsNull(db[fk.childTable][k], fk.childColumns) || HasParentRow(db, fk, db[fk.childTable][k])
  {
    forall fk, k | fk in fks && k in db[fk.childTable]
      ensures RefHolds(db, fk, db[fk.childTable][k]) <==> SomeColumnIsNull(db[fk.childTable][k], fk.childColumns) || HasParentRow(db, fk, db[fk.childTable][k])
    {
      ReferenceHolds(db, fk, db[fk.childTable][k]);
    }
  }

  /** The rows a table holds once every source row was written over it, the last writer of a key winning. */
  function Upserted(table: Table, rows: seq<Row>, primaryKey: seq<nat>): Table {
    if rows == [] then table
    else
      var row := rows[|rows| - 1];
      Upserted(table, rows[..|rows| - 1], primaryKey)[Project(row, primaryKey) := row]
  }

  function Keys(rows: seq<Row>, primaryKey: seq<nat>): set<Key> {
    set r | r in rows :: Project(r, primaryKey)
  }

  /** Writing rows over a table is overriding it with the table those rows form on their own. */
  lemma {:induction false} UpsertIsOverride(table: Table, rows: seq<Row>, primaryKey: seq<nat>)
    ensures Upserted(table, rows, primaryKey) == table + Upserted(map[], rows, primaryKey)
    ensures Upserted(map[], rows, primaryKey).Keys == Keys(rows, primaryKey)
  {
    if rows != [] {
      var rest, row := rows[..|rows| - 1], rows[|rows| - 1];
      assert rows == rest + [row];
      UpsertIsOverride(table, rest, primaryKey);
      assert Keys(rows, primaryKey) == Keys(rest, primaryKey) + {Project(row, primaryKey)};
    }
  }

  // ------------------------------------------------------------------ the passes

  /** The `performance_id` values of the source rows. */
  function Performances(source: Table, column: nat): set<Value> {
    set k | k in source && Cell(source[k], column) != Null :: Cell(source[k], column)
  }

  /** Pieces of a synchronized performance are removed before they are written again. */
  function Prepared(name: Name, table: Table, source: Table, column: nat): Table {
    if name == PIECES then map k | k in table && Cell(table[k], column) !in Performances(source, column) :: table[k]
    else table
  }

  ghost predicate SamePerformance(source: Table, column: nat, row: Row) {
    Cell(row, column) != Null && exists k :: k in source && Cell(source[k], column) == Cell(row, column)
  }

  /** What is removed are the pieces whose performance comes again, and nothing of any other table. */
  lemma PreparedKeeps(name: Name, table: Table, source: Table, column: nat, k: Key)
    ensures k in Prepared(name, table, source, column) <==> k in table && !(name == PIECES && SamePerformance(source, column, table[k]))
    ensures k in Prepared(name, table, source, column) ==> Prepared(name, table, source, column)[k] == table[k]
  {
  }

  function UpsertStep(db: Db, source: Db, name: Name, column: nat): Db
    requires name in db && name in source
  {
    db[name := Prepared(name, db[name], source[name], column) + source[name]]
  }

  function DeleteStep(db: Db, source: Db, name: Name): Db
    requires name in db && name in source
  {
    db[name := map k | k in db[name] && k in source[name] :: db[name][k]]
  }

  predicate Covers(db: Db, source: Db, order: seq<Name>) {
    forall t :: t in order ==> t in db && t in source
  }

  /** The database after the first |order| table steps of the parent-first pass. */
  function UpsertAll(db: Db, source: Db, order: seq<Name>, column: nat): (r: Db)
    requires Covers(db, source, order)
    ensures r.Keys == db.Keys
  {
    if order == [] then db
    else
      var last := |order| - 1;
      assert order[last] in order;
      UpsertStep(UpsertAll(db, source, order[..last], column), source, order[last], column)
  }

  /** The database after the tables of `order` were purged, last table first. */
  function DeleteAll(db: Db, source: Db, order: seq<Name>): (r: Db)
    requires Covers(db, source, order)
    ensures r.Keys == db.Keys
    decreases |order|
  {
    if order == [] then db
    else
      assert order[0] in order;
      DeleteStep(DeleteAll(db, source, order[1..]), source, order[0])
  }

  /** The situation in which the passes start. */
  ghost predicate Start(db: Db, source: Db, fks: seq<ForeignKey>, order: seq<Name>) {
    && Covers(db, source, order) && Distinct(order)
    && Scoped(db, fks) && Scoped(source, fks) && Intact(db, fks) && Intact(source, fks)
    && (forall fk :: fk in fks ==> fk.parentTable in order && fk.childTable in order && fk.parentTable != PIECES)
    && ParentsFirst(order, fks, order)
  }

  /** Every source row of the table is stored as the source has it. */
  ghost predicate Holds(table: Table, source: Table) {
    forall k :: k in source ==> k in table && table[k] == source[k]
  }

  /** What `Start` gives about a parent: it was processed before its child. */
  lemma ParentIsEarlier(order: seq<Name>, fks: seq<ForeignKey>, fk: ForeignKey, at: nat)
    requires Distinct(order) && ParentsFirst(order, fks, order) && at < |order|
    requires fk in fks && fk.parentTable in order && fk.childTable == order[at] && fk.parentTable != fk.childTable
    ensures fk.parentTable in order[..at]
  {
    var i, j :| 0 <= i < j < |order| && order[i] == fk.parentTable && order[j] == fk.childTable;
    assert order[..at][i] == fk.parentTable;
  }

  /** Main result of the parent-first pass: no foreign key is violated after any table step. */
  lemma {:induction false} UpsertsStayIntact(db: Db, source: Db, fks: seq<ForeignKey>, order: seq<Name>, column: nat, steps: nat)
    requires Start(db, source, fks, order) && steps <= |order|
    ensures Covers(db, source, order[..steps])
    ensures var now := UpsertAll(db, source, order[..steps], column);
            && Intact(now, fks)
            && (forall t :: t in order[..steps] ==> Holds(now[t], source[t]))
            && (forall t :: t in db && t !in order[..steps] ==> now[t] == db[t])
            && (forall t :: t in order && t != PIECES ==> db[t].Keys <= now[t].Keys)
  {
    if steps > 0 {
      var done, name := order[..steps - 1], order[steps - 1];
      assert order[..steps][..steps - 1] == done && order[..steps][steps - 1] == name;
      UpsertsStayIntact(db, source, fks, order, column, steps - 1);
      var before := UpsertAll(db, source, done, column);
      var now := UpsertStep(before, source, name, column);
      forall t | t in order[..steps] ensures Holds(now[t], source[t]) {
        if t != name { assert t in done; }
      }
      forall fk, k | fk in fks && k in now[fk.childTable] ensures RefHolds(now, fk, now[fk.childTable][k]) {
        UpsertKeepsReference(before, source, fks, order, column, steps - 1, fk, k);
      }
    }
  }

  /** One table step keeps one reference: a source row finds its parent already written, an old row finds it kept. */
  lemma UpsertKeepsReference(before: Db, source: Db, fks: seq<ForeignKey>, order: seq<Name>, column: nat, at: nat, fk: ForeignKey, k: Key)
    requires Start(before, source, fks, order) && at < |order|
    requires forall t :: t in order[..at] ==> Holds(before[t], source[t])
    requires fk in fks && k in UpsertStep(before, source, order[at], column)[fk.childTable]
    ensures var now := UpsertStep(before, source, order[at], column);
            RefHolds(now, fk, now[fk.childTable][k])
  {
    var name := order[at];
    var now := UpsertStep(before, source, name, column);
    var row := now[fk.childTable][k];
    if fk.childTable == name && k in source[name] {
      assert row == source[name][k] && RefHolds(source, fk, row);
      if fk.parentTable != name {
        ParentIsEarlier(order, fks, fk, at);
      }
    } else {
      assert row == before[fk.childTable][k] && RefHolds(before, fk, row);
    }
  }

  /** Main result of the child-first pass: still intact after every step, and purged tables equal the source. */
  lemma {:induction false} DeletesStayIntact(db: Db, source: Db, fks: seq<ForeignKey>, order: seq<Name>, from: nat)
    requires Start(db, source, fks, order) && from <= |order|
    requires forall t :: t in order ==> Holds(db[t], source[t])
    ensures Covers(db, source, order[from..])
    ensures var now := DeleteAll(db, source, order[from..]);
            && Intact(now, fks)
            && (forall t :: t in order[from..] ==> now[t] == source[t])
            && (forall t :: t in db && t !in order[from..] ==> now[t] == db[t])
    decreases |order| - from
  {
    if from < |order| {
      var later, name := order[from + 1..], order[from];
      assert order[from..] == [name] + later && order[from..][1..] == later;
      DeletesStayIntact(db, source, fks, order, from + 1);
      var before := DeleteAll(db, source, later);
      var now := DeleteStep(before, source, name);
      assert name !in later;
      assert now[name] == source[name];
      forall fk, k | fk in fks && k in now[fk.childTable] ensures RefHolds(now, fk, now[fk.childTable][k]) {
        assert RefHolds(before, fk, before[fk.childTable][k]);
        if fk.parentTable == name {
          ChildIsLater(order, fks, fk, from);
          assert now[fk.childTable] == source[fk.childTable];
          assert RefHolds(source, fk, source[fk.childTable][k]);
        }
      }
    }
  }

  lemma ChildIsLater(order: seq<Name>, fks: seq<ForeignKey>, fk: ForeignKey, at: nat)
    requires Distinct(order) && ParentsFirst(order, fks, order) && at < |order|
    requires fk in fks && fk.childTable in order && fk.parentTable == order[at]
    ensures fk.childTable in order[at..]
  {
    if fk.childTable == fk.parentTable {
      assert order[at..][0] == fk.childTable;
    } else {
      var i, j :| 0 <= i < j < |order| && order[i] == fk.parentTable && order[j] == fk.childTable;
      assert order[at..][j - at] == fk.childTable;
    }
  }

  /** Both passes together: every synchronized table ends equal to the source, and nothing else changed. */
  lemma {:induction false} PassesCopyTheSource(db: Db, source: Db, fks: seq<ForeignKey>, order: seq<Name>, column: nat)
    requires Start(db, source, fks, order)
    ensures var now := DeleteAll(UpsertAll(db, source, order, column), source, order);
            && Intact(now, fks)
            && (forall t :: t in order ==> now[t] == source[t])
            && (forall t :: t in db && t !in order ==> now[t] == db[t])
  {
    assert order[..|order|] == order && order[0..] == order;
    UpsertsStayIntact(db, source, fks, order, column, |order|);
    DeletesStayIntact(UpsertAll(db, source, order, column), source, fks, order, 0);
  }
}
