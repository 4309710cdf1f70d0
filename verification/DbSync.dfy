/**
 * The target side of scripts/sync_prod_to_test_db.py: single SQL statements
 * under immediate foreign-key checks, the three passes built from them, and
 * the whole synchronization as one transaction.
 */
module DbSync {
  import opened Prelude
  import opened DependencyOrder
  import opened SyncTables

  datatype SyncError =
    | DependencyCycle(unresolved: set<Name>)
    | MissingPerformanceId
    | ForeignKeyViolation(table: Name)
    | SequenceOutOfRange(sequence: Name)
    | RowCountMismatch
    | ForeignKeyValidation

  /** What can stop the passes. */
  predicate PassFailure(e: SyncError) {
    e.MissingPerformanceId? || e.ForeignKeyViolation? || e.SequenceOutOfRange?
  }

  /** A PostgreSQL sequence: its last value and whether that value was already handed out. */
  datatype Sequence = Sequence(last: int, called: bool)

  function NextValue(s: Sequence): int {
    if s.called then s.last + 1 else s.last
  }

  /** The next value is one more than the largest stored number, which is at least 1, or 1 when there is none. */
  ghost predicate GoesOn(s: Sequence, table: Table, column: nat) {
    && (forall k :: k in table && Cell(table[k], column).Num? ==> Cell(table[k], column).n < NextValue(s))
    && if exists k :: k in table && Cell(table[k], column).Num?
       then NextValue(s) > 1 && exists k :: k in table && Cell(table[k], column) == Num(NextValue(s) - 1)
       else NextValue(s) == 1
  }

  /** `SELECT max(column)`: NULLs do not take part, and no number gives NULL. */
  ghost predicate IsMaximum(table: Table, column: nat, m: Option<int>) {
    && (m.None? ==> forall k :: k in table ==> !Cell(table[k], column).Num?)
    && (m.Some? ==> exists k :: k in table && Cell(table[k], column) == Num(m.value))
    && (m.Some? ==> forall k :: k in table && Cell(table[k], column).Num? ==> Cell(table[k], column).n <= m.value)
  }

  /** `setval` accepts 1 and above, so a column of numbers needs at least one of those. */
  ghost predicate SequenceFits(table: Table, column: nat) {
    (forall k :: k in table ==> !Cell(table[k], column).Num?) ||
    (exists k :: k in table && Cell(table[k], column).Num? && Cell(table[k], column).n >= 1)
  }

  /** A column that holds only the number 0 stops the reset. */
  lemma ZeroStopsTheReset(key: Key)
    ensures !SequenceFits(map[key := Row([Num(0)])], 0)
  {
    var table := map[key := Row([Num(0)])];
    assert key in table && Cell(table[key], 0) == Num(0);
  }

  /** Each source row that refers to its own table finds that parent in the target or no later in the fetched list. */
  ghost predicate SelfReferencesReady(name: Name, table: Table, rows: seq<Row>, primaryKey: seq<nat>, fks: seq<ForeignKey>) {
    forall i :: 0 <= i < |rows| ==> RowReady(name, table, rows, i, primaryKey, fks)
  }

  ghost predicate RowReady(name: Name, table: Table, rows: seq<Row>, i: nat, primaryKey: seq<nat>, fks: seq<ForeignKey>)
    requires i < |rows|
  {
    forall fk :: fk in fks && fk.childTable == name == fk.parentTable && Refers(rows[i], fk) ==>
      Project(rows[i], fk.childColumns) in table.Keys + Keys(rows[..i + 1], primaryKey)
  }

  predicate DistinctKeys(rows: seq<Row>, primaryKey: seq<nat>) {
    forall i, j :: 0 <= i < j < |rows| ==> Project(rows[i], primaryKey) != Project(rows[j], primaryKey)
  }

  function IndexOf(columns: seq<Name>, column: Name): (r: Option<nat>)
    ensures r.None? <==> column !in columns
    ensures r.Some? ==> r.value < |columns| && columns[r.value] == column
  {
    if columns == [] then None
    else if columns[0] == column then Some(0)
    else match IndexOf(columns[1..], column)
         case None => None
         case Some(i) => Some(i + 1)
  }

  /** Fetched source rows as tables. */
  function SourceTables(specs: map<Name, TableSpec>, source: map<Name, seq<Row>>): Db {
    map t | t in source && t in specs :: Upserted(map[], source[t], specs[t].primaryKey)
  }

  lemma {:induction false} RowCount(rows: seq<Row>, primaryKey: seq<nat>)
    requires DistinctKeys(rows, primaryKey)
    ensures |Upserted(map[], rows, primaryKey)| == |rows|
  {
    if rows != [] {
      var rest, row := rows[..|rows| - 1], rows[|rows| - 1];
      assert forall i :: 0 <= i < |rest| ==> rest[i] == rows[i];
      RowCount(rest, primaryKey);
      UpsertIsOverride(map[], rest, primaryKey);
      assert Project(row, primaryKey) !in Keys(rest, primaryKey);
    }
  }

  /** With one row per key, the table formed by the rows holds exactly these rows. */
  lemma {:induction false} UpsertedRows(rows: seq<Row>, primaryKey: seq<nat>)
    requires DistinctKeys(rows, primaryKey)
    ensures forall row :: row in rows ==> Project(row, primaryKey) in Upserted(map[], rows, primaryKey)
    ensures forall row :: row in rows ==> Upserted(map[], rows, primaryKey)[Project(row, primaryKey)] == row
    ensures forall k :: k in Upserted(map[], rows, primaryKey) ==> Upserted(map[], rows, primaryKey)[k] in rows
  {
    if rows != [] {
      var rest, row := rows[..|rows| - 1], rows[|rows| - 1];
      assert rows == rest + [row];
      assert forall i :: 0 <= i < |rest| ==> rest[i] == rows[i];
      UpsertedRows(rest, primaryKey);
      forall other | other in rest ensures Project(other, primaryKey) != Project(row, primaryKey) {
        var i :| 0 <= i < |rest| && rest[i] == other;
        assert rows[i] == other;
      }
    }
  }

  /** The table holds exactly the fetched rows, each under its key. */
  ghost predicate IsTableOf(table: Table, rows: seq<Row>, primaryKey: seq<nat>) {
    && |table| == |rows| && (forall k :: k in table ==> table[k] in rows)
    && forall row :: row in rows ==> Project(row, primaryKey) in table && table[Project(row, primaryKey)] == row
  }

  function PerformanceColumn(specs: map<Name, TableSpec>): nat {
    if PIECES in specs then
      match IndexOf(specs[PIECES].columns, PERFORMANCE_ID)
      case Some(i) => i
      case None => 0
    else 0
  }

  /** The fixed surroundings of one run: the inputs read from both databases fit together. */
  ghost predicate Inputs(tables: Db, targets: seq<Name>, specs: map<Name, TableSpec>, source: map<Name, seq<Row>>, fks: seq<ForeignKey>) {
    && (forall t :: t in targets ==> t in tables && t in specs && t in source && DistinctKeys(source[t], specs[t].primaryKey))
    && (forall fk :: fk in fks ==> fk.parentTable in targets && fk.childTable in targets && fk.parentTable != PIECES)
    && Intact(tables, fks) && Intact(SourceTables(specs, source), fks)
    && (forall t, u, i, j :: t in targets && u in targets && 0 <= i < |specs[t].sequences| && 0 <= j < |specs[u].sequences| ==>
          specs[t].sequences[i].sequence == specs[u].sequences[j].sequence ==> t == u && i == j)
  }

  /** The piece table can be prepared: only a run that has pieces to write needs the column. */
  ghost predicate PiecesPrepared(name: Name, spec: TableSpec, rows: seq<Row>) {
    name == PIECES && rows != [] ==> PERFORMANCE_ID in spec.columns
  }

  /** One table can be written. */
  ghost predicate Writable(name: Name, table: Table, spec: TableSpec, rows: seq<Row>, fks: seq<ForeignKey>) {
    PiecesPrepared(name, spec, rows) && SelfReferencesReady(name, table, rows, spec.primaryKey, fks)
  }

  ghost predicate SequencesFit(spec: TableSpec, table: Table) {
    forall i :: 0 <= i < |spec.sequences| ==> SequenceFits(table, spec.sequences[i].column)
  }

  /** Everything the run depends on, read off its inputs before it starts. */
  ghost predicate Acceptable(tables: Db, targets: seq<Name>, specs: map<Name, TableSpec>, source: map<Name, seq<Row>>, fks: seq<ForeignKey>)
    requires Inputs(tables, targets, specs, source, fks)
  {
    && Distinct(targets) && !HasCycle(targets, fks)
    && (forall t :: t in targets ==> Writable(t, tables[t], specs[t], source[t], fks))
    && (forall t :: t in targets ==> SequencesFit(specs[t], SourceTables(specs, source)[t]))
  }

  /** A source row's parents outside its own table are already in the target when the row is written. */
  lemma ParentsAreWritten(before: Db, specs: map<Name, TableSpec>, source: map<Name, seq<Row>>, fks: seq<ForeignKey>, order: seq<Name>, at: nat)
    requires at < |order| && order[at] in specs && order[at] in source && DistinctKeys(source[order[at]], specs[order[at]].primaryKey)
    requires Start(before, SourceTables(specs, source), fks, order)
    requires forall t :: t in order[..at] ==> Holds(before[t], SourceTables(specs, source)[t])
    ensures forall row, fk :: row in source[order[at]] && fk in fks && fk.childTable == order[at] && fk.parentTable != order[at] ==>
              RefHolds(before, fk, row)
  {
    var name := order[at];
    var tables := SourceTables(specs, source);
    UpsertedRows(source[name], specs[name].primaryKey);
    forall row, fk | row in source[name] && fk in fks && fk.childTable == name && fk.parentTable != name
      ensures RefHolds(before, fk, row)
    {
      assert RefHolds(tables, fk, tables[name][Project(row, specs[name].primaryKey)]);
      ParentIsEarlier(order, fks, fk, at);
    }
  }

  lemma RemovingPiecesIsSafe(db: Db, fks: seq<ForeignKey>, left: Table)
    requires PIECES in db && Scoped(db, fks) && Intact(db, fks)
    requires forall fk :: fk in fks ==> fk.parentTable != PIECES
    requires left.Keys <= db[PIECES].Keys && forall k :: k in left ==> left[k] == db[PIECES][k]
    ensures Intact(db[PIECES := left], fks)
  {
    var now := db[PIECES := left];
    forall fk, k | fk in fks && k in now[fk.childTable] ensures RefHolds(now, fk, now[fk.childTable][k]) {
      assert RefHolds(db, fk, db[fk.childTable][k]);
    }
  }

  /** The later history extends the earlier one by states in which every foreign key holds. */
  ghost predicate Recorded(earlier: seq<Db>, later: seq<Db>, fks: seq<ForeignKey>) {
    earlier <= later && forall i :: |earlier| <= i < |later| ==> Scoped(later[i], fks) && Intact(later[i], fks)
  }

  method PerformanceIds(rows: seq<Row>, column: nat) returns (ids: seq<Value>)
    ensures Distinct(ids)
    ensures forall v :: v in ids <==> v != Null && exists row :: row in rows && Cell(row, column) == v
  {
    ids := [];
    for i := 0 to |rows|
      invariant Distinct(ids)
      invariant forall v :: v in ids <==> v != Null && exists row :: row in rows[..i] && Cell(row, column) == v
    {
      assert rows[..i + 1] == rows[..i] + [rows[i]];
      var v := Cell(rows[i], column);
      if v != Null && v !in ids {
        ids := ids + [v];
      }
    }
    assert rows[..|rows|] == rows;
  }

  class TargetDb {
    var tables: Db
    var sequences: map<Name, Sequence>
    /** The database after each table step, newest last. */
    ghost var history: seq<Db>

    constructor (tables: Db, sequences: map<Name, Sequence>)
      ensures this.tables == tables && this.sequences == sequences && history == []
    {
      this.tables, this.sequences, this.history := tables, sequences, [];
    }

    /** `INSERT ... ON CONFLICT (key) DO UPDATE` of one row. */
    method InsertOrUpdate(name: Name, row: Row, primaryKey: seq<nat>, fks: seq<ForeignKey>) returns (ok: bool)
      requires name in tables && Scoped(tables, fks)
      modifies this`tables
      ensures var written := old(tables)[name := old(tables)[name][Project(row, primaryKey) := row]];
              && (ok <==> forall fk :: fk in fks && fk.childTable == name ==> RefHolds(written, fk, row))
              && tables == if ok then written else old(tables)
    {
      var written := tables[name := tables[name][Project(row, primaryKey) := row]];
      ok := forall fk | fk in fks :: fk.childTable == name ==> RefHolds(written, fk, row);
      if ok {
        tables := written;
      }
    }

    /** `DELETE` of the rows whose key is not kept; rejected when a remaining row would lose its parent. */
    method DeleteExcept(name: Name, keep: set<Key>, fks: seq<ForeignKey>) returns (ok: bool)
      requires name in tables && Scoped(tables, fks)
      modifies this`tables
      ensures var left := old(tables)[name := map k | k in old(tables)[name] && k in keep :: old(tables)[name][k]];
              && (ok <==> Intact(left, fks))
              && tables == if ok then left else old(tables)
    {
      var left := tables[name := map k | k in tables[name] && k in keep :: tables[name][k]];
      ok := Intact(left, fks);
      if ok {
        tables := left;
      }
    }

    /** The statements of `executemany`, one row at a time. */
    method UpsertRows(name: Name, rows: seq<Row>, primaryKey: seq<nat>, fks: seq<ForeignKey>) returns (ok: bool)
      requires name in tables && Scoped(tables, fks)
      requires forall row, fk :: row in rows && fk in fks && fk.childTable == name && fk.parentTable != name ==> RefHolds(tables, fk, row)
      modifies this`tables
      ensures ok <==> SelfReferencesReady(name, old(tables)[name], rows, primaryKey, fks)
      ensures ok ==> tables == old(tables)[name := Upserted(old(tables)[name], rows, primaryKey)]
    {
      for i := 0 to |rows|
        invariant tables == old(tables)[name := Upserted(old(tables)[name], rows[..i], primaryKey)]
        invariant forall j :: 0 <= j < i ==> RowReady(name, old(tables)[name], rows, j, primaryKey, fks)
      {
        assert rows[..i + 1][..i] == rows[..i] && rows[i] in rows;
        UpsertIsOverride(old(tables)[name], rows[..i + 1], primaryKey);
        assert Upserted(old(tables)[name], rows[..i + 1], primaryKey).Keys == old(tables)[name].Keys + Keys(rows[..i + 1], primaryKey);
        ghost var written := old(tables)[name := Upserted(old(tables)[name], rows[..i + 1], primaryKey)];
        assert written == tables[name := tables[name][Project(rows[i], primaryKey) := rows[i]]];
        assert forall fk :: fk in fks && fk.childTable == name && fk.parentTable != name ==> RefHolds(written, fk, rows[i]) == RefHolds(old(tables), fk, rows[i]);
        ok := InsertOrUpdate(name, rows[i], primaryKey, fks);
        if !ok {
          assert !RowReady(name, old(tables)[name], rows, i, primaryKey, fks);
          return;
        }
      }
      assert rows[..|rows|] == rows;
      ok := true;
    }

    /** `_prepare_and_upsert_rows` for one table. */
    method PrepareAndUpsertRows(name: Name, spec: TableSpec, rows: seq<Row>, fks: seq<ForeignKey>, ghost column: nat) returns (failure: Option<SyncError>)
      requires name in tables && Scoped(tables, fks) && Intact(tables, fks) && DistinctKeys(rows, spec.primaryKey)
      requires forall fk :: fk in fks ==> fk.parentTable != PIECES
      requires forall row, fk :: row in rows && fk in fks && fk.childTable == name && fk.parentTable != name ==> RefHolds(tables, fk, row)
      requires name == PIECES && PERFORMANCE_ID in spec.columns ==> Some(column) == IndexOf(spec.columns, PERFORMANCE_ID)
      modifies this`tables
      ensures failure.None? <==> Writable(name, old(tables)[name], spec, rows, fks)
      ensures failure.Some? ==> failure.value == if PiecesPrepared(name, spec, rows) then ForeignKeyViolation(name) else MissingPerformanceId
      ensures failure.None? ==>
                var written := Upserted(map[], rows, spec.primaryKey);
                tables == old(tables)[name := Prepared(name, old(tables)[name], written, column) + written]
    {
      if name == PIECES && rows != [] {
        match IndexOf(spec.columns, PERFORMANCE_ID) {
          case None => return Some(MissingPerformanceId);
          case Some(found) => PreparePieces(rows, spec.primaryKey, found, fks);
        }
      }
      ghost var table := tables[name];
      assert table == Prepared(name, old(tables)[name], Upserted(map[], rows, spec.primaryKey), column);
      assert tables == old(tables)[name := table];
      UpsertIsOverride(table, rows, spec.primaryKey);
      var ok := UpsertRows(name, rows, spec.primaryKey, fks);
      failure := if ok then None else Some(ForeignKeyViolation(name));
    }

    /** The delete that precedes writing pieces; nothing refers to a piece, so it always succeeds. */
    method PreparePieces(rows: seq<Row>, primaryKey: seq<nat>, column: nat, fks: seq<ForeignKey>)
      requires PIECES in tables && Scoped(tables, fks) && Intact(tables, fks) && DistinctKeys(rows, primaryKey)
      requires forall fk :: fk in fks ==> fk.parentTable != PIECES
      modifies this`tables
      ensures tables == old(tables)[PIECES := Prepared(PIECES, old(tables)[PIECES], Upserted(map[], rows, primaryKey), column)]
    {
      UpsertedRows(rows, primaryKey);
      var ids := PerformanceIds(rows, column);
      assert forall v :: v in ids <==> v in Performances(Upserted(map[], rows, primaryKey), column);
      ghost var left := Prepared(PIECES, tables[PIECES], Upserted(map[], rows, primaryKey), column);
      if ids != [] {
        var keep := set k | k in tables[PIECES] && Cell(tables[PIECES][k], column) !in ids;
        assert left == map k | k in tables[PIECES] && k in keep :: tables[PIECES][k];
        RemovingPiecesIsSafe(tables, fks, left);
        var deleted := DeleteExcept(PIECES, keep, fks);
      } else {
        assert left == tables[PIECES];
        assert tables[PIECES := left] == tables;
      }
    }

    /** `_delete_rows_absent_from_source` for one table. */
    method DeleteRowsAbsentFromSource(name: Name, spec: TableSpec, rows: seq<Row>, fks: seq<ForeignKey>) returns (ok: bool)
      requires name in tables && Scoped(tables, fks)
      modifies this`tables
      ensures var left := old(tables)[name := map k | k in old(tables)[name] && k in Keys(rows, spec.primaryKey) :: old(tables)[name][k]];
              && (ok <==> Intact(left, fks))
              && tables == if ok then left else old(tables)
    {
      var keys := Keys(rows, spec.primaryKey);
      ok := DeleteExcept(name, keys, fks);
    }

    /** The parent-first pass over all tables. */
    method UpsertPass(order: seq<Name>, specs: map<Name, TableSpec>, source: map<Name, seq<Row>>, fks: seq<ForeignKey>) returns (failure: Option<SyncError>)
      requires Inputs(tables, order, specs, source, fks) && Start(tables, SourceTables(specs, source), fks, order)
      modifies this`tables, this`history
      ensures failure.None? <==> forall t :: t in order ==> Writable(t, old(tables)[t], specs[t], source[t], fks)
      ensures failure.Some? ==> PassFailure(failure.value)
      ensures failure.None? ==> tables == UpsertAll(old(tables), SourceTables(specs, source), order, PerformanceColumn(specs))
      ensures Recorded(old(history), history, fks)
      ensures failure.None? ==> |history| == |old(history)| + |order|
    {
      ghost var start, written, column := tables, SourceTables(specs, source), PerformanceColumn(specs);
      for k := 0 to |order|
        invariant Covers(start, written, order[..k])
        invariant tables == UpsertAll(start, written, order[..k], column)
        invariant forall t :: t in order[..k] ==> Writable(t, start[t], specs[t], source[t], fks)
        invariant Recorded(old(history), history, fks) && |history| == |old(history)| + k
      {
        var t := order[k];
        ghost var earlier := history;
        NextTable(start, tables, specs, source, fks, order, k);
        failure := PrepareAndUpsertRows(t, specs[t], source[t], fks, column);
        if failure.Some? {
          return;
        }
        history := history + [tables];
        OneMoreRecord(old(history), earlier, tables, fks);
      }
      assert order[..|order|] == order;
      failure := None;
    }

    /** The child-first pass: it never meets a row that still refers to a deleted one. */
    method DeletePass(order: seq<Name>, specs: map<Name, TableSpec>, source: map<Name, seq<Row>>, fks: seq<ForeignKey>)
      requires Start(tables, SourceTables(specs, source), fks, order)
      requires forall t :: t in order ==> t in specs && t in source && Holds(tables[t], SourceTables(specs, source)[t])
      modifies this`tables, this`history
      ensures tables == DeleteAll(old(tables), SourceTables(specs, source), order)
      ensures Recorded(old(history), history, fks) && |history| == |old(history)| + |order|
    {
      ghost var start, written := tables, SourceTables(specs, source);
      assert order[|order|..] == [];
      for k := |order| downto 0
        invariant Covers(start, written, order[k..])
        invariant tables == DeleteAll(start, written, order[k..])
        invariant Recorded(old(history), history, fks) && |history| == |old(history)| + |order| - k
      {
        var t := order[k];
        PreviousTable(start, tables, specs, source, fks, order, k);
        var ok := DeleteRowsAbsentFromSource(t, specs[t], source[t], fks);
        assert ok;
        OneMoreRecord(old(history), history, tables, fks);
        history := history + [tables];
      }
      assert order[0..] == order;
    }

    method MaxColumn(name: Name, column: nat) returns (m: Option<int>)
      requires name in tables
      ensures IsMaximum(tables[name], column, m)
    {
      m := None;
      var left := tables[name].Keys;
      while left != {}
        invariant left <= tables[name].Keys
        invariant m.None? ==> forall k :: k in tables[name] && k !in left ==> !Cell(tables[name][k], column).Num?
        invariant m.Some? ==> exists k :: k in tables[name] && Cell(tables[name][k], column) == Num(m.value)
        invariant m.Some? ==> forall k :: k in tables[name] && k !in left && Cell(tables[name][k], column).Num? ==> Cell(tables[name][k], column).n <= m.value
        decreases left
      {
        var key :| key in left;
        left := left - {key};
        match Cell(tables[name][key], column) {
          case Num(n) =>
            if m.None? || m.value < n {
              m := Some(n);
            }
          case _ =>
        }
      }
    }

    /** `setval` of the largest number, or of 1 as not yet called; it refuses numbers below 1. */
    method ResetSequence(name: Name, s: SequenceColumn) returns (failure: Option<SyncError>)
      requires name in tables
      modifies this`sequences
      ensures failure.None? <==> SequenceFits(tables[name], s.column)
      ensures failure.Some? ==> failure.value == SequenceOutOfRange(s.sequence) && sequences == old(sequences)
      ensures failure.None? ==> s.sequence in sequences && GoesOn(sequences[s.sequence], tables[name], s.column)
      ensures failure.None? ==> sequences == old(sequences)[s.sequence := sequences[s.sequence]]
    {
      var maximum := MaxColumn(name, s.column);
      match maximum {
        case Some(m) =>
          if m < 1 {
            return Some(SequenceOutOfRange(s.sequence));
          }
          sequences := sequences[s.sequence := Sequence(m, true)];
        case None =>
          sequences := sequences[s.sequence := Sequence(1, false)];
      }
      return None;
    }

    /** `_reset_sequences` for one table. */
    method ResetSequences(name: Name, spec: TableSpec) returns (failure: Option<SyncError>)
      requires name in tables
      requires forall i, j :: 0 <= i < j < |spec.sequences| ==> spec.sequences[i].sequence != spec.sequences[j].sequence
      modifies this`sequences
      ensures failure.None? <==> SequencesFit(spec, tables[name])
      ensures failure.Some? ==> PassFailure(failure.value)
      ensures failure.None? ==> forall s :: s in spec.sequences ==> s.sequence in sequences && GoesOn(sequences[s.sequence], tables[name], s.column)
      ensures forall s :: s in old(sequences) && (forall c :: c in spec.sequences ==> c.sequence != s) ==> s in sequences && sequences[s] == old(sequences)[s]
    {
      for i := 0 to |spec.sequences|
        invariant forall j :: 0 <= j < i ==> SequenceFits(tables[name], spec.sequences[j].column)
        invariant forall j :: 0 <= j < i ==> spec.sequences[j].sequence in sequences
        invariant forall j :: 0 <= j < i ==> GoesOn(sequences[spec.sequences[j].sequence], tables[name], spec.sequences[j].column)
        invariant forall s :: s in old(sequences) && (forall c :: c in spec.sequences ==> c.sequence != s) ==> s in sequences && sequences[s] == old(sequences)[s]
      {
        var s := spec.sequences[i];
        assert s in spec.sequences;
        failure := ResetSequence(name, s);
        if failure.Some? {
          return;
        }
      }
      failure := None;
    }

    method ResetPass(order: seq<Name>, specs: map<Name, TableSpec>) returns (failure: Option<SyncError>)
      requires Distinct(order) && forall t :: t in order ==> t in tables && t in specs
      requires forall t, u, i, j :: t in order && u in order && 0 <= i < |specs[t].sequences| && 0 <= j < |specs[u].sequences| ==>
                 specs[t].sequences[i].sequence == specs[u].sequences[j].sequence ==> t == u && i == j
      modifies this`sequences
      ensures failure.None? <==> forall t :: t in order ==> SequencesFit(specs[t], tables[t])
      ensures failure.Some? ==> PassFailure(failure.value)
      ensures failure.None? ==> forall t, s :: t in order && s in specs[t].sequences ==>
                s.sequence in sequences && GoesOn(sequences[s.sequence], tables[t], s.column)
    {
      for k := 0 to |order|
        invariant forall t :: t in order[..k] ==> SequencesFit(specs[t], tables[t])
        invariant forall t, s :: t in order[..k] && s in specs[t].sequences ==>
                    s.sequence in sequences && GoesOn(sequences[s.sequence], tables[t], s.column)
      {
        var t := order[k];
        assert t in order && order[..k + 1] == order[..k] + [t];
        forall u, s, c | u in order[..k] && s in specs[u].sequences && c in specs[t].sequences ensures s.sequence != c.sequence {
          var i :| 0 <= i < |specs[u].sequences| && specs[u].sequences[i] == s;
          var j :| 0 <= j < |specs[t].sequences| && specs[t].sequences[j] == c;
          assert u in order;
        }
        failure := ResetSequences(t, specs[t]);
        if failure.Some? {
          return;
        }
      }
      assert order[..|order|] == order;
      failure := None;
    }

    /** The passes in their order. */
    method RunPasses(order: seq<Name>, specs: map<Name, TableSpec>, source: map<Name, seq<Row>>, fks: seq<ForeignKey>) returns (failure: Option<SyncError>)
      requires Inputs(tables, order, specs, source, fks) && Start(tables, SourceTables(specs, source), fks, order)
      modifies this
      ensures failure.None? <==>
                && (forall t :: t in order ==> Writable(t, old(tables)[t], specs[t], source[t], fks))
                && (forall t :: t in order ==> SequencesFit(specs[t], SourceTables(specs, source)[t]))
      ensures failure.Some? ==> PassFailure(failure.value)
      ensures failure.None? ==> Copied(old(tables), tables, SourceTables(specs, source), order) && Intact(tables, fks)
      ensures failure.None? ==> SequencesReset(sequences, tables, specs, order)
      ensures failure.None? ==> |history| == |old(history)| + 2 * |order|
      ensures Recorded(old(history), history, fks)
    {
      ghost var start, written := tables, SourceTables(specs, source);
      PassesResult(start, written, fks, order, PerformanceColumn(specs));
      failure := UpsertPass(order, specs, source, fks);
      if failure.None? {
        AfterUpserts(start, written, fks, order, PerformanceColumn(specs));
        DeletePass(order, specs, source, fks);
        failure := ResetPass(order, specs);
      }
    }

    /** The row-count and foreign-key checks before the commit. */
    method Validate(targets: seq<Name>, source: map<Name, seq<Row>>, fks: seq<ForeignKey>) returns (failure: Option<SyncError>)
      requires (forall t :: t in targets ==> t in tables && t in source) && Scoped(tables, fks)
      ensures failure.None? <==> (forall t :: t in targets ==> |tables[t]| == |source[t]|) && Intact(tables, fks)
      ensures failure.Some? ==> failure.value == if Intact(tables, fks) || exists t :: t in targets && |tables[t]| != |source[t]| then RowCountMismatch else ForeignKeyValidation
    {
      if exists t :: t in targets && |tables[t]| != |source[t]| {
        return Some(RowCountMismatch);
      }
      if !Intact(tables, fks) {
        return Some(ForeignKeyValidation);
      }
      return None;
    }

    /**
     * `synchronize_databases`: one transaction on the target.  A failure rolls
     * the tables back; sequence positions are not transactional.
     */
    method Synchronize(targets: seq<Name>, specs: map<Name, TableSpec>, source: map<Name, seq<Row>>, fks: seq<ForeignKey>) returns (r: Result<seq<Name>, SyncError>)
      requires Inputs(tables, targets, specs, source, fks)
      modifies this
      ensures r.Ok? <==> Acceptable(old(tables), targets, specs, source, fks)
      ensures r.Err? && r.error.DependencyCycle? <==> !Distinct(targets) || HasCycle(targets, fks)
      ensures r.Err? && r.error.DependencyCycle? ==> forall t :: t in r.error.unresolved <==> t in targets && BelowCycle(targets, fks, t)
      ensures r.Err? ==> !r.error.RowCountMismatch? && !r.error.ForeignKeyValidation?
      ensures r.Ok? ==> Distinct(r.value) && multiset(r.value) == multiset(targets) && ParentsFirst(targets, fks, r.value)
      ensures r.Ok? ==> Copied(old(tables), tables, SourceTables(specs, source), targets)
      ensures r.Ok? ==> forall t :: t in targets ==> IsTableOf(tables[t], source[t], specs[t].primaryKey)
      ensures r.Ok? ==> SequencesReset(sequences, tables, specs, targets)
      ensures r.Ok? ==> |history| == |old(history)| + 2 * |targets|
      ensures r.Err? ==> tables == old(tables)
      ensures Recorded(old(history), history, fks)
    {
      var ordering := OrderTables(targets, fks);
      if ordering.Rejected? {
        return Err(DependencyCycle(ordering.unresolved));
      }
      var order, backup := ordering.order, tables;
      OrderIsAStart(tables, targets, specs, source, fks, order);
      var failure := RunPasses(order, specs, source, fks);
      if failure.None? {
        forall t | t in targets ensures |tables[t]| == |source[t]| && IsTableOf(tables[t], source[t], specs[t].primaryKey) {
          RowCount(source[t], specs[t].primaryKey);
          UpsertedRows(source[t], specs[t].primaryKey);
        }
        failure := Validate(targets, source, fks);
      }
      if failure.Some? {
        tables := backup;
        return Err(failure.value);
      }
      return Ok(order);
    }
  }

  /** The listed tables equal the source and every other table is as before. */
  ghost predicate Copied(before: Db, after: Db, source: Db, targets: seq<Name>) {
    && after.Keys == before.Keys
    && (forall t :: t in targets ==> t in after && t in source && after[t] == source[t])
    && (forall t :: t in after && t !in targets ==> after[t] == before[t])
  }

  ghost predicate SequencesReset(sequences: map<Name, Sequence>, tables: Db, specs: map<Name, TableSpec>, targets: seq<Name>) {
    forall t, s :: t in targets && t in tables && t in specs && s in specs[t].sequences ==>
      s.sequence in sequences && GoesOn(sequences[s.sequence], tables[t], s.column)
  }

  /**
   * Self references are left out of the table order, so the order of the
   * fetched rows decides: the same two rows are rejected child first and
   * accepted parent first.
   */
  lemma RowOrderDecidesSelfReferences(table: Name)
    ensures var fk := ForeignKey("fk_parent", table, [1], table);
            var parent, child := Row([Num(1), Null]), Row([Num(2), Num(1)]);
            && !SelfReferencesReady(table, map[], [child, parent], [0], [fk])
            && SelfReferencesReady(table, map[], [parent, child], [0], [fk])
            && Upserted(map[], [child, parent], [0]) == Upserted(map[], [parent, child], [0])
  {
    var fk := ForeignKey("fk_parent", table, [1], table);
    var parent, child := Row([Num(1), Null]), Row([Num(2), Num(1)]);
    ChildProjections(parent, child);
    ChildFirstIsNotReady(table, fk, parent, child);
    ParentFirstIsReady(table, fk, parent, child);
    BothOrdersStoreTheSame(parent, child);
  }

  lemma ChildProjections(parent: Row, child: Row)
    requires parent == Row([Num(1), Null]) && child == Row([Num(2), Num(1)])
    ensures Project(child, [1]) == Project(parent, [0]) == Key([Num(1)]) && Project(child, [0]) == Key([Num(2)]) && Project(parent, [1]) == Key([Null])
    ensures Project(child, [0]) != Project(parent, [0])
  {
    assert Key([Num(1)]).parts[0] != Key([Num(2)]).parts[0];
  }

  lemma ChildFirstIsNotReady(table: Name, fk: ForeignKey, parent: Row, child: Row)
    requires fk.childTable == table == fk.parentTable && fk.childColumns == [1]
    requires Null !in Project(child, [1]).parts && Project(child, [1]) != Project(child, [0])
    ensures !SelfReferencesReady(table, map[], [child, parent], [0], [fk])
  {
    assert [child, parent][..1] == [child];
    assert fk in [fk] && Refers(child, fk);
    assert !RowReady(table, map[], [child, parent], 0, [0], [fk]);
  }

  lemma ParentFirstIsReady(table: Name, fk: ForeignKey, parent: Row, child: Row)
    requires fk.childTable == table == fk.parentTable && fk.childColumns == [1]
    requires Null in Project(parent, [1]).parts && Project(child, [1]) == Project(parent, [0])
    ensures SelfReferencesReady(table, map[], [parent, child], [0], [fk])
  {
    assert [parent, child][..1] == [parent] && [parent, child][..2] == [parent, child];
    assert parent in [parent, child] && Project(parent, [0]) in Keys([parent, child], [0]);
    assert RowReady(table, map[], [parent, child], 0, [0], [fk]);
    assert RowReady(table, map[], [parent, child], 1, [0], [fk]);
  }

  lemma BothOrdersStoreTheSame(parent: Row, child: Row)
    requires Project(child, [0]) != Project(parent, [0])
    ensures Upserted(map[], [child, parent], [0]) == Upserted(map[], [parent, child], [0])
  {
    assert [child, parent][..1] == [child] && [parent, child][..1] == [parent] && [parent][..0] == [] && [child][..0] == [];
    assert Upserted(map[], [parent], [0]) == map[Project(parent, [0]) := parent];
    assert Upserted(map[], [child], [0]) == map[Project(child, [0]) := child];
  }

  lemma OrderIsAStart(tables: Db, targets: seq<Name>, specs: map<Name, TableSpec>, source: map<Name, seq<Row>>, fks: seq<ForeignKey>, order: seq<Name>)
    requires Inputs(tables, targets, specs, source, fks)
    requires Distinct(order) && multiset(order) == multiset(targets) && ParentsFirst(targets, fks, order)
    ensures Inputs(tables, order, specs, source, fks) && Start(tables, SourceTables(specs, source), fks, order)
    ensures forall t :: t in order <==> t in targets
    ensures |order| == |targets|
  {
    forall t ensures t in order <==> t in targets {
      assert t in multiset(order) <==> t in multiset(targets);
    }
    assert |multiset(order)| == |order| && |multiset(targets)| == |targets|;
  }

  lemma OneMoreRecord(start: seq<Db>, history: seq<Db>, now: Db, fks: seq<ForeignKey>)
    requires Recorded(start, history, fks) && Scoped(now, fks) && Intact(now, fks)
    ensures Recorded(start, history + [now], fks)
  {
  }

  /** What the parent-first pass needs to know about its next table. */
  lemma {:induction false} NextTable(start: Db, now: Db, specs: map<Name, TableSpec>, source: map<Name, seq<Row>>, fks: seq<ForeignKey>, order: seq<Name>, k: nat)
    requires Inputs(start, order, specs, source, fks) && Start(start, SourceTables(specs, source), fks, order) && k < |order|
    requires Covers(start, SourceTables(specs, source), order[..k])
    requires now == UpsertAll(start, SourceTables(specs, source), order[..k], PerformanceColumn(specs))
    ensures Scoped(now, fks) && Intact(now, fks) && order[k] in now && now[order[k]] == start[order[k]]
    ensures forall row, fk :: row in source[order[k]] && fk in fks && fk.childTable == order[k] && fk.parentTable != order[k] ==> RefHolds(now, fk, row)
    ensures Covers(start, SourceTables(specs, source), order[..k + 1]) && order[..k + 1] == order[..k] + [order[k]]
    ensures var next := UpsertAll(start, SourceTables(specs, source), order[..k + 1], PerformanceColumn(specs));
            next == UpsertStep(now, SourceTables(specs, source), order[k], PerformanceColumn(specs)) && Intact(next, fks)
  {
    var written, column, t := SourceTables(specs, source), PerformanceColumn(specs), order[k];
    UpsertsStayIntact(start, written, fks, order, column, k);
    ParentsAreWritten(now, specs, source, fks, order, k);
    assert order[..k + 1] == order[..k] + [t] && t !in order[..k] && t in order;
    NextUpsert(start, written, fks, order, column, k);
  }

  lemma {:induction false} NextUpsert(start: Db, source: Db, fks: seq<ForeignKey>, order: seq<Name>, column: nat, k: nat)
    requires Start(start, source, fks, order) && k < |order| && Covers(start, source, order[..k])
    ensures Covers(start, source, order[..k + 1]) && order[k] in start && order[k] in source
    ensures UpsertAll(start, source, order[..k + 1], column) == UpsertStep(UpsertAll(start, source, order[..k], column), source, order[k], column)
    ensures Intact(UpsertAll(start, source, order[..k + 1], column), fks)
  {
    UpsertsStayIntact(start, source, fks, order, column, k + 1);
    assert order[..k + 1][..k] == order[..k] && order[..k + 1][k] == order[k] && order[k] in order;
  }

  /** What the child-first pass needs to know about its next table. */
  lemma {:induction false} PreviousTable(start: Db, now: Db, specs: map<Name, TableSpec>, source: map<Name, seq<Row>>, fks: seq<ForeignKey>, order: seq<Name>, k: nat)
    requires Start(start, SourceTables(specs, source), fks, order) && k < |order|
    requires forall t :: t in order ==> t in specs && t in source && Holds(start[t], SourceTables(specs, source)[t])
    requires Covers(start, SourceTables(specs, source), order[k + 1..])
    requires now == DeleteAll(start, SourceTables(specs, source), order[k + 1..])
    ensures order[k] in now && order[k] in specs && order[k] in source && Covers(start, SourceTables(specs, source), order[k..])
    ensures var t := order[k];
            var left := now[t := map key | key in now[t] && key in Keys(source[t], specs[t].primaryKey) :: now[t][key]];
            left == DeleteAll(start, SourceTables(specs, source), order[k..]) && Scoped(left, fks) && Intact(left, fks)
  {
    var written, t := SourceTables(specs, source), order[k];
    DeletesStayIntact(start, written, fks, order, k);
    assert order[k..][1..] == order[k + 1..] && order[k..][0] == t && t in order;
    UpsertIsOverride(map[], source[t], specs[t].primaryKey);
    assert DeleteStep(now, written, t) == now[t := map key | key in now[t] && key in Keys(source[t], specs[t].primaryKey) :: now[t][key]];
  }

  lemma {:induction false} PassesResult(start: Db, source: Db, fks: seq<ForeignKey>, order: seq<Name>, column: nat)
    requires Start(start, source, fks, order)
    ensures var now := DeleteAll(UpsertAll(start, source, order, column), source, order);
            Copied(start, now, source, order) && Intact(now, fks)
  {
    PassesCopyTheSource(start, source, fks, order, column);
  }

  lemma {:induction false} AfterUpserts(start: Db, source: Db, fks: seq<ForeignKey>, order: seq<Name>, column: nat)
    requires Start(start, source, fks, order)
    ensures var now := UpsertAll(start, source, order, column);
            Start(now, source, fks, order) && forall t :: t in order ==> Holds(now[t], source[t])
  {
    assert order[..|order|] == order;
    UpsertsStayIntact(start, source, fks, order, column, |order|);
  }
}
