/**
 * The two row stores of db_item_repository.py: `PostgresRowStore` on a table
 * keyed by id, and `ListRowStore` on a list of items that it loads and saves
 * as a whole.  Both are proved against RowStore.
 */
module RowStores {
  import opened Prelude
  import opened RowStore

  lemma {:induction false} LeastExists(s: set<nat>, x: nat)
    requires x in s
    ensures exists z :: z in s && forall y :: y in s ==> z <= y
    decreases x
  {
    if y :| y in s && y < x {
      LeastExists(s, y);
    }
  }

  class PostgresRowStore {
    var rows: Rows

    constructor (rows: Rows)
      ensures this.rows == rows
    {
      this.rows := rows;
    }

    /** `SELECT COALESCE(MAX(id), 0)` and one more. */
    method AllocateId() returns (id: nat)
      ensures NewId(rows, id) && id !in rows
    {
      id := 1;
      var todo := rows.Keys;
      while todo != {}
        invariant todo <= rows.Keys
        invariant forall k :: k in rows && k !in todo ==> k < id
        invariant id == 1 || (id > 1 && id - 1 in rows)
        decreases todo
      {
        var k :| k in todo;
        if id <= k {
          id := k + 1;
        }
        todo := todo - {k};
      }
    }

    method Insert(data: Columns, now: int) returns (id: nat)
      modifies this
      ensures NewId(old(rows), id) && rows == old(rows)[id := Row(At(now), data)]
    {
      id := AllocateId();
      rows := rows[id := Row(At(now), data)];
    }

    method Update(id: nat, mutate: Mutate, token: Token, now: int) returns (r: Result<Row, Error>)
      modifies this
      ensures (rows, r) == PgUpdate(old(rows), id, mutate, token, now)
    {
      if id !in rows {
        return Err(NotFound);
      }
      var current := rows[id];
      var version := NextVersion(current.version, now);
      if version.Err? {
        return Err(version.error);
      }
      var stale := EnsureExpected(current.version, token);
      if stale.Some? {
        return Err(stale.value);
      }
      var data := mutate(current);
      if data.Err? {
        return Err(Refused(data.error));
      }
      rows := rows[id := Row(At(version.value), data.value)];
      return Ok(rows[id]);
    }

    method UpdateColumns(id: nat, guard: Columns, data: Columns, bump: bool, now: int) returns (r: Result<Option<Row>, Error>)
      modifies this
      ensures (rows, r) == UpdatedColumns(old(rows), id, guard, data, bump, now)
    {
      if id !in rows || !Matches(rows[id].data, guard) {
        return Ok(None);
      }
      var version := rows[id].version;
      if bump {
        var next := NextVersion(version, now);
        if next.Err? {
          return Err(next.error);
        }
        version := At(next.value);
      }
      rows := rows[id := Row(version, rows[id].data + data)];
      return Ok(Some(rows[id]));
    }

    method Delete(id: nat, authorize: Authorize, token: Token) returns (r: Result<Row, Error>)
      modifies this
      ensures (rows, r) == Deleted(old(rows), id, authorize, token)
    {
      if id !in rows {
        return Err(NotFound);
      }
      var current := rows[id];
      var refusal := authorize(current);
      if refusal.Some? {
        return Err(Refused(refusal.value));
      }
      var stale := EnsureExpected(current.version, token);
      if stale.Some? {
        return Err(stale.value);
      }
      rows := rows - {id};
      return Ok(current);
    }

    /** Rows in ascending id order; a row that is too far ahead aborts the transaction. */
    method UpdateMany(updates: map<nat, Columns>, now: int) returns (r: Result<(), Error>)
      modifies this
      ensures (rows, r) == UpdatedMany(old(rows), updates, OneReading(now))
    {
      var backup := rows;
      var todo := updates.Keys;
      while todo != {}
        invariant todo <= updates.Keys && rows.Keys == backup.Keys
        invariant forall id :: id in backup ==> rows[id] == if id in todo then backup[id] else MovedRow(backup[id], Wanted(updates, id), now)
        invariant forall id :: id !in todo && Changes(backup, updates, id) ==> NextVersion(backup[id].version, now).Ok?
        decreases todo
      {
        ghost var some :| some in todo;
        LeastExists(todo, some);
        var id :| id in todo && forall y :: y in todo ==> id <= y;
        todo := todo - {id};
        assert rows.Keys == backup.Keys && (id in backup ==> rows[id] == backup[id]);
        if id in rows && !Matches(rows[id].data, updates[id]) {
          var version := NextVersion(rows[id].version, now);
          if version.Err? {
            rows := backup;
            assert Changes(backup, updates, id);
            return Err(version.error);
          }
          rows := rows[id := Row(At(version.value), rows[id].data + updates[id])];
        }
      }
      var clock := OneReading(now);
      assert rows == map id | id in backup :: MovedRow(backup[id], Wanted(updates, id), clock(id));
      assert !Blocked(backup, updates, clock) by {
        assert forall id :: id in backup && Changes(backup, updates, id) ==> id !in todo;
      }
      return Ok(());
    }
  }

  // ------------------------------------------------------------------ the list adapter

  datatype Item = Item(id: nat, row: Row)

  predicate UniqueIds(items: seq<Item>) {
    forall i, j :: 0 <= i < j < |items| ==> items[i].id != items[j].id
  }

  /** The list read as a table. */
  function Contents(items: seq<Item>): Rows {
    if items == [] then map[]
    else Contents(items[..|items| - 1])[items[|items| - 1].id := items[|items| - 1].row]
  }

  ghost predicate HasItem(items: seq<Item>, id: nat) {
    exists i :: 0 <= i < |items| && items[i].id == id
  }

  lemma {:induction false} KeysAreIds(items: seq<Item>)
    ensures forall id :: id in Contents(items) <==> HasItem(items, id)
  {
    if items != [] {
      var rest, last := items[..|items| - 1], items[|items| - 1];
      KeysAreIds(rest);
      forall id ensures HasItem(items, id) <==> HasItem(rest, id) || id == last.id {
        if HasItem(rest, id) {
          var i :| 0 <= i < |rest| && rest[i].id == id;
          assert items[i].id == id;
        }
        if HasItem(items, id) && id != last.id {
          var i :| 0 <= i < |items| && items[i].id == id;
          assert rest[i].id == id;
        }
        assert items[|items| - 1].id == last.id;
      }
    }
  }

  lemma {:induction false} FoundAt(items: seq<Item>, i: nat)
    requires UniqueIds(items) && i < |items|
    ensures items[i].id in Contents(items) && Contents(items)[items[i].id] == items[i].row
  {
    if i < |items| - 1 {
      FoundAt(items[..|items| - 1], i);
    }
  }

  lemma {:induction false} AppendedContents(items: seq<Item>, item: Item)
    requires UniqueIds(items) && item.id !in Contents(items)
    ensures UniqueIds(items + [item])
    ensures Contents(items + [item]) == Contents(items)[item.id := item.row]
  {
    KeysAreIds(items);
    assert forall i :: 0 <= i < |items| ==> HasItem(items, items[i].id);
    assert (items + [item])[..|items|] == items;
  }

  lemma {:induction false} ReplacedContents(items: seq<Item>, i: nat, row: Row)
    requires UniqueIds(items) && i < |items|
    ensures UniqueIds(items[i := Item(items[i].id, row)])
    ensures Contents(items[i := Item(items[i].id, row)]) == Contents(items)[items[i].id := row]
  {
    var last := |items| - 1;
    var after := items[i := Item(items[i].id, row)];
    if i < last {
      ReplacedContents(items[..last], i, row);
      assert after[..last] == items[..last][i := Item(items[i].id, row)];
      assert items[i].id != items[last].id;
    } else {
      assert after[..last] == items[..last];
    }
  }

  /** The items with another id. */
  function RemoveId(items: seq<Item>, id: nat): seq<Item> {
    if items == [] then []
    else if items[|items| - 1].id == id then RemoveId(items[..|items| - 1], id)
    else RemoveId(items[..|items| - 1], id) + [items[|items| - 1]]
  }

  lemma DroppedLast(rest: Rows, last: Item, id: nat)
    requires last.id == id && id !in rest
    ensures rest[last.id := last.row] - {id} == rest - {id}
  {
  }

  lemma KeptLast(rest: Rows, last: Item, id: nat)
    requires last.id != id
    ensures (rest - {id})[last.id := last.row] == rest[last.id := last.row] - {id}
  {
  }

  lemma {:induction false} RemovedContents(items: seq<Item>, id: nat)
    requires UniqueIds(items)
    ensures UniqueIds(RemoveId(items, id)) && Contents(RemoveId(items, id)) == Contents(items) - {id}
  {
    if items != [] {
      var rest, last := items[..|items| - 1], items[|items| - 1];
      RemovedContents(rest, id);
      LastIsNew(items);
      if last.id == id {
        DroppedLast(Contents(rest), last, id);
      } else {
        AppendedContents(RemoveId(rest, id), last);
        KeptLast(Contents(rest), last, id);
      }
    }
  }

  lemma LastIsNew(items: seq<Item>)
    requires UniqueIds(items) && items != []
    ensures items[|items| - 1].id !in Contents(items[..|items| - 1])
  {
    KeysAreIds(items[..|items| - 1]);
  }

  class ListRowStore {
    var saved: seq<Item>

    constructor ()
      ensures saved == []
    {
      saved := [];
    }

    method IndexOf(id: nat) returns (index: Option<nat>)
      ensures index.Some? ==> index.value < |saved| && saved[index.value].id == id
      ensures index.None? ==> id !in Contents(saved)
    {
      var i := 0;
      while i < |saved|
        invariant i <= |saved| && forall k :: 0 <= k < i ==> saved[k].id != id
      {
        if saved[i].id == id {
          return Some(i);
        }
        i := i + 1;
      }
      KeysAreIds(saved);
      return None;
    }

    method Insert(data: Columns, now: int) returns (id: nat)
      requires UniqueIds(saved)
      modifies this
      ensures UniqueIds(saved) && NewId(Contents(old(saved)), id)
      ensures Contents(saved) == Contents(old(saved))[id := Row(At(now), data)]
    {
      id := 1;
      for i := 0 to |saved|
        invariant forall k :: 0 <= k < i ==> saved[k].id < id
        invariant id == 1 || (id > 1 && HasItem(saved, id - 1))
      {
        if id <= saved[i].id {
          id := saved[i].id + 1;
          assert HasItem(saved, saved[i].id);
        }
      }
      KeysAreIds(saved);
      AppendedContents(saved, Item(id, Row(At(now), data)));
      saved := saved + [Item(id, Row(At(now), data))];
    }

    method Update(id: nat, mutate: Mutate, token: Token, now: int) returns (r: Result<Row, Error>)
      requires UniqueIds(saved)
      modifies this
      ensures UniqueIds(saved)
      ensures (Contents(saved), r) == ListUpdate(Contents(old(saved)), id, mutate, token, now)
    {
      var index := IndexOf(id);
      if index.None? {
        return Err(NotFound);
      }
      FoundAt(saved, index.value);
      var current := saved[index.value].row;
      var stale := EnsureExpected(current.version, token);
      if stale.Some? {
        return Err(stale.value);
      }
      var data := mutate(current);
      if data.Err? {
        return Err(Refused(data.error));
      }
      var version := NextVersion(current.version, now);
      if version.Err? {
        return Err(version.error);
      }
      var row := Row(At(version.value), data.value);
      ReplacedContents(saved, index.value, row);
      saved := saved[index.value := Item(id, row)];
      return Ok(row);
    }

    method UpdateColumns(id: nat, guard: Columns, data: Columns, bump: bool, now: int) returns (r: Result<Option<Row>, Error>)
      requires UniqueIds(saved)
      modifies this
      ensures UniqueIds(saved)
      ensures (Contents(saved), r) == UpdatedColumns(Contents(old(saved)), id, guard, data, bump, now)
    {
      var index := IndexOf(id);
      if index.None? {
        return Ok(None);
      }
      FoundAt(saved, index.value);
      var current := saved[index.value].row;
      if !Matches(current.data, guard) {
        return Ok(None);
      }
      var version := current.version;
      if bump {
        var next := NextVersion(version, now);
        if next.Err? {
          return Err(next.error);
        }
        version := At(next.value);
      }
      var row := Row(version, current.data + data);
      ReplacedContents(saved, index.value, row);
      saved := saved[index.value := Item(id, row)];
      return Ok(Some(row));
    }

    method Delete(id: nat, authorize: Authorize, token: Token) returns (r: Result<Row, Error>)
      requires UniqueIds(saved)
      modifies this
      ensures UniqueIds(saved)
      ensures (Contents(saved), r) == Deleted(Contents(old(saved)), id, authorize, token)
    {
      var index := IndexOf(id);
      if index.None? {
        return Err(NotFound);
      }
      FoundAt(saved, index.value);
      var current := saved[index.value].row;
      var refusal := authorize(current);
      if refusal.Some? {
        return Err(Refused(refusal.value));
      }
      var stale := EnsureExpected(current.version, token);
      if stale.Some? {
        return Err(stale.value);
      }
      RemovedContents(saved, id);
      saved := RemoveId(saved, id);
      return Ok(current);
    }

    /**
     * The clock is read for each item that changes, and the loaded copy is
     * saved only when every one of them could be updated.
     */
    method UpdateMany(updates: map<nat, Columns>, clock: nat -> int) returns (r: Result<(), Error>)
      requires UniqueIds(saved)
      modifies this
      ensures UniqueIds(saved)
      ensures (Contents(saved), r) == UpdatedMany(Contents(old(saved)), updates, clock)
    {
      var items := saved;
      for i := 0 to |items|
        invariant |items| == |saved|
        invariant forall k :: i <= k < |items| ==> items[k] == saved[k]
        invariant forall k :: 0 <= k < i ==> items[k] == MovedItem(saved[k], updates, clock) && !Halts(saved[k], updates, clock)
      {
        var item := items[i];
        if item.id in updates && !Matches(item.row.data, updates[item.id]) {
          var version := NextVersion(item.row.version, clock(item.id));
          if version.Err? {
            FoundAt(saved, i);
            assert Changes(Contents(saved), updates, item.id);
            return Err(version.error);
          }
          items := items[i := Item(item.id, Row(At(version.value), item.row.data + updates[item.id]))];
        }
      }
      MovedContents(saved, items, updates, clock);
      NoneBlocked(saved, updates, clock);
      saved := items;
      return Ok(());
    }
  }

  function MovedItem(item: Item, updates: map<nat, Columns>, clock: nat -> int): Item {
    Item(item.id, MovedRow(item.row, Wanted(updates, item.id), clock(item.id)))
  }

  /** The item changes and is too far ahead of its reading. */
  predicate Halts(item: Item, updates: map<nat, Columns>, clock: nat -> int) {
    item.id in updates && !Matches(item.row.data, updates[item.id]) && NextVersion(item.row.version, clock(item.id)).Err?
  }

  lemma {:induction false} MovedContents(before: seq<Item>, after: seq<Item>, updates: map<nat, Columns>, clock: nat -> int)
    requires UniqueIds(before) && |after| == |before|
    requires forall k :: 0 <= k < |after| ==> after[k] == MovedItem(before[k], updates, clock)
    ensures UniqueIds(after)
    ensures Contents(after) == map id | id in Contents(before) :: MovedRow(Contents(before)[id], Wanted(updates, id), clock(id))
  {
    if before != [] {
      MovedContents(before[..|before| - 1], after[..|before| - 1], updates, clock);
    }
  }

  lemma {:induction false} NoneBlocked(items: seq<Item>, updates: map<nat, Columns>, clock: nat -> int)
    requires UniqueIds(items)
    requires forall k :: 0 <= k < |items| ==> !Halts(items[k], updates, clock)
    ensures !Blocked(Contents(items), updates, clock)
  {
    KeysAreIds(items);
    forall id | id in Contents(items) && Changes(Contents(items), updates, id) ensures NextVersion(Contents(items)[id].version, clock(id)).Ok? {
      var k :| 0 <= k < |items| && items[k].id == id;
      FoundAt(items, k);
    }
  }
}
