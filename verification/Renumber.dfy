/**
 * Renumbering under a UNIQUE index that is checked after every single-row
 * UPDATE: the two-phase `update_many` of db_item_repository.py and the
 * temporary range of db_json_repository.py.
 */
module Renumber {
  import opened Prelude

  datatype Row = Row(tenant: Name, performance: nat, order: int)

  /** The new place of a row; a row that changes its group carries the new one. */
  datatype Target = Target(performance: Option<nat>, order: int)

  type Table = map<nat, Row>

  /** The index on (organization, performance, sort order). */
  ghost predicate Unique(rows: Table) {
    forall a, b :: a in rows && b in rows && a != b ==> rows[a] != rows[b]
  }

  /** `COALESCE(MAX(sort_order), 0)` over the whole table. */
  ghost predicate IsMax(rows: Table, max: int) {
    && (forall id :: id in rows ==> rows[id].order <= max)
    && (if rows == map[] then max == 0 else HasOrder(rows, max))
  }

  ghost predicate HasOrder(rows: Table, order: int) {
    exists id :: id in rows && rows[id].order == order
  }

  /** There is one maximum, 0 for an empty table. */
  lemma OneMaximum(rows: Table, m: int, n: int)
    requires IsMax(rows, m) && IsMax(rows, n)
    ensures m == n && (rows == map[] ==> m == 0)
  {
  }

  /** The first place of an id in the list, or its length. */
  function Position(ids: seq<nat>, id: nat): (i: nat)
    ensures i <= |ids| && (i < |ids| <==> id in ids) && (i < |ids| ==> ids[i] == id)
  {
    if ids == [] || ids[0] == id then 0 else 1 + Position(ids[1..], id)
  }

  lemma {:induction false} PositionOf(ids: seq<nat>, i: nat)
    requires Distinct(ids) && i < |ids|
    ensures Position(ids, ids[i]) == i
  {
    if i > 0 {
      PositionOf(ids[1..], i - 1);
    }
  }

  // ------------------------------------------------------------------ lifting rows out of the way

  predicate Moves(rows: Table, tenant: Name, ids: seq<nat>, id: nat) {
    id in rows && rows[id].tenant == tenant && id in ids
  }

  /** The table after the first `k` rows of the list were set to their temporary orders. */
  function Lifted(rows: Table, tenant: Name, ids: seq<nat>, temps: seq<int>, k: nat): Table
    requires |temps| == |ids| && k <= |ids|
  {
    map id | id in rows ::
      if Moves(rows, tenant, ids, id) && Position(ids, id) < k then rows[id].(order := temps[Position(ids, id)]) else rows[id]
  }

  /** Each temporary order is above all orders of its group, and they differ within a group. */
  ghost predicate Liftable(rows: Table, tenant: Name, ids: seq<nat>, temps: seq<int>) {
    && Distinct(ids) && |temps| == |ids|
    && (forall i, id :: 0 <= i < |ids| && Moves(rows, tenant, ids, ids[i]) && id in rows && SameGroup(rows[id], rows[ids[i]]) ==> rows[id].order < temps[i])
    && (forall i, j :: 0 <= i < j < |ids| && Moves(rows, tenant, ids, ids[i]) && Moves(rows, tenant, ids, ids[j]) && SameGroup(rows[ids[i]], rows[ids[j]]) ==>
          temps[i] != temps[j])
  }

  predicate SameGroup(a: Row, b: Row) {
    a.tenant == b.tenant && a.performance == b.performance
  }

  /** A lifted row differs from every other row of its group. */
  lemma {:induction false} LiftedDiffers(rows: Table, tenant: Name, ids: seq<nat>, temps: seq<int>, k: nat, a: nat, b: nat)
    requires Liftable(rows, tenant, ids, temps) && k <= |ids| && a in rows && b in rows && a != b && SameGroup(rows[a], rows[b])
    requires Moves(rows, tenant, ids, a) && Position(ids, a) < k
    ensures Lifted(rows, tenant, ids, temps, k)[a].order != Lifted(rows, tenant, ids, temps, k)[b].order
  {
    var i, j := Position(ids, a), Position(ids, b);
    assert ids[i] == a && rows[b].order < temps[i];
    if j < k {
      assert ids[j] == b && (i < j || j < i);
    }
  }

  /** Lifting keeps the index unique after every single UPDATE. */
  lemma LiftingKeepsUnique(rows: Table, tenant: Name, ids: seq<nat>, temps: seq<int>, k: nat)
    requires Unique(rows) && Liftable(rows, tenant, ids, temps) && k <= |ids|
    ensures Unique(Lifted(rows, tenant, ids, temps, k))
  {
    var after := Lifted(rows, tenant, ids, temps, k);
    forall a, b | a in after && b in after && a != b ensures after[a] != after[b] {
      if SameGroup(rows[a], rows[b]) {
        if Moves(rows, tenant, ids, a) && Position(ids, a) < k {
          LiftedDiffers(rows, tenant, ids, temps, k, a, b);
        } else if Moves(rows, tenant, ids, b) && Position(ids, b) < k {
          LiftedDiffers(rows, tenant, ids, temps, k, b, a);
        }
      }
    }
  }

  // ------------------------------------------------------------------ two phases

  datatype Plan = Plan(tenant: Name, ids: seq<nat>, targets: map<nat, Target>, max: int) {
    predicate Valid() {
      forall id :: id in ids ==> id in targets
    }

    function Offset(): int {
      max + |ids| + 1
    }

    function Temps(): seq<int> {
      seq(|ids|, i => Offset() + i)
    }
  }

  function Placed(row: Row, target: Target): Row {
    row.(performance := if target.performance.Some? then target.performance.value else row.performance, order := target.order)
  }

  /** The table in the second phase after the first `k` rows got their targets. */
  function Settled(rows: Table, p: Plan, k: nat): Table
    requires p.Valid() && k <= |p.ids|
  {
    map id | id in rows ::
      if !Moves(rows, p.tenant, p.ids, id) then rows[id]
      else if Position(p.ids, id) < k then Placed(rows[id], p.targets[id])
      else rows[id].(order := p.Offset() + Position(p.ids, id))
  }

  /** Every named row of the tenant has its target, in its new group if it was given one; everything else is as it was. */
  ghost predicate Renumbered(before: Table, after: Table, tenant: Name, ids: seq<nat>, targets: map<nat, Target>)
    requires forall id :: id in ids ==> id in targets
  {
    && after.Keys == before.Keys
    && (forall id :: id in before && id in ids && before[id].tenant == tenant ==>
          after[id].order == targets[id].order && after[id].tenant == tenant &&
          after[id].performance == match targets[id].performance case None => before[id].performance case Some(performance) => performance)
    && (forall id :: id in before && (id !in ids || before[id].tenant != tenant) ==> after[id] == before[id])
  }

  lemma SettledIsRenumbered(rows: Table, p: Plan)
    requires p.Valid()
    ensures Renumbered(rows, Settled(rows, p, |p.ids|), p.tenant, p.ids, p.targets)
  {
  }

  /** The listed rows of the tenant stand above every row of their group, in the same group; everything else is as it was. */
  ghost predicate OutOfTheWay(before: Table, after: Table, tenant: Name, ids: seq<nat>) {
    && after.Keys == before.Keys
    && (forall id :: id in before && id in ids && before[id].tenant == tenant ==>
          after[id].tenant == tenant && after[id].performance == before[id].performance && AboveGroup(before, before[id], after[id].order))
    && (forall id :: id in before && (id !in ids || before[id].tenant != tenant) ==> after[id] == before[id])
  }

  ghost predicate AboveGroup(rows: Table, row: Row, order: int) {
    forall b :: b in rows && rows[b].tenant == row.tenant && rows[b].performance == row.performance ==> rows[b].order < order
  }

  lemma LiftedIsOutOfTheWay(rows: Table, tenant: Name, ids: seq<nat>, temps: seq<int>)
    requires Liftable(rows, tenant, ids, temps)
    ensures OutOfTheWay(rows, Lifted(rows, tenant, ids, temps, |ids|), tenant, ids)
  {
    var after := Lifted(rows, tenant, ids, temps, |ids|);
    forall id | id in rows && id in ids && rows[id].tenant == tenant ensures AboveGroup(rows, rows[id], after[id].order) {
      var i := Position(ids, id);
      assert ids[i] == id && Moves(rows, tenant, ids, ids[i]);
    }
  }

  ghost predicate Planned(rows: Table, p: Plan) {
    Unique(rows) && p.Valid() && Distinct(p.ids) && IsMax(rows, p.max)
  }

  /** No target meets another target, a row that stays, or the temporary order of a later row. */
  ghost predicate TargetsFit(rows: Table, p: Plan)
    requires p.Valid()
  {
    forall a, b :: Moves(rows, p.tenant, p.ids, a) && b in rows && a != b ==> Clear(rows, p, a, b)
  }

  ghost predicate Clear(rows: Table, p: Plan, a: nat, b: nat)
    requires p.Valid() && Moves(rows, p.tenant, p.ids, a) && b in rows
  {
    var mine := Placed(rows[a], p.targets[a]);
    if !Moves(rows, p.tenant, p.ids, b) then mine != rows[b]
    else
      && mine != Placed(rows[b], p.targets[b])
      && (Position(p.ids, a) < Position(p.ids, b) ==> mine != rows[b].(order := p.Offset() + Position(p.ids, b)))
  }

  lemma TempsAreLiftable(rows: Table, p: Plan)
    requires Planned(rows, p)
    ensures Liftable(rows, p.tenant, p.ids, p.Temps())
  {
    assert forall id :: id in rows ==> rows[id].order <= p.max;
    assert forall i :: 0 <= i < |p.ids| ==> p.Temps()[i] == p.Offset() + i;
  }

  lemma AllLifted(rows: Table, p: Plan)
    requires p.Valid()
    ensures Settled(rows, p, 0) == Lifted(rows, p.tenant, p.ids, p.Temps(), |p.ids|)
  {
  }

  lemma FittingSettles(rows: Table, p: Plan, k: nat)
    requires Planned(rows, p) && TargetsFit(rows, p) && k <= |p.ids|
    ensures Unique(Settled(rows, p, k))
  {
    var after := Settled(rows, p, k);
    forall a, b | a in after && b in after && a != b ensures after[a] != after[b] {
      if Moves(rows, p.tenant, p.ids, a) {
        assert Clear(rows, p, a, b);
      }
      if Moves(rows, p.tenant, p.ids, b) {
        assert Clear(rows, p, b, a);
      }
    }
  }

  /** The second phase did not violate the index for the first `k` rows. */
  ghost predicate UniqueUpTo(rows: Table, p: Plan, k: nat)
    requires p.Valid() && k <= |p.ids|
  {
    forall i :: 0 <= i <= k ==> Unique(Settled(rows, p, i))
  }

  lemma UniqueOneMore(rows: Table, p: Plan, k: nat)
    requires p.Valid() && k < |p.ids| && UniqueUpTo(rows, p, k) && Unique(Settled(rows, p, k + 1))
    ensures UniqueUpTo(rows, p, k + 1)
  {
  }

  lemma FailureMeansNoFit(rows: Table, p: Plan, k: nat)
    requires Planned(rows, p) && k <= |p.ids| && !Unique(Settled(rows, p, k))
    ensures !TargetsFit(rows, p)
  {
    if TargetsFit(rows, p) {
      FittingSettles(rows, p, k);
    }
  }

  lemma SettlingFits(rows: Table, p: Plan)
    requires Planned(rows, p) && UniqueUpTo(rows, p, |p.ids|)
    ensures TargetsFit(rows, p)
  {
    forall a, b | Moves(rows, p.tenant, p.ids, a) && b in rows && a != b ensures Clear(rows, p, a, b) {
      var k := Position(p.ids, a) + 1;
      assert Settled(rows, p, |p.ids|)[a] != Settled(rows, p, |p.ids|)[b];
      assert Settled(rows, p, k)[a] != Settled(rows, p, k)[b];
    }
  }

  /** The index is never violated, in both phases and after every row, exactly when the targets fit. */
  lemma RenumberingSucceedsExactly(rows: Table, p: Plan)
    requires Planned(rows, p)
    ensures forall k :: 0 <= k <= |p.ids| ==> Unique(Lifted(rows, p.tenant, p.ids, p.Temps(), k))
    ensures UniqueUpTo(rows, p, |p.ids|) <==> TargetsFit(rows, p)
  {
    TempsAreLiftable(rows, p);
    forall k | 0 <= k <= |p.ids| ensures Unique(Lifted(rows, p.tenant, p.ids, p.Temps(), k)) {
      LiftingKeepsUnique(rows, p.tenant, p.ids, p.Temps(), k);
    }
    if TargetsFit(rows, p) {
      forall k | 0 <= k <= |p.ids| ensures Unique(Settled(rows, p, k)) {
        FittingSettles(rows, p, k);
      }
    }
    if UniqueUpTo(rows, p, |p.ids|) {
      SettlingFits(rows, p);
    }
  }

  /** The requested places differ from each other and from the places of the rows that stay. */
  ghost predicate FreePlaces(rows: Table, p: Plan)
    requires p.Valid()
  {
    Unique(Settled(rows, p, |p.ids|))
  }

  /** Any permutation or resequencing to free places up to the old maximum plus the number of moved rows plus one succeeds. */
  lemma ResequencingSucceeds(rows: Table, p: Plan)
    requires Planned(rows, p) && FreePlaces(rows, p)
    requires forall id :: id in p.ids ==> p.targets[id].order <= p.max + |p.ids| + 1
    ensures TargetsFit(rows, p)
  {
    forall a, b | Moves(rows, p.tenant, p.ids, a) && b in rows && a != b ensures Clear(rows, p, a, b) {
      assert Settled(rows, p, |p.ids|)[a] != Settled(rows, p, |p.ids|)[b];
    }
  }

  /** Places beyond that bound can meet the temporary range although they are free: two rows moved to 2 and 6. */
  lemma TemporaryRangeCanCollide(t: Name) returns (rows: Table, p: Plan)
    ensures Planned(rows, p) && FreePlaces(rows, p) && !TargetsFit(rows, p)
    ensures |p.ids| == 2 && p.max == 2 && p.targets[p.ids[0]].order == p.max + |p.ids| + 2
  {
    rows := map[1 := Row(t, 1, 1), 2 := Row(t, 1, 2)];
    p := Plan(t, [1, 2], map[1 := Target(None, 6), 2 := Target(None, 2)], 2);
    PositionOf(p.ids, 0);
    PositionOf(p.ids, 1);
    assert p.ids[0] == 1 && p.ids[1] == 2;
    assert rows[2].order == p.max;
    assert Moves(rows, t, p.ids, 1) && !Clear(rows, p, 1, 2);
  }

  // ------------------------------------------------------------------ the statements

  class VideoTable {
    var rows: Table

    constructor ()
      ensures rows == map[]
    {
      rows := map[];
    }

    /** One UPDATE of one row of the tenant under the unique index; no such row is no update. */
    method UpdateRow(tenant: Name, id: nat, target: Target) returns (ok: bool)
      requires Unique(rows)
      modifies this
      ensures var after := if id in old(rows) && old(rows)[id].tenant == tenant then old(rows)[id := Placed(old(rows)[id], target)] else old(rows);
              ok == Unique(after) && rows == if ok then after else old(rows)
    {
      ok := true;
      if id in rows && rows[id].tenant == tenant {
        var row := Placed(rows[id], target);
        ok := forall b | b in rows :: b == id || rows[b] != row;
        if ok {
          rows := rows[id := row];
        } else {
          var b :| b in rows && b != id && rows[b] == row;
          assert rows[id := row][id] == rows[id := row][b];
        }
      }
    }

    method MaxOrder() returns (max: int)
      ensures IsMax(rows, max)
    {
      max := 0;
      var todo := rows.Keys;
      while todo != {}
        invariant todo <= rows.Keys
        invariant forall id :: id in rows && id !in todo ==> rows[id].order <= max
        invariant if todo == rows.Keys then max == 0 else HasOrder(rows, max)
        decreases todo
      {
        var id :| id in todo;
        if todo == rows.Keys || max < rows[id].order {
          max := rows[id].order;
        }
        todo := todo - {id};
      }
    }

    /**
     * Both phases over the sorted ids in one transaction: it commits exactly
     * when the targets fit, and then every named row has its target and every
     * other row is as it was.
     */
    method UpdateManyTwoPhase(tenant: Name, ids: seq<nat>, targets: map<nat, Target>) returns (ok: bool, ghost plan: Plan)
      requires Unique(rows) && Distinct(ids) && forall id :: id in ids ==> id in targets
      modifies this
      ensures plan.tenant == tenant && plan.ids == ids && plan.targets == targets && Planned(old(rows), plan)
      ensures ok <==> TargetsFit(old(rows), plan)
      ensures if ok then Renumbered(old(rows), rows, tenant, ids, targets) && Unique(rows) else rows == old(rows)
    {
      var backup := rows;
      var max := MaxOrder();
      plan := Plan(tenant, ids, targets, max);
      var offset := max + |ids| + 1;
      var temps := seq(|ids|, i => offset + i);
      assert temps == plan.Temps();
      TempsAreLiftable(rows, plan);
      Lift(tenant, ids, temps);
      AllLifted(backup, plan);
      ok := Settle(tenant, ids, targets, backup, plan);
      SettledIsRenumbered(backup, plan);
      if !ok {
        rows := backup;
      }
    }

    /** The second phase: every row to its target, up to the first violation. */
    method Settle(tenant: Name, ids: seq<nat>, targets: map<nat, Target>, ghost before: Table, ghost plan: Plan) returns (ok: bool)
      requires plan.tenant == tenant && plan.ids == ids && plan.targets == targets && Planned(before, plan)
      requires Unique(rows) && rows == Settled(before, plan, 0)
      modifies this
      ensures ok <==> TargetsFit(before, plan)
      ensures ok ==> Unique(rows) && rows == Settled(before, plan, |ids|)
    {
      for i := 0 to |ids|
        invariant rows == Settled(before, plan, i) && UniqueUpTo(before, plan, i)
      {
        SettleNext(before, plan, i);
        ok := UpdateRow(tenant, ids[i], targets[ids[i]]);
        if !ok {
          FailureMeansNoFit(before, plan, i + 1);
          return;
        }
        UniqueOneMore(before, plan, i);
      }
      SettlingFits(before, plan);
      ok := true;
    }

    /** `executemany` of the temporary orders that were computed group by group. */
    method Lift(tenant: Name, ids: seq<nat>, temps: seq<int>)
      requires Unique(rows) && Liftable(rows, tenant, ids, temps)
      modifies this
      ensures rows == Lifted(old(rows), tenant, ids, temps, |ids|) && Unique(rows)
    {
      LiftedAt0(rows, tenant, ids, temps);
      for i := 0 to |ids|
        invariant rows == Lifted(old(rows), tenant, ids, temps, i) && Unique(rows)
      {
        LiftNext(old(rows), tenant, ids, temps, i);
        LiftingKeepsUnique(old(rows), tenant, ids, temps, i + 1);
        var ok := UpdateRow(tenant, ids[i], Target(None, temps[i]));
      }
    }

    /** The rows of one group in the fetched order. */
    method GroupOf(fetched: seq<nat>, performance: nat) returns (group: seq<nat>)
      requires Distinct(fetched) && forall id :: id in fetched ==> id in rows
      ensures Distinct(group)
      ensures forall id :: id in group <==> id in fetched && rows[id].performance == performance
    {
      group := [];
      for i := 0 to |fetched|
        invariant Distinct(group)
        invariant forall id :: id in group <==> id in fetched[..i] && rows[id].performance == performance
      {
        assert fetched[i] !in fetched[..i];
        assert fetched[..i + 1] == fetched[..i] + [fetched[i]];
        if rows[fetched[i]].performance == performance {
          group := group + [fetched[i]];
        }
      }
      assert fetched[..|fetched|] == fetched;
    }

    method GroupMax(group: seq<nat>) returns (max: int)
      requires group != [] && forall id :: id in group ==> id in rows
      ensures forall id :: id in group ==> rows[id].order <= max
      ensures exists id :: id in group && rows[id].order == max
    {
      max := rows[group[0]].order;
      for i := 1 to |group|
        invariant forall k :: 0 <= k < i ==> rows[group[k]].order <= max
        invariant exists id :: id in group && rows[id].order == max
      {
        if max < rows[group[i]].order {
          max := rows[group[i]].order;
        }
      }
    }

    /** Moves every row of the tenant to a temporary order above the largest of its group; no UPDATE violates the index. */
    method StabilizeSortOrders(tenant: Name, fetched: seq<nat>) returns (ghost ids: seq<nat>, ghost temps: seq<int>)
      requires Unique(rows) && Distinct(fetched)
      requires forall id :: id in fetched <==> id in rows && rows[id].tenant == tenant
      modifies this
      ensures Unique(rows) && Liftable(old(rows), tenant, ids, temps)
      ensures OutOfTheWay(old(rows), rows, tenant, fetched)
      ensures forall id :: id in ids <==> id in fetched
    {
      var order: seq<nat>, values: seq<int> := [], [];
      var performances := set id | id in fetched :: rows[id].performance;
      var todo := performances;
      while todo != {}
        invariant rows == old(rows) && todo <= performances && Liftable(rows, tenant, order, values)
        invariant forall id :: id in order <==> id in fetched && rows[id].performance !in todo
        decreases todo
      {
        var performance :| performance in todo;
        var group := GroupOf(fetched, performance);
        var member :| member in fetched && rows[member].performance == performance;
        assert member in group;
        var max := GroupMax(group);
        var start := max + |group| + 1;
        var next := seq(|group|, i => start + i);
        AppendGroup(rows, tenant, order, values, group, next, performance, max);
        order, values := order + group, values + next;
        todo := todo - {performance};
      }
      ids, temps := order, values;
      ghost var before := rows;
      Lift(tenant, order, values);
      LiftedIsOutOfTheWay(before, tenant, order, values);
    }
  }

  lemma AppendGroup(rows: Table, tenant: Name, ids: seq<nat>, temps: seq<int>, group: seq<nat>, next: seq<int>, performance: nat, max: int)
    requires Liftable(rows, tenant, ids, temps) && Distinct(group) && |next| == |group|
    requires forall id :: id in group ==> id in rows && rows[id].performance == performance
    requires forall id :: id in ids ==> id in rows && rows[id].performance != performance
    requires forall id :: id in rows && rows[id].tenant == tenant && rows[id].performance == performance ==> rows[id].order <= max
    requires forall i :: 0 <= i < |next| ==> next[i] == max + |group| + 1 + i
    ensures Liftable(rows, tenant, ids + group, temps + next)
  {
    var all, values := ids + group, temps + next;
    forall i | 0 <= i < |all| ensures all[i] in rows && if i < |ids| then all[i] == ids[i] && all[i] in ids else all[i] == group[i - |ids|] && all[i] in group {
    }
    assert Distinct(all);
  }

  lemma LiftedAt0(rows: Table, tenant: Name, ids: seq<nat>, temps: seq<int>)
    requires |temps| == |ids|
    ensures Lifted(rows, tenant, ids, temps, 0) == rows
  {
  }

  /** One more UPDATE of the list. */
  lemma LiftNext(rows: Table, tenant: Name, ids: seq<nat>, temps: seq<int>, i: nat)
    requires Distinct(ids) && |temps| == |ids| && i < |ids|
    ensures var before, after, id := Lifted(rows, tenant, ids, temps, i), Lifted(rows, tenant, ids, temps, i + 1), ids[i];
            after == if id in before && before[id].tenant == tenant then before[id := Placed(before[id], Target(None, temps[i]))] else before
  {
    PositionOf(ids, i);
  }

  lemma SettleNext(rows: Table, p: Plan, i: nat)
    requires p.Valid() && Distinct(p.ids) && i < |p.ids|
    ensures var before, after, id := Settled(rows, p, i), Settled(rows, p, i + 1), p.ids[i];
            after == if id in before && before[id].tenant == p.tenant then before[id := Placed(before[id], p.targets[id])] else before
  {
    PositionOf(p.ids, i);
  }
}
