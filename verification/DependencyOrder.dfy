/**
 * The table ordering of scripts/sync_prod_to_test_db.py: Kahn's algorithm over
 * the foreign keys between the tables that are synchronized.
 *
 * A walk follows foreign keys from parent to child.  The reference notions are
 * walks that close a cycle; the method below is the queue algorithm, and the
 * lemmas connect the two.
 */
module DependencyOrder {
  import opened Prelude

  datatype ForeignKey = ForeignKey(name: string, childTable: Name, childColumns: seq<nat>, parentTable: Name)

  /** The sorted list of unresolved tables is reported as a set. */
  datatype Ordering = Ordered(order: seq<Name>) | Rejected(unresolved: set<Name>)

  /** A foreign key that constrains the order: both ends are synchronized and differ. */
  predicate Relevant(tables: seq<Name>, fk: ForeignKey) {
    fk.parentTable in tables && fk.childTable in tables && fk.parentTable != fk.childTable
  }

  ghost predicate Edge(tables: seq<Name>, fks: seq<ForeignKey>, parent: Name, child: Name) {
    exists fk :: fk in fks && Relevant(tables, fk) && fk.parentTable == parent && fk.childTable == child
  }

  /** Consecutive tables of a walk are linked parent to child. */
  ghost predicate Walk(tables: seq<Name>, fks: seq<ForeignKey>, walk: seq<Name>) {
    forall i :: 0 <= i < |walk| - 1 ==> Edge(tables, fks, walk[i], walk[i + 1])
  }

  /** A walk that first closes a cycle through its own start and then runs down to `table`. */
  ghost predicate CycleAbove(tables: seq<Name>, fks: seq<ForeignKey>, table: Name, walk: seq<Name>, close: int) {
    0 < close < |walk| && Walk(tables, fks, walk) && walk[0] == walk[close] && walk[|walk| - 1] == table
  }

  ghost predicate BelowCycle(tables: seq<Name>, fks: seq<ForeignKey>, table: Name) {
    exists walk, close :: CycleAbove(tables, fks, table, walk, close)
  }

  ghost predicate HasCycle(tables: seq<Name>, fks: seq<ForeignKey>) {
    exists table :: BelowCycle(tables, fks, table)
  }

  /** Every parent inside the set stands before its child. */
  ghost predicate ParentsFirst(tables: seq<Name>, fks: seq<ForeignKey>, order: seq<Name>) {
    forall fk :: fk in fks && Relevant(tables, fk) && fk.childTable in order ==>
      Before(order, fk.parentTable, fk.childTable)
  }

  ghost predicate Before(order: seq<Name>, first: Name, second: Name) {
    exists i, j :: 0 <= i < j < |order| && order[i] == first && order[j] == second
  }

  // ------------------------------------------------------------------ reference facts

  /** Positions along a walk strictly increase in any parents-first order that contains its last table. */
  lemma {:induction false} WalkClimbs(tables: seq<Name>, fks: seq<ForeignKey>, order: seq<Name>, walk: seq<Name>, from: nat)
    requires Distinct(order) && ParentsFirst(tables, fks, order) && Walk(tables, fks, walk)
    requires from < |walk| && walk[|walk| - 1] in order
    ensures forall i :: from <= i < |walk| ==> walk[i] in order
    ensures forall i, p, q :: from < i < |walk| && 0 <= p < |order| && 0 <= q < |order| ==>
              order[p] == walk[from] && order[q] == walk[i] ==> p < q
    ensures forall i :: from < i < |walk| ==> walk[from] != walk[i]
    decreases |walk| - from
  {
    if from + 1 < |walk| {
      WalkClimbs(tables, fks, order, walk, from + 1);
      assert Edge(tables, fks, walk[from], walk[from + 1]);
      var a, b :| 0 <= a < b < |order| && order[a] == walk[from] && order[b] == walk[from + 1];
      forall i | from < i < |walk| ensures walk[from] != walk[i] {
        var q :| 0 <= q < |order| && order[q] == walk[i];
      }
    }
  }

  /** No table of a parents-first order lies below a cycle. */
  lemma OrderedTableIsNotBelowCycle(tables: seq<Name>, fks: seq<ForeignKey>, order: seq<Name>, table: Name)
    requires Distinct(order) && ParentsFirst(tables, fks, order) && table in order
    ensures !BelowCycle(tables, fks, table)
  {
    forall walk, close ensures !CycleAbove(tables, fks, table, walk, close) {
      if Walk(tables, fks, walk) && |walk| > 0 && walk[|walk| - 1] == table {
        WalkClimbs(tables, fks, order, walk, 0);
      }
    }
  }

  ghost predicate ParentAmong(tables: seq<Name>, fks: seq<ForeignKey>, among: set<Name>, table: Name) {
    exists p :: p in among && Edge(tables, fks, p, table)
  }

  /** Tables that each have a parent among themselves all lie below a cycle: walk upwards until a table repeats. */
  lemma {:induction false} StuckTableIsBelowCycle(tables: seq<Name>, fks: seq<ForeignKey>, stuck: set<Name>, walk: seq<Name>)
    requires forall t {:trigger ParentAmong(tables, fks, stuck, t)} :: t in stuck ==> ParentAmong(tables, fks, stuck, t)
    requires |walk| > 0 && Walk(tables, fks, walk) && Distinct(walk) && Elements(walk) <= stuck
    ensures BelowCycle(tables, fks, walk[|walk| - 1])
    decreases |stuck| - |walk|
  {
    assert ParentAmong(tables, fks, stuck, walk[0]);
    var p :| p in stuck && Edge(tables, fks, p, walk[0]);
    WalkUpwards(tables, fks, p, walk);
    if p in walk {
      var k :| 0 <= k < |walk| && walk[k] == p;
      assert CycleAbove(tables, fks, walk[|walk| - 1], [p] + walk, k + 1);
    } else {
      DistinctWithin([p] + walk, stuck);
      StuckTableIsBelowCycle(tables, fks, stuck, [p] + walk);
    }
  }

  lemma WalkUpwards(tables: seq<Name>, fks: seq<ForeignKey>, parent: Name, walk: seq<Name>)
    requires |walk| > 0 && Walk(tables, fks, walk) && Edge(tables, fks, parent, walk[0])
    ensures Walk(tables, fks, [parent] + walk)
  {
    var longer := [parent] + walk;
    forall i | 0 <= i < |longer| - 1 ensures Edge(tables, fks, longer[i], longer[i + 1]) {
      if i > 0 { assert longer[i] == walk[i - 1] && longer[i + 1] == walk[i]; }
    }
  }

  lemma DistinctWithin(s: seq<Name>, bound: set<Name>)
    requires Distinct(s) && Elements(s) <= bound
    ensures |s| <= |bound|
  {
    ElementsAtMostLength(s);
    SubsetCardinality(Elements(s), bound);
  }

  // ------------------------------------------------------------------ the queue algorithm

  /** `sorted(chosen, key=position.get)`: the position of a table is its last index in `tables`. */
  function ByPosition(tables: seq<Name>, chosen: set<Name>): (r: seq<Name>)
    ensures forall t :: t in r <==> t in chosen && t in tables
    ensures forall i, j :: 0 <= i < j < |r| ==> r[i] != r[j]
  {
    if tables == [] then []
    else
      var last := tables[|tables| - 1];
      var rest := tables[..|tables| - 1];
      assert tables == rest + [last];
      if last in chosen then ByPosition(rest, chosen - {last}) + [last] else ByPosition(rest, chosen)
  }

  /** The parents of `table` in `nodes` that are not in `done`, counted. */
  ghost function Owed(nodes: seq<Name>, children: map<Name, set<Name>>, table: Name, done: set<Name>): nat
    requires Elements(nodes) <= children.Keys
  {
    if nodes == [] then 0
    else
      var rest, p := nodes[..|nodes| - 1], nodes[|nodes| - 1];
      assert Elements(rest) <= Elements(nodes) && p in Elements(nodes);
      Owed(rest, children, table, done) + (if table in children[p] && p !in done then 1 else 0)
  }

  /** The tables without repetition, the domain of the adjacency sets and of `indegree`. */
  ghost predicate Nodes(tables: seq<Name>, nodes: seq<Name>, children: map<Name, set<Name>>, indegree: map<Name, int>) {
    && Distinct(nodes)
    && Elements(nodes) == Elements(tables) == children.Keys == indegree.Keys
  }

  /** The adjacency sets built by the first loop are exactly the edges. */
  ghost predicate Adjacency(tables: seq<Name>, fks: seq<ForeignKey>, children: map<Name, set<Name>>) {
    && children.Keys == Elements(tables)
    && forall p, c :: p in children ==> (c in children[p] <==> Edge(tables, fks, p, c))
  }

  /** `indegree` counts the parents outside `done`, plus one for a table still to be told about its parent. */
  ghost predicate Counts(nodes: seq<Name>, children: map<Name, set<Name>>, indegree: map<Name, int>, done: set<Name>, pending: seq<Name>)
    requires Elements(nodes) <= children.Keys
  {
    forall t :: t in indegree ==>
      indegree[t] == Owed(nodes, children, t, done) + (if t in pending then 1 else 0)
  }

  /** A table is queued or emitted exactly when its count is zero. */
  ghost predicate Frontier(indegree: map<Name, int>, result: seq<Name>, ready: seq<Name>) {
    && Distinct(result) && Distinct(ready) && Elements(result) !! Elements(ready)
    && forall t :: t in result || t in ready <==> t in indegree && indegree[t] == 0
  }

  /** Parents of an emitted table were emitted earlier. */
  ghost predicate Emitted(children: map<Name, set<Name>>, result: seq<Name>) {
    forall i, p :: 0 <= i < |result| && p in children && result[i] in children[p] ==> p in result[..i]
  }

  lemma {:induction false} NothingOwed(nodes: seq<Name>, children: map<Name, set<Name>>, table: Name, done: set<Name>)
    requires Elements(nodes) <= children.Keys
    ensures Owed(nodes, children, table, done) == 0 <==>
            forall p :: p in nodes && table in children[p] ==> p in done
  {
    if nodes != [] {
      var rest, p := nodes[..|nodes| - 1], nodes[|nodes| - 1];
      assert nodes == rest + [p];
      assert Elements(rest) <= Elements(nodes) && p in Elements(nodes);
      NothingOwed(rest, children, table, done);
    }
  }

  /** Emitting `parent` or adding an edge from it changes the debt of its children by one and no other. */
  lemma {:induction false} DebtMoves(nodes: seq<Name>, before: map<Name, set<Name>>, after: map<Name, set<Name>>,
                                     table: Name, parent: Name, done: set<Name>, now: set<Name>)
    requires Elements(nodes) <= before.Keys && Elements(nodes) <= after.Keys && Distinct(nodes)
    requires parent in before && parent in after
    requires forall p :: p in nodes && p != parent ==>
               (table in before[p] && p !in done <==> table in after[p] && p !in now)
    ensures Owed(nodes, before, table, done) - Owed(nodes, after, table, now) ==
            if parent !in nodes then 0
            else (if table in before[parent] && parent !in done then 1 else 0) - (if table in after[parent] && parent !in now then 1 else 0)
  {
    if nodes != [] {
      var rest, p := nodes[..|nodes| - 1], nodes[|nodes| - 1];
      assert nodes == rest + [p];
      assert Elements(rest) <= Elements(nodes) && p in Elements(nodes);
      assert p !in rest;
      DebtMoves(rest, before, after, table, parent, done, now);
    }
  }

  method BuildGraph(tables: seq<Name>, fks: seq<ForeignKey>)
    returns (children: map<Name, set<Name>>, indegree: map<Name, int>, ghost nodes: seq<Name>)
    ensures Nodes(tables, nodes, children, indegree)
    ensures Adjacency(tables, fks, children)
    ensures Counts(nodes, children, indegree, {}, [])
  {
    children, indegree, nodes := EmptyGraph(tables);
    ghost var seen: seq<ForeignKey> := [];
    for n := 0 to |fks|
      invariant seen == fks[..n]
      invariant Nodes(tables, nodes, children, indegree)
      invariant Adjacency(tables, seen, children)
      invariant Counts(nodes, children, indegree, {}, [])
    {
      children, indegree := AddForeignKey(tables, seen, fks[n], nodes, children, indegree);
      seen := seen + [fks[n]];
    }
  }

  method EmptyGraph(tables: seq<Name>) returns (children: map<Name, set<Name>>, indegree: map<Name, int>, ghost nodes: seq<Name>)
    ensures Nodes(tables, nodes, children, indegree)
    ensures Adjacency(tables, [], children) && Counts(nodes, children, indegree, {}, [])
  {
    children := map t | t in tables :: {};
    indegree := map t | t in tables :: 0;
    nodes := ByPosition(tables, Elements(tables));
    assert Elements(nodes) == Elements(tables) == children.Keys;
    forall t | t in indegree ensures Owed(nodes, children, t, {}) == 0 { NothingOwed(nodes, children, t, {}); }
  }

  /** One iteration of the first loop: a repeated edge changes nothing. */
  method AddForeignKey(tables: seq<Name>, ghost seen: seq<ForeignKey>, fk: ForeignKey, ghost nodes: seq<Name>,
                       children: map<Name, set<Name>>, indegree: map<Name, int>)
    returns (edges: map<Name, set<Name>>, degrees: map<Name, int>)
    requires Nodes(tables, nodes, children, indegree)
    requires Adjacency(tables, seen, children) && Counts(nodes, children, indegree, {}, [])
    ensures Nodes(tables, nodes, edges, degrees)
    ensures Adjacency(tables, seen + [fk], edges) && Counts(nodes, edges, degrees, {}, [])
  {
    EdgesGrow(tables, seen, fk, children);
    edges, degrees := children, indegree;
    if Relevant(tables, fk) {
      var parent, child := fk.parentTable, fk.childTable;
      assert child in indegree.Keys;
      if child !in children[parent] {
        edges := children[parent := children[parent] + {child}];
        degrees := indegree[child := indegree[child] + 1];
        assert parent in Elements(nodes);
        forall t | t in degrees ensures degrees[t] == Owed(nodes, edges, t, {}) {
          DebtMoves(nodes, children, edges, t, parent, {}, {});
        }
      } else {
        assert children[parent] + {child} == children[parent];
        assert children[parent := children[parent]] == children;
      }
    }
  }

  lemma EdgesGrow(tables: seq<Name>, fks: seq<ForeignKey>, fk: ForeignKey, before: map<Name, set<Name>>)
    requires Adjacency(tables, fks, before)
    ensures Relevant(tables, fk) ==> fk.parentTable in before
    ensures Relevant(tables, fk) ==>
              Adjacency(tables, fks + [fk], before[fk.parentTable := before[fk.parentTable] + {fk.childTable}])
    ensures !Relevant(tables, fk) ==> Adjacency(tables, fks + [fk], before)
  {
    assert Relevant(tables, fk) ==> fk.parentTable in Elements(tables);
    forall p, c ensures Edge(tables, fks + [fk], p, c) <==>
                          Edge(tables, fks, p, c) || (Relevant(tables, fk) && p == fk.parentTable && c == fk.childTable)
    {
      if Edge(tables, fks, p, c) {
        var e :| e in fks && Relevant(tables, e) && e.parentTable == p && e.childTable == c;
        assert e in fks + [fk];
      }
      assert fk in fks + [fk];
    }
  }

  lemma OneParentFewer(nodes: seq<Name>, children: map<Name, set<Name>>, degrees: map<Name, int>, done: set<Name>, kid: Name, later: seq<Name>)
    requires Elements(nodes) <= children.Keys && kid in degrees && kid !in later
    requires Counts(nodes, children, degrees, done, [kid] + later)
    ensures degrees[kid] > 0 && Counts(nodes, children, degrees[kid := degrees[kid] - 1], done, later)
  {
    assert kid in [kid] + later;
  }

  /** The inner loop: `parent` was just emitted, so every child of it waits for one parent fewer. */
  method ReleaseChildren(tables: seq<Name>, ghost nodes: seq<Name>, children: map<Name, set<Name>>, indegree: map<Name, int>,
                         emitted: seq<Name>, parent: Name, waiting: seq<Name>)
    returns (degrees: map<Name, int>, ready: seq<Name>)
    requires Nodes(tables, nodes, children, indegree) && parent in children && parent !in emitted
    requires children[parent] <= Elements(tables)
    requires Counts(nodes, children, indegree, Elements(emitted), [])
    requires Frontier(indegree, emitted + [parent], waiting)
    ensures Nodes(tables, nodes, children, degrees)
    ensures Counts(nodes, children, degrees, Elements(emitted + [parent]), [])
    ensures Frontier(degrees, emitted + [parent], ready)
  {
    degrees, ready := indegree, waiting;
    var kids := ByPosition(tables, children[parent]);
    ChildrenAreOwed(nodes, children, indegree, emitted, parent, kids);
    assert kids[0..] == kids;
    for k := 0 to |kids|
      invariant Releasing(tables, nodes, children, degrees, emitted + [parent], kids[k..], ready)
    {
      var kid := kids[k];
      assert kids[k..] == [kid] + kids[k + 1..] && kid in kids;
      ReleaseOne(tables, nodes, children, degrees, emitted + [parent], kid, kids[k + 1..], ready);
      degrees := degrees[kid := degrees[kid] - 1];
      if degrees[kid] == 0 {
        ready := ready + [kid];
      }
    }
    assert kids[|kids|..] == [];
  }

  ghost predicate Releasing(tables: seq<Name>, nodes: seq<Name>, children: map<Name, set<Name>>, degrees: map<Name, int>,
                            result: seq<Name>, pending: seq<Name>, ready: seq<Name>) {
    Nodes(tables, nodes, children, degrees) && Counts(nodes, children, degrees, Elements(result), pending) && Frontier(degrees, result, ready)
  }

  lemma ReleaseOne(tables: seq<Name>, nodes: seq<Name>, children: map<Name, set<Name>>, degrees: map<Name, int>,
                   result: seq<Name>, kid: Name, later: seq<Name>, ready: seq<Name>)
    requires Releasing(tables, nodes, children, degrees, result, [kid] + later, ready) && kid in tables && kid !in later
    ensures kid in degrees && degrees[kid] > 0
    ensures Releasing(tables, nodes, children, degrees[kid := degrees[kid] - 1], result, later, if degrees[kid] == 1 then ready + [kid] else ready)
  {
    assert kid in Elements(tables);
    OneParentFewer(nodes, children, degrees, Elements(result), kid, later);
    FrontierMoves(degrees, result, ready, kid);
    assert degrees[kid := degrees[kid] - 1].Keys == degrees.Keys;
  }

  /** Emitting the parent leaves one debt too many with each of its children. */
  lemma ChildrenAreOwed(nodes: seq<Name>, children: map<Name, set<Name>>, indegree: map<Name, int>, emitted: seq<Name>, parent: Name, kids: seq<Name>)
    requires Distinct(nodes) && Elements(nodes) == children.Keys && parent in children && parent !in emitted
    requires Counts(nodes, children, indegree, Elements(emitted), [])
    requires forall t :: t in kids <==> t in children[parent]
    ensures Counts(nodes, children, indegree, Elements(emitted + [parent]), kids)
  {
    assert Elements(emitted + [parent]) == Elements(emitted) + {parent};
    forall t | t in indegree
      ensures indegree[t] == Owed(nodes, children, t, Elements(emitted + [parent])) + (if t in kids then 1 else 0)
    {
      assert parent in Elements(nodes);
      DebtMoves(nodes, children, children, t, parent, Elements(emitted), Elements(emitted + [parent]));
    }
  }

  lemma FrontierMoves(degrees: map<Name, int>, result: seq<Name>, ready: seq<Name>, kid: Name)
    requires kid in degrees && degrees[kid] > 0 && Frontier(degrees, result, ready)
    ensures Frontier(degrees[kid := degrees[kid] - 1], result, if degrees[kid] == 1 then ready + [kid] else ready)
  {
    assert Elements(ready + [kid]) == Elements(ready) + {kid};
  }

  /**
   * `dependency_order`: accepts exactly the lists of different tables whose
   * relevant foreign keys have no cycle, returns a parents-first permutation,
   * and otherwise names exactly the tables on or below a cycle.
   */
  method OrderTables(tables: seq<Name>, fks: seq<ForeignKey>) returns (r: Ordering)
    ensures r.Ordered? <==> Distinct(tables) && !HasCycle(tables, fks)
    ensures r.Ordered? ==> Distinct(r.order) && multiset(r.order) == multiset(tables) && ParentsFirst(tables, fks, r.order)
    ensures r.Rejected? ==> forall t :: t in r.unresolved <==> t in tables && BelowCycle(tables, fks, t)
  {
    var children, indegree, nodes := BuildGraph(tables, fks);
    var ready := ByPosition(tables, set t | t in tables && indegree[t] == 0);
    var result: seq<Name> := [];
    ChildrenAreTables(tables, fks, children);
    assert Elements(result) == {};
    while ready != []
      invariant Nodes(tables, nodes, children, indegree)
      invariant Counts(nodes, children, indegree, Elements(result), [])
      invariant Frontier(indegree, result, ready)
      invariant Emitted(children, result)
      invariant |result| <= |Elements(tables)|
      decreases |Elements(tables)| - |result|
    {
      var parent := ready[0];
      HeadMoves(nodes, children, indegree, result, ready);
      indegree, ready := ReleaseChildren(tables, nodes, children, indegree, result, parent, ready[1..]);
      result := result + [parent];
      EmittedAreTables(tables, indegree, result, ready);
    }
    EmptyQueue(tables, fks, nodes, children, indegree, result);
    if |result| != |tables| {
      r := Rejected(set t | t in indegree && indegree[t] != 0);
    } else {
      r := Ordered(result);
    }
  }

  lemma ChildrenAreTables(tables: seq<Name>, fks: seq<ForeignKey>, children: map<Name, set<Name>>)
    requires Adjacency(tables, fks, children)
    ensures forall p :: p in children ==> children[p] <= Elements(tables)
  {
    forall p, c | p in children && c in children[p] ensures c in Elements(tables) { assert Edge(tables, fks, p, c); }
  }

  /** The head of the queue has all its parents emitted and becomes the next table of the result. */
  lemma HeadMoves(nodes: seq<Name>, children: map<Name, set<Name>>, indegree: map<Name, int>, result: seq<Name>, ready: seq<Name>)
    requires Elements(nodes) == children.Keys == indegree.Keys
    requires Frontier(indegree, result, ready) && ready != [] && Emitted(children, result)
    requires Counts(nodes, children, indegree, Elements(result), [])
    ensures Frontier(indegree, result + [ready[0]], ready[1..])
    ensures ready[0] in children && ready[0] !in result
    ensures Emitted(children, result + [ready[0]])
  {
    var parent, longer := ready[0], result + [ready[0]];
    assert parent in Elements(ready) && parent !in Elements(result) && parent in indegree.Keys;
    assert ready == [parent] + ready[1..];
    assert Elements(longer) == Elements(result) + {parent};
    NothingOwed(nodes, children, parent, Elements(result));
    forall i, p | 0 <= i < |longer| && p in children && longer[i] in children[p] ensures p in longer[..i] {
      if i < |result| {
        assert longer[..i] == result[..i];
      } else {
        assert longer[..i] == result;
        assert p in Elements(nodes);
        assert p in Elements(result);
      }
    }
  }

  lemma EmittedAreTables(tables: seq<Name>, indegree: map<Name, int>, result: seq<Name>, ready: seq<Name>)
    requires indegree.Keys == Elements(tables) && Frontier(indegree, result, ready)
    ensures |result| <= |Elements(tables)|
  {
    forall t | t in result ensures t in Elements(tables) { assert t in indegree; }
    DistinctWithin(result, Elements(tables));
  }

  /** What the final length comparison decides. */
  lemma EmptyQueue(tables: seq<Name>, fks: seq<ForeignKey>, nodes: seq<Name>, children: map<Name, set<Name>>,
                   indegree: map<Name, int>, result: seq<Name>)
    requires Nodes(tables, nodes, children, indegree) && Adjacency(tables, fks, children)
    requires Counts(nodes, children, indegree, Elements(result), [])
    requires Frontier(indegree, result, []) && Emitted(children, result)
    ensures ParentsFirst(tables, fks, result)
    ensures forall t :: t in indegree && indegree[t] != 0 <==> t in tables && BelowCycle(tables, fks, t)
    ensures |result| == |tables| <==> Distinct(tables) && !HasCycle(tables, fks)
    ensures |result| == |tables| ==> multiset(result) == multiset(tables)
  {
    EmittedIsParentsFirst(tables, fks, children, result);
    RemainderIsBelowCycle(tables, fks, nodes, children, indegree, result);
    forall t | t in result ensures t in Elements(tables) { assert t in indegree; }
    assert Elements(result) <= Elements(tables);
    ElementsAtMostLength(tables);
    ElementsAtMostLength(result);
    SubsetCardinality(Elements(result), Elements(tables));
    if |result| == |tables| {
      SameElementsSameMultiset(tables, result);
    }
    forall t | BelowCycle(tables, fks, t) ensures t in tables { BelowCycleIsATable(tables, fks, t); }
    if !HasCycle(tables, fks) {
      forall t | t in Elements(tables) ensures t in result { assert !BelowCycle(tables, fks, t); }
      assert Elements(result) == Elements(tables);
    }
    if Elements(result) == Elements(tables) {
      forall t ensures !BelowCycle(tables, fks, t) {
        if t in tables { assert t in Elements(tables) && t in Elements(result); }
      }
    }
  }

  lemma EmittedIsParentsFirst(tables: seq<Name>, fks: seq<ForeignKey>, children: map<Name, set<Name>>, result: seq<Name>)
    requires Adjacency(tables, fks, children) && Emitted(children, result)
    ensures ParentsFirst(tables, fks, result)
  {
    forall fk | fk in fks && Relevant(tables, fk) && fk.childTable in result
      ensures Before(result, fk.parentTable, fk.childTable)
    {
      assert Edge(tables, fks, fk.parentTable, fk.childTable);
      assert fk.parentTable in Elements(tables);
      var j :| 0 <= j < |result| && result[j] == fk.childTable;
      var i :| 0 <= i < |result[..j]| && result[..j][i] == fk.parentTable;
    }
  }

  /** When the queue is empty, a table was not emitted exactly when it lies below a cycle. */
  lemma RemainderIsBelowCycle(tables: seq<Name>, fks: seq<ForeignKey>, nodes: seq<Name>, children: map<Name, set<Name>>,
                              indegree: map<Name, int>, result: seq<Name>)
    requires Nodes(tables, nodes, children, indegree) && Adjacency(tables, fks, children)
    requires Counts(nodes, children, indegree, Elements(result), [])
    requires Frontier(indegree, result, []) && ParentsFirst(tables, fks, result)
    ensures forall t :: t in indegree ==> (indegree[t] != 0 <==> BelowCycle(tables, fks, t))
  {
    var stuck := set t | t in indegree && indegree[t] != 0;
    forall t | t in stuck ensures ParentAmong(tables, fks, stuck, t) {
      NothingOwed(nodes, children, t, Elements(result));
      var p :| p in nodes && t in children[p] && p !in Elements(result);
      assert p in Elements(nodes) && Edge(tables, fks, p, t);
    }
    forall t | t in indegree ensures indegree[t] != 0 <==> BelowCycle(tables, fks, t) {
      if t in result {
        OrderedTableIsNotBelowCycle(tables, fks, result, t);
      } else {
        assert Elements([t]) == {t};
        StuckTableIsBelowCycle(tables, fks, stuck, [t]);
      }
    }
  }

  lemma BelowCycleIsATable(tables: seq<Name>, fks: seq<ForeignKey>, table: Name)
    requires BelowCycle(tables, fks, table)
    ensures table in tables
  {
    var walk, close :| CycleAbove(tables, fks, table, walk, close);
    assert Edge(tables, fks, walk[|walk| - 2], walk[|walk| - 1]);
  }

  lemma {:induction false} DistinctCounts(s: seq<Name>, t: Name)
    requires Distinct(s)
    ensures multiset(s)[t] == if t in s then 1 else 0
  {
    if s != [] {
      var n := |s| - 1;
      assert s == s[..n] + [s[n]];
      forall i, j | 0 <= i < j < n ensures s[..n][i] != s[..n][j] { assert s[i] != s[j]; }
      DistinctCounts(s[..n], t);
      assert forall i :: 0 <= i < n ==> s[..n][i] == s[i] != s[n];
    }
  }

  lemma SameElementsSameMultiset(a: seq<Name>, b: seq<Name>)
    requires Distinct(a) && Distinct(b) && Elements(a) == Elements(b)
    ensures multiset(a) == multiset(b)
  {
    forall t ensures multiset(a)[t] == multiset(b)[t] {
      DistinctCounts(a, t);
      DistinctCounts(b, t);
      assert t in a <==> t in Elements(a);
      assert t in b <==> t in Elements(b);
    }
  }
}
