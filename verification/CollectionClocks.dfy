/**
 * Collection clocks: the triggers written by
 * scripts/generate_collection_clock_migration.py as steps on the stored
 * tables, versions and generation, and what those steps keep over whole runs.
 */
module CollectionClocks {
  import opened Prelude

  /** A stored row: its organization, the id of its parent row in child tables, and everything else. */
  datatype Row = Row(org: Name, parent: Option<int>, data: string)

  type Table = map<int, Row>

  type Tables = map<Name, Table>

  datatype ClockKey = ClockKey(org: Name, collection: Name)

  type Versions = map<ClockKey, nat>

  /** `collectionOf` is the table dependency map; `parentOf` names the parent table of each child table. */
  datatype Schema = Schema(collectionOf: map<Name, Name>, parentOf: map<Name, Name>) {
    ghost predicate WellFormed() {
      forall c :: c in parentOf ==>
        && c in collectionOf && parentOf[c] in collectionOf && collectionOf[c] == collectionOf[parentOf[c]]
        && parentOf[c] !in parentOf
    }

    function Collections(): set<Name> {
      set t | t in collectionOf :: collectionOf[t]
    }
  }

  datatype State = State(tables: Tables, generation: nat, versions: Versions)

  datatype Op = Insert | Update | Delete

  /** A data statement replaces the `removed` rows by the `added` ones; `renewed` is the new generation. */
  datatype Step =
    | Statement(op: Op, table: Name, removed: set<int>, added: Table)
    | Truncate(cleared: seq<Name>, allowed: bool, renewed: nat)
    | MaintenanceWrite(op: Op, table: Name, removed: set<int>, added: Table)
    | Finalize(renewed: nat)

  const DEFAULT_ORG := Name("default")

  // ------------------------------------------------------------------ reading

  function Version(s: State, org: Name, collection: Name): nat {
    if ClockKey(org, collection) in s.versions then s.versions[ClockKey(org, collection)] else 0
  }

  /** What a response for one organization and collection is computed from. */
  function Content(schema: Schema, s: State, org: Name, collection: Name): Tables {
    map t | t in s.tables && t in schema.collectionOf && schema.collectionOf[t] == collection :: OrgRows(s.tables[t], org)
  }

  function OrgRows(table: Table, org: Name): Table {
    map id | id in table && table[id].org == org :: table[id]
  }

  function OrgsIn(table: Table): set<Name> {
    set id | id in table :: table[id].org
  }

  function AllOrgs(tables: Tables): set<Name> {
    set t, id | t in tables && id in tables[t] :: tables[t][id].org
  }

  // ------------------------------------------------------------------ rules

  /** Every child row has its parent, in the same organization. */
  predicate Family(schema: Schema, tables: Tables) {
    forall c, id :: c in schema.parentOf && c in tables && id in tables[c] ==> ParentOk(schema, tables, c, tables[c][id])
  }

  predicate ParentOk(schema: Schema, tables: Tables, child: Name, row: Row)
    requires child in schema.parentOf
  {
    && row.parent.Some? && schema.parentOf[child] in tables
    && row.parent.value in tables[schema.parentOf[child]]
    && tables[schema.parentOf[child]][row.parent.value].org == row.org
  }

  function Replaced(table: Table, removed: set<int>, added: Table): Table {
    table - removed + added
  }

  /** The statement form and the primary key. */
  predicate Applicable(tables: Tables, op: Op, table: Name, removed: set<int>, added: Table) {
    && table in tables && removed <= tables[table].Keys && (tables[table] - removed).Keys !! added.Keys
    && (op.Insert? ==> removed == {}) && (op.Delete? ==> added == map[])
  }

  /** Foreign keys from children: no remaining child row refers to a row that is gone. */
  predicate NoOrphans(schema: Schema, after: Tables, table: Name, gone: set<int>) {
    forall c, id :: c in schema.parentOf && schema.parentOf[c] == table && c in after && id in after[c] ==>
      !(after[c][id].parent.Some? && after[c][id].parent.value in gone)
  }

  /** The organization checks of the trigger look only at the statement's own rows. */
  predicate TriggerAccepts(schema: Schema, after: Tables, op: Op, table: Name, added: Table) {
    && (table in schema.parentOf && op != Delete ==> forall id :: id in added ==> ParentOk(schema, after, table, added[id]))
    && (op.Update? ==> forall c, id :: c in schema.parentOf && schema.parentOf[c] == table && c in after && id in after[c] ==>
          after[c][id].parent.Some? && after[c][id].parent.value in added ==> added[after[c][id].parent.value].org == after[c][id].org)
  }

  /** What the declared keys allow; this holds for maintenance writes too. */
  predicate Legal(schema: Schema, tables: Tables, op: Op, table: Name, removed: set<int>, added: Table) {
    table in schema.collectionOf && Applicable(tables, op, table, removed, added) &&
    NoOrphans(schema, tables[table := Replaced(tables[table], removed, added)], table, removed - added.Keys)
  }

  predicate Accepted(schema: Schema, tables: Tables, op: Op, table: Name, removed: set<int>, added: Table) {
    && Legal(schema, tables, op, table, removed, added)
    && TriggerAccepts(schema, tables[table := Replaced(tables[table], removed, added)], op, table, added)
  }

  /** Organizations named by the transition tables of a statement. */
  function Touched(table: Table, removed: set<int>, added: Table): set<Name> {
    OrgsIn(map id | id in removed && id in table :: table[id]) + OrgsIn(added)
  }

  /** Upsert of one clock per organization: 1 when new, one more otherwise. */
  function Bumped(versions: Versions, orgs: set<Name>, collection: Name): Versions {
    versions + map o | o in orgs :: ClockKey(o, collection) :=
      (if ClockKey(o, collection) in versions then versions[ClockKey(o, collection)] else 0) + 1
  }

  function AllBumped(versions: Versions, amount: nat): Versions {
    map k | k in versions :: versions[k] + amount
  }

  function Initialized(versions: Versions, orgs: set<Name>, collections: set<Name>): Versions {
    (map o, c | o in orgs && c in collections :: ClockKey(o, c) := 1) + versions
  }

  /** TRUNCATE of a referenced table must name the referring tables too. */
  predicate ClosedUnderChildren(schema: Schema, cleared: seq<Name>) {
    forall c :: c in schema.parentOf && schema.parentOf[c] in cleared ==> c in cleared
  }

  function Cleared(tables: Tables, cleared: seq<Name>): Tables {
    map t | t in tables :: if t in cleared then map[] else tables[t]
  }

  // ------------------------------------------------------------------ steps

  function Next(schema: Schema, s: State, step: Step): State {
    match step
    case Statement(op, table, removed, added) =>
      if Accepted(schema, s.tables, op, table, removed, added) then
        State(s.tables[table := Replaced(s.tables[table], removed, added)], s.generation,
              Bumped(s.versions, Touched(s.tables[table], removed, added), schema.collectionOf[table]))
      else s
    case Truncate(cleared, allowed, renewed) =>
      if allowed && cleared != [] && ClosedUnderChildren(schema, cleared) then State(Cleared(s.tables, cleared), renewed, AllBumped(s.versions, |cleared|)) else s
    case MaintenanceWrite(op, table, removed, added) =>
      if Legal(schema, s.tables, op, table, removed, added) then s.(tables := s.tables[table := Replaced(s.tables[table], removed, added)]) else s
    case Finalize(renewed) =>
      if Family(schema, s.tables) then
        State(s.tables, renewed,
              AllBumped(Initialized(s.versions, {DEFAULT_ORG} + AllOrgs(s.tables), schema.Collections()), 1))
      else s
  }

  /** The step replaces the generation. */
  predicate Renews(schema: Schema, s: State, step: Step) {
    match step
    case Truncate(cleared, allowed, _) => allowed && cleared != [] && ClosedUnderChildren(schema, cleared)
    case Finalize(_) => Family(schema, s.tables)
    case _ => false
  }

  /** The migrated start: checked children and a clock of 1 for every organization in use and every collection. */
  ghost predicate Initial(schema: Schema, s: State) {
    && s.tables.Keys == schema.collectionOf.Keys
    && Family(schema, s.tables)
    && s.versions == Initialized(map[], {DEFAULT_ORG} + AllOrgs(s.tables), schema.Collections())
  }

  /** A run from the migrated start; the new id given to a renewing step was never a generation before. */
  ghost predicate Run(schema: Schema, states: seq<State>, steps: seq<Step>) {
    && schema.WellFormed() && |states| == |steps| + 1 && Initial(schema, states[0])
    && (forall i :: 0 <= i < |steps| ==> states[i + 1] == Next(schema, states[i], steps[i]))
    && (forall i, j :: 0 <= j <= i < |steps| && Renews(schema, states[i], steps[i]) ==>
          steps[i].renewed != states[j].generation)
  }

  /** A maintenance write has not been followed by a completed finalization yet. */
  ghost predicate Unfinished(schema: Schema, states: seq<State>, steps: seq<Step>, at: nat)
    requires |states| == |steps| + 1 && at <= |steps|
  {
    at > 0 &&
    (steps[at - 1].MaintenanceWrite? ||
     (Unfinished(schema, states, steps, at - 1) && !(steps[at - 1].Finalize? && Renews(schema, states[at - 1], steps[at - 1]))))
  }

  // ------------------------------------------------------------------ single steps

  /** Every stored row has a positive clock for its organization and collection. */
  ghost predicate Clocked(schema: Schema, s: State) {
    && (forall t, id :: t in s.tables && id in s.tables[t] && t in schema.collectionOf ==>
          Version(s, s.tables[t][id].org, schema.collectionOf[t]) > 0)
    && (forall k :: k in s.versions ==> s.versions[k] > 0)
  }

  lemma BumpedVersion(versions: Versions, orgs: set<Name>, collection: Name, k: ClockKey)
    ensures var v := Bumped(versions, orgs, collection);
            (k in v <==> k in versions || (k.org in orgs && k.collection == collection)) &&
            (k in v ==> v[k] == (if k in versions then versions[k] else 0) + (if k.org in orgs && k.collection == collection then 1 else 0))
  {
    if k.org in orgs && k.collection == collection {
      assert k == ClockKey(k.org, collection);
    }
  }

  /** The statement removes, changes or adds a row of the organization. */
  ghost predicate Concerns(s: State, step: Step, org: Name)
    requires step.Statement? && step.table in s.tables
  {
    || (exists id :: id in step.removed && id in s.tables[step.table] && s.tables[step.table][id].org == org)
    || (exists id :: id in step.added && step.added[id].org == org)
  }

  lemma ConcernedIsTouched(s: State, step: Step, org: Name)
    requires step.Statement? && step.table in s.tables
    ensures org in Touched(s.tables[step.table], step.removed, step.added) <==> Concerns(s, step, org)
  {
    var gone := map id | id in step.removed && id in s.tables[step.table] :: s.tables[step.table][id];
    assert org in OrgsIn(gone) <==> exists id :: id in gone && gone[id].org == org;
    assert org in OrgsIn(step.added) <==> exists id :: id in step.added && step.added[id].org == org;
    if id :| id in step.removed && id in s.tables[step.table] && s.tables[step.table][id].org == org {
      assert id in gone;
    }
  }

  /** The stored clock is the number, and 0 stands for none. */
  predicate ClockReads(s: State, org: Name, collection: Name, n: nat) {
    if ClockKey(org, collection) in s.versions then s.versions[ClockKey(org, collection)] == n else n == 0
  }

  /** An accepted statement advances by one exactly the clocks of the organizations that it concerns. */
  lemma StatementClock(schema: Schema, s: State, step: Step, org: Name, collection: Name)
    requires step.Statement?
    requires Accepted(schema, s.tables, step.op, step.table, step.removed, step.added)
    ensures ClockReads(s, org, collection, Version(s, org, collection))
    ensures ClockReads(Next(schema, s, step), org, collection, Version(s, org, collection) +
              if Concerns(s, step, org) && schema.collectionOf[step.table] == collection then 1 else 0)
  {
    ConcernedIsTouched(s, step, org);
    BumpedVersion(s.versions, Touched(s.tables[step.table], step.removed, step.added), schema.collectionOf[step.table], ClockKey(org, collection));
  }

  /** What a statement writes: its table holds the added rows and the old ones that it does not remove; nothing else changes. */
  ghost predicate Wrote(before: Tables, after: Tables, table: Name, removed: set<int>, added: Table)
    requires table in before
  {
    && after.Keys == before.Keys && (forall t :: t in before && t != table ==> after[t] == before[t])
    && (forall id :: id in after[table] <==> id in added || (id in before[table] && id !in removed))
    && (forall id :: id in added ==> after[table][id] == added[id])
    && (forall id :: id in before[table] && id !in removed && id !in added ==> after[table][id] == before[table][id])
  }

  /** Accepted statements and maintenance writes write exactly that. */
  lemma StatementWrites(schema: Schema, s: State, step: Step)
    requires step.Statement? || step.MaintenanceWrite?
    requires if step.Statement? then Accepted(schema, s.tables, step.op, step.table, step.removed, step.added)
             else Legal(schema, s.tables, step.op, step.table, step.removed, step.added)
    ensures Wrote(s.tables, Next(schema, s, step).tables, step.table, step.removed, step.added)
  {
  }

  /** INSERT removes nothing and adds new ids, DELETE only removes, and what a statement removes exists. */
  predicate FormOk(tables: Tables, op: Op, table: Name, removed: set<int>, added: Table) {
    && table in tables && (forall id :: id in removed ==> id in tables[table])
    && (forall id :: id in added && id in tables[table] ==> id in removed)
    && match op {
         case Insert => removed == {}
         case Delete => added == map[]
         case Update => true
       }
  }

  /**
   * The local checks of the triggers and keys accept exactly the statements
   * after which every child has its parent in its own organization.
   */
  lemma AcceptedExactly(schema: Schema, tables: Tables, after: Tables, op: Op, table: Name, removed: set<int>, added: Table)
    requires schema.WellFormed() && tables.Keys == schema.collectionOf.Keys && Family(schema, tables)
    requires FormOk(tables, op, table, removed, added) && Wrote(tables, after, table, removed, added)
    ensures Accepted(schema, tables, op, table, removed, added) <==> Family(schema, after)
  {
    WroteIsReplaced(tables, after, table, removed, added);
    if Accepted(schema, tables, op, table, removed, added) {
      StatementKeepsFamily(schema, State(tables, 0, map[]), Statement(op, table, removed, added));
    } else if Family(schema, after) {
      FamilyIsAccepted(schema, tables, after, op, table, removed, added);
    }
  }

  lemma WroteIsReplaced(tables: Tables, after: Tables, table: Name, removed: set<int>, added: Table)
    requires table in tables && Wrote(tables, after, table, removed, added)
    ensures after == tables[table := Replaced(tables[table], removed, added)]
  {
    var replaced := Replaced(tables[table], removed, added);
    assert forall id :: id in after[table] <==> id in replaced;
    assert forall id :: id in replaced ==> after[table][id] == replaced[id];
    assert after[table] == replaced;
  }

  lemma FamilyIsAccepted(schema: Schema, tables: Tables, after: Tables, op: Op, table: Name, removed: set<int>, added: Table)
    requires schema.WellFormed() && tables.Keys == schema.collectionOf.Keys && Family(schema, after)
    requires FormOk(tables, op, table, removed, added) && after == tables[table := Replaced(tables[table], removed, added)]
    ensures Accepted(schema, tables, op, table, removed, added)
  {
    forall id | id in removed ensures id in tables[table].Keys {
    }
    assert forall id :: id in tables[table] - removed ==> id !in added;
    assert NoOrphans(schema, after, table, removed - added.Keys) by {
      forall c, id | c in schema.parentOf && schema.parentOf[c] == table && c in after && id in after[c]
        ensures !(after[c][id].parent.Some? && after[c][id].parent.value in removed - added.Keys)
      {
        assert ParentOk(schema, after, c, after[c][id]);
      }
    }
    assert TriggerAccepts(schema, after, op, table, added) by {
      forall id | id in added ensures id in after[table] && after[table][id] == added[id] {
      }
    }
  }

  /** TRUNCATE empties the listed tables, advances every clock once per table and gives the new generation. */
  lemma TruncateEffect(schema: Schema, s: State, cleared: seq<Name>, renewed: nat)
    requires cleared != [] && forall c :: c in schema.parentOf && schema.parentOf[c] in cleared ==> c in cleared
    ensures var s' := Next(schema, s, Truncate(cleared, true, renewed));
            && s'.generation == renewed && s'.tables.Keys == s.tables.Keys && s'.versions.Keys == s.versions.Keys
            && (forall t :: t in s.tables ==> s'.tables[t] == if t in cleared then map[] else s.tables[t])
            && (forall k :: k in s.versions ==> s'.versions[k] == s.versions[k] + |cleared|)
  {
  }

  /** The organization is the default one or has a row in some table. */
  ghost predicate InUse(tables: Tables, org: Name) {
    org == DEFAULT_ORG || exists t, id :: t in tables && id in tables[t] && tables[t][id].org == org
  }

  /** The finalizer keeps the rows, advances every clock, starts the missing ones of organizations in use at 2, and gives the new generation. */
  lemma FinalizeEffect(schema: Schema, s: State, renewed: nat, org: Name, collection: Name)
    requires Family(schema, s.tables)
    ensures var s', k := Next(schema, s, Finalize(renewed)), ClockKey(org, collection);
            && s'.generation == renewed && s'.tables == s.tables
            && (k in s.versions ==> k in s'.versions && s'.versions[k] == s.versions[k] + 1)
            && (k !in s.versions ==> (k in s'.versions <==> InUse(s.tables, org) && exists t :: t in schema.collectionOf && schema.collectionOf[t] == collection))
            && (k !in s.versions && k in s'.versions ==> s'.versions[k] == 2)
  {
    UsedOrgs(s.tables, org);
    InitialClock(schema, s.versions, {DEFAULT_ORG} + AllOrgs(s.tables), ClockKey(org, collection));
  }

  lemma UsedOrgs(tables: Tables, org: Name)
    ensures org in {DEFAULT_ORG} + AllOrgs(tables) <==> InUse(tables, org)
  {
    if t, id :| t in tables && id in tables[t] && tables[t][id].org == org {
      assert org in AllOrgs(tables);
    }
  }

  lemma InitialClock(schema: Schema, versions: Versions, orgs: set<Name>, k: ClockKey)
    ensures var after := Initialized(versions, orgs, schema.Collections());
            && (k in after <==> k in versions || (k.org in orgs && exists t :: t in schema.collectionOf && schema.collectionOf[t] == k.collection))
            && (k in after ==> after[k] == if k in versions then versions[k] else 1)
  {
    assert k.collection in schema.Collections() <==> exists t :: t in schema.collectionOf && schema.collectionOf[t] == k.collection;
    if k.org in orgs && k.collection in schema.Collections() {
      assert k == ClockKey(k.org, k.collection);
    }
  }

  /** An organization outside the transition tables reads the same content afterwards. */
  lemma StatementContent(schema: Schema, s: State, step: Step, org: Name, collection: Name)
    requires step.Statement?
    requires Accepted(schema, s.tables, step.op, step.table, step.removed, step.added)
    requires org !in Touched(s.tables[step.table], step.removed, step.added) || schema.collectionOf[step.table] != collection
    ensures Content(schema, Next(schema, s, step), org, collection) == Content(schema, s, org, collection)
  {
    var s' := Next(schema, s, step);
    var table := step.table;
    if schema.collectionOf[table] == collection {
      UntouchedRows(s.tables[table], step.removed, step.added, org);
    }
    assert s'.tables[table] == Replaced(s.tables[table], step.removed, step.added);
    SameContent(schema, s, s', table, org, collection);
  }

  /** A statement either leaves what an organization reads from a collection as it was, or advances its clock. */
  lemma StatementAdvances(schema: Schema, s: State, step: Step, org: Name, collection: Name)
    requires step.Statement?
    ensures var s' := Next(schema, s, step);
            && s'.generation == s.generation
            && Version(s', org, collection) >= Version(s, org, collection)
            && (Version(s', org, collection) == Version(s, org, collection) ==>
                  Content(schema, s', org, collection) == Content(schema, s, org, collection))
  {
    if Accepted(schema, s.tables, step.op, step.table, step.removed, step.added) {
      StatementClock(schema, s, step, org, collection);
      if org !in Touched(s.tables[step.table], step.removed, step.added) || schema.collectionOf[step.table] != collection {
        StatementContent(schema, s, step, org, collection);
      }
    }
  }

  lemma SameContent(schema: Schema, s: State, s': State, table: Name, org: Name, collection: Name)
    requires s'.tables.Keys == s.tables.Keys && table in s.tables && table in schema.collectionOf
    requires forall t :: t in s.tables && t != table ==> s'.tables[t] == s.tables[t]
    requires schema.collectionOf[table] == collection ==> OrgRows(s'.tables[table], org) == OrgRows(s.tables[table], org)
    ensures Content(schema, s', org, collection) == Content(schema, s, org, collection)
  {
  }

  lemma UntouchedRows(table: Table, removed: set<int>, added: Table, org: Name)
    requires removed <= table.Keys && (table - removed).Keys !! added.Keys
    requires org !in Touched(table, removed, added)
    ensures OrgRows(Replaced(table, removed, added), org) == OrgRows(table, org)
  {
    var removedRows := map id | id in removed && id in table :: table[id];
    forall id | id in removed ensures table[id].org != org { assert removedRows[id].org in OrgsIn(removedRows); }
    forall id | id in added ensures added[id].org != org { assert added[id].org in OrgsIn(added); }
  }

  /** Versions never decrease, whatever the step. */
  lemma VersionsGrow(schema: Schema, s: State, step: Step, org: Name, collection: Name)
    ensures Version(Next(schema, s, step), org, collection) >= Version(s, org, collection)
  {
  }

  /** A statement accepted by the local checks of the trigger keeps the global parent rule. */
  lemma StatementKeepsFamily(schema: Schema, s: State, step: Step)
    requires schema.WellFormed() && step.Statement? && Family(schema, s.tables)
    ensures Family(schema, Next(schema, s, step).tables)
  {
    var s' := Next(schema, s, step);
    if s' != s {
      var table := step.table;
      forall c, id | c in schema.parentOf && c in s'.tables && id in s'.tables[c]
        ensures ParentOk(schema, s'.tables, c, s'.tables[c][id])
      {
        if c == table && id in step.added {
          assert step.op != Delete;
        } else {
          assert s'.tables[c][id] == s.tables[c][id] && ParentOk(schema, s.tables, c, s.tables[c][id]);
          if schema.parentOf[c] == table {
            var p := s.tables[c][id].parent.value;
            assert p !in step.removed - step.added.Keys;
            if p in step.added {
              assert p in step.removed;
              assert step.op.Update?;
            }
          }
        }
      }
    }
  }

  lemma StatementKeepsClocked(schema: Schema, s: State, step: Step)
    requires step.Statement? && Clocked(schema, s)
    requires Accepted(schema, s.tables, step.op, step.table, step.removed, step.added)
    ensures Clocked(schema, Next(schema, s, step))
  {
    var s' := Next(schema, s, step);
    var table := step.table;
    forall t, id | t in s'.tables && id in s'.tables[t] && t in schema.collectionOf
      ensures Version(s', s'.tables[t][id].org, schema.collectionOf[t]) > 0
    {
      var row := s'.tables[t][id];
      StatementClock(schema, s, step, row.org, schema.collectionOf[t]);
      if t == table && id in step.added {
        assert step.added[id].org in OrgsIn(step.added);
      } else {
        assert row == s.tables[t][id];
      }
    }
    forall k | k in s'.versions ensures s'.versions[k] > 0 {
      BumpedVersion(s.versions, Touched(s.tables[table], step.removed, step.added), schema.collectionOf[table], k);
    }
  }

  lemma FinalizeClocksEverything(schema: Schema, s: State, renewed: nat)
    requires Family(schema, s.tables) && (forall k :: k in s.versions ==> s.versions[k] > 0)
    ensures Clocked(schema, Next(schema, s, Finalize(renewed)))
  {
    forall t, id | t in s.tables && id in s.tables[t] && t in schema.collectionOf
      ensures Version(Next(schema, s, Finalize(renewed)), s.tables[t][id].org, schema.collectionOf[t]) > 0
    {
      assert s.tables[t][id].org in AllOrgs(s.tables);
      assert schema.collectionOf[t] in schema.Collections();
    }
  }

  // ------------------------------------------------------------------ whole runs

  /** Once a generation was replaced it never comes back. */
  lemma {:induction false} GenerationsDoNotReturn(schema: Schema, states: seq<State>, steps: seq<Step>, k: nat, j: nat, past: nat)
    requires Run(schema, states, steps) && past <= k < j <= |steps| && Renews(schema, states[k], steps[k])
    ensures states[j].generation != states[past].generation
    decreases j
  {
    if j > k + 1 {
      GenerationsDoNotReturn(schema, states, steps, k, j - 1, past);
    }
  }

  /** Versions never decrease along a run. */
  lemma {:induction false} VersionsGrowOverRun(schema: Schema, states: seq<State>, steps: seq<Step>, i: nat, j: nat, org: Name, collection: Name)
    requires Run(schema, states, steps) && i <= j <= |steps|
    ensures Version(states[i], org, collection) <= Version(states[j], org, collection)
    decreases j
  {
    if i < j {
      VersionsGrowOverRun(schema, states, steps, i, j - 1, org, collection);
      VersionsGrow(schema, states[j - 1], steps[j - 1], org, collection);
    }
  }

  /** A maintenance write stays unfinished until the generation is replaced. */
  lemma {:induction false} StaysUnfinished(schema: Schema, states: seq<State>, steps: seq<Step>, i: nat, j: nat)
    requires Run(schema, states, steps) && i <= j <= |steps| && Unfinished(schema, states, steps, i)
    requires forall k :: i <= k < j ==> !Renews(schema, states[k], steps[k])
    ensures Unfinished(schema, states, steps, j)
    decreases j
  {
    if i < j {
      StaysUnfinished(schema, states, steps, i, j - 1);
    }
  }

  /** Between equal generations outside maintenance only statements change anything. */
  lemma {:induction false} OnlyStatements(schema: Schema, states: seq<State>, steps: seq<Step>, i: nat, j: nat, k: nat)
    requires Run(schema, states, steps) && i <= k < j <= |steps|
    requires states[i].generation == states[j].generation && !Unfinished(schema, states, steps, j)
    ensures steps[k].Statement? || states[k + 1] == states[k]
  {
    forall m | i <= m < j ensures !Renews(schema, states[m], steps[m]) {
      if Renews(schema, states[m], steps[m]) {
        GenerationsDoNotReturn(schema, states, steps, m, j, i);
      }
    }
    if steps[k].MaintenanceWrite? {
      StaysUnfinished(schema, states, steps, k + 1, j);
    }
  }

  lemma StepAdvances(schema: Schema, s: State, step: Step, s': State, org: Name, collection: Name)
    requires s' == Next(schema, s, step) && (step.Statement? || s' == s)
    ensures Version(s, org, collection) <= Version(s', org, collection)
    ensures Version(s, org, collection) == Version(s', org, collection) ==>
              Content(schema, s, org, collection) == Content(schema, s', org, collection)
  {
    if step.Statement? {
      StatementAdvances(schema, s, step, org, collection);
    }
  }

  lemma {:induction false} SameVersionSameContentUpTo(schema: Schema, states: seq<State>, steps: seq<Step>, i: nat, m: nat, j: nat, org: Name, collection: Name)
    requires Run(schema, states, steps) && i <= m <= j <= |steps|
    requires states[i].generation == states[j].generation && !Unfinished(schema, states, steps, j)
    ensures Version(states[i], org, collection) <= Version(states[m], org, collection)
    ensures Version(states[i], org, collection) == Version(states[m], org, collection) ==>
              Content(schema, states[i], org, collection) == Content(schema, states[m], org, collection)
    decreases m
  {
    if i < m {
      SameVersionSameContentUpTo(schema, states, steps, i, m - 1, j, org, collection);
      OnlyStatements(schema, states, steps, i, j, m - 1);
      StepAdvances(schema, states[m - 1], steps[m - 1], states[m], org, collection);
    }
  }

  /**
   * Clock soundness: whenever the later of two states is not inside a
   * maintenance window, an equal generation and an equal version (a missing
   * clock read as 0) mean equal content for the organization and collection.
   */
  lemma {:induction false} ClocksAreSound(schema: Schema, states: seq<State>, steps: seq<Step>, i: nat, j: nat, org: Name, collection: Name)
    requires Run(schema, states, steps) && i <= j <= |steps| && !Unfinished(schema, states, steps, j)
    requires states[i].generation == states[j].generation
    requires Version(states[i], org, collection) == Version(states[j], org, collection)
    ensures Content(schema, states[i], org, collection) == Content(schema, states[j], org, collection)
  {
    SameVersionSameContentUpTo(schema, states, steps, i, j, j, org, collection);
  }

  /** The two states cannot be told apart by generation and clock. */
  ghost predicate SameClock(s: State, s': State, org: Name, collection: Name) {
    s.generation == s'.generation && Version(s, org, collection) == Version(s', org, collection)
  }

  ghost predicate SameRead(schema: Schema, s: State, s': State, org: Name, collection: Name) {
    Content(schema, s, org, collection) == Content(schema, s', org, collection)
  }

  ghost predicate AllSameRead(schema: Schema, s: State, s': State) {
    forall org, collection :: SameRead(schema, s, s', org, collection)
  }

  /** No maintenance write of the run changes what anybody reads. */
  ghost predicate QuietMaintenance(schema: Schema, states: seq<State>, steps: seq<Step>)
    requires |states| == |steps| + 1
  {
    forall k :: 0 <= k < |steps| && steps[k].MaintenanceWrite? ==> AllSameRead(schema, states[k], states[k + 1])
  }

  /** Every two states of the run that look alike read alike. */
  ghost predicate Sound(schema: Schema, states: seq<State>) {
    forall i, j, org, collection :: 0 <= i <= j < |states| && SameClock(states[i], states[j], org, collection) ==>
      SameRead(schema, states[i], states[j], org, collection)
  }

  /** Without a change of generation a step advances the clock, or changes nothing one reads, or is maintenance. */
  lemma StepWithinGeneration(schema: Schema, s: State, step: Step, s': State, org: Name, collection: Name)
    requires s' == Next(schema, s, step) && !Renews(schema, s, step)
    requires step.MaintenanceWrite? ==> SameRead(schema, s, s', org, collection)
    ensures Version(s, org, collection) <= Version(s', org, collection)
    ensures Version(s, org, collection) == Version(s', org, collection) ==> SameRead(schema, s, s', org, collection)
  {
    if step.Statement? {
      StatementAdvances(schema, s, step, org, collection);
    }
  }

  lemma NotRenewed(schema: Schema, states: seq<State>, steps: seq<Step>, i: nat, j: nat, k: nat)
    requires Run(schema, states, steps) && i <= k < j <= |steps| && states[i].generation == states[j].generation
    ensures !Renews(schema, states[k], steps[k])
  {
    if Renews(schema, states[k], steps[k]) {
      GenerationsDoNotReturn(schema, states, steps, k, j, i);
    }
  }

  lemma {:induction false} QuietUpTo(schema: Schema, states: seq<State>, steps: seq<Step>, i: nat, m: nat, j: nat, org: Name, collection: Name)
    requires Run(schema, states, steps) && i <= m <= j <= |steps| && QuietMaintenance(schema, states, steps)
    requires states[i].generation == states[j].generation
    ensures Version(states[i], org, collection) <= Version(states[m], org, collection)
    ensures Version(states[i], org, collection) == Version(states[m], org, collection) ==> SameRead(schema, states[i], states[m], org, collection)
    decreases m
  {
    if i < m {
      QuietUpTo(schema, states, steps, i, m - 1, j, org, collection);
      NotRenewed(schema, states, steps, i, j, m - 1);
      assert steps[m - 1].MaintenanceWrite? ==> AllSameRead(schema, states[m - 1], states[m]);
      StepWithinGeneration(schema, states[m - 1], steps[m - 1], states[m], org, collection);
    }
  }

  /** A maintenance write keeps generation and clocks, so one that changes what is read cannot be told. */
  lemma MaintenanceKeepsClocks(schema: Schema, s: State, step: Step, org: Name, collection: Name)
    requires step.MaintenanceWrite?
    ensures SameClock(s, Next(schema, s, step), org, collection)
  {
  }

  /** The clocks of a whole run are sound exactly when no maintenance write of the run changes what anybody reads. */
  lemma SoundExactly(schema: Schema, states: seq<State>, steps: seq<Step>)
    requires Run(schema, states, steps)
    ensures Sound(schema, states) <==> QuietMaintenance(schema, states, steps)
  {
    if QuietMaintenance(schema, states, steps) {
      forall i, j, org, collection | 0 <= i <= j < |states| && SameClock(states[i], states[j], org, collection)
        ensures SameRead(schema, states[i], states[j], org, collection)
      {
        QuietUpTo(schema, states, steps, i, j, j, org, collection);
      }
    }
    if Sound(schema, states) {
      forall k | 0 <= k < |steps| && steps[k].MaintenanceWrite? ensures AllSameRead(schema, states[k], states[k + 1]) {
        var s, s' := states[k], states[k + 1];
        forall org, collection ensures SameRead(schema, s, s', org, collection) {
          MaintenanceKeepsClocks(schema, states[k], steps[k], org, collection);
        }
      }
    }
  }

  /** The window is real: a maintenance write shows new content under the old generation and version. */
  lemma {:induction false} MaintenanceWindowIsVisible(schema: Schema, s: State, table: Name, id: int, row: Row)
    requires schema.WellFormed() && Initial(schema, s) && table in s.tables && id !in s.tables[table] && table !in schema.parentOf
    ensures var step := MaintenanceWrite(Insert, table, {}, map[id := row]);
            var s' := Next(schema, s, step);
            && Run(schema, [s, s'], [step]) && Unfinished(schema, [s, s'], [step], 1)
            && s'.generation == s.generation
            && Version(s', row.org, schema.collectionOf[table]) == Version(s, row.org, schema.collectionOf[table])
            && Content(schema, s', row.org, schema.collectionOf[table]) != Content(schema, s, row.org, schema.collectionOf[table])
  {
    var step := MaintenanceWrite(Insert, table, {}, map[id := row]);
    var s' := Next(schema, s, step);
    NewRowShows(schema, s, s', table, id, row);
    assert [s, s'][0] == s && [s, s'][1] == s' && [step][0] == step;
  }

  lemma NewRowShows(schema: Schema, s: State, s': State, table: Name, id: int, row: Row)
    requires table in s.tables && table in s'.tables && table in schema.collectionOf
    requires id !in s.tables[table] && id in s'.tables[table] && s'.tables[table][id] == row
    ensures Content(schema, s', row.org, schema.collectionOf[table]) != Content(schema, s, row.org, schema.collectionOf[table])
  {
    var before := Content(schema, s, row.org, schema.collectionOf[table]);
    var after := Content(schema, s', row.org, schema.collectionOf[table]);
    assert id in after[table] && id !in before[table];
  }

  /** Positive clocks, and outside maintenance no data without its clock and no child without its parent. */
  lemma {:induction false} RunsStayClocked(schema: Schema, states: seq<State>, steps: seq<Step>, at: nat)
    requires Run(schema, states, steps) && at <= |steps|
    ensures forall k :: k in states[at].versions ==> states[at].versions[k] > 0
    ensures states[at].tables.Keys == schema.collectionOf.Keys
    ensures !Unfinished(schema, states, steps, at) ==> Clocked(schema, states[at]) && Family(schema, states[at].tables)
    decreases at
  {
    if at == 0 {
      var s := states[0];
      forall t, id | t in s.tables && id in s.tables[t] && t in schema.collectionOf
        ensures Version(s, s.tables[t][id].org, schema.collectionOf[t]) > 0
      {
        assert s.tables[t][id].org in AllOrgs(s.tables);
        assert schema.collectionOf[t] in schema.Collections();
      }
    } else {
      RunsStayClocked(schema, states, steps, at - 1);
      StepStaysClocked(schema, states[at - 1], steps[at - 1]);
    }
  }

  lemma StepStaysClocked(schema: Schema, s: State, step: Step)
    requires schema.WellFormed() && forall k :: k in s.versions ==> s.versions[k] > 0
    ensures Next(schema, s, step).tables.Keys == s.tables.Keys
    ensures forall k :: k in Next(schema, s, step).versions ==> Next(schema, s, step).versions[k] > 0
    ensures Clocked(schema, s) && Family(schema, s.tables) && !step.MaintenanceWrite? ==>
              Clocked(schema, Next(schema, s, step)) && Family(schema, Next(schema, s, step).tables)
    ensures step.Finalize? && Renews(schema, s, step) ==>
              Clocked(schema, Next(schema, s, step)) && Family(schema, Next(schema, s, step).tables)
  {
    match step
    case Statement(op, table, removed, added) =>
      if Accepted(schema, s.tables, op, table, removed, added) {
        forall k | k in Next(schema, s, step).versions ensures Next(schema, s, step).versions[k] > 0 {
          BumpedVersion(s.versions, Touched(s.tables[table], removed, added), schema.collectionOf[table], k);
        }
        if Clocked(schema, s) { StatementKeepsClocked(schema, s, step); }
      }
      if Family(schema, s.tables) { StatementKeepsFamily(schema, s, step); }
    case Truncate(cleared, allowed, renewed) =>
      TruncateKeeps(schema, s, cleared, allowed, renewed);
    case MaintenanceWrite(_, _, _, _) =>
    case Finalize(renewed) =>
      if Family(schema, s.tables) { FinalizeClocksEverything(schema, s, renewed); }
  }

  lemma TruncateKeeps(schema: Schema, s: State, cleared: seq<Name>, allowed: bool, renewed: nat)
    requires schema.WellFormed()
    ensures Clocked(schema, s) ==> Clocked(schema, Next(schema, s, Truncate(cleared, allowed, renewed)))
    ensures Family(schema, s.tables) ==> Family(schema, Next(schema, s, Truncate(cleared, allowed, renewed)).tables)
  {
    var s' := Next(schema, s, Truncate(cleared, allowed, renewed));
    if s' != s && Family(schema, s.tables) {
      forall c, id | c in schema.parentOf && c in s'.tables && id in s'.tables[c]
        ensures ParentOk(schema, s'.tables, c, s'.tables[c][id])
      {
        assert c !in cleared && ParentOk(schema, s.tables, c, s.tables[c][id]);
      }
    }
    if s' != s && Clocked(schema, s) {
      forall t, id | t in s'.tables && id in s'.tables[t] && t in schema.collectionOf
        ensures Version(s', s'.tables[t][id].org, schema.collectionOf[t]) > 0
      {
        assert s'.tables[t][id] == s.tables[t][id];
      }
    }
  }
}
