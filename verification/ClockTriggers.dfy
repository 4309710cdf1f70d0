/**
 * The triggers as code: statement triggers that upsert clocks one
 * organization at a time, the TRUNCATE trigger and the finalization after a
 * maintenance window, each proved to be one step of CollectionClocks.
 */
module ClockTriggers {
  import opened Prelude
  import opened CollectionClocks

  class ClockedDb {
    const schema: Schema
    var tables: Tables
    var generation: nat
    var versions: Versions

    function Snapshot(): State
      reads this
    {
      State(tables, generation, versions)
    }

    /** The migration: checks every child, then creates the clocks. */
    constructor (schema: Schema, tables: Tables, generation: nat)
      requires schema.WellFormed() && tables.Keys == schema.collectionOf.Keys && Family(schema, tables)
      ensures this.schema == schema && this.tables == tables && this.generation == generation
      ensures Initial(schema, Snapshot())
    {
      this.schema, this.tables, this.generation := schema, tables, generation;
      this.versions := Initialized(map[], {DEFAULT_ORG} + AllOrgs(tables), schema.Collections());
    }

    /** `INSERT ... ON CONFLICT DO UPDATE SET version = version + amount` for each listed organization. */
    method UpsertClocks(orgs: set<Name>, collection: Name)
      modifies this`versions
      ensures versions == Bumped(old(versions), orgs, collection)
    {
      var pending := orgs;
      ghost var done: set<Name> := {};
      assert Bumped(old(versions), {}, collection) == old(versions);
      while pending != {}
        invariant done + pending == orgs && done !! pending
        invariant versions == Bumped(old(versions), done, collection)
        decreases pending
      {
        var org :| org in pending;
        pending := pending - {org};
        var k := ClockKey(org, collection);
        BumpOneMore(old(versions), done, org, collection);
        if k in versions {
          versions := versions[k := versions[k] + 1];
        } else {
          versions := versions[k := 1];
        }
        done := done + {org};
      }
    }

    /** `portal_clock_bump` after its early return: the organizations come from the transition tables of the event. */
    method Bump(op: Op, collection: Name, oldRows: Table, newRows: Table)
      requires (op.Insert? ==> oldRows == map[]) && (op.Delete? ==> newRows == map[])
      modifies this`versions
      ensures versions == Bumped(old(versions), OrgsIn(oldRows) + OrgsIn(newRows), collection)
    {
      match op {
        case Insert =>
          assert OrgsIn(oldRows) + OrgsIn(newRows) == OrgsIn(newRows);
          UpsertClocks(OrgsIn(newRows), collection);
        case Delete =>
          assert OrgsIn(oldRows) + OrgsIn(newRows) == OrgsIn(oldRows);
          UpsertClocks(OrgsIn(oldRows), collection);
        case Update =>
          UpsertClocks(OrgsIn(oldRows) + OrgsIn(newRows), collection);
      }
    }

    /** One data statement with its statement trigger; an exception undoes the statement. */
    method Execute(op: Op, table: Name, removed: set<int>, added: Table, syncMode: bool, maintainer: bool) returns (ok: bool)
      modifies this`tables, this`versions
      ensures Snapshot() == Next(schema, old(Snapshot()), if syncMode && maintainer then MaintenanceWrite(op, table, removed, added) else Statement(op, table, removed, added))
      ensures ok <==> if syncMode && maintainer then Legal(schema, old(tables), op, table, removed, added)
                      else Accepted(schema, old(tables), op, table, removed, added)
      ensures if ok then Wrote(old(tables), tables, table, removed, added) else Snapshot() == old(Snapshot())
    {
      if !Legal(schema, tables, op, table, removed, added) {
        return false;
      }
      var oldRows := map id | id in removed && id in tables[table] :: tables[table][id];
      var after := tables[table := Replaced(tables[table], removed, added)];
      if syncMode && maintainer {
        tables := after;
        return true;
      }
      if !TriggerAccepts(schema, after, op, table, added) {
        return false;
      }
      tables := after;
      assert op.Insert? ==> oldRows == map[];
      Bump(op, schema.collectionOf[table], oldRows, added);
      return true;
    }

    /** `TRUNCATE` of several tables: the trigger runs once for each of them. */
    method TruncateTables(cleared: seq<Name>, maintainer: bool, renewed: nat) returns (ok: bool)
      modifies this
      ensures Snapshot() == Next(schema, old(Snapshot()), Truncate(cleared, maintainer, renewed))
      ensures ok <==> maintainer && cleared != [] && ClosedUnderChildren(schema, cleared)
      ensures ok ==> generation == renewed
    {
      if !maintainer || cleared == [] || !ClosedUnderChildren(schema, cleared) {
        return false;
      }
      assert AllBumped(versions, 0) == versions;
      for i := 0 to |cleared|
        invariant versions == AllBumped(old(versions), i) && tables == old(tables)
        invariant generation == if i == 0 then old(generation) else renewed
      {
        versions := map k | k in versions :: versions[k] + 1;
        generation := renewed;
      }
      tables := Cleared(tables, cleared);
      return true;
    }

    /** `initialize_tenant` for every organization in use. */
    method InitializeTenants(orgs: set<Name>)
      modifies this`versions
      ensures versions == Initialized(old(versions), orgs, schema.Collections())
    {
      var pending := orgs;
      ghost var done: set<Name> := {};
      assert Initialized(versions, {}, schema.Collections()) == versions;
      while pending != {}
        invariant done + pending == orgs && done !! pending
        invariant versions == Initialized(old(versions), done, schema.Collections())
        decreases pending
      {
        var org :| org in pending;
        pending := pending - {org};
        InitializeOneMore(old(versions), done, org, schema.Collections());
        versions := Initialized(versions, {org}, schema.Collections());
        done := done + {org};
      }
      assert done == orgs;
    }

    /** `finalize_generation`: every organization in use gets every clock, all clocks advance, a new generation starts. */
    method FinalizeGeneration(renewed: nat) returns (ok: bool)
      modifies this
      ensures Snapshot() == Next(schema, old(Snapshot()), Finalize(renewed))
      ensures ok <==> Family(schema, old(tables))
      ensures ok ==> generation == renewed && tables == old(tables)
    {
      if !Family(schema, tables) {
        return false;
      }
      InitializeTenants({DEFAULT_ORG} + AllOrgs(tables));
      versions := map k | k in versions :: versions[k] + 1;
      generation := renewed;
      return true;
    }
  }

  lemma BumpOneMore(versions: Versions, done: set<Name>, org: Name, collection: Name)
    requires org !in done
    ensures var before := Bumped(versions, done, collection);
            var k := ClockKey(org, collection);
            Bumped(versions, done + {org}, collection) == before[k := if k in before then before[k] + 1 else 1]
  {
    var before, after := Bumped(versions, done, collection), Bumped(versions, done + {org}, collection);
    var k := ClockKey(org, collection);
    forall c ensures (c in after <==> c in before || c == k) && (c in after && c != k ==> after[c] == before[c]) {
      BumpedVersion(versions, done, collection, c);
      BumpedVersion(versions, done + {org}, collection, c);
    }
    BumpedVersion(versions, done, collection, k);
    BumpedVersion(versions, done + {org}, collection, k);
  }

  lemma InitializeOneMore(versions: Versions, done: set<Name>, org: Name, collections: set<Name>)
    ensures Initialized(Initialized(versions, done, collections), {org}, collections) == Initialized(versions, done + {org}, collections)
  {
    var left, right := Initialized(Initialized(versions, done, collections), {org}, collections), Initialized(versions, done + {org}, collections);
    forall k ensures (k in left <==> k in right) && (k in left ==> left[k] == right[k]) {
      assert k == ClockKey(k.org, k.collection);
    }
  }
}
