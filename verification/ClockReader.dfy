/**
 * src/backend/repositories/collection_clock_repository.py: reading the clocks
 * of one request from its snapshot, with the per-backend backwards check, and
 * the proof that the check never fires on snapshots of a run.
 */
module ClockReader {
  import opened Prelude
  import opened CollectionClocks

  datatype Anomaly = UnknownDependency | InvalidVersion | DataWithoutVersion | MovedBackwards

  datatype Observation = Observation(generation: nat, tenant: Name, collection: Name, backend: nat)

  const OBSERVED_LIMIT: nat := 4096

  predicate HasData(schema: Schema, s: State, tenant: Name, collection: Name) {
    exists t, id :: t in schema.collectionOf && schema.collectionOf[t] == collection && t in s.tables && id in s.tables[t] && s.tables[t][id].org == tenant
  }

  predicate Known(schema: Schema, requested: set<Name>) {
    requested != {} && requested <= schema.Collections()
  }

  /** A requested collection of the tenant has rows but no clock. */
  predicate LostClock(schema: Schema, s: State, tenant: Name, requested: set<Name>) {
    exists c :: c in requested && ClockKey(tenant, c) !in s.versions && HasData(schema, s, tenant, c)
  }

  predicate StoredZero(s: State, tenant: Name, requested: set<Name>) {
    exists c :: c in requested && ClockKey(tenant, c) in s.versions && s.versions[ClockKey(tenant, c)] == 0
  }

  /** What the three refusals are about: an unknown name, a stored zero, and rows of the tenant beside a missing clock. */
  lemma AnomaliesMean(schema: Schema, s: State, tenant: Name, requested: set<Name>)
    ensures Known(schema, requested) <==> (exists c :: c in requested) && forall c :: c in requested ==> exists t :: t in schema.collectionOf && schema.collectionOf[t] == c
    ensures StoredZero(s, tenant, requested) <==> exists k :: k in s.versions && k.org == tenant && k.collection in requested && s.versions[k] == 0
    ensures LostClock(schema, s, tenant, requested) <==>
              exists t, id :: t in schema.collectionOf && t in s.tables && id in s.tables[t] && s.tables[t][id].org == tenant &&
                schema.collectionOf[t] in requested && ClockKey(tenant, schema.collectionOf[t]) !in s.versions
  {
    forall c ensures c in schema.Collections() <==> exists t :: t in schema.collectionOf && schema.collectionOf[t] == c {
    }
    if k :| k in s.versions && k.org == tenant && k.collection in requested && s.versions[k] == 0 {
      assert ClockKey(tenant, k.collection) == k;
    }
    if t, id :| t in schema.collectionOf && t in s.tables && id in s.tables[t] && s.tables[t][id].org == tenant &&
                schema.collectionOf[t] in requested && ClockKey(tenant, schema.collectionOf[t]) !in s.versions {
      assert HasData(schema, s, tenant, schema.collectionOf[t]);
    }
  }

  function Answer(s: State, tenant: Name, requested: set<Name>): map<Name, nat> {
    map c | c in requested :: Version(s, tenant, c)
  }

  function Without(order: seq<Observation>, key: Observation): (r: seq<Observation>)
    ensures forall k :: k in r <==> k in order && k != key
    ensures Distinct(order) ==> Distinct(r)
    ensures Distinct(order) ==> |r| == if key in order then |order| - 1 else |order|
  {
    if order == [] then []
    else
      var rest, last := order[..|order| - 1], order[|order| - 1];
      assert order == rest + [last];
      assert Distinct(order) ==> Distinct(rest) && last !in rest;
      if last == key then Without(rest, key) else Without(rest, key) + [last]
  }

  /** Every remembered value was the version in some snapshot this backend has already served. */
  ghost predicate FromRun(states: seq<State>, observed: map<Observation, nat>, served: map<nat, nat>) {
    forall k :: k in observed ==> k.backend in served && Witnessed(states, k, observed[k], served[k.backend])
  }

  ghost predicate Witnessed(states: seq<State>, k: Observation, version: nat, upTo: nat) {
    exists p :: 0 <= p <= upTo && p < |states| && states[p].generation == k.generation && Version(states[p], k.tenant, k.collection) == version
  }

  /** This backend has seen a higher version of the collection in the snapshot's generation. */
  ghost predicate Backwards(observed: map<Observation, nat>, s: State, tenant: Name, collection: Name, backend: nat) {
    var k := Observation(s.generation, tenant, collection, backend);
    k in observed && Version(s, tenant, collection) < observed[k]
  }

  ghost predicate NoneBackwards(observed: map<Observation, nat>, s: State, tenant: Name, collections: set<Name>, backend: nat) {
    forall c :: c in collections ==> !Backwards(observed, s, tenant, c, backend)
  }

  /** Each remembered value is an earlier one or the snapshot's own version for this backend and tenant. */
  ghost predicate Remembered(before: map<Observation, nat>, after: map<Observation, nat>, s: State, tenant: Name, backend: nat) {
    forall k :: k in after && !(k in before && after[k] == before[k]) ==>
      k.generation == s.generation && k.tenant == tenant && k.backend == backend && after[k] == Version(s, tenant, k.collection)
  }

  /** The last `n` keys confirmed are exactly these. */
  ghost predicate Recent(order: seq<Observation>, keys: set<Observation>, n: nat) {
    n <= |order| && Elements(order[|order| - n..]) == keys
  }

  lemma {:induction false} WithoutTail(order: seq<Observation>, key: Observation, n: nat)
    requires n <= |order| && key !in order[|order| - n..]
    ensures n <= |Without(order, key)| && Without(order, key)[|Without(order, key)| - n..] == order[|order| - n..]
  {
    if n > 0 {
      var rest, last := order[..|order| - 1], order[|order| - 1];
      assert order[|order| - n..] == rest[|rest| - (n - 1)..] + [last];
      WithoutTail(rest, key, n - 1);
    }
  }

  lemma OldestOnce(order: seq<Observation>)
    requires Distinct(order) && order != []
    ensures Distinct(order[1..]) && forall k :: k in order[1..] <==> k in order && k != order[0]
  {
    assert order == [order[0]] + order[1..];
    assert forall i :: 1 <= i < |order| ==> order[i] != order[0];
  }

  /** Confirming one more key makes it the most recent one. */
  lemma {:induction false} RecentOneMore(order: seq<Observation>, keys: set<Observation>, n: nat, key: Observation)
    requires Recent(order, keys, n) && key !in keys
    ensures Recent(Without(order, key) + [key], keys + {key}, n + 1)
  {
    WithoutTail(order, key, n);
    var after := Without(order, key) + [key];
    assert after[|after| - (n + 1)..] == order[|order| - n..] + [key];
    assert Elements(order[|order| - n..] + [key]) == Elements(order[|order| - n..]) + {key};
  }

  ghost function KeysOf(s: State, tenant: Name, backend: nat, collections: set<Name>): set<Observation> {
    set c | c in collections :: Observation(s.generation, tenant, c, backend)
  }

  /** Nothing new and no other value is remembered. */
  ghost predicate Kept(before: map<Observation, nat>, after: map<Observation, nat>) {
    forall k :: k in after ==> k in before && after[k] == before[k]
  }

  /** Each of these collections is remembered with the given version. */
  ghost predicate Holds(observed: map<Observation, nat>, s: State, tenant: Name, backend: nat, collections: set<Name>, versions: map<Name, nat>) {
    forall c :: c in collections && c in versions ==>
      Observation(s.generation, tenant, c, backend) in observed && observed[Observation(s.generation, tenant, c, backend)] == versions[c]
  }

  class VersionReader {
    var observed: map<Observation, nat>
    /** Keys of `observed`, least recently confirmed first. */
    var order: seq<Observation>

    ghost predicate Valid()
      reads this
    {
      Distinct(order) && forall k :: k in observed <==> k in order
    }

    constructor ()
      ensures Valid() && observed == map[]
    {
      observed, order := map[], [];
    }

    /** Compares one version with the last one seen by the same backend and remembers it. */
    method Observe(key: Observation, version: nat) returns (ok: bool)
      requires Valid()
      modifies this
      ensures Valid()
      ensures ok <==> (key in old(observed) ==> old(observed)[key] <= version)
      ensures observed == if ok then old(observed)[key := version] else old(observed)
      ensures order == if ok then Without(old(order), key) + [key] else old(order)
    {
      if key in observed && version < observed[key] {
        return false;
      }
      observed := observed[key := version];
      order := Without(order, key) + [key];
      return true;
    }

    /** Drops the least recently confirmed keys beyond the limit. */
    method Evict()
      requires Valid()
      modifies this
      ensures Valid() && |order| <= OBSERVED_LIMIT
      ensures Kept(old(observed), observed)
      ensures order == if |old(order)| <= OBSERVED_LIMIT then old(order) else old(order)[|old(order)| - OBSERVED_LIMIT..]
      ensures |old(order)| <= OBSERVED_LIMIT ==> observed == old(observed)
    {
      while |order| > OBSERVED_LIMIT
        invariant Valid() && |order| <= |old(order)| && order == old(order)[|old(order)| - |order|..]
        invariant |old(order)| > OBSERVED_LIMIT ==> |order| >= OBSERVED_LIMIT
        invariant Kept(old(observed), observed)
        invariant |old(order)| <= OBSERVED_LIMIT ==> order == old(order) && observed == old(observed)
        decreases |order|
      {
        PopOldest();
      }
    }

    /** `popitem(last=False)`. */
    method PopOldest()
      requires Valid() && order != []
      modifies this
      ensures Valid() && order == old(order)[1..] && Kept(old(observed), observed)
    {
      OldestOnce(order);
      observed := observed - {order[0]};
      order := order[1..];
    }

    /** The comparison of all versions under the lock. */
    method ObserveAll(s: State, tenant: Name, versions: map<Name, nat>, backend: nat) returns (ok: bool)
      requires Valid() && versions == Answer(s, tenant, versions.Keys)
      modifies this
      ensures Valid() && Remembered(old(observed), observed, s, tenant, backend)
      ensures ok <==> NoneBackwards(old(observed), s, tenant, versions.Keys, backend)
      ensures ok ==> Confirmed(order, observed, s, tenant, backend, versions.Keys, versions, |versions.Keys|)
    {
      var pending := versions.Keys;
      ghost var start := observed;
      while pending != {}
        invariant Valid() && Progress(start, order, observed, s, tenant, backend, versions, pending)
        decreases pending
      {
        var c :| c in pending;
        ghost var was, seen := order, observed;
        ok := Observe(Observation(s.generation, tenant, c, backend), versions[c]);
        if !ok {
          assert Backwards(start, s, tenant, c, backend);
          return;
        }
        ProgressOneMore(start, was, seen, s, tenant, backend, versions, pending, c);
        pending := pending - {c};
      }
      assert versions.Keys - {} == versions.Keys;
      return true;
    }

    /** The three checks on the rows that were read. */
    method CheckClocks(schema: Schema, s: State, tenant: Name, requested: set<Name>) returns (e: Option<Anomaly>)
      ensures e == Some(UnknownDependency) <==> !Known(schema, requested)
      ensures e == Some(InvalidVersion) <==> Known(schema, requested) && StoredZero(s, tenant, requested)
      ensures e == Some(DataWithoutVersion) <==> Known(schema, requested) && !StoredZero(s, tenant, requested) && LostClock(schema, s, tenant, requested)
      ensures e != Some(MovedBackwards)
    {
      if !Known(schema, requested) {
        return Some(UnknownDependency);
      }
      if StoredZero(s, tenant, requested) {
        return Some(InvalidVersion);
      }
      if LostClock(schema, s, tenant, requested) {
        return Some(DataWithoutVersion);
      }
      return None;
    }

    /** `load_versions` on the snapshot `s`. */
    method Load(schema: Schema, s: State, tenant: Name, requested: set<Name>, backend: nat) returns (r: Result<map<Name, nat>, Anomaly>)
      requires Valid()
      modifies this
      ensures Valid()
      ensures r == Err(UnknownDependency) <==> !Known(schema, requested)
      ensures r == Err(InvalidVersion) <==> Known(schema, requested) && StoredZero(s, tenant, requested)
      ensures r == Err(DataWithoutVersion) <==> Known(schema, requested) && !StoredZero(s, tenant, requested) && LostClock(schema, s, tenant, requested)
      ensures r == Err(MovedBackwards) ==> !NoneBackwards(old(observed), s, tenant, requested, backend)
      ensures r.Ok? ==> |order| <= OBSERVED_LIMIT && NoneBackwards(old(observed), s, tenant, requested, backend)
      ensures r.Ok? ==> r.value.Keys == requested && forall c :: c in requested ==> ClockReads(s, tenant, c, r.value[c])
      ensures r.Ok? && |requested| <= OBSERVED_LIMIT ==> Holds(observed, s, tenant, backend, requested, r.value)
      ensures Remembered(old(observed), observed, s, tenant, backend)
    {
      var e := CheckClocks(schema, s, tenant, requested);
      if e.Some? {
        return Err(e.value);
      }
      var versions := Answer(s, tenant, requested);
      assert versions.Keys == requested;
      var ok := ObserveAll(s, tenant, versions, backend);
      if !ok {
        return Err(MovedBackwards);
      }
      EvictAfter(s, tenant, requested, backend, versions);
      return Ok(versions);
    }

    /** Eviction after a request forgets nothing of it. */
    method EvictAfter(s: State, tenant: Name, requested: set<Name>, backend: nat, ghost versions: map<Name, nat>)
      requires Valid() && Confirmed(order, observed, s, tenant, backend, requested, versions, |requested|)
      modifies this
      ensures Valid() && |order| <= OBSERVED_LIMIT
      ensures Kept(old(observed), observed)
      ensures |requested| <= OBSERVED_LIMIT ==> Holds(observed, s, tenant, backend, requested, versions)
    {
      ghost var was, seen := order, observed;
      Evict();
      if |requested| <= OBSERVED_LIMIT {
        RecentIsKept(was, order, KeysOf(s, tenant, backend, requested), |requested|);
        StillHolds(seen, observed, s, tenant, backend, requested, versions);
      }
    }

    /**
     * Snapshots of one backend follow the run.  Outside maintenance windows a
     * request for known collections is always answered: no clock is lost, none
     * is zero, and none moved backwards.
     */
    method LoadFromRun(schema: Schema, ghost states: seq<State>, ghost steps: seq<Step>, ghost served: map<nat, nat>, s: State, ghost at: nat,
                       tenant: Name, requested: set<Name>, backend: nat)
      returns (r: Result<map<Name, nat>, Anomaly>)
      requires Valid() && Run(schema, states, steps) && FromRun(states, observed, served)
      requires at <= |steps| && s == states[at] && !Unfinished(schema, states, steps, at)
      requires backend in served ==> served[backend] <= at
      requires Known(schema, requested)
      modifies this
      ensures Valid() && FromRun(states, observed, served[backend := at])
      ensures r.Ok? && r.value.Keys == requested && forall c :: c in requested ==> ClockReads(s, tenant, c, r.value[c])
    {
      NothingIsLost(schema, states, steps, at, tenant, requested);
      forall c | c in requested ensures !Backwards(observed, s, tenant, c, backend) {
        var k := Observation(s.generation, tenant, c, backend);
        if k in observed {
          assert Witnessed(states, k, observed[k], served[backend]);
          var p :| 0 <= p <= served[backend] && p < |states| && states[p].generation == k.generation && Version(states[p], k.tenant, k.collection) == observed[k];
          VersionsGrowOverRun(schema, states, steps, p, at, tenant, c);
        }
      }
      ghost var before := observed;
      r := Load(schema, s, tenant, requested, backend);
      assert r != Err(UnknownDependency) && r != Err(InvalidVersion) && r != Err(DataWithoutVersion) && r != Err(MovedBackwards);
      assert r.Ok? by {
        if r.Err? {
          match r.error { case UnknownDependency => case InvalidVersion => case DataWithoutVersion => case MovedBackwards => }
        }
      }
      forall k | k in observed ensures k.backend in served[backend := at] && Witnessed(states, k, observed[k], served[backend := at][k.backend]) {
        if k in before && observed[k] == before[k] {
          assert Witnessed(states, k, before[k], served[k.backend]);
          var p :| 0 <= p <= served[k.backend] && p < |states| && states[p].generation == k.generation && Version(states[p], k.tenant, k.collection) == before[k];
        } else {
          assert states[at].generation == k.generation && Version(states[at], k.tenant, k.collection) == observed[k];
        }
      }
    }
  }

  /** These collections were confirmed last, with these versions. */
  ghost predicate Confirmed(order: seq<Observation>, observed: map<Observation, nat>, s: State, tenant: Name, backend: nat,
                            done: set<Name>, versions: map<Name, nat>, n: nat) {
    Recent(order, KeysOf(s, tenant, backend, done), n) && Holds(observed, s, tenant, backend, done, versions)
  }

  lemma {:induction false} ConfirmOneMore(order: seq<Observation>, observed: map<Observation, nat>, s: State, tenant: Name, backend: nat,
                       done: set<Name>, versions: map<Name, nat>, n: nat, c: Name)
    requires Confirmed(order, observed, s, tenant, backend, done, versions, n) && c !in done && c in versions
    ensures var key := Observation(s.generation, tenant, c, backend);
            Confirmed(Without(order, key) + [key], observed[key := versions[c]], s, tenant, backend, done + {c}, versions, n + 1)
  {
    var key := Observation(s.generation, tenant, c, backend);
    RecentOneMore(order, KeysOf(s, tenant, backend, done), n, key);
    assert KeysOf(s, tenant, backend, done + {c}) == KeysOf(s, tenant, backend, done) + {key};
  }

  ghost predicate SameComparison(start: map<Observation, nat>, observed: map<Observation, nat>, s: State, tenant: Name, collections: set<Name>, backend: nat) {
    forall c :: c in collections ==> Backwards(observed, s, tenant, c, backend) == Backwards(start, s, tenant, c, backend)
  }

  lemma RememberOneMore(start: map<Observation, nat>, observed: map<Observation, nat>, s: State, tenant: Name, backend: nat, c: Name)
    requires Remembered(start, observed, s, tenant, backend)
    ensures Remembered(start, observed[Observation(s.generation, tenant, c, backend) := Version(s, tenant, c)], s, tenant, backend)
  {
  }

  lemma CompareOneMore(start: map<Observation, nat>, observed: map<Observation, nat>, s: State, tenant: Name, collections: set<Name>, backend: nat, c: Name, version: nat)
    requires SameComparison(start, observed, s, tenant, collections, backend) && c !in collections
    ensures SameComparison(start, observed[Observation(s.generation, tenant, c, backend) := version], s, tenant, collections, backend)
  {
  }

  /** After the comparison of all but the pending collections. */
  ghost predicate Progress(start: map<Observation, nat>, order: seq<Observation>, observed: map<Observation, nat>, s: State, tenant: Name, backend: nat,
                           versions: map<Name, nat>, pending: set<Name>) {
    && pending <= versions.Keys && Remembered(start, observed, s, tenant, backend)
    && SameComparison(start, observed, s, tenant, pending, backend)
    && NoneBackwards(start, s, tenant, versions.Keys - pending, backend)
    && Confirmed(order, observed, s, tenant, backend, versions.Keys - pending, versions, |versions.Keys - pending|)
  }

  lemma {:induction false} ProgressOneMore(start: map<Observation, nat>, order: seq<Observation>, observed: map<Observation, nat>, s: State, tenant: Name, backend: nat,
                        versions: map<Name, nat>, pending: set<Name>, c: Name)
    requires Progress(start, order, observed, s, tenant, backend, versions, pending) && c in pending
    requires versions[c] == Version(s, tenant, c) && !Backwards(observed, s, tenant, c, backend)
    ensures var key := Observation(s.generation, tenant, c, backend);
            Progress(start, Without(order, key) + [key], observed[key := versions[c]], s, tenant, backend, versions, pending - {c})
  {
    RememberOneMore(start, observed, s, tenant, backend, c);
    assert !Backwards(start, s, tenant, c, backend);
    CompareOneMore(start, observed, s, tenant, pending - {c}, backend, c, versions[c]);
    ConfirmOneMore(order, observed, s, tenant, backend, versions.Keys - pending, versions, |versions.Keys - pending|, c);
    assert versions.Keys - (pending - {c}) == versions.Keys - pending + {c};
  }

  lemma StillHolds(before: map<Observation, nat>, after: map<Observation, nat>, s: State, tenant: Name, backend: nat, collections: set<Name>, versions: map<Name, nat>)
    requires Holds(before, s, tenant, backend, collections, versions)
    requires forall k :: k in KeysOf(s, tenant, backend, collections) && k in before ==> k in after && after[k] == before[k]
    ensures Holds(after, s, tenant, backend, collections, versions)
  {
    forall c | c in collections && c in versions ensures Observation(s.generation, tenant, c, backend) in KeysOf(s, tenant, backend, collections) {
    }
  }

  /** What was confirmed last is not evicted. */
  lemma RecentIsKept(before: seq<Observation>, after: seq<Observation>, keys: set<Observation>, n: nat)
    requires Recent(before, keys, n) && n <= |after| <= |before| && after == before[|before| - |after|..]
    ensures forall k :: k in keys ==> k in after
  {
    assert after[|after| - n..] == before[|before| - n..];
  }

  /** Outside a maintenance window no requested clock is zero or missing beside its data. */
  lemma {:induction false} NothingIsLost(schema: Schema, states: seq<State>, steps: seq<Step>, at: nat, tenant: Name, requested: set<Name>)
    requires Run(schema, states, steps) && at <= |steps| && !Unfinished(schema, states, steps, at)
    ensures !StoredZero(states[at], tenant, requested) && !LostClock(schema, states[at], tenant, requested)
  {
    RunsStayClocked(schema, states, steps, at);
    forall c | HasData(schema, states[at], tenant, c) ensures ClockKey(tenant, c) in states[at].versions {
      assert Version(states[at], tenant, c) > 0;
    }
  }

  /** The write puts a row of the tenant into a requested collection that has no clock of the tenant yet. */
  predicate BringsUnclocked(schema: Schema, s: State, step: Step, tenant: Name, requested: set<Name>)
    requires step.MaintenanceWrite?
  {
    && Legal(schema, s.tables, step.op, step.table, step.removed, step.added)
    && step.table in schema.collectionOf && schema.collectionOf[step.table] in requested
    && ClockKey(tenant, schema.collectionOf[step.table]) !in s.versions
    && exists id :: id in step.added && step.added[id].org == tenant
  }

  lemma UnclockedIsLost(schema: Schema, s: State, step: Step, tenant: Name, requested: set<Name>)
    requires step.MaintenanceWrite? && BringsUnclocked(schema, s, step, tenant, requested)
    ensures LostClock(schema, Next(schema, s, step), tenant, requested)
  {
    var s' := Next(schema, s, step);
    var id :| id in step.added && step.added[id].org == tenant;
    assert id in s'.tables[step.table] && s'.tables[step.table][id] == step.added[id];
    assert HasData(schema, s', tenant, schema.collectionOf[step.table]);
  }

  lemma LostIsUnclocked(schema: Schema, s: State, step: Step, tenant: Name, requested: set<Name>)
    requires step.MaintenanceWrite? && Clocked(schema, s) && LostClock(schema, Next(schema, s, step), tenant, requested)
    ensures BringsUnclocked(schema, s, step, tenant, requested)
  {
    var s' := Next(schema, s, step);
    var c :| c in requested && ClockKey(tenant, c) !in s'.versions && HasData(schema, s', tenant, c);
    var t, id :| t in schema.collectionOf && schema.collectionOf[t] == c && t in s'.tables && id in s'.tables[t] && s'.tables[t][id].org == tenant;
    if t in s.tables && id in s.tables[t] && s.tables[t][id] == s'.tables[t][id] {
      assert Version(s, tenant, c) > 0;
    }
  }

  /** After any maintenance write on clocked tables the reader fails for a lost clock exactly when the write brought the first such row. */
  lemma ClockIsLostExactly(schema: Schema, s: State, step: Step, tenant: Name, requested: set<Name>)
    requires step.MaintenanceWrite? && Clocked(schema, s)
    ensures LostClock(schema, Next(schema, s, step), tenant, requested) <==> BringsUnclocked(schema, s, step, tenant, requested)
  {
    if BringsUnclocked(schema, s, step, tenant, requested) {
      UnclockedIsLost(schema, s, step, tenant, requested);
    }
    if LostClock(schema, Next(schema, s, step), tenant, requested) {
      LostIsUnclocked(schema, s, step, tenant, requested);
    }
  }

  /** Inside the window the proof of emptiness can fail: the first row of an organization without a clock. */
  lemma WindowMayLoseAClock(schema: Schema, s: State, table: Name, id: int, row: Row)
    requires schema.WellFormed() && Initial(schema, s) && table in s.tables && id !in s.tables[table] && table !in schema.parentOf
    requires ClockKey(row.org, schema.collectionOf[table]) !in s.versions
    ensures LostClock(schema, Next(schema, s, MaintenanceWrite(Insert, table, {}, map[id := row])), row.org, {schema.collectionOf[table]})
  {
    var s' := Next(schema, s, MaintenanceWrite(Insert, table, {}, map[id := row]));
    assert id in s'.tables[table] && s'.tables[table][id] == row;
    assert HasData(schema, s', row.org, schema.collectionOf[table]);
  }
}
