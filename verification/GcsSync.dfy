/**
 * Synchronization of the approved objects of the production bucket to the
 * test bucket with generation preconditions
 * (scripts/sync_prod_to_test_gcs.py).
 */
module GcsSync {
  import opened Prelude

  datatype GcsObject = GcsObject(generation: nat, size: nat, crc32c: Option<Name>, md5Hash: Option<Name>)

  type Listing = map<Name, GcsObject>

  datatype Plan = Plan(copy: set<Name>, delete: set<Name>, kept: set<Name>)

  datatype Error = PreconditionFailed | CopyVerification | NameVerification | ContentVerification

  datatype Counts = Counts(copied: nat, deleted: nat, kept: nat)

  // ------------------------------------------------------------------ the plan

  predicate SameContent(source: GcsObject, target: GcsObject) {
    if source.size != target.size then false
    else if source.crc32c.Some? && target.crc32c.Some? then source.crc32c == target.crc32c
    else if source.md5Hash.Some? && target.md5Hash.Some? then source.md5Hash == target.md5Hash
    else false
  }

  /**
   * Equal contents have equal sizes and equal checksums: the CRC where both
   * have one, the MD5 where only that can be compared, and never nothing.
   */
  lemma SameContentMeans(a: GcsObject, b: GcsObject)
    ensures SameContent(a, b) ==> a.size == b.size && (a.crc32c.Some? && b.crc32c.Some? ==> a.crc32c == b.crc32c)
    ensures SameContent(a, b) ==> (a.crc32c.Some? && b.crc32c.Some?) || (a.md5Hash.Some? && a.md5Hash == b.md5Hash)
    ensures a.size == b.size && a.crc32c.Some? && a.crc32c == b.crc32c ==> SameContent(a, b)
    ensures a.size == b.size && (a.crc32c.None? || b.crc32c.None?) && a.md5Hash.Some? && a.md5Hash == b.md5Hash ==> SameContent(a, b)
    ensures SameContent(a, b) == SameContent(b, a)
  {
  }

  function BuildSyncPlan(source: Listing, target: Listing): Plan {
    var copy := set n | n in source && (n !in target || !SameContent(source[n], target[n]));
    Plan(copy, target.Keys - source.Keys, source.Keys - copy)
  }

  /** Copies and unchanged objects partition the source; deletions are the rest of the target. */
  lemma PlanPartitions(source: Listing, target: Listing)
    ensures var p := BuildSyncPlan(source, target);
            && p.copy + p.kept == source.Keys && p.copy !! p.kept
            && p.delete !! source.Keys && p.kept + p.delete <= target.Keys
            && target.Keys <= source.Keys + p.delete
            && (forall n :: n in p.kept <==> n in source && n in target && SameContent(source[n], target[n]))
  {
  }

  /** The target has the names of the source, with matching sizes and checksums. */
  predicate InSync(source: Listing, target: Listing) {
    target.Keys == source.Keys && forall n | n in source :: n in target && SameContent(source[n], target[n])
  }

  /** There is nothing left to do exactly when the two are in sync. */
  lemma NothingToDo(source: Listing, target: Listing)
    ensures InSync(source, target) <==> BuildSyncPlan(source, target).copy == {} && BuildSyncPlan(source, target).delete == {}
    ensures InSync(source, target) ==> BuildSyncPlan(source, target).kept == source.Keys
  {
    var p := BuildSyncPlan(source, target);
    if InSync(source, target) {
      assert forall n :: n in source ==> n !in p.copy;
    }
    if p.copy == {} && p.delete == {} {
      forall n | n in source ensures n in target && SameContent(source[n], target[n]) {
        assert n !in p.copy;
      }
      assert forall n :: n in target ==> n !in p.delete;
    }
  }

  predicate HasChecksum(o: GcsObject) {
    o.crc32c.Some? || o.md5Hash.Some?
  }

  /** An object is the same as itself exactly when it has a checksum. */
  lemma SameAsItself(o: GcsObject)
    ensures SameContent(o, o) <==> HasChecksum(o)
  {
  }

  /** An object without checksums is not even the same as itself, so the final verification cannot pass. */
  lemma ChecksumsAreNeeded(source: Listing, target: Listing)
    requires InSync(source, target)
    ensures forall n :: n in source ==> HasChecksum(source[n])
  {
  }

  // ------------------------------------------------------------------ the bucket

  /** What somebody else does to the test bucket in the meantime. */
  datatype Edit = Put(name: Name, size: nat, crc32c: Option<Name>, md5Hash: Option<Name>) | Remove(name: Name)

  /** Before a copy, and between the copy and its verification. */
  datatype Edits = Edits(before: seq<Edit>, between: seq<Edit>)

  const NO_EDITS := Edits([], [])

  /** One write of the synchronization, with the object it replaced or deleted. */
  datatype Write = Write(name: Name, before: Option<GcsObject>, after: Option<GcsObject>)

  function Lookup(objects: Listing, n: Name): Option<GcsObject> {
    if n in objects then Some(objects[n]) else None
  }

  function Generation(objects: Listing, n: Name): Option<nat> {
    if n in objects then Some(objects[n].generation) else None
  }

  /** Every object with an old generation is an object of the snapshot, unchanged. */
  ghost predicate KnownGenerations(objects: Listing, snapshot: Listing, start: nat, next: nat) {
    && start <= next
    && (forall n :: n in snapshot ==> snapshot[n].generation < start)
    && (forall n :: n in objects ==> objects[n].generation < next)
    && (forall n :: n in objects && objects[n].generation < start ==> n in snapshot && objects[n] == snapshot[n])
  }

  /** Each write concerns a planned name and replaced exactly the object that was planned for. */
  ghost predicate WroteAsPlanned(log: seq<Write>, plan: Plan, snapshot: Listing) {
    forall w :: w in log ==>
      && w.before == Lookup(snapshot, w.name)
      && ((w.name in plan.copy && w.after.Some?) || (w.name in plan.delete && w.after.None?))
  }

  predicate SameData(a: GcsObject, b: GcsObject) {
    a.size == b.size && a.crc32c == b.crc32c && a.md5Hash == b.md5Hash
  }

  /** `_verify_copy`: the size, and every checksum that the source has. */
  predicate Verified(source: GcsObject, copied: GcsObject) {
    && source.size == copied.size
    && (source.crc32c.Some? ==> copied.crc32c == source.crc32c)
    && (source.md5Hash.Some? ==> copied.md5Hash == source.md5Hash)
  }

  /** A verified copy of an object with a checksum is the same as it, and no checksum of the source is lost or different. */
  lemma VerifiedMeans(source: GcsObject, copied: GcsObject)
    ensures Verified(source, copied) && HasChecksum(source) ==> SameContent(source, copied)
    ensures Verified(source, copied) ==> copied.crc32c == source.crc32c || source.crc32c.None?
    ensures Verified(source, copied) ==> copied.md5Hash == source.md5Hash || source.md5Hash.None?
    ensures Verified(source, copied) ==> copied.size == source.size
    ensures SameData(source, copied) ==> Verified(source, copied)
  {
  }

  /** The bucket when only the synchronization writes to it. */
  ghost predicate QuietlyWritten(objects: Listing, snapshot: Listing, source: Listing, copied: set<Name>, deleted: set<Name>) {
    && (forall n :: n in copied && n in source ==> n in objects && SameData(source[n], objects[n]))
    && (forall n :: n in deleted ==> n !in objects)
    && (forall n :: n !in copied && n !in deleted ==> Lookup(objects, n) == Lookup(snapshot, n))
  }

  predicate Quiet<E(==)>(edits: seq<E>, none: E) {
    forall i | 0 <= i < |edits| :: edits[i] == none
  }

  class TestBucket {
    /** Which names belong to the synchronization; all other objects are out of its sight. */
    const selected: Name -> bool
    var objects: Listing
    var next: nat
    ghost var log: seq<Write>

    constructor (selected: Name -> bool)
      ensures this.selected == selected && objects == map[] && log == []
    {
      this.selected := selected;
      objects, next, log := map[], 1, [];
    }

    function Listed(): Listing
      reads this
    {
      map n | n in objects && selected(n) :: objects[n]
    }

    method BeEdited(edits: seq<Edit>, ghost snapshot: Listing, ghost start: nat)
      requires KnownGenerations(objects, snapshot, start, next)
      modifies this`objects, this`next
      ensures KnownGenerations(objects, snapshot, start, next)
      ensures edits == [] ==> objects == old(objects)
    {
      for i := 0 to |edits|
        invariant KnownGenerations(objects, snapshot, start, next)
        invariant edits == [] ==> objects == old(objects)
      {
        match edits[i]
        case Put(n, size, crc, md5) =>
          objects := objects[n := GcsObject(next, size, crc, md5)];
          next := next + 1;
        case Remove(n) =>
          objects := objects - {n};
      }
    }

    /** `copy_blob` with `if_generation_match`: zero stands for no object. */
    method CopyBlob(n: Name, source: GcsObject, expected: Option<nat>, sourceChanged: bool) returns (ok: bool)
      modifies this
      ensures ok <==> !sourceChanged && Generation(old(objects), n) == expected
      ensures !ok ==> objects == old(objects) && next == old(next) && log == old(log)
      ensures ok ==> next == old(next) + 1 && objects == old(objects)[n := source.(generation := old(next))]
      ensures ok ==> log == old(log) + [Write(n, Lookup(old(objects), n), Some(objects[n]))]
    {
      ok := !sourceChanged && Generation(objects, n) == expected;
      if ok {
        ghost var before := Lookup(objects, n);
        objects := objects[n := source.(generation := next)];
        next := next + 1;
        log := log + [Write(n, before, Some(objects[n]))];
      }
    }

    method DeleteBlob(n: Name, expected: nat) returns (ok: bool)
      modifies this`objects, this`log
      ensures ok <==> Generation(old(objects), n) == Some(expected)
      ensures !ok ==> objects == old(objects) && log == old(log)
      ensures ok ==> objects == old(objects) - {n} && log == old(log) + [Write(n, Lookup(old(objects), n), None)]
    {
      ok := Generation(objects, n) == Some(expected);
      if ok {
        log := log + [Write(n, Lookup(objects, n), None)];
        objects := objects - {n};
      }
    }

    /** One copy with its verification.  A generation that has changed stops the run and nothing is overwritten. */
    method CopyOne(n: Name, source: Listing, target: Listing, sourceChanged: set<Name>, edits: Edits,
                   ghost plan: Plan, ghost snapshot: Listing, ghost start: nat) returns (failure: Option<Error>)
      requires n in source && n in plan.copy && KnownGenerations(objects, snapshot, start, next)
      requires Lookup(target, n) == Lookup(snapshot, n) && WroteAsPlanned(log, plan, snapshot)
      modifies this
      ensures KnownGenerations(objects, snapshot, start, next) && WroteAsPlanned(log, plan, snapshot)
      ensures edits == NO_EDITS && n !in sourceChanged && Lookup(old(objects), n) == Lookup(snapshot, n) ==> failure.None?
      ensures failure.None? ==> n in objects && source[n].size == objects[n].size
      ensures failure.None? ==> (source[n].crc32c.Some? ==> objects[n].crc32c == source[n].crc32c) && (source[n].md5Hash.Some? ==> objects[n].md5Hash == source[n].md5Hash)
      ensures failure == Some(PreconditionFailed) <==> log == old(log)
      ensures failure.Some? && failure != Some(PreconditionFailed) ==> failure == Some(CopyVerification)
      ensures edits == NO_EDITS && failure.None? ==> n in objects && SameData(source[n], objects[n]) && objects - {n} == old(objects) - {n}
    {
      BeEdited(edits.before, snapshot, start);
      ghost var found := Lookup(objects, n);
      var ok := CopyBlob(n, source[n], Generation(target, n), n in sourceChanged);
      if !ok {
        return Some(PreconditionFailed);
      }
      assert found == Lookup(snapshot, n);
      BeEdited(edits.between, snapshot, start);
      return if n in objects && Verified(source[n], objects[n]) then None else Some(CopyVerification);
    }

    method DeleteOne(n: Name, target: Listing, edits: seq<Edit>, ghost plan: Plan, ghost snapshot: Listing, ghost start: nat) returns (ok: bool)
      requires n in target && n in plan.delete && KnownGenerations(objects, snapshot, start, next)
      requires Lookup(target, n) == Lookup(snapshot, n) && WroteAsPlanned(log, plan, snapshot)
      modifies this
      ensures KnownGenerations(objects, snapshot, start, next) && WroteAsPlanned(log, plan, snapshot)
      ensures edits == [] && Lookup(old(objects), n) == Lookup(snapshot, n) ==> ok
      ensures edits == [] && ok ==> n !in objects && objects - {n} == old(objects) - {n}
    {
      BeEdited(edits, snapshot, start);
      ghost var found := Lookup(objects, n);
      ok := DeleteBlob(n, target[n].generation);
      if ok {
        assert found == Lookup(snapshot, n);
      }
    }

    method CopyAll(source: Listing, target: Listing, plan: Plan, sourceChanged: set<Name>, edits: seq<Edits>, ghost snapshot: Listing, ghost start: nat)
      returns (failure: Option<Error>)
      requires Planned(source, target, plan, snapshot) && KnownGenerations(objects, snapshot, start, next)
      requires objects == snapshot && WroteAsPlanned(log, plan, snapshot)
      modifies this
      ensures KnownGenerations(objects, snapshot, start, next) && WroteAsPlanned(log, plan, snapshot)
      ensures failure.Some? ==> failure.value == PreconditionFailed || failure.value == CopyVerification
      ensures Quiet(edits, NO_EDITS) && sourceChanged == {} ==> failure.None? && QuietlyWritten(objects, snapshot, source, plan.copy, {})
    {
      var todo := plan.copy;
      var step := 0;
      while todo != {}
        invariant todo <= plan.copy
        invariant KnownGenerations(objects, snapshot, start, next) && WroteAsPlanned(log, plan, snapshot)
        invariant Quiet(edits, NO_EDITS) && sourceChanged == {} ==> QuietlyWritten(objects, snapshot, source, plan.copy - todo, {})
        decreases todo
      {
        var n :| n in todo;
        ghost var before := objects;
        failure := CopyOne(n, source, target, sourceChanged, if step < |edits| then edits[step] else NO_EDITS, plan, snapshot, start);
        if failure.Some? {
          return;
        }
        if Quiet(edits, NO_EDITS) && sourceChanged == {} {
          CopiedQuietly(before, objects, snapshot, source, plan.copy - todo, n);
          assert plan.copy - (todo - {n}) == plan.copy - todo + {n};
        }
        todo := todo - {n};
        step := step + 1;
      }
      failure := None;
    }

    method DeleteAll(source: Listing, target: Listing, plan: Plan, edits: seq<seq<Edit>>, ghost snapshot: Listing, ghost start: nat, ghost quiet: bool)
      returns (ok: bool)
      requires Planned(source, target, plan, snapshot) && KnownGenerations(objects, snapshot, start, next)
      requires WroteAsPlanned(log, plan, snapshot)
      requires quiet ==> Quiet(edits, []) && QuietlyWritten(objects, snapshot, source, plan.copy, {})
      modifies this
      ensures KnownGenerations(objects, snapshot, start, next) && WroteAsPlanned(log, plan, snapshot)
      ensures quiet ==> ok && QuietlyWritten(objects, snapshot, source, plan.copy, plan.delete)
    {
      var todo := plan.delete;
      var step := 0;
      while todo != {}
        invariant todo <= plan.delete
        invariant KnownGenerations(objects, snapshot, start, next) && WroteAsPlanned(log, plan, snapshot)
        invariant quiet ==> QuietlyWritten(objects, snapshot, source, plan.copy, plan.delete - todo)
        decreases todo
      {
        var n :| n in todo;
        ghost var before := objects;
        ok := DeleteOne(n, target, if step < |edits| then edits[step] else [], plan, snapshot, start);
        if !ok {
          return;
        }
        if quiet {
          DeletedQuietly(before, objects, snapshot, source, plan.copy, plan.delete - todo, n);
          assert plan.delete - (todo - {n}) == plan.delete - todo + {n};
        }
        todo := todo - {n};
        step := step + 1;
      }
      ok := true;
    }

    /**
     * The run with `--execute`.  `copyEdits`, `deleteEdits` and `lastEdits`
     * are what others do to the test bucket before each operation.  Success
     * means the selected objects are in sync; every write replaced exactly
     * the object the plan was made for; and if nobody interferes the run
     * succeeds exactly when every source object has a checksum.
     */
    method Synchronize(source: Listing, sourceChanged: set<Name>, copyEdits: seq<Edits>, deleteEdits: seq<seq<Edit>>, lastEdits: seq<Edit>)
      returns (r: Result<Counts, Error>, ghost plan: Plan)
      requires (forall n :: n in source ==> selected(n)) && log == [] && forall n :: n in objects ==> objects[n].generation < next
      modifies this
      ensures plan == BuildSyncPlan(source, old(Listed()))
      ensures WroteAsPlanned(log, plan, old(objects))
      ensures r.Ok? ==> InSync(source, Listed()) && r.value == Counts(|plan.copy|, |plan.delete|, |plan.kept|)
      ensures r == Err(NameVerification) ==> Listed().Keys != source.Keys
      ensures r == Err(ContentVerification) ==> Listed().Keys == source.Keys && exists n :: n in source && !SameContent(source[n], Listed()[n])
      ensures Quiet(copyEdits, NO_EDITS) && Quiet(deleteEdits, []) && lastEdits == [] && sourceChanged == {} ==>
                (r.Ok? <==> forall n :: n in source ==> HasChecksum(source[n]))
      ensures Quiet(copyEdits, NO_EDITS) && Quiet(deleteEdits, []) && lastEdits == [] && sourceChanged == {} ==>
                QuietlyWritten(objects, old(objects), source, plan.copy, plan.delete)
    {
      ghost var snapshot, start := objects, next;
      var target := Listed();
      var todo := BuildSyncPlan(source, target);
      plan := todo;
      ghost var quiet := Quiet(copyEdits, NO_EDITS) && Quiet(deleteEdits, []) && lastEdits == [] && sourceChanged == {};
      var failure := CopyAll(source, target, todo, sourceChanged, copyEdits, snapshot, start);
      if failure.Some? {
        return Err(failure.value), plan;
      }
      var ok := DeleteAll(source, target, todo, deleteEdits, snapshot, start, quiet);
      if !ok {
        return Err(PreconditionFailed), plan;
      }
      BeEdited(lastEdits, snapshot, start);
      var final := Listed();
      if quiet {
        QuietResult(source, snapshot, objects, target, final, plan, selected);
      }
      if InSync(source, final) {
        ChecksumsAreNeeded(source, final);
        return Ok(Counts(|todo.copy|, |todo.delete|, |todo.kept|)), plan;
      }
      return Err(if final.Keys != source.Keys then NameVerification else ContentVerification), plan;
    }
  }

  ghost predicate Planned(source: Listing, target: Listing, plan: Plan, snapshot: Listing) {
    && plan == BuildSyncPlan(source, target)
    && forall n :: n in source || n in target ==> Lookup(target, n) == Lookup(snapshot, n)
  }

  lemma CopiedQuietly(before: Listing, after: Listing, snapshot: Listing, source: Listing, copied: set<Name>, n: Name)
    requires QuietlyWritten(before, snapshot, source, copied, {}) && n in source
    requires n in after && SameData(source[n], after[n]) && after - {n} == before - {n}
    ensures QuietlyWritten(after, snapshot, source, copied + {n}, {})
  {
    forall k | k != n ensures Lookup(after, k) == Lookup(before, k) && (k in after <==> k in before) && (k in after ==> after[k] == before[k]) {
      assert k in after - {n} <==> k in before - {n};
      if k in after { assert (after - {n})[k] == after[k] && (before - {n})[k] == before[k]; }
    }
  }

  lemma DeletedQuietly(before: Listing, after: Listing, snapshot: Listing, source: Listing, copied: set<Name>, deleted: set<Name>, n: Name)
    requires QuietlyWritten(before, snapshot, source, copied, deleted) && n !in copied
    requires n !in after && after - {n} == before - {n}
    ensures QuietlyWritten(after, snapshot, source, copied, deleted + {n})
  {
    forall k | k != n ensures Lookup(after, k) == Lookup(before, k) && (k in after <==> k in before) && (k in after ==> after[k] == before[k]) {
      assert k in after - {n} <==> k in before - {n};
      if k in after { assert (after - {n})[k] == after[k] && (before - {n})[k] == before[k]; }
    }
  }

  /** Left alone, the planned writes bring the bucket in sync, provided there are checksums to compare. */
  lemma QuietResult(source: Listing, snapshot: Listing, objects: Listing, target: Listing, final: Listing, plan: Plan, selected: Name -> bool)
    requires forall n :: n in source ==> selected(n)
    requires target == map n | n in snapshot && selected(n) :: snapshot[n]
    requires final == map n | n in objects && selected(n) :: objects[n]
    requires plan == BuildSyncPlan(source, target) && QuietlyWritten(objects, snapshot, source, plan.copy, plan.delete)
    ensures (forall n :: n in source ==> HasChecksum(source[n])) ==> InSync(source, final)
  {
    if forall n :: n in source ==> HasChecksum(source[n]) {
      forall n | n in source ensures n in final && SameContent(source[n], final[n]) {
        if n in plan.copy {
          assert SameData(source[n], objects[n]);
        } else {
          assert n !in plan.delete && Lookup(objects, n) == Lookup(snapshot, n);
        }
      }
      forall n | n in final ensures n in source {
        assert n in plan.copy || n in plan.delete || Lookup(objects, n) == Lookup(snapshot, n);
      }
    }
  }
}
