/**
 * portal_file_asset_service.py over the operation rows, the asset rows and the
 * files in storage.  Each method is one committed or rolled back transaction,
 * or one call to storage, and a step of PortalAssets.
 */
module PortalFiles {
  import opened Prelude
  import opened Leases
  import opened PortalAssets

  class FileTransactions {
    const operations: OperationTable
    const files: AssetTable
    var objects: set<nat>
    var clock: int
    ghost var issued: set<nat>
    ghost var uploaded: set<nat>
    ghost var reclaimed: set<nat>

    ghost function Snapshot(): FileState
      reads this, operations, files
    {
      FileState(operations.rows, files.rows, clock, issued, objects, uploaded, reclaimed)
    }

    constructor (operations: OperationTable, files: AssetTable, clock: int)
      requires operations.rows == map[] && files.rows == map[]
      ensures this.operations == operations && this.files == files
      ensures Snapshot() == NO_FILES.(clock := clock)
    {
      this.operations, this.files, this.clock := operations, files, clock;
      this.objects, this.issued, this.uploaded, this.reclaimed := {}, {}, {}, {};
    }

    /** The first transaction: `reserve` with two ids never used before. */
    method ClaimOperation(key: Name, request: Request, now: int, first: nat, second: nat) returns (r: Reservation)
      requires operations.form == Portal && clock <= now && first != second && first !in issued && second !in issued
      requires AttemptsAreOwned(Snapshot())
      modifies this, operations
      ensures PortalAssets.Next(old(Snapshot()), Claim(key, request, now, first, second), Snapshot())
      ensures r == Reserve(Portal, old(operations.rows), key, request, now, now, first, second).1
    {
      r := operations.ReserveOperation(key, request, now, now, first, second);
      clock, issued := now, issued + {first, second};
    }

    /** A refusal of the validation is stored as the result. */
    method RejectOperation(key: Name, attempt: nat, now: int, status: int) returns (ok: bool)
      requires operations.form == Portal && clock <= now && 400 <= status
      modifies this, operations
      ensures PortalAssets.Next(old(Snapshot()), Reject(key, attempt, now, status), Snapshot())
      ensures ok <==> Passes(old(operations.rows), key, attempt, now)
    {
      ok := operations.FinishOperation(key, attempt, now, status);
      clock := now;
    }

    /** `require_attempt`, then `stage_asset`. */
    method StageAsset(key: Name, attempt: nat, now: int, id: nat, slot: Slot) returns (ok: bool)
      requires clock <= now && id !in files.rows
      modifies this, files
      ensures PortalAssets.Next(old(Snapshot()), StageFile(key, attempt, now, id, slot), Snapshot())
      ensures ok <==> Passes(operations.rows, key, attempt, now)
    {
      ok := Passes(operations.rows, key, attempt, now);
      if ok {
        files.Stage(id, slot, key, attempt, now);
      }
      clock := now;
    }

    /** The last transaction: the new file replaces the delivered one and the result is stored, or nothing happens. */
    method ApplyOperation(key: Name, attempt: nat, now: int, file: Option<nat>, kind: Name, owner: Option<int>, status: int) returns (ok: bool)
      requires operations.form == Portal && clock <= now && status < 400 && OneDelivery(files.rows)
      requires file.Some? ==> file.value in uploaded && (file.value in files.rows ==> files.rows[file.value].slot.kind == kind)
      modifies this, operations, files
      ensures PortalAssets.Next(old(Snapshot()), Apply(key, attempt, now, file, kind, owner, status), Snapshot())
      ensures ok <==> Passes(old(operations.rows), key, attempt, now) && (file.Some? ==> CanCommit(old(files.rows), file.value, attempt, kind, owner))
    {
      clock := now;
      if !Passes(operations.rows, key, attempt, now) {
        return false;
      }
      var savepoint := files.rows;
      ok := true;
      match file {
        case Some(id) => ok := files.CommitReference(id, attempt, owner, kind, now);
        case None => files.RetireReference(owner, kind, now);
      }
      if !ok {
        files.Restore(savepoint);
        return;
      }
      var stored := operations.FinishOperation(key, attempt, now, status);
      assert stored;
    }

    method GiveBackOperation(key: Name, attempt: nat, now: int) returns (ok: bool)
      requires operations.form == Portal && clock <= now
      modifies this, operations
      ensures PortalAssets.Next(old(Snapshot()), GiveBack(key, attempt, now), Snapshot())
      ensures ok <==> MayRelease(Portal, old(operations.rows), key, attempt, now)
    {
      ok := operations.ReleaseOperation(key, attempt, now);
      clock := now;
    }

    method AbandonAsset(id: nat, attempt: nat, now: int)
      requires clock <= now
      modifies this, files
      ensures PortalAssets.Next(old(Snapshot()), AbandonFile(id, attempt, now), Snapshot())
    {
      files.Abandon(id, attempt, now);
      clock := now;
    }

    /** A delivery protects what it is about to read; false is the answer that there is no such file. */
    method ProtectDelivery(id: nat, now: int) returns (found: bool)
      requires clock <= now
      modifies this, files
      ensures PortalAssets.Next(old(Snapshot()), ReadFile(id, now), Snapshot())
      ensures found <==> id in old(files.rows) && Readable(old(files.rows)[id])
    {
      found := id in files.rows && (files.rows[id].phase == Active || files.rows[id].phase == Retired);
      files.ProtectRead(id, now);
      clock := now;
    }

    /** `upload` only creates; without an answer the attempt never applies the file. */
    method UploadObject(id: nat, answered: bool)
      requires id in files.rows && id !in uploaded
      modifies this
      ensures PortalAssets.Next(old(Snapshot()), Upload(id, answered), Snapshot())
    {
      objects := objects + {id};
      uploaded := if answered then uploaded + {id} else uploaded;
    }

    /** Clean-up looks at one candidate again, under the lock of its row. */
    method CleanUpAsset(id: nat, now: int) returns (decision: Decision)
      requires clock <= now
      modifies this, files
      ensures PortalAssets.Next(old(Snapshot()), CleanUpFile(id, now), Snapshot())
      ensures decision == DecisionOn(old(Snapshot()), id, now)
      ensures decision == Reclaim ==> id in reclaimed
    {
      var op := if id in files.rows then OperationOf(operations.rows, files.rows[id].key) else None;
      decision := files.DecideCleanUp(id, op, now);
      clock := now;
      reclaimed := if decision == Reclaim then reclaimed + {id} else reclaimed;
    }

    /** `_delete_object`, after the mark was committed; a missing object is success. */
    method DeleteStored(id: nat)
      requires id in reclaimed
      modifies this
      ensures PortalAssets.Next(old(Snapshot()), DeleteObject(id), Snapshot())
    {
      objects := objects - {id};
    }

    method RecordResult(id: nat, now: int, failed: bool)
      requires clock <= now
      modifies this, files
      ensures PortalAssets.Next(old(Snapshot()), RecordFile(id, now, failed), Snapshot())
    {
      files.RecordDeletion(id, now, failed);
      clock := now;
    }

    /** One round of the loop: decide, delete the object, record it. */
    method CleanUpOne(id: nat, now: int, failed: bool, later: int) returns (decision: Decision)
      requires clock <= now <= later
      modifies this, files
      ensures decision == DecisionOn(old(Snapshot()), id, now)
      ensures objects == if decision == Reclaim && !failed then old(objects) - {id} else old(objects)
      ensures decision == Reclaim ==> id in files.rows && files.rows[id].phase == if failed then DeletePending else Deleted
    {
      decision := CleanUpAsset(id, now);
      if decision == Reclaim {
        if !failed {
          DeleteStored(id);
        }
        RecordResult(id, later, failed);
      }
    }
  }
}
