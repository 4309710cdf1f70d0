# Verified model of the portal's protocols

The portal is a FastAPI and PostgreSQL application.  Its repository layer and
its operations scripts contain small protocols written as SQL steps: locks,
versions, leases, epochs, clocks and synchronization passes.  This project
models them in Dafny and proves what they keep over every run.

Run `dafny verify dfyconfig.toml` in this directory.

## How it is built

Each protocol has a module of values (states, steps and what a step does) with
the properties of whole runs, and, where the program updates state in place, a
class whose methods are the program's statements.  The contracts of the methods
equate their effect with the step of the value module, so what is proved of
runs holds of the methods.  What a step does is pinned in turn by lemmas that
state its effect and its refusals in terms of the request: what is stored is
what was sent, and nothing else changed.  One database transaction is one
atomic step.  Inductions are written out; `{:induction false}` switches the
automatic ones off.

| files | protocol |
|---|---|
| DependencyOrder, SyncTables, DbSync | production-to-test database synchronization |
| CollectionClocks, ClockTriggers, ClockReader | collection clocks and their reader |
| RowStore, RowStores | row versions, conflict checks and the two row stores |
| LockOrder | lock order and deadlock freedom |
| Renumber | renumbering under a unique index |
| ReadScope, ReadScopeRuntime | bounded read scopes over the connection pool |
| Leases | leases on idempotent operations |
| PortalAssets, PortalFiles | files of operations: upload, delivery, replacement and clean-up |
| Metronome, MetronomeStore, MetronomeHistory | metronome history: consent, epochs, upload, deletion |
| Tuner, TunerStore, TunerHistory | tuner history: multi-part upload, limits, deletion |
| Cursor, Calendar, PracticePages | keyset paging, its cursor and the order of instants |
| EntityTags | If-None-Match (sections 8.8.3, 8.8.3.2 and 13.1.2 of RFC 9110) |
| CopyText, Integers, Text | PostgreSQL COPY text and its decoder |
| GcsSync | synchronization of bucket objects |
| Prelude, Orders | shared datatypes and the greatest element of a finite set |

## Assumptions

- The database clock does not go backwards, except in `RowStore`, where every
  reading is arbitrary.
- Generated ids (`uuid4`, `gen_random_uuid`, object generations) are new, and
  hashes (content hashes, owner tokens, lock keys) are injective.
- UNIQUE indexes, foreign keys, CHECK constraints and ON DELETE CASCADE behave
  as declared; a failing statement rolls its transaction back.
- The source database of a synchronization satisfies its own keys, and nothing
  refers to `performance_pieces`.

## Where the code does not do what one would expect

Each point is proved with the exact condition under which the code does meet
the expectation; the members that state it are named.

- `dependency_order` raises for a cycle and just as well for a table named
  twice.  It skips self references, so for those the order of the fetched rows
  decides whether the upsert passes (`RowOrderDecidesSelfReferences`,
  `UpsertRows`).
- `setval` refuses values below 1, so a column whose largest number is 0 or
  less stops a synchronization (`ResetSequences`, `ZeroStopsTheReset`); sequence positions are not
  rolled back.
- Collection clocks say nothing between a maintenance write and the next
  finalization (`MaintenanceWindowIsVisible`, `WindowMayLoseAClock`); outside
  that window they are sound (`ClocksAreSound`), and over a whole run exactly
  when no such write changes what an organization reads (`SoundExactly`,
  `ClockIsLostExactly`).
- The sheet form of `finish` does not look at the lease again
  (`SheetFinishesAfterItsLease`, `RejectedAttemptFinishes`).
- Ids are `max(id) + 1` and are reused, so a version token can commit a second
  time after its row was deleted and inserted again, exactly as long as the
  inserting clock has not passed the token (`TokensOutliveExactly`,
  `OneCommitPerToken`).
- The two row stores check in a different order and so name different errors
  in one case (`StoresAnswerDifferently`).
- Two `lock` calls in one transaction are not one sorted call and can deadlock
  (`TwoCallsCanDeadlock`); they keep the order exactly when every new key of
  the second call is above all keys of the first (`SecondCallIsOrdered`), and
  the order is exactly what excludes a deadlock with transactions that keep it
  (`OrderIsExact`, `DeadlocksExactly`).
- Renumbering to a free place can meet the temporary range when the place is
  far above the old maximum (`TemporaryRangeCanCollide`,
  `RenumberingSucceedsExactly`).
- A page limit of 0 yields a cursor that skips a session, so following the
  cursors shows nothing (`FollowCursors`).
- An object without checksums is never the same as its copy, so the final
  verification of a bucket synchronization fails for it (`SameAsItself`,
  `Synchronize`).

## Model

| member | source | states |
|---|---|---|
| `DependencyOrder.OrderTables` | scripts/sync_prod_to_test_db.py:114-143 | returns a list exactly when the tables are distinct and the foreign keys among them have no cycle; the list is a permutation of the tables with every non-self parent before its child; otherwise it names exactly the tables on or below a cycle |
| `DependencyOrder.BuildGraph` | scripts/sync_prod_to_test_db.py:118-128 | the adjacency sets are exactly the non-self edges inside the set, and each count is the number of distinct parents |
| `DependencyOrder.ReleaseChildren` | scripts/sync_prod_to_test_db.py:132-138 | emitting a table lowers the count of each of its children by one and queues exactly those that reach zero |
| `DependencyOrder.EmptyQueue` | scripts/sync_prod_to_test_db.py:139-143 | with an empty queue the result holds every table exactly when there is neither a duplicate nor a cycle |
| `DependencyOrder.OrderedTableIsNotBelowCycle` | scripts/sync_prod_to_test_db.py:114-143 | no table of a parents-first order lies below a cycle |
| `DependencyOrder.StuckTableIsBelowCycle` | scripts/sync_prod_to_test_db.py:139-142 | tables that each keep a parent among themselves all lie below a cycle |
| `SyncTables.UpsertIsOverride` | scripts/sync_prod_to_test_db.py:281-315 | writing rows one after another equals overriding the table with the table the rows form |
| `SyncTables.UpsertsStayIntact` | scripts/sync_prod_to_test_db.py:318-343 | after every table step of the parent-first pass no foreign key is violated and every written table holds its source rows |
| `SyncTables.DeletesStayIntact` | scripts/sync_prod_to_test_db.py:346-374 | after every table step of the child-first pass no foreign key is violated and every purged table equals the source |
| `SyncTables.PassesCopyTheSource` | scripts/sync_prod_to_test_db.py:485-494 | both passes leave every synchronized table equal to the source and every other table as it was |
| `SyncTables.PreparedKeeps` | scripts/sync_prod_to_test_db.py:318-341 | before the pieces are written exactly those whose performance comes again are removed, and nothing of any other table |
| `SyncTables.IntactMeans` | scripts/sync_prod_to_test_db.py:395-420 | a database is intact exactly when every row has, for every reference, a NULL column or a stored parent row with equal values |
| `DbSync.TargetDb.InsertOrUpdate` | scripts/sync_prod_to_test_db.py:296-315 | one upsert succeeds exactly when the row finds its parents in the table it has just been written to, and changes one key |
| `DbSync.TargetDb.DeleteExcept` | scripts/sync_prod_to_test_db.py:346-374 | the delete succeeds exactly when no remaining row loses its parent, and keeps exactly the named keys |
| `DbSync.TargetDb.UpsertRows` | scripts/sync_prod_to_test_db.py:281-315 | the statements of one table succeed exactly when each self reference finds its parent stored or no later in the fetched order |
| `DbSync.TargetDb.PrepareAndUpsertRows` | scripts/sync_prod_to_test_db.py:318-343 | pieces of synchronized performances go first, then all source rows are written; succeeds exactly when the table is writable |
| `DbSync.TargetDb.DeleteRowsAbsentFromSource` | scripts/sync_prod_to_test_db.py:346-374 | keeps exactly the rows whose key the source has |
| `DbSync.TargetDb.UpsertPass` | scripts/sync_prod_to_test_db.py:485-490 | refines the parent-first pass; succeeds exactly when every table is writable as it stood before the run; every intermediate state is intact |
| `DbSync.TargetDb.DeletePass` | scripts/sync_prod_to_test_db.py:491-494 | refines the child-first pass and never meets a row that still refers to a deleted one |
| `DbSync.TargetDb.MaxColumn` | scripts/sync_prod_to_test_db.py:377-387 | the largest number in a column, NULLs ignored |
| `DbSync.TargetDb.ResetSequences` | scripts/sync_prod_to_test_db.py:377-387 | succeeds exactly when no column of numbers is without one of at least 1; afterwards the next id of each sequence is the largest stored number plus one, or 1 without any, and other sequences are untouched |
| `DbSync.TargetDb.ResetSequence` | scripts/sync_prod_to_test_db.py:379-387 | one sequence: succeeds exactly when the column has no numbers or one of at least 1, and then goes on right after it |
| `DbSync.TargetDb.ResetPass` | scripts/sync_prod_to_test_db.py:495-496 | afterwards every sequence of every table goes on right after its stored ids, and none undoes another |
| `DbSync.TargetDb.Validate` | scripts/sync_prod_to_test_db.py:498-513 | passes exactly when the row counts agree and every foreign key holds |
| `DbSync.TargetDb.Synchronize` | scripts/sync_prod_to_test_db.py:423-532 | commits exactly on acceptable inputs; then every table holds exactly its source rows, each sequence goes on at the largest id plus one, the answer lists the tables parents first, and every recorded intermediate state is intact; otherwise the tables are rolled back, and the error is the cycle with exactly the tables on or below one, or that of a pass |
| `DbSync.RowCount` | scripts/sync_prod_to_test_db.py:498-505 | rows with distinct keys form a table of as many rows |
| `DbSync.UpsertedRows` | scripts/sync_prod_to_test_db.py:281-315 | with one row per key, the table formed by the rows holds exactly these rows |
| `DbSync.RemovingPiecesIsSafe` | scripts/sync_prod_to_test_db.py:326-341 | deleting pieces breaks no foreign key because nothing refers to them |
| `DbSync.RowOrderDecidesSelfReferences` | scripts/sync_prod_to_test_db.py:114-128 | self references are left out of the order, so the same two rows are refused child first and accepted parent first |
| `DbSync.ZeroStopsTheReset` | scripts/sync_prod_to_test_db.py:377-387 | a column that holds only 0 stops the reset |
| `DbSync.TargetDb.PreparePieces` | scripts/sync_prod_to_test_db.py:326-341 | removes exactly the pieces of the performances that are written again, and cannot fail |
| `DbSync.TargetDb.RunPasses` | scripts/sync_prod_to_test_db.py:485-496 | the three passes succeed exactly when every table is writable and every sequence fits, and then copy the source |
| `CollectionClocks.StatementClock` | scripts/generate_collection_clock_migration.py:102-128 | after an accepted statement the clock that an organization reads has advanced by exactly one if a row of it was removed or added, and is the same otherwise; clocks of other collections stay |
| `CollectionClocks.StatementContent` | scripts/generate_collection_clock_migration.py:102-128 | an organization outside the transition tables reads the same content afterwards |
| `CollectionClocks.StatementAdvances` | scripts/generate_collection_clock_migration.py:102-128 | a statement leaves what an organization reads as it was, or advances its clock, and keeps the generation |
| `CollectionClocks.StatementKeepsFamily` | scripts/generate_collection_clock_migration.py:47-59 | the local checks of the trigger keep every child in the organization of its parent |
| `CollectionClocks.AcceptedExactly` | scripts/generate_collection_clock_migration.py:36-59 | the local checks of triggers and keys accept a statement if and only if afterwards every child has its parent in its own organization |
| `CollectionClocks.StatementWrites` | scripts/generate_collection_clock_migration.py:102-128 | an accepted statement or maintenance write removes exactly the named rows, adds exactly the new ones and touches no other table |
| `CollectionClocks.StatementKeepsClocked` | scripts/generate_collection_clock_migration.py:102-128 | a statement leaves no row without a positive clock |
| `CollectionClocks.FinalizeClocksEverything` | src/backend/services/collection_clock_maintenance.py:166-181 | the finalizer gives every stored row a clock |
| `CollectionClocks.FinalizeEffect` | src/backend/services/collection_clock_maintenance.py:157-181 | the finalizer keeps the rows, advances every clock by one, starts exactly the missing clocks of organizations in use at 2, and stores the new generation |
| `CollectionClocks.GenerationsDoNotReturn` | scripts/generate_collection_clock_migration.py:131-140 | when every renewal brings a new generation, one that was replaced never comes back |
| `CollectionClocks.VersionsGrowOverRun` | scripts/generate_collection_clock_migration.py:102-140 | no clock ever decreases along a run |
| `CollectionClocks.ClocksAreSound` | scripts/generate_collection_clock_migration.py:102-149 | in every run, if the later of two states is outside a maintenance window, equal generation and equal version (missing read as 0) mean equal rows in all tables of the collection |
| `CollectionClocks.SoundExactly` | scripts/generate_collection_clock_migration.py:102-149 | for every run: equal generation and version always mean equal content if and only if no write in a maintenance window changes what an organization reads in a collection |
| `CollectionClocks.MaintenanceWindowIsVisible` | scripts/generate_collection_clock_migration.py:105-107 | inside the window new rows show under the old generation and version |
| `CollectionClocks.RunsStayClocked` | scripts/generate_collection_clock_migration.py:36-92 | outside maintenance windows every stored row has its clock and its parent; stored clocks are positive in every state |
| `CollectionClocks.TruncateKeeps` | scripts/generate_collection_clock_migration.py:131-140 | an allowed TRUNCATE keeps both |
| `CollectionClocks.TruncateEffect` | scripts/generate_collection_clock_migration.py:131-140 | an allowed TRUNCATE empties exactly the listed tables, advances every clock once per table and stores the new generation |
| `ClockTriggers.ClockedDb.UpsertClocks` | scripts/generate_collection_clock_migration.py:109-126 | the upsert loop over the touched organizations bumps each of them once |
| `ClockTriggers.ClockedDb.Execute` | scripts/generate_collection_clock_migration.py:102-128 | accepted exactly when the checks of the trigger and the constraints allow it, and then exactly the named rows are gone and the new ones are there, and the clocks move as in the machine; otherwise nothing changes |
| `ClockTriggers.ClockedDb.TruncateTables` | scripts/generate_collection_clock_migration.py:131-140 | TRUNCATE is accepted exactly when it is allowed, and then clears the listed tables, bumps all clocks once per table and leaves the new generation |
| `ClockTriggers.ClockedDb.FinalizeGeneration` | src/backend/services/collection_clock_maintenance.py:157-181 | accepted exactly when every child has its parent in its own organization; then the new generation is stored, the rows are unchanged and it is the finalizing step of the machine |
| `ClockTriggers.ClockedDb.Bump` | scripts/generate_collection_clock_migration.py:109-126 | bumps the clocks of the touched organizations for the collection of the table |
| `ClockTriggers.ClockedDb.InitializeTenants` | src/backend/services/collection_clock_maintenance.py:157-164 | every organization in use gets the clocks it lacks |
| `ClockReader.VersionReader.Observe` | src/backend/repositories/collection_clock_repository.py:58-64 | refuses a version below the last one seen for the same key and otherwise remembers it as the newest |
| `ClockReader.VersionReader.Evict` | src/backend/repositories/collection_clock_repository.py:65-66 | keeps exactly the most recently confirmed keys, as many as the limit allows, and alters no remembered value |
| `ClockReader.VersionReader.Load` | src/backend/repositories/collection_clock_repository.py:15-68 | each of the three refusals happens exactly under its condition, and the fourth only when a remembered version is above the stored one; an answer gives for exactly the requested collections the number stored for that tenant, or 0 without one, and remembers it |
| `ClockReader.VersionReader.LoadFromRun` | src/backend/repositories/collection_clock_repository.py:15-68 | on snapshots of a run outside maintenance windows a request for known collections is always answered with the stored numbers |
| `ClockReader.AnomaliesMean` | src/backend/repositories/collection_clock_repository.py:16-46 | what the refusals are about: a name that no table has, a stored zero of the tenant, or rows of the tenant in a requested collection beside a missing clock |
| `ClockReader.VersionReader.ObserveAll` | src/backend/repositories/collection_clock_repository.py:57-64 | the comparison of all requested versions passes exactly when none is below the one remembered for its generation, tenant, collection and backend |
| `ClockReader.RecentIsKept` | src/backend/repositories/collection_clock_repository.py:65-66 | what was confirmed last is not evicted |
| `ClockReader.NothingIsLost` | src/backend/repositories/collection_clock_repository.py:26-46 | outside maintenance windows no clock is missing beside its data and none is zero |
| `ClockReader.ClockIsLostExactly` | src/backend/repositories/collection_clock_repository.py:26-46 | after any maintenance write a request meets rows without their clock if and only if the write brought rows of a requested collection to an organization without that clock |
| `ClockReader.WindowMayLoseAClock` | src/backend/repositories/collection_clock_repository.py:33-46 | inside a window the first row of an organization can be met without its clock |
| `Leases.OperationTable.ReserveOperation` | src/backend/repositories/portal_file_repository.py:160-203 | insert, conflict check and takeover as one transaction equal the reservation function of the form |
| `Leases.OperationTable.FinishOperation` | src/backend/repositories/portal_file_repository.py:217-228 | stores the given result exactly when the form lets this attempt finish, and changes nothing otherwise |
| `Leases.OperationTable.ReleaseOperation` | src/backend/repositories/promotion_repository.py:192-200 | ends the lease exactly when the form lets this attempt release |
| `Leases.AttemptsWereIssued` | src/backend/repositories/portal_file_repository.py:160-203 | stored attempt ids were issued by earlier reservations |
| `Leases.RejectedForever` | src/backend/repositories/portal_file_repository.py:206-214 | an attempt that `require_attempt` rejects once is rejected in every later state and at every later time, in all three forms |
| `Leases.OneOwnerAtATime` | src/backend/repositories/portal_file_repository.py:206-214 | two attempts never pass at one time; once another one passes the first is gone for good |
| `Leases.TerminalIsFinal` | src/backend/repositories/portal_file_repository.py:217-228 | a terminal operation never changes again |
| `Leases.FinishedOnce` | src/backend/repositories/portal_file_repository.py:217-228 | at most one terminal write per key in any interleaving |
| `Leases.TakeoverAfterLease` | src/backend/repositories/portal_file_repository.py:192-203 | a claim replaces an attempt only when that attempt no longer passes |
| `Leases.RejectedAttemptFinishes` | src/backend/repositories/sheet_repository.py:246-260 | a rejected attempt can finish exactly in the sheet form, when only its lease ran out |
| `Leases.RejectedNeverFinishes` | src/backend/repositories/promotion_repository.py:168-189 | in the two forms that look at the lease again a rejected attempt never writes a result |
| `Leases.SheetFinishesAfterItsLease` | src/backend/repositories/sheet_repository.py:253-260 | the sheet form lets an attempt finish after its lease ended |
| `Leases.ReleasedKeyResumes` | src/backend/repositories/sheet_repository.py:263-268 | a released key can be claimed at once by the same request, and the releasing attempt is fenced |
| `Leases.ReplayReadsTheResult` | src/backend/repositories/sheet_repository.py:215-239 | a repeated request after the end changes nothing and reads the stored result |
| `Leases.FinishedResultIsReplayed` | src/backend/repositories/portal_file_repository.py:176-228 | whoever claimed a key and whichever attempt then finished it: in every later state repeating the claimed request answers with exactly the status that was finished with, as a success exactly below 400, and changes nothing |
| `Leases.OtherRequestConflicts` | src/backend/repositories/portal_file_repository.py:188-189 | from the first use of a key on, a request with another operation, owner or digest conflicts for good and changes nothing |
| `Leases.ReservationAnswers` | src/backend/repositories/portal_file_repository.py:176-203 | each answer exactly under its condition, in all three forms, and only a claim changes anything |
| `Leases.ClaimPasses` | src/backend/repositories/portal_file_repository.py:192-214 | a claim makes its new attempt pass for exactly one lease from the reading of the clock, keeps the first request and touches no other key |
| `Leases.OwnerMay` | src/backend/repositories/portal_file_repository.py:206-240 | what the owning attempt may do before and after the end of its lease, form by form |
| `Leases.StrangersMayNot` | src/backend/repositories/portal_file_repository.py:206-240 | nobody but the owning attempt of a processing operation can pass, finish or release |
| `Leases.ReleaseEndsTheLease` | src/backend/repositories/promotion_repository.py:192-200 | a release ends the lease at the given time and changes nothing else |
| `Leases.OperationTable.InsertIfAbsent` | src/backend/repositories/portal_file_repository.py:176-187 | inserts the processing row only for a key that has none |
| `Leases.OperationTable.TakeOver` | src/backend/repositories/portal_file_repository.py:192-203 | replaces the attempt only while the row still has the one that was read |
| `PortalAssets.AssetTable.Activate` | src/backend/repositories/portal_file_repository.py:298-305 | succeeds exactly when the attempt owns the staged asset and the changed table still has at most one delivered asset per kind and owner, and changes nothing otherwise |
| `PortalAssets.IndexDecides` | src/backend/repositories/portal_file_repository.py:298-305 | the index admits an asset exactly when its owner has no other delivered one |
| `PortalAssets.AssetTable.CommitReference` | src/backend/services/portal_file_asset_service.py:150-157 | retires the delivered asset of the owner and activates the new one, exactly when that is possible |
| `PortalAssets.AssetTable.RetireReference` | src/backend/services/portal_file_asset_service.py:159-163 | retires the delivered asset of the owner and nothing else |
| `PortalAssets.AssetTable.Abandon` | src/backend/repositories/portal_file_repository.py:316-325 | only a staged asset of this attempt becomes pending deletion |
| `PortalAssets.AssetTable.ProtectRead` | src/backend/repositories/portal_file_repository.py:283-295 | never shortens the protection of a reader |
| `PortalAssets.CommitKeepsOneDelivery` | src/backend/services/portal_file_asset_service.py:150-163 | replacing the delivered asset keeps at most one per kind and owner |
| `PortalAssets.EachKeyDeliversOnce` | src/backend/services/portal_file_asset_service.py:411-502 | in every interleaving of attempts, uploads, readers and clean-ups each operation key ever delivers at most one asset, only through the attempt that finished it with success, and each kind and owner has at most one delivered asset |
| `PortalAssets.AssetsAdvance` | src/backend/repositories/portal_file_repository.py:243-325 | assets only move forward from staged over active and retired to clean-up, and read protection never shrinks |
| `PortalAssets.DeliveredFilesAreStored` | src/backend/services/portal_file_asset_service.py:628-692 | in every interleaving an active or retired asset has its file in storage, and only files marked by a committed clean-up decision are deleted |
| `PortalAssets.ReadersAreServed` | src/backend/services/portal_file_asset_service.py:572-598 | a delivery that committed its protection finds the file in storage for a quarter of an hour, even if the asset is replaced and cleaned up meanwhile |
| `PortalAssets.ReclaimsExactly` | src/backend/services/portal_file_asset_service.py:694-711 | what clean-up reclaims: nothing in use or read, a staged asset only a day old whose operation no attempt is at work on, a retired one only after a quarter of an hour, a deleted one only for its second look |
| `PortalAssets.StagedFilesWait` | src/backend/services/portal_file_asset_service.py:641-711 | as long as its attempt owns the operation and does not abandon it a staged asset stays staged, whatever others and clean-up do in between |
| `PortalAssets.WaitingFilesAreStored` | src/backend/services/portal_file_asset_service.py:641-691 | and its uploaded file is still in storage when the attempt comes to apply it |
| `PortalAssets.ApplyDelivers` | src/backend/services/portal_file_asset_service.py:150-157 | after applying, the file is the one delivered asset of its owner, the one before is retired from now on, the result is stored, and no other asset changed |
| `PortalAssets.ApplyWithoutFile` | src/backend/services/portal_file_asset_service.py:159-163 | applying without a file retires what is delivered for the owner, stores the result and changes nothing else |
| `PortalAssets.CommitsExactlyWhen` | src/backend/services/portal_file_asset_service.py:150-157 | the own staged asset of an attempt can be committed whatever is delivered at the time; one of another kind only when nothing of that kind is |
| `PortalAssets.StagingAddsTheFile` | src/backend/repositories/portal_file_repository.py:243-281 | staging adds one row of this attempt exactly while the attempt passes |
| `PortalAssets.ReadingProtects` | src/backend/repositories/portal_file_repository.py:283-295 | a delivery protects exactly its asset, for a quarter of an hour or as long as it was protected before |
| `PortalAssets.RecordingPutsOff` | src/backend/services/portal_file_asset_service.py:672-691 | after a deletion one more look is due a day later and then never again; after a failure the next one is due after the growing wait |
| `PortalAssets.BackoffDoubles` | src/backend/services/portal_file_asset_service.py:677-679 | the wait starts at two minutes, doubles with each failure and ends at a day |
| `PortalAssets.CleanUpDecides` | src/backend/services/portal_file_asset_service.py:641-661 | a look of clean-up marks exactly what may be reclaimed, puts the next look at a needed row off by a quarter of an hour, and changes no other row |
| `PortalAssets.AbandoningTakesTheFile` | src/backend/repositories/portal_file_repository.py:316-325 | abandoning gives exactly the own staged file to clean-up, due at once |
| `PortalAssets.ObjectsComeAndGo` | src/backend/services/portal_file_asset_service.py:641-691 | objects come by uploads for their staged rows and go by deletions of what was marked |
| `PortalAssets.LostAttemptsDoNothing` | src/backend/services/portal_file_asset_service.py:459-477 | an attempt that no longer passes stages, applies and refuses nothing |
| `PortalAssets.AssetTable.Retire` | src/backend/repositories/portal_file_repository.py:308-313 | retires an active asset and no other |
| `PortalFiles.FileTransactions.ClaimOperation` | src/backend/services/portal_file_asset_service.py:421-429 | the claiming transaction is the claim of the file machine |
| `PortalFiles.FileTransactions.RejectOperation` | src/backend/services/portal_file_asset_service.py:431-438 | storing a refusal is its step of the file machine |
| `PortalFiles.FileTransactions.StageAsset` | src/backend/services/portal_file_asset_service.py:459-466 | the staging transaction is its step of the file machine, and stages exactly while the attempt passes |
| `PortalFiles.FileTransactions.ApplyOperation` | src/backend/services/portal_file_asset_service.py:468-477 | the applying transaction is its step of the file machine: it retires, activates and stores the result, or changes nothing; it succeeds exactly when the attempt passes and its file can be committed |
| `PortalFiles.FileTransactions.GiveBackOperation` | src/backend/services/portal_file_asset_service.py:493-496 | giving the lease back is its step of the file machine |
| `PortalFiles.FileTransactions.AbandonAsset` | src/backend/services/portal_file_asset_service.py:504-509 | abandoning is its step of the file machine |
| `PortalFiles.FileTransactions.ProtectDelivery` | src/backend/services/portal_file_asset_service.py:582-597 | a delivery finds exactly the active and retired assets, and its protection is the reading step of the file machine |
| `PortalFiles.FileTransactions.CleanUpAsset` | src/backend/services/portal_file_asset_service.py:641-661 | the deciding transaction of clean-up is its step of the file machine, and answers its decision |
| `PortalFiles.FileTransactions.CleanUpOne` | src/backend/services/portal_file_asset_service.py:641-691 | one round of clean-up deletes the object exactly when the row was decided to be reclaimed and storage answers, and leaves the row deleted or pending |
| `Metronome.RunsKeepInv` | src/backend/repositories/metronome_repository.py:190-508 | every reachable state of every run keeps epochs, tombstones, consent, parts and exact summary groups consistent |
| `Metronome.FinalizedIsExact` | src/backend/repositories/metronome_repository.py:316-367 | a finalized session has exactly its declared number of groups, their counts sum to the declared counts if there are any, and no part is left |
| `Metronome.FinalizedNeverChanges` | src/backend/repositories/metronome_repository.py:289-367 | a finalized session and its rows stay as they are until they are deleted |
| `Metronome.DeletedStaysDeleted` | src/backend/repositories/metronome_repository.py:456-508 | after a session was deleted in an epoch, by itself or with the history, every later upload of it with that epoch fails and changes nothing, although the full deletion drops the tombstones |
| `Metronome.SessionsAreCurrent` | src/backend/repositories/metronome_repository.py:253-287 | every stored session carries the current epoch |
| `Metronome.NoUploadWithoutConsent` | src/backend/repositories/metronome_repository.py:226-251 | while consent is false no session is being uploaded |
| `Metronome.WithdrawnConsentStaysWithdrawn` | src/backend/repositories/metronome_repository.py:190-212 | an upload prepared under a withdrawn consent revision is refused whatever is agreed to later |
| `Metronome.DeletesReplay` | src/backend/repositories/metronome_repository.py:446-508 | repeating a delete that succeeded changes nothing and answers as the first time, even in a later epoch |
| `Metronome.GroupRowsCount` | src/backend/repositories/metronome_repository.py:348-360 | groups that satisfy the row constraints give one row each |
| `Metronome.OnePutPerRevision` | src/backend/repositories/metronome_repository.py:226-251 | of all preference updates prepared for one revision at most one is accepted |
| `Metronome.SessionsWithinLimit` | src/backend/repositories/metronome_repository.py:253-287 | the owner never stores more sessions than the largest limit ever applied |
| `Metronome.ResendChangesNothing` | src/backend/repositories/metronome_repository.py:253-367 | sending an accepted create, part or finalize request again is accepted and changes nothing |
| `MetronomeStore.MetronomeRepository.PutPreferences` | src/backend/repositories/metronome_repository.py:226-251 | one transaction is the preferences step, withdrawal deleting what is being uploaded |
| `MetronomeStore.MetronomeRepository.CreateSession` | src/backend/repositories/metronome_repository.py:253-287 | one transaction is the creation step; what that step stores is stated by CreatesExactlyWhen and StoredAsCreated |
| `MetronomeStore.MetronomeRepository.PutPart` | src/backend/repositories/metronome_repository.py:289-314 | one transaction is the part step |
| `MetronomeStore.MetronomeRepository.SumCounts` | src/backend/repositories/metronome_repository.py:342-347 | the loop computes both sums of the partition check |
| `MetronomeStore.MetronomeRepository.InsertGroups` | src/backend/repositories/metronome_repository.py:348-360 | the insert loop succeeds exactly when the groups satisfy the row constraints, and then stores exactly their rows |
| `MetronomeStore.MetronomeRepository.Finalize` | src/backend/repositories/metronome_repository.py:316-367 | one transaction is the finalizing step, a violated constraint rolling it back |
| `MetronomeStore.MetronomeRepository.DeleteSession` | src/backend/repositories/metronome_repository.py:456-480 | one transaction is the deletion step with its replay |
| `MetronomeStore.MetronomeRepository.DeleteHistory` | src/backend/repositories/metronome_repository.py:482-508 | one transaction is the history deletion with its replay |
| `MetronomeStore.AdmittedGroupFits` | db/migrations/019_metronome_practice.sql:57-72 | the row constraints accept the next group exactly when the longer list satisfies them |
| `MetronomeStore.MetronomeRepository.DeleteSessions` | src/backend/repositories/metronome_repository.py:456-508 | deletes the sessions with their parts and groups |
| `MetronomeStore.MetronomeRepository.InsertGroup` | src/backend/repositories/metronome_repository.py:348-360 | one insert succeeds exactly when the CHECK, key and UNIQUE constraints admit the group |
| `MetronomeHistory.FinalizedIsTheUpload` | src/backend/repositories/metronome_repository.py:253-367 | in every run a finalized session is what the client sent: the data of its creating request, and as rows exactly the groups of one part uploaded after it, as many as declared and, if there are any, with the declared counts as sums |
| `MetronomeHistory.StoredAsCreated` | src/backend/repositories/metronome_repository.py:253-287 | every stored session holds exactly the data and epoch of the accepted request that created it |
| `MetronomeHistory.PartWasSent` | src/backend/repositories/metronome_repository.py:289-314 | every stored part was uploaded, as it is, after its session had been created |
| `MetronomeHistory.UploadSucceeds` | src/backend/repositories/metronome_repository.py:253-367 | with consent and within the limits, creating, one part that adds up and finalizing are all accepted, and the session ends as it was sent |
| `MetronomeHistory.CreatesExactlyWhen` | src/backend/repositories/metronome_repository.py:253-287 | a session is created exactly when the owner may upload, the id is new and not buried, and the limit and the declared ranges allow it; then it is stored as given |
| `MetronomeHistory.CreatesOnce` | src/backend/repositories/metronome_repository.py:262-270 | creating a stored session again answers its status, or a conflict for other contents, and changes nothing |
| `MetronomeHistory.DoorRefusals` | src/backend/repositories/metronome_repository.py:190-212 | revoked owner, epoch, consent revision, consent, tombstone, missing session: the first that applies is the error |
| `MetronomeHistory.PartAnswers` | src/backend/repositories/metronome_repository.py:289-314 | the first part is stored as sent, the same hash again changes nothing, any other conflicts |
| `MetronomeHistory.FinalizesExactlyWhen` | src/backend/repositories/metronome_repository.py:316-367 | an uploading session is finalized exactly when the count is the declared one, the hash is that of its part, the groups add up and their rows are valid |
| `MetronomeHistory.FinalizationEffect` | src/backend/repositories/metronome_repository.py:348-367 | the status changes, the part becomes exactly its rows, and nothing else changes |
| `MetronomeHistory.FinalizeRefusals` | src/backend/repositories/metronome_repository.py:331-347 | why a finalization is refused, in the order of the checks |
| `MetronomeHistory.GroupRowsAreTheGroups` | src/backend/repositories/metronome_repository.py:348-360 | the stored rows are the groups under their ordinals, nothing lost and nothing added |
| `MetronomeHistory.SumsAreTotals` | src/backend/repositories/metronome_repository.py:342-347 | the two sums are those of the target and of the valid counts |
| `MetronomeHistory.PreferencesEffect` | src/backend/repositories/metronome_repository.py:226-251 | what one accepted update does to revisions, consent and the sessions being uploaded |
| `MetronomeHistory.ConsentWasGiven` | src/backend/repositories/metronome_repository.py:226-251 | in every run stored consent was given by an update that no later one withdrew |
| `MetronomeHistory.DeletionTakesTheSession` | src/backend/repositories/metronome_repository.py:456-480 | a new deletion is accepted exactly for the current epoch and a stored session; then exactly that session is gone and buried |
| `MetronomeHistory.DeletionTakesTheHistory` | src/backend/repositories/metronome_repository.py:482-508 | the deletion of the history leaves no session, part, row or tombstone and starts the next epoch |
| `MetronomeHistory.HistoryDeletionAnswers` | src/backend/repositories/metronome_repository.py:482-508 | it is accepted exactly for the current epoch, and answers the next epoch and the number of deleted sessions |
| `MetronomeHistory.OtherDeletionConflicts` | src/backend/repositories/metronome_repository.py:446-454 | in every run a different deletion under the operation id of one that succeeded conflicts and changes nothing |
| `PracticePages.PracticeHistory.SelectDescending` | src/backend/repositories/metronome_repository.py:388-397 | the newest rows in descending order of time and id, all others older |
| `PracticePages.PracticeHistory.ListSessions` | src/backend/repositories/metronome_repository.py:369-409 | a foreign or malformed cursor is an error; otherwise the page holds the newest matching sessions older than the cursor, newest first by their time in microseconds and then by the 128 bits of the id; the next cursor, present exactly when more remain, decodes to its place |
| `PracticePages.PracticeHistory.FollowCursors` | src/backend/repositories/metronome_repository.py:369-409 | following the cursors ends, and for every limit of at least 1 visits every matching session exactly once, newest first in time; with limit 0 it visits nothing |
| `PracticePages.NextPageGoesOn` | src/backend/repositories/metronome_repository.py:381-386 | what lies beyond the next cursor is what the pages have not shown |
| `PracticePages.OrderIsTime` | src/backend/repositories/metronome_repository.py:381-395 | the comparison of the query holds exactly when the microseconds since the first day are fewer, or equal with a smaller 128-bit id |
| `PracticePages.MatchingMeans` | src/backend/repositories/metronome_repository.py:369-397 | what is listed: finished sessions from the start up to but not at the end, in microseconds, and of the condition |
| `PracticePages.PracticeHistory.CursorOf` | src/backend/repositories/metronome_repository.py:408-408 | the cursor of a stored session decodes to its place |
| `Calendar.FieldOrderIsTime` | src/backend/repositories/metronome_repository.py:76-81 | an instant is earlier by its fields exactly when its number of microseconds is smaller |
| `Calendar.DaysOfYears` | src/backend/repositories/metronome_repository.py:76-81 | the days before a year are 365 for each year and one more for each leap day, in closed form |
| `Calendar.FirstOfJanuary` | src/backend/repositories/metronome_repository.py:76-81 | the number of a first of January, in closed form |
| `Calendar.GroupOrderIsNumber` | src/backend/repositories/metronome_repository.py:90-102 | a UUID is smaller by its groups exactly when its 128-bit number is |
| `Cursor.CursorRoundTrip` | src/backend/repositories/metronome_repository.py:84-104 | the owner of a cursor gets its instant and session id back; every other owner gets nothing |
| `Cursor.Base64RoundTrip` | src/backend/repositories/metronome_repository.py:90-97 | URL-safe base64 decodes to the encoded bytes |
| `Cursor.ParsePrintedInstant` | src/backend/repositories/metronome_repository.py:76-81 | the printed instant parses back, with or without a fraction |
| `Cursor.ParsePrintedUuid` | src/backend/repositories/metronome_repository.py:90-102 | the printed session id parses back |
| `Cursor.PrintedForm` | src/backend/repositories/metronome_repository.py:76-81 | an instant is printed as year, month, day, hour, minute and second, with the fraction only if there is one, and Z |
| `Cursor.DecodedIsValid` | src/backend/repositories/metronome_repository.py:90-104 | whatever decodes is a valid instant and a valid id |
| `Cursor.OnlyDigitsParse` | src/backend/repositories/metronome_repository.py:98-102 | nothing but digits of the base is read as a number |
| `Cursor.EndsOfTime` | src/backend/repositories/metronome_repository.py:76-81 | the first and last instant, the ends of the months and the leap days are valid, and nothing beyond them |
| `Cursor.KnownAnswers` | src/backend/repositories/metronome_repository.py:90-97 | the examples of section 10 of RFC 4648 and the two letters of the URL-safe alphabet |
| `Text.SplitJoined` | src/backend/repositories/metronome_repository.py:98-98 | splitting at a separator gives back the joined parts |
| `Tuner.RunsKeepInv` | src/backend/repositories/tuner_repository.py:305-557 | every reachable state of every run keeps epochs, tombstones, parts, exact events and the sum of the counts consistent |
| `Tuner.CompleteIsTheUploads` | src/backend/repositories/tuner_repository.py:352-427 | for any order and repetition of uploads the events of a complete session are exactly its uploaded parts concatenated by index, with ordinals 0..n-1 and n the declared count, and no part is left |
| `Tuner.StoredEventsWithinLimit` | src/backend/repositories/tuner_repository.py:330-333 | all stored note events together never exceed the limit that is checked at creation only |
| `Tuner.EventRowsAreTheList` | src/backend/repositories/tuner_repository.py:410-420 | a list that satisfies the row constraints gives one row per event with its place as ordinal |
| `Tuner.RowsWithinTotal` | src/backend/repositories/tuner_repository.py:330-333 | if no session has more rows than its count, all rows together stay within the sum of the counts |
| `Tuner.TotalWithout` | src/backend/repositories/tuner_repository.py:330-331 | the sum over the sessions does not depend on their order |
| `Tuner.FinalizeUsesUploads` | src/backend/repositories/tuner_repository.py:400-420 | a finalization writes exactly the uploaded parts whose hashes it was given, in index order |
| `Tuner.CompleteStep` | src/backend/repositories/tuner_repository.py:305-557 | every step leaves a complete session as it is or removes it |
| `Tuner.FirstUploadWins` | src/backend/repositories/tuner_repository.py:365-373 | a stored part stays as it is until its session is complete or removed |
| `Tuner.DeletedSessionStaysDeleted` | src/backend/repositories/tuner_repository.py:496-508 | a session deleted on its own takes no upload of any epoch again |
| `Tuner.DeletedHistoryStaysDeleted` | src/backend/repositories/tuner_repository.py:510-519 | after a history deletion no upload with that epoch or an older one is taken |
| `Tuner.SessionsAreCurrent` | src/backend/repositories/tuner_repository.py:111-119 | every stored session carries the current epoch |
| `Tuner.SessionsWithinLimit` | src/backend/repositories/tuner_repository.py:330-333 | the owner never stores more sessions than the limit |
| `Tuner.ResendChangesNothing` | src/backend/repositories/tuner_repository.py:305-427 | sending an accepted create, part or finalize request again is accepted and changes nothing |
| `TunerStore.TunerRepository.SumOfCounts` | src/backend/repositories/tuner_repository.py:330-331 | the loop computes the sum of the declared counts |
| `TunerStore.TunerRepository.CreateSession` | src/backend/repositories/tuner_repository.py:305-350 | one transaction is the creation step |
| `TunerStore.TunerRepository.PutPart` | src/backend/repositories/tuner_repository.py:352-384 | one transaction is the part step |
| `TunerStore.TunerRepository.InsertEvents` | src/backend/repositories/tuner_repository.py:410-420 | the insert loop succeeds exactly when the events satisfy the row constraints, and then stores each with its ordinal |
| `TunerStore.TunerRepository.Finalize` | src/backend/repositories/tuner_repository.py:386-427 | one transaction is the finalizing step, a violated constraint rolling it back |
| `TunerStore.TunerRepository.DeleteSession` | src/backend/repositories/tuner_repository.py:496-508 | one transaction is the deletion step |
| `TunerStore.TunerRepository.DeleteHistory` | src/backend/repositories/tuner_repository.py:510-519 | one transaction is the history deletion |
| `TunerStore.TunerRepository.CleanUpExpiredParts` | src/backend/repositories/tuner_repository.py:542-557 | removes uploads that were started more than a day ago, as many as there are up to the limit, and no other session |
| `TunerStore.AdmittedEventFits` | db/migrations/017_tuner_practice.sql:114-127 | the row constraints accept the next event exactly when the longer list satisfies them |
| `TunerStore.TunerRepository.DeleteSessions` | src/backend/repositories/tuner_repository.py:496-519 | deletes the sessions with their parts and events |
| `TunerStore.TunerRepository.CollectEvents` | src/backend/repositories/tuner_repository.py:407-407 | collects the events of the parts in index order |
| `TunerHistory.StoredAsCreated` | src/backend/repositories/tuner_repository.py:305-350 | every stored session holds exactly the data, epoch and time of the accepted request that created it |
| `TunerHistory.CreatesExactlyWhen` | src/backend/repositories/tuner_repository.py:305-350 | a session is created exactly in the current epoch, with a new id that is not buried, within both limits and the declared ranges; then it is stored as given |
| `TunerHistory.CreatesOnce` | src/backend/repositories/tuner_repository.py:322-329 | creating a stored session again answers its status, or a conflict for another body, and changes nothing |
| `TunerHistory.CreateRefusals` | src/backend/repositories/tuner_repository.py:305-350 | why a creation is refused, in the order of the checks |
| `TunerHistory.PartAnswers` | src/backend/repositories/tuner_repository.py:352-384 | every answer of a part upload, and that a new part is stored as sent under its index |
| `TunerHistory.CompletesExactlyWhen` | src/backend/repositories/tuner_repository.py:386-427 | an uploading session is completed exactly when the hashes are those of its parts in index order, the number of events is the given and the declared one, and the events are valid |
| `TunerHistory.CompletionEffect` | src/backend/repositories/tuner_repository.py:407-427 | the parts become note events numbered from 0 in the order of the parts, and nothing else changes |
| `TunerHistory.DeletionTakesTheSession` | src/backend/repositories/tuner_repository.py:496-508 | a deletion takes exactly the session and buries its id, stored or not |
| `TunerHistory.DeletionTakesTheHistory` | src/backend/repositories/tuner_repository.py:510-519 | the deletion of the history takes all sessions and starts the next epoch, exactly for the current one if one is given |
| `TunerHistory.CleanUpTakesAbandoned` | src/backend/repositories/tuner_repository.py:542-557 | clean-up takes only uploads that were started more than a day before, and all of them unless it is at its limit |
| `RowStore.CommitsExactlyWhen` | src/backend/repositories/db_item_repository.py:489-555 | an update commits exactly when the row exists, its version is not too far ahead, the token is absent or the same instant, and the callback accepts |
| `RowStore.CommitMovesTheVersion` | src/backend/repositories/db_item_repository.py:123-129 | a committed version is above the previous one, not below the clock, and at most the clock plus the tolerated skew plus 1 microsecond; other rows are untouched |
| `RowStore.UpdateStoresTheCallback` | src/backend/repositories/db_item_repository.py:505-555 | after Ok the stored contents are exactly the result of the callback on the old row, which is the answer, and every other row is as before; after an error nothing changed |
| `RowStore.UpdateRefusals` | src/backend/repositories/db_item_repository.py:489-530 | why an update is refused, in the order of the checks |
| `RowStore.ColumnsAreWritten` | src/backend/repositories/db_item_repository.py:557-600 | a guarded column update is made exactly when the row is there and every guarded column has its value; it writes exactly the named columns, and moves the version exactly when asked |
| `RowStore.DeletionTakesTheRow` | src/backend/repositories/db_item_repository.py:602-638 | exactly when nobody objects and the token fits that row is gone, and every other row is as before |
| `RowStore.BatchWritesWhatItNames` | src/backend/repositories/db_item_repository.py:681-705 | an accepted batch gives every named column of every existing row the named value and leaves all other columns and rows; the version of a row moves exactly when one of its columns changes |
| `RowStore.BatchRefusedExactly` | src/backend/repositories/db_item_repository.py:681-705 | it is refused exactly when a row that it changes is too far ahead of its clock reading, and then nothing happens |
| `RowStore.NewIdIsNext` | src/backend/repositories/db_item_repository.py:431-437 | the next id is the least that is at least 1 and above all stored ids |
| `RowStore.InsertAddsTheRow` | src/backend/repositories/db_item_repository.py:469-487 | an insert adds one row with the given columns and the clock as version |
| `RowStore.StoresCommitAlike` | src/backend/repositories/db_item_repository.py:774-806 | both stores commit the same updates with the same rows |
| `RowStore.StoresAnswerDifferently` | src/backend/repositories/db_item_repository.py:774-806 | their answers differ exactly when the stored version is too far ahead and the token or the callback would have refused anyway |
| `RowStore.VersionsNeverGoBack` | src/backend/repositories/db_item_repository.py:489-705 | over every run, with a clock that may stall or step back, the version of a row never decreases while the row exists |
| `RowStore.CommittedVersionsIncrease` | src/backend/repositories/db_item_repository.py:489-555 | committed updates of a row get strictly increasing versions |
| `RowStore.OneCommitPerToken` | src/backend/utils/concurrency.py:14-43 | of all updates of a row with the same instant as token two commit only if the row was deleted in between and inserted again by a clock that had not passed the token |
| `RowStore.TokensOutliveExactly` | src/backend/repositories/db_item_repository.py:431-437 | ids are reused: a token can commit a second time, when the row is only inserted again at or after some reading, if and only if that reading has not passed the token |
| `RowStore.VersionsStayNearTheClock` | src/backend/utils/datetime_utils.py:32-33 | no stored version is ever ahead of the latest clock reading by more than the tolerated skew and 1 microsecond |
| `RowStores.PostgresRowStore.AllocateId` | src/backend/repositories/db_item_repository.py:431-437 | one more than the largest stored id, and new |
| `RowStores.PostgresRowStore.Insert` | src/backend/repositories/db_item_repository.py:469-487 | stores the row under a new id with the clock reading as version |
| `RowStores.PostgresRowStore.Update` | src/backend/repositories/db_item_repository.py:489-555 | equals the update function of the row store in rows and answer; what that function stores is stated by UpdateStoresTheCallback |
| `RowStores.PostgresRowStore.UpdateColumns` | src/backend/repositories/db_item_repository.py:557-600 | writes the named columns only when every guarded column still has its value, moving the version only when asked |
| `RowStores.PostgresRowStore.Delete` | src/backend/repositories/db_item_repository.py:602-638 | authorization before the version check; removes exactly the row |
| `RowStores.PostgresRowStore.UpdateMany` | src/backend/repositories/db_item_repository.py:681-703 | the ascending loop equals the batch of the row store, or changes nothing; what a batch writes is stated by BatchWritesWhatItNames |
| `RowStores.ListRowStore.Insert` | src/backend/repositories/db_item_repository.py:762-772 | the list refines the same table insert |
| `RowStores.ListRowStore.Update` | src/backend/repositories/db_item_repository.py:774-806 | the list refines the list form of the update and keeps ids unique; the stored contents are those of UpdateStoresTheCallback by StoresCommitAlike |
| `RowStores.ListRowStore.UpdateColumns` | src/backend/repositories/db_item_repository.py:808-831 | the list refines the same guarded column update |
| `RowStores.ListRowStore.Delete` | src/backend/repositories/db_item_repository.py:833-851 | the list refines the same deletion |
| `RowStores.ListRowStore.UpdateMany` | src/backend/repositories/db_item_repository.py:853-871 | the list refines the same batch update with a clock reading for each item; nothing is saved when one item is refused |
| `RowStores.RemovedContents` | src/backend/repositories/db_item_repository.py:833-851 | filtering an id out of the list removes exactly its row |
| `RowStores.ListRowStore.IndexOf` | src/backend/repositories/db_item_repository.py:784-788 | finds an item exactly when the list holds the id |
| `LockOrder.NoDeadlock` | src/backend/repositories/db_item_repository.py:19-21 | in every reachable state of any number of transactions that ask for locks in the order keys, child ids, rows, ids, or out of order for rows under a guarding key they hold, there is no wait-for cycle |
| `LockOrder.SomeoneCanGoOn` | src/backend/repositories/db_item_repository.py:19-21 | as long as a transaction is open, one of them can go on without a rollback |
| `LockOrder.DeadlocksExactly` | src/backend/repositories/db_item_repository.py:371-375 | two transactions can run into a wait-for cycle if and only if, after disjoint prefixes of their requests, each wants a lock of the other |
| `LockOrder.OrderIsExact` | src/backend/repositories/db_item_repository.py:19-21 | a list of requests keeps the order if and only if it cannot deadlock with any list that keeps it |
| `LockOrder.NobodyWaitsForGuarded` | src/backend/repositories/db_item_repository.py:371-384 | a row under a group key is waited for by nobody who does not hold the key |
| `LockOrder.TwoCallsCanDeadlock` | src/backend/repositories/db_item_repository.py:371-375 | two lock calls in one transaction and one sorted call in another run, from no locks at all, into a wait-for cycle |
| `LockOrder.SecondCallIsOrdered` | src/backend/repositories/db_item_repository.py:371-375 | the requests of two lock calls keep the order if and only if every key newly asked by the second is above every key already held |
| `LockOrder.ItemContext.LockTwice` | src/backend/repositories/db_item_repository.py:371-375 | the requests of two calls, and when they keep the order |
| `LockOrder.KeysThenRowsAreOrdered` | src/backend/repositories/db_item_repository.py:371-375 | keys in key order followed by rows in id order keep the lock order |
| `LockOrder.SecondPassIsOrdered` | src/backend/repositories/db_item_repository.py:661-680 | asking again for rows that are locked keeps the order |
| `LockOrder.AllocationComesLast` | src/backend/repositories/db_item_repository.py:431-437 | the id lock of an insert after all of them keeps the order |
| `LockOrder.GuardedRowsAreDisciplined` | src/backend/services/extra_service.py:500-531 | sorted group keys followed by rows that they guard, in any order and repetition, cannot deadlock with others that do the same |
| `LockOrder.ChildAllocationComesBeforeRows` | src/backend/services/album_service.py:112-125 | allocating a child id before the row lock of the parent keeps the order; allocating an id of the row tables there would not |
| `LockOrder.AscendingIsUnique` | src/backend/repositories/db_item_repository.py:372-372 | a set has one ascending list |
| `LockOrder.TextLessMeans` | src/backend/repositories/db_item_repository.py:372-372 | texts are ordered by the first different character, a proper prefix first |
| `LockOrder.LocksAreSeparate` | src/backend/repositories/db_item_repository.py:371-375 | different tenants, collections and keys have different locks as long as the first two hold no colon |
| `LockOrder.Sorted` | src/backend/repositories/db_item_repository.py:372-372 | sorts a set: ascending, and exactly its elements |
| `LockOrder.ItemContext.LockKeys` | src/backend/repositories/db_item_repository.py:371-375 | asks once, in key order, for exactly the keys not held yet |
| `LockOrder.ItemContext.LockRows` | src/backend/repositories/sheet_repository.py:193-200 | locks the existing rows among the ids in ascending order, each once, and returns exactly them |
| `LockOrder.ItemContext.UpdateManyLocks` | src/backend/repositories/db_item_repository.py:655-700 | the requests of a two-phase batch update keep the order |
| `Renumber.RenumberingSucceedsExactly` | src/backend/repositories/db_item_repository.py:661-703 | the temporary phase never violates the unique index, and the second phase never does, after any row, exactly when the targets fit |
| `Renumber.ResequencingSucceeds` | src/backend/repositories/db_item_repository.py:661-703 | any renumbering to free places of at most the old maximum plus the number of rows plus one fits |
| `Renumber.TemporaryRangeCanCollide` | src/backend/repositories/db_item_repository.py:667-678 | beyond that bound a free place can meet the temporary range |
| `Renumber.LiftingKeepsUnique` | src/backend/repositories/db_json_repository.py:103-111 | moving rows one by one above their group keeps the index unique after every row |
| `Renumber.VideoTable.UpdateRow` | src/backend/repositories/db_item_repository.py:668-678 | one UPDATE succeeds exactly when the table stays unique and touches only a row of the tenant |
| `Renumber.VideoTable.MaxOrder` | src/backend/repositories/db_item_repository.py:662-667 | the largest order of the whole table, 0 for an empty one |
| `Renumber.VideoTable.UpdateManyTwoPhase` | src/backend/repositories/db_item_repository.py:655-703 | commits exactly when the targets fit; then every named row of the tenant has its target, every other row is unchanged and the index is unique; otherwise nothing changed |
| `Renumber.VideoTable.StabilizeSortOrders` | src/backend/repositories/db_json_repository.py:85-111 | every row of the tenant moves, in its own group, above the largest order of the group to a place of its own, all other rows stay, and no UPDATE violates the index |
| `Renumber.VideoTable.Settle` | src/backend/repositories/db_item_repository.py:677-699 | the second phase succeeds exactly when the targets fit |
| `Renumber.VideoTable.Lift` | src/backend/repositories/db_item_repository.py:667-676 | the temporary phase always succeeds |
| `Renumber.VideoTable.GroupOf` | src/backend/repositories/db_json_repository.py:96-98 | the rows of one group, each once |
| `Renumber.VideoTable.GroupMax` | src/backend/repositories/db_json_repository.py:101-102 | the largest order of the group: a bound that one of its rows attains |
| `ReadScope.RunsKeepInv` | src/backend/core/read_context.py:232-290 | free slots plus slot holders are always 4, and free connections plus all holders are always 5 |
| `ReadScope.ReadsLeaveAConnection` | src/backend/core/db_pool.py:21-22 | read scopes hold at most 4 of the 5 connections, each under a slot |
| `ReadScope.UsableLeaseHasItsConnection` | src/backend/core/read_context.py:133-142 | a usable lease belongs to a scope that still has its connection, and is the only one |
| `ReadScope.ClosedForGood` | src/backend/core/read_context.py:203-214 | after a frame is closed no lease of it is ever usable again |
| `ReadScope.CancellationIsKept` | src/backend/core/read_context.py:66-84 | a cancellation is raised at once in the wait for a slot and in the body; while a worker runs it is kept until the worker is done, and nothing else makes one |
| `ReadScope.BodyStartsUncancelled` | src/backend/core/read_context.py:246-275 | the transaction begins only on a connection without a pending cancellation, the body only after a successful begin without one |
| `ReadScope.LendingAFrame` | src/backend/core/read_context.py:133-214 | a frame is lent exactly while it is open and not lent, and stays lent to that borrower until it is given back |
| `ReadScope.TakenLessReturned` | src/backend/core/read_context.py:232-290 | slots and connections taken less returned are one while held and zero otherwise, for every scope at every point of every run |
| `ReadScope.ReleasedOnce` | src/backend/core/read_context.py:276-290 | no slot is released and no connection put back twice, and a slot is released only after the connection is back |
| `ReadScope.NothingLeaks` | src/backend/core/read_context.py:276-290 | when all scopes are done all slots are free and the pool lacks only what others hold |
| `ReadScope.NeverStuck` | src/backend/core/read_context.py:66-84 | every scope can always take a step towards its end without a free slot or connection |
| `ReadScopeRuntime.Runtime.CallReadScope` | src/backend/core/read_context.py:232-290 | the whole call, with other calls, pool users, leases and cancellations at each of its awaits, is a path of the machine; however it ends the call gave back exactly the slot and the connection it took, and its answer is the one that its decisive steps, in their order, call for |
| `ReadScopeRuntime.PathBalance` | src/backend/core/read_context.py:232-290 | along any path of the machine the slots and connections a call took less those it gave back are the change of what it holds |
| `ReadScopeRuntime.SeenMeans` | src/backend/core/read_context.py:232-290 | the decisive steps that an answer depends on are those of the recorded path, and a cancellation is late when it comes after the end of the begin |
| `ReadScopeRuntime.Runtime.Await` | src/backend/core/read_context.py:66-84 | while the call awaits, others may take any of their steps; they change nothing of the call but to cancel it or to borrow or give back its frame, and a cancellation is never forgotten |
| `ReadScopeRuntime.Runtime.WaitForSlot` | src/backend/core/read_context.py:238-244 | a cancelled wait ends without a slot, an expired one with the capacity error, and an admitted one ends with the slot released |
| `ReadScopeRuntime.Runtime.CheckOut` | src/backend/core/read_context.py:246-262 | however the checkout, the transaction and its end go, the connection is in the pool when the slot is due, and the answer is the one that what happened calls for |
| `ReadScopeRuntime.Runtime.TakeConnection` | src/backend/core/read_context.py:66-84 | the call goes on to its transaction exactly when no cancellation came until the worker was done, and otherwise to the clean-up of the connection |
| `ReadScopeRuntime.Runtime.UseTransaction` | src/backend/core/read_context.py:262-290 | from the begin on: the frame is left closed with its connection back, whatever begin, body, cancellations and the end come to |
| `ReadScopeRuntime.Runtime.Finish` | src/backend/core/read_context.py:276-290 | the connection goes back only after the frame was closed; a cancellation during the finish is raised after it |
| `ReadScopeRuntime.Runtime.LockAndClose` | src/backend/core/read_context.py:283-286 | the frame closes only once a lease that was out is given back, and stays marked for a cancellation that came meanwhile |
| `ReadScopeRuntime.ReadContext.Borrow` | src/backend/core/read_context.py:193-214 | gives out one new lease exactly to the owning task in its context and tenant, when the frame is open, unlent and in time; otherwise the first reason that applies is the error |
| `ReadScopeRuntime.ReadContext.Execute` | src/backend/core/read_context.py:111-130 | a SELECT runs exactly for the owner in the thread of the current lease and in time; its limit is the smaller of the old one and the time left in whole milliseconds, the lock limit follows, and every refusal is named |
| `ReadScopeRuntime.MillisecondsLeft` | src/backend/core/read_context.py:119-120 | the limit for the time left is within 1 and 3000 and apart from that the time cut to whole milliseconds |
| `ReadScopeRuntime.Wait` | src/backend/core/read_context.py:68-76 | waits through every cancellation until the thread has ended, and tells whether there was one |
| `ReadScopeRuntime.Worker` | src/backend/core/read_context.py:66-84 | the result comes only after the thread has ended; a cancelled successful call is cleaned up to the end first; a failing call is not |
| `EntityTags.MatchingMeans` | src/backend/core/http_cache.py:35-52 | for every header and every current tag: a star, the unquoted compatibility case, or a well-formed list with an equal tag, and nothing else |
| `EntityTags.QuotedTagMatches` | src/backend/core/http_cache.py:35-52 | for a well-formed current tag: a star, or a list with a weakly equal tag, and nothing else |
| `EntityTags.OneTagMatches` | src/backend/core/http_cache.py:49-52 | a header that is one tag, commas inside or not, matches exactly when it is weakly equal |
| `EntityTags.ListsMatch` | src/backend/core/http_cache.py:49-51 | every list of well-formed tags is matched and its tags are the ones in the list, so no comma inside quotes splits one |
| `EntityTags.MatchesAreLists` | src/backend/core/http_cache.py:49-51 | everything that is matched is a list of well-formed tags |
| `EntityTags.FindAllIsTheList` | src/backend/core/http_cache.py:52-52 | on a matched text the found tags are exactly the tags of the list |
| `EntityTags.KnownSpaces` | src/backend/core/http_cache.py:41-51 | the white space around tags and commas, at the ends of its ranges |
| `EntityTags.QuotedStarts` | src/backend/core/http_cache.py:44-47 | which current tags count as quoted |
| `EntityTags.TagCharacters` | src/backend/core/http_cache.py:35-52 | the characters of section 8.8.3 of RFC 9110, commas included, quotes and spaces not |
| `CopyText.DumpRoundTrip` | scripts/repair_album_photo_metadata.py:42-66 | decoding the printed block gives back the columns and rows with their integer ids, whatever texts and NULLs they hold and with either line ending |
| `CopyText.PhotoRows` | scripts/repair_album_photo_metadata.py:42-66 | the loop over the lines computes the decoded block with integer ids, or the error of its first bad line |
| `CopyText.CellRoundTrip` | scripts/repair_album_photo_metadata.py:52-55 | every text and NULL decodes to itself |
| `CopyText.TextsStayTexts` | scripts/repair_album_photo_metadata.py:52-55 | no text prints like NULL or like the end of the block |
| `CopyText.RowIsALine` | scripts/repair_album_photo_metadata.py:57-60 | a printed row is one line and not the end of the block |
| `CopyText.RefusedExactly` | scripts/repair_album_photo_metadata.py:56-65 | the rows are decoded if and only if every line has as many cells as columns and integers in both id columns |
| `CopyText.FirstErrorWins` | scripts/repair_album_photo_metadata.py:56-65 | the error of a refused block is that of its first bad line |
| `CopyText.EscapesOfCopy` | scripts/repair_album_photo_metadata.py:49-55 | each escape of the COPY text format, and what is left as it is |
| `CopyText.HeaderOfCopy` | scripts/repair_album_photo_metadata.py:44-48 | the command that starts the block and the line that ends it |
| `Integers.KnownIntegers` | scripts/repair_album_photo_metadata.py:62-63 | spaces around, a sign, single underscores between digits and leading zeros are read, and nothing else |
| `Integers.IntRoundTrip` | scripts/repair_album_photo_metadata.py:62-63 | the printed form of every integer reads back |
| `GcsSync.PlanPartitions` | scripts/sync_prod_to_test_gcs.py:127-136 | copies and unchanged objects partition the source, deletions are the rest of the target |
| `GcsSync.NothingToDo` | scripts/sync_prod_to_test_gcs.py:127-136 | the plan has nothing to copy or delete exactly when names, sizes and checksums agree |
| `GcsSync.SameContentMeans` | scripts/sync_prod_to_test_gcs.py:117-124 | equal contents need equal sizes and equal checksums: the CRC where both have one, the MD5 where only that can be compared, and never nothing |
| `GcsSync.VerifiedMeans` | scripts/sync_prod_to_test_gcs.py:139-150 | a verified copy of an object with a checksum is the same as it, with no checksum of the source lost or different |
| `GcsSync.ChecksumsAreNeeded` | scripts/sync_prod_to_test_gcs.py:117-124 | a synchronized source object has a checksum |
| `GcsSync.TestBucket.CopyBlob` | scripts/sync_prod_to_test_gcs.py:174-187 | copies exactly when the generation is the expected one, and otherwise changes nothing |
| `GcsSync.TestBucket.DeleteBlob` | scripts/sync_prod_to_test_gcs.py:191-193 | deletes exactly when the generation is the expected one |
| `GcsSync.TestBucket.CopyOne` | scripts/sync_prod_to_test_gcs.py:175-188 | a copy with its verification never replaces an object other than the planned one; success leaves an object with the size and every checksum of the source, and a failed precondition writes nothing |
| `GcsSync.TestBucket.Synchronize` | scripts/sync_prod_to_test_gcs.py:153-199 | success means the target is in sync, and the answer counts the planned copies, deletions and kept objects; whatever others do, every write concerns a planned name and replaced exactly the planned object; the two final errors say what is different; left alone the run succeeds exactly when every source object has a checksum |
| `GcsSync.QuietResult` | scripts/sync_prod_to_test_gcs.py:195-199 | left alone, the planned writes bring the target in sync provided there are checksums |
| `GcsSync.SameAsItself` | scripts/sync_prod_to_test_gcs.py:117-124 | an object is the same as itself exactly when it has a checksum |

## Left out

- Text of SQL statements, cursors, SQLite adapters and local schemas: tables are maps and statements are map updates.
- HTTP status codes, response bodies, routers, schemas, logging, argument parsing and environment reading: refusals are named by their reason only.
- Password, permission and login rules: they are the callbacks `mutate` and `authorize`, which are arbitrary functions here.
- DbSync.TargetDb.Synchronize: does not model the fingerprints of excluded tables, the comparison of column lists, foreign keys from or to excluded tables, JSON adaptation of values and the connection checks.
- DbSync.TargetDb.InsertOrUpdate: does not model unique indexes other than the primary key.
- ClockTriggers.ClockedDb.Execute: the check of the maintenance role and the schema verification of the finalizer are inputs of the steps; the cascading delete of a parent appears as the deletion of its children followed by its own; `canonical_digests` is left out.
- ClockReader.VersionReader.Load: does not model the loading of the dependency map and the copy of the versions into the request frame.
- Leases.OperationTable.ReserveOperation: does not model view scopes, target ids, stored response bodies and the expiry of old results.
- PortalAssets.EachKeyDeliversOnce: does not model the contents of files, storage generations, legacy registration, the resizing of member photos, deletion of the owner and the expiry of stored results.
- PortalFiles.FileTransactions.CleanUpOne: the choice and order of the candidates and the dry run are left out; any row may be a candidate.
- Metronome.RunsKeepInv: does not model presets, the lookup of an owner by member and birth, and the contents of summaries; a JSON value is known only to be an object or not, and the summary of a finalization is one.
- Tuner.RunsKeepInv: does not model preferences, instruments, presets, diagnosis queries and owner lookup.
- Tuner.StoredEventsWithinLimit: the limits are fixed for a run, as they are for a process.
- TunerStore.TunerRepository.Finalize: the stored parts are read by index instead of as a sorted list.
- PracticePages.PracticeHistory.FollowCursors: the data does not change between the pages.
- Cursor.CursorRoundTrip: the decoder accepts only the printed spellings of base64, instants and UUIDs; other spellings that Python accepts are refused here.
- RowStore.CommitsExactlyWhen: does not model child rows, album snapshots, legacy date encodings, creation times, server-managed columns and the parsing of token text; a token is already absent, naive, unreadable or an instant.
- RowStores.PostgresRowStore.UpdateMany: the two-phase option is in Renumber, without the versions.
- LockOrder.NoDeadlock: which rows a key guards is fixed for a run; lock timeouts, waits on unique indexes and retries after a detected deadlock are left out.
- Renumber.VideoTable.UpdateManyTwoPhase: does not model the width of the integer column and the versions that change with the rows.
- Renumber.VideoTable.StabilizeSortOrders: the groups are visited in any order.
- ReadScope.ReleasedOnce: one event loop per process; `wait_for` either gets the slot or does not; `putconn` does not fail; a failing checkout has put its own connection back.
- ReadScopeRuntime.ReadContext.Execute: whether a statement is a SELECT is an input.
- ReadScopeRuntime.Runtime.CallReadScope: `wait_for` and the work of each thread have given results; times inside the call appear only as these results.
- ReadScopeRuntime.Wait: the inner task of a worker is not cancelled on its own.
- EntityTags.MatchingMeans: `merge_vary`, `no_store_api` and the route handler are left out.
- CopyText.DumpRoundTrip: column names contain no comma, and no earlier line is the COPY command of the table.
- CopyText.PhotoRows: integers are read from ASCII digits and spaces only; other digits and spaces that Python accepts are refused here.
- GcsSync.TestBucket.Synchronize: does not model listing by prefixes and pages, the dry run and the order of the names; the copy keeps size and checksums of its source.
- Push deliveries, maintenance traffic, release and document scans: single-branch guards or string scans.
