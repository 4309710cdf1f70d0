/**
 * Files of portal operations: assets are staged under an attempt, uploaded,
 * activated by the transaction that finishes the operation, retired by a later
 * one, or abandoned; clean-up deletes what is no longer needed.  The
 * transactions combine portal_file_repository.py as
 * portal_file_asset_service.py runs it.
 */
module PortalAssets {
  import opened Prelude
  import opened Leases

  datatype AssetPhase = Staged | Active | Retired | DeletePending | Deleted

  /** `slot` is the kind and owner an asset is delivered for, and `activated` says that it ever was. */
  datatype Asset = Asset(
    slot: Slot,
    key: Name,
    attempt: nat,
    phase: AssetPhase,
    created: int,
    activated: bool,
    retired: Option<int>,
    protectedUntil: Option<int>,
    nextAttempt: Option<int>,
    retries: nat)

  datatype Slot = Slot(kind: Name, owner: Option<int>)

  type Assets = map<nat, Asset>

  const SECOND := 1_000_000

  const READ_PROTECTION := 900 * SECOND
  const STAGED_GRACE := 86400 * SECOND
  const RETIRED_GRACE := 900 * SECOND
  const DELETED_RECHECK := 86400 * SECOND
  const MAX_BACKOFF := 86400 * SECOND

  function StagedAsset(slot: Slot, key: Name, attempt: nat, now: int): Asset {
    Asset(slot, key, attempt, Staged, now, false, None, None, None, 0)
  }

  /** The row a unique index allows at most once. */
  predicate Delivers(a: Asset, slot: Slot) {
    a.phase == Active && a.slot == slot && slot.owner.Some?
  }

  /** The current delivered asset of a slot. */
  function ActiveAssets(assets: Assets, slot: Slot): set<nat> {
    set id | id in assets && Delivers(assets[id], slot)
  }

  function RetiredAsset(a: Asset, now: int): Asset {
    a.(phase := Retired, retired := Some(now), nextAttempt := Some(now))
  }

  function RetireAll(assets: Assets, ids: set<nat>, now: int): Assets {
    map id | id in assets :: if id in ids && assets[id].phase == Active then RetiredAsset(assets[id], now) else assets[id]
  }

  function MaxProtection(current: Option<int>, until: int): Option<int> {
    if current.Some? && current.value > until then current else Some(until)
  }

  predicate MayActivate(assets: Assets, id: nat, attempt: nat) {
    id in assets && assets[id].phase == Staged && assets[id].attempt == attempt
  }

  function AbandonedIn(assets: Assets, id: nat, attempt: nat, now: int): Assets {
    if MayActivate(assets, id, attempt) then assets[id := assets[id].(phase := DeletePending, nextAttempt := Some(now))] else assets
  }

  // ------------------------------------------------------------------ clean-up

  datatype Decision = InUse | ReadProtected | Done | OperationLive | Grace | Reclaim

  /** `_reclaim_reason`: the checks, in their order; `op` is the operation of the asset's key. */
  function ReclaimReason(a: Asset, op: Option<Operation>, now: int): Decision {
    if a.phase == Active then InUse
    else if a.protectedUntil.Some? && a.protectedUntil.value > now then ReadProtected
    else if a.phase == Deleted then (if a.nextAttempt.Some? then Reclaim else Done)
    else if op.Some? && op.value.phase == Processing && op.value.leaseUntil > now && a.phase == Staged then OperationLive
    else if a.phase == Staged && a.created + STAGED_GRACE > now then Grace
    else if a.phase == Retired && a.retired.Some? && a.retired.value + RETIRED_GRACE > now then Grace
    else Reclaim
  }

  /** A lease that runs at that time, on the operation of the key. */
  predicate LiveOperation(op: Option<Operation>, now: int) {
    op.Some? && op.value.phase == Processing && now < op.value.leaseUntil
  }

  /**
   * What is reclaimed, in any state: never an asset in use or one that a reader
   * may be reading; a staged one only after a day and when no attempt has its
   * operation; a retired one only after a quarter of an hour; and a deleted one
   * only for the look that was put off.
   */
  lemma ReclaimsExactly(a: Asset, op: Option<Operation>, now: int)
    ensures ReclaimReason(a, op, now) == Reclaim <==>
              && (a.protectedUntil.Some? ==> a.protectedUntil.value <= now)
              && match a.phase
                 case Active => false
                 case Staged => !LiveOperation(op, now) && now - a.created >= 24 * 60 * 60 * SECOND
                 case Retired => a.retired.Some? ==> now - a.retired.value >= 15 * 60 * SECOND
                 case DeletePending => true
                 case Deleted => a.nextAttempt.Some?
  {
  }

  /** What is not reclaimed says why; only a row that is already deleted for good is not looked at again. */
  lemma KeptFor(a: Asset, op: Option<Operation>, now: int)
    ensures ReclaimReason(a, op, now) == Done ==> a.phase == Deleted && a.nextAttempt.None?
    ensures ReclaimReason(a, op, now) == InUse <==> a.phase == Active
    ensures ReclaimReason(a, op, now) == ReadProtected <==> a.phase != Active && a.protectedUntil.Some? && now < a.protectedUntil.value
    ensures ReclaimReason(a, op, now) == OperationLive ==> a.phase == Staged && LiveOperation(op, now)
  {
  }

  /** A decision marks the row for deletion, puts the next look off, or leaves it. */
  function Decided(a: Asset, decision: Decision, now: int): Asset {
    match decision
    case Reclaim => if a.phase == Deleted then a else a.(phase := DeletePending)
    case Done => a
    case _ => a.(nextAttempt := Some(now + RETIRED_GRACE))
  }

  function OperationOf(ops: Operations, key: Name): Option<Operation> {
    if key in ops then Some(ops[key]) else None
  }

  function Doubled(base: nat, times: nat): nat {
    if times == 0 then base else 2 * Doubled(base, times - 1)
  }

  function Backoff(retries: nat): int {
    var wait := Doubled(60 * SECOND, if retries < 11 then retries else 11);
    if wait < MAX_BACKOFF then wait else MAX_BACKOFF
  }

  lemma {:induction false} DoubledElevenTimes(base: nat, n: nat)
    requires n == 11
    ensures Doubled(base, n) == 2048 * base
  {
    assert Doubled(base, n - 9) == 2 * Doubled(base, n - 10) && Doubled(base, n - 10) == 2 * Doubled(base, n - 11);
    assert Doubled(base, n - 6) == 2 * Doubled(base, n - 7) && Doubled(base, n - 7) == 2 * Doubled(base, n - 8);
    assert Doubled(base, n - 3) == 2 * Doubled(base, n - 4) && Doubled(base, n - 4) == 2 * Doubled(base, n - 5);
    assert Doubled(base, n) == 2 * Doubled(base, n - 1) && Doubled(base, n - 1) == 2 * Doubled(base, n - 2);
  }

  /** The wait starts at two minutes, doubles with each failure, and ends at a day. */
  lemma BackoffDoubles(retries: nat)
    ensures Backoff(1) == 120 * SECOND
    ensures Backoff(retries) <= Backoff(retries + 1) <= 24 * 60 * 60 * SECOND
    ensures Backoff(retries + 1) == 2 * Backoff(retries) || Backoff(retries + 1) == 24 * 60 * 60 * SECOND
  {
    assert Doubled(60 * SECOND, 1) == 2 * Doubled(60 * SECOND, 0);
    DoubledElevenTimes(60 * SECOND, 11);
    if retries < 11 {
      assert Doubled(60 * SECOND, retries + 1) == 2 * Doubled(60 * SECOND, retries);
    }
  }

  /** After the deletion of the object: once more a day later, or again after a while when it failed. */
  function Recorded(a: Asset, now: int, failed: bool): Asset {
    if a.phase != DeletePending && a.phase != Deleted then a
    else if failed then a.(phase := DeletePending, retries := a.retries + 1, nextAttempt := Some(now + Backoff(a.retries + 1)))
    else if a.phase == Deleted then a.(nextAttempt := None)
    else a.(phase := Deleted, nextAttempt := Some(now + DELETED_RECHECK))
  }

  // ------------------------------------------------------------------ the statements on asset rows

  class AssetTable {
    var rows: Assets

    constructor ()
      ensures rows == map[]
    {
      rows := map[];
    }

    /** A rollback to a savepoint. */
    method Restore(savepoint: Assets)
      modifies this
      ensures rows == savepoint
    {
      rows := savepoint;
    }

    /** `stage_asset`; the primary key is fresh. */
    method Stage(id: nat, slot: Slot, key: Name, attempt: nat, now: int)
      requires id !in rows
      modifies this
      ensures rows == old(rows)[id := StagedAsset(slot, key, attempt, now)]
    {
      rows := rows[id := StagedAsset(slot, key, attempt, now)];
    }

    /** `retire` touches an active asset only. */
    method Retire(id: nat, now: int)
      modifies this
      ensures rows == RetireAll(old(rows), {id}, now)
    {
      if id in rows && rows[id].phase == Active {
        rows := rows[id := rows[id].(phase := Retired, retired := Some(now), nextAttempt := Some(now))];
      }
    }

    /** `activate`: succeeds exactly for this attempt's staged asset when the index on delivered assets allows it; `false` is `LostAttempt` or the index. */
    method Activate(id: nat, attempt: nat, owner: Option<int>) returns (ok: bool)
      requires OneDelivery(rows)
      modifies this
      ensures ok <==> MayActivate(old(rows), id, attempt) && OneDelivery(Activated(old(rows), id, owner))
      ensures rows == (if ok then Activated(old(rows), id, owner) else old(rows)) && OneDelivery(rows)
    {
      ok := MayActivate(rows, id, attempt) && ActiveAssets(rows, Slot(rows[id].slot.kind, owner)) == {};
      if MayActivate(rows, id, attempt) {
        IndexDecides(rows, id, owner);
      }
      if ok {
        rows := rows[id := rows[id].(phase := Active, activated := true, slot := Slot(rows[id].slot.kind, owner))];
      }
    }

    /** `abandon`: an attempt gives up only its own staged asset. */
    method Abandon(id: nat, attempt: nat, now: int)
      modifies this
      ensures rows == AbandonedIn(old(rows), id, attempt, now)
    {
      if id !in rows || rows[id].attempt != attempt || rows[id].phase != Staged {
        return;
      }
      rows := rows[id := rows[id].(phase := DeletePending, nextAttempt := Some(now))];
    }

    /** `protect_asset_read`: extends, never shortens, and only for readable assets. */
    method ProtectRead(id: nat, now: int)
      modifies this
      ensures rows == Protected(old(rows), id, now)
    {
      if id in rows && rows[id].phase in {Active, Retired} {
        var until := now + READ_PROTECTION;
        var current := rows[id].protectedUntil;
        rows := rows[id := rows[id].(protectedUntil := if current.Some? && current.value > until then current else Some(until))];
      }
    }

    /** `commit_reference`: retire the delivered asset of the owner, then activate the new one. */
    method CommitReference(id: nat, attempt: nat, owner: Option<int>, kind: Name, now: int) returns (ok: bool)
      requires OneDelivery(rows)
      modifies this
      ensures ok <==> CanCommit(old(rows), id, attempt, kind, owner)
      ensures ok ==> rows == Committed(old(rows), id, kind, owner, now)
      ensures !ok ==> rows == old(rows) || rows == RetireAll(old(rows), ActiveAssets(old(rows), Slot(kind, owner)), now)
    {
      var slot := Slot(kind, owner);
      var current := ActiveAssets(rows, slot);
      if current != {} {
        var found :| found in current;
        assert current == {found};
        if found != id {
          Retire(found, now);
        }
      }
      assert id in current ==> rows == old(rows);
      assert id !in current ==> rows == RetireAll(old(rows), current, now);
      RetiringKeepsOneDelivery(old(rows), current, now);
      if MayActivate(rows, id, attempt) {
        IndexDecides(rows, id, owner);
      }
      ok := Activate(id, attempt, owner);
    }

    /** `retire_reference`: an operation without a file retires the delivered asset of the owner. */
    method RetireReference(owner: Option<int>, kind: Name, now: int)
      requires OneDelivery(rows)
      modifies this
      ensures rows == RetireAll(old(rows), ActiveAssets(old(rows), Slot(kind, owner)), now)
    {
      var current := ActiveAssets(rows, Slot(kind, owner));
      if current != {} {
        var found :| found in current;
        assert current == {found};
        Retire(found, now);
      } else {
        assert rows == RetireAll(rows, {}, now);
      }
    }

    /** The first transaction of clean-up for one candidate. */
    method DecideCleanUp(id: nat, op: Option<Operation>, now: int) returns (decision: Decision)
      modifies this
      ensures if id in old(rows) then decision == ReclaimReason(old(rows)[id], op, now) && rows == old(rows)[id := Decided(old(rows)[id], decision, now)]
              else decision == Done && rows == old(rows)
    {
      if id !in rows {
        return Done;
      }
      decision := ReclaimReason(rows[id], op, now);
      if decision != Reclaim && decision != Done {
        rows := rows[id := rows[id].(nextAttempt := Some(now + RETIRED_GRACE))];
      } else if decision == Reclaim && rows[id].phase != Deleted {
        rows := rows[id := rows[id].(phase := DeletePending)];
      }
    }

    /** The last one, after the object was deleted or could not be. */
    method RecordDeletion(id: nat, now: int, failed: bool)
      modifies this
      ensures rows == if id in old(rows) then old(rows)[id := Recorded(old(rows)[id], now, failed)] else old(rows)
    {
      if id !in rows || (rows[id].phase != DeletePending && rows[id].phase != Deleted) {
        return;
      }
      var retries := rows[id].retries + if failed then 1 else 0;
      if failed {
        rows := rows[id := rows[id].(phase := DeletePending, retries := retries, nextAttempt := Some(now + Backoff(retries)))];
      } else if rows[id].phase == Deleted {
        rows := rows[id := rows[id].(nextAttempt := None)];
      } else {
        rows := rows[id := rows[id].(phase := Deleted, nextAttempt := Some(now + DELETED_RECHECK))];
      }
    }
  }

  function Protected(assets: Assets, id: nat, now: int): Assets {
    if id in assets && assets[id].phase in {Active, Retired}
    then assets[id := assets[id].(protectedUntil := MaxProtection(assets[id].protectedUntil, now + READ_PROTECTION))]
    else assets
  }

  /** At most one delivered asset per kind and owner. */
  ghost predicate OneDelivery(assets: Assets) {
    forall slot, a, b :: a in ActiveAssets(assets, slot) && b in ActiveAssets(assets, slot) ==> a == b
  }

  function Activated(assets: Assets, id: nat, owner: Option<int>): Assets
    requires id in assets
  {
    assets[id := assets[id].(phase := Active, activated := true, slot := Slot(assets[id].slot.kind, owner))]
  }

  /** The unique index lets the asset in exactly when no other one is delivered for its owner. */
  lemma IndexDecides(assets: Assets, id: nat, owner: Option<int>)
    requires OneDelivery(assets) && id in assets && assets[id].phase == Staged
    ensures OneDelivery(Activated(assets, id, owner)) <==> ActiveAssets(assets, Slot(assets[id].slot.kind, owner)) == {}
  {
    var after, slot := Activated(assets, id, owner), Slot(assets[id].slot.kind, owner);
    forall other ensures ActiveAssets(after, other) == ActiveAssets(assets, other) + if other == slot && owner.Some? then {id} else {} {
    }
    if x :| x in ActiveAssets(assets, slot) {
      assert x in ActiveAssets(after, slot) && id in ActiveAssets(after, slot) && x != id;
    }
  }

  predicate CanCommit(assets: Assets, id: nat, attempt: nat, kind: Name, owner: Option<int>) {
    MayActivate(assets, id, attempt) && (assets[id].slot.kind == kind || ActiveAssets(assets, Slot(assets[id].slot.kind, owner)) == {})
  }

  function Committed(assets: Assets, id: nat, kind: Name, owner: Option<int>, now: int): Assets
    requires id in assets
  {
    RetireAll(assets, ActiveAssets(assets, Slot(kind, owner)), now)[id := Activated(assets, id, owner)[id]]
  }

  // ------------------------------------------------------------------ runs

  /** One committed transaction of portal_file_asset_service.py. */
  datatype Step =
    | Claim(key: Name, request: Request, now: int, first: nat, second: nat)
    | Reject(key: Name, attempt: nat, now: int, status: int)
    | StageFile(key: Name, attempt: nat, now: int, id: nat, slot: Slot)
    | Apply(key: Name, attempt: nat, now: int, file: Option<nat>, kind: Name, owner: Option<int>, status: int)
    | GiveBack(key: Name, attempt: nat, now: int)
    | AbandonFile(id: nat, attempt: nat, now: int)
    | ReadFile(id: nat, now: int)
    | Upload(id: nat, confirmed: bool)
    | CleanUpFile(id: nat, now: int)
    | DeleteObject(id: nat)
    | RecordFile(id: nat, now: int, failed: bool)

  /**
   * `objects` are the files in storage, `uploaded` those whose upload returned
   * to its attempt, and `reclaimed` those that a clean-up decided to delete.
   */
  datatype FileState = FileState(
    ops: Operations,
    assets: Assets,
    clock: int,
    issued: set<nat>,
    objects: set<nat>,
    uploaded: set<nat>,
    reclaimed: set<nat>)

  const NO_FILES := FileState(map[], map[], 0, {}, {}, {}, {})

  /** One step on the asset rows outside an operation. */
  function AssetsAfter(s: FileState, step: Step): Assets {
    match step
    case AbandonFile(id, attempt, now) => AbandonedIn(s.assets, id, attempt, now)
    case ReadFile(id, now) => Protected(s.assets, id, now)
    case CleanUpFile(id, now) =>
      if id !in s.assets then s.assets else s.assets[id := Decided(s.assets[id], DecisionOn(s, id, now), now)]
    case RecordFile(id, now, failed) =>
      if id !in s.assets then s.assets else s.assets[id := Recorded(s.assets[id], now, failed)]
    case _ => s.assets
  }

  function DecisionOn(s: FileState, id: nat, now: int): Decision {
    if id !in s.assets then Done else ReclaimReason(s.assets[id], OperationOf(s.ops, s.assets[id].key), now)
  }

  /**
   * `require_attempt` is repeated at the start of each transaction; a failing
   * transaction changes nothing.  An attempt applies a file only after its
   * upload returned; an upload may also end late, or without an answer.
   */
  ghost predicate Next(s: FileState, step: Step, s': FileState) {
    match step
    case Claim(key, request, now, first, second) =>
      && s.clock <= now && first !in s.issued && second !in s.issued && first != second
      && s' == s.(clock := now, issued := s.issued + {first, second},
                  ops := Reserve(Portal, s.ops, key, request, now, now, first, second).0)
    case Reject(key, attempt, now, status) =>
      && s.clock <= now && 400 <= status
      && s' == s.(clock := now, ops := Finish(Portal, s.ops, key, attempt, now, status))
    case StageFile(key, attempt, now, id, slot) =>
      && s.clock <= now && id !in s.assets
      && s' == s.(clock := now,
                  assets := if Passes(s.ops, key, attempt, now) then s.assets[id := StagedAsset(slot, key, attempt, now)] else s.assets)
    case Apply(key, attempt, now, id, kind, owner, status) =>
      && s.clock <= now && status < 400 && (id.Some? ==> id.value in s.uploaded)
      && (id.Some? && id.value in s.assets ==> s.assets[id.value].slot.kind == kind)
      && s' == (if Passes(s.ops, key, attempt, now) && (id.Some? ==> CanCommit(s.assets, id.value, attempt, kind, owner)) then
                  s.(clock := now, ops := Finish(Portal, s.ops, key, attempt, now, status),
                     assets := if id.Some? then Committed(s.assets, id.value, kind, owner, now)
                               else RetireAll(s.assets, ActiveAssets(s.assets, Slot(kind, owner)), now))
                else s.(clock := now))
    case GiveBack(key, attempt, now) =>
      s.clock <= now && s' == s.(clock := now, ops := Release(Portal, s.ops, key, attempt, now))
    case Upload(id, confirmed) =>
      && id in s.assets && id !in s.uploaded
      && s' == s.(objects := s.objects + {id}, uploaded := if confirmed then s.uploaded + {id} else s.uploaded)
    case DeleteObject(id) =>
      id in s.reclaimed && s' == s.(objects := s.objects - {id})
    case _ =>
      && s.clock <= step.now
      && s' == s.(clock := step.now, assets := AssetsAfter(s, step),
                  reclaimed := if step.CleanUpFile? && DecisionOn(s, step.id, step.now) == Reclaim then s.reclaimed + {step.id} else s.reclaimed)
  }

  ghost predicate Run(states: seq<FileState>, steps: seq<Step>) {
    && |states| == |steps| + 1 && states[0] == NO_FILES.(clock := states[0].clock, issued := states[0].issued)
    && forall i :: 0 <= i < |steps| ==> Next(states[i], steps[i], states[i + 1])
  }

  predicate Readable(a: Asset) {
    a.phase == Active || a.phase == Retired
  }

  predicate Gone(a: Asset) {
    a.phase == DeletePending || a.phase == Deleted
  }

  /** Attempt ids belong to one operation each. */
  ghost predicate AttemptsAreOwned(s: FileState) {
    && (forall k :: k in s.ops ==> s.ops[k].attempt in s.issued)
    && (forall k, l :: k in s.ops && l in s.ops && s.ops[k].attempt == s.ops[l].attempt ==> k == l)
    && (forall id :: id in s.assets ==> s.assets[id].attempt in s.issued)
    && (forall id, k :: id in s.assets && k in s.ops && s.ops[k].attempt == s.assets[id].attempt ==> s.assets[id].key == k)
  }

  /** An asset that was ever delivered belongs to the attempt that finished its operation with success. */
  ghost predicate DeliveredByTheFinisher(s: FileState) {
    && (forall id :: id in s.assets && Readable(s.assets[id]) ==> s.assets[id].activated)
    && forall id :: id in s.assets && s.assets[id].activated ==>
      var a := s.assets[id];
      a.key in s.ops && s.ops[a.key].phase == Succeeded && s.ops[a.key].attempt == a.attempt
  }

  ghost predicate DeliveredOnce(s: FileState) {
    forall a, b :: a in s.assets && b in s.assets && s.assets[a].activated && s.assets[b].activated && s.assets[a].key == s.assets[b].key ==> a == b
  }

  ghost predicate Inv(s: FileState) {
    AttemptsAreOwned(s) && DeliveredByTheFinisher(s) && DeliveredOnce(s) && OneDelivery(s.assets)
  }

  lemma CommitKeepsOneDelivery(assets: Assets, id: nat, kind: Name, owner: Option<int>, now: int)
    requires OneDelivery(assets) && id in assets && assets[id].slot.kind == kind
    ensures OneDelivery(Committed(assets, id, kind, owner, now))
    ensures OneDelivery(RetireAll(assets, ActiveAssets(assets, Slot(kind, owner)), now))
  {
    var after := Committed(assets, id, kind, owner, now);
    forall slot, a, b | a in ActiveAssets(after, slot) && b in ActiveAssets(after, slot) ensures a == b {
      if slot == Slot(kind, owner) {
        assert forall x :: x in ActiveAssets(after, slot) ==> x == id;
      } else {
        assert a in ActiveAssets(assets, slot) && b in ActiveAssets(assets, slot);
      }
    }
    RetiringKeepsOneDelivery(assets, ActiveAssets(assets, Slot(kind, owner)), now);
  }

  lemma RetiringKeepsOneDelivery(assets: Assets, ids: set<nat>, now: int)
    requires OneDelivery(assets)
    ensures OneDelivery(RetireAll(assets, ids, now))
  {
    forall slot, a, b | a in ActiveAssets(RetireAll(assets, ids, now), slot) && b in ActiveAssets(RetireAll(assets, ids, now), slot) ensures a == b {
      assert a in ActiveAssets(assets, slot) && b in ActiveAssets(assets, slot);
    }
  }

  /** Rows that change without becoming active keep every slot's delivery. */
  lemma OtherChangesKeepOneDelivery(before: Assets, after: Assets)
    requires OneDelivery(before)
    requires forall id :: id in after && after[id].phase == Active ==> id in before && before[id].phase == Active && before[id].slot == after[id].slot
    ensures OneDelivery(after)
  {
    forall slot, a, b | a in ActiveAssets(after, slot) && b in ActiveAssets(after, slot) ensures a == b {
      assert a in ActiveAssets(before, slot) && b in ActiveAssets(before, slot);
    }
  }

  lemma StepKeepsDelivery(s: FileState, step: Step, s': FileState)
    requires Inv(s) && Next(s, step, s')
    ensures OneDelivery(s'.assets)
  {
    if step.Apply? {
      if step.file.Some? && step.file.value in s.assets {
        CommitKeepsOneDelivery(s.assets, step.file.value, step.kind, step.owner, step.now);
      } else if step.file.None? {
        RetiringKeepsOneDelivery(s.assets, ActiveAssets(s.assets, Slot(step.kind, step.owner)), step.now);
      }
    } else {
      ActiveOfStep(s, step, s');
      OtherChangesKeepOneDelivery(s.assets, s'.assets);
    }
  }

  lemma ActiveOfStep(s: FileState, step: Step, s': FileState)
    requires !step.Apply? && Next(s, step, s')
    ensures forall id :: id in s'.assets && s'.assets[id].phase == Active ==>
              id in s.assets && s.assets[id].phase == Active && s.assets[id].slot == s'.assets[id].slot
  {
  }

  /** The rows a step can leave behind: identity is kept, and only `Apply` delivers, once, the attempt's own file. */
  lemma AssetsOfStep(s: FileState, step: Step, s': FileState, id: nat)
    requires Next(s, step, s') && id in s'.assets
    ensures id !in s.assets ==> step.StageFile? && step.id == id && Passes(s.ops, step.key, step.attempt, step.now)
    ensures id !in s.assets ==> s'.assets[id] == StagedAsset(step.slot, step.key, step.attempt, step.now)
    ensures id in s.assets ==> s'.assets[id].key == s.assets[id].key && s'.assets[id].attempt == s.assets[id].attempt
    ensures id in s.assets && s'.assets[id].activated && !s.assets[id].activated ==>
              step.Apply? && step.file == Some(id) && Passes(s.ops, step.key, step.attempt, step.now) && s.assets[id].attempt == step.attempt
  {
  }

  /** Operations only appear, change owner while processing, or end; their attempt is an old or a new one. */
  lemma OpsOfStep(s: FileState, step: Step, s': FileState, key: Name)
    requires Next(s, step, s')
    ensures key in s.ops ==> key in s'.ops
    ensures key in s.ops && s.ops[key].phase != Processing ==> s'.ops[key] == s.ops[key]
    ensures key in s'.ops && !(key in s.ops && s'.ops[key].attempt == s.ops[key].attempt) ==>
              step.Claim? && step.key == key && s'.ops[key].attempt in {step.first, step.second}
    ensures s.issued <= s'.issued && (step.Claim? ==> s'.issued == s.issued + {step.first, step.second})
  {
  }

  lemma StepKeepsOwners(s: FileState, step: Step, s': FileState)
    requires AttemptsAreOwned(s) && Next(s, step, s')
    ensures AttemptsAreOwned(s')
  {
    forall k | k in s'.ops ensures s'.ops[k].attempt in s'.issued { OpsOfStep(s, step, s', k); }
    forall k, l | k in s'.ops && l in s'.ops && s'.ops[k].attempt == s'.ops[l].attempt ensures k == l {
      OpsOfStep(s, step, s', k);
      OpsOfStep(s, step, s', l);
    }
    forall id | id in s'.assets ensures s'.assets[id].attempt in s'.issued {
      AssetsOfStep(s, step, s', id);
    }
    forall id, k | id in s'.assets && k in s'.ops && s'.ops[k].attempt == s'.assets[id].attempt ensures s'.assets[id].key == k {
      AssetsOfStep(s, step, s', id);
      OpsOfStep(s, step, s', k);
    }
  }

  lemma StepKeepsFinisher(s: FileState, step: Step, s': FileState)
    requires Inv(s) && Next(s, step, s')
    ensures DeliveredByTheFinisher(s')
  {
    forall id | id in s'.assets && s'.assets[id].activated
      ensures var a := s'.assets[id]; a.key in s'.ops && s'.ops[a.key].phase == Succeeded && s'.ops[a.key].attempt == a.attempt
    {
      AssetsOfStep(s, step, s', id);
      OpsOfStep(s, step, s', s'.assets[id].key);
    }
  }

  lemma StepKeepsOnce(s: FileState, step: Step, s': FileState)
    requires Inv(s) && Next(s, step, s')
    ensures DeliveredOnce(s')
  {
    forall a, b | a in s'.assets && b in s'.assets && s'.assets[a].activated && s'.assets[b].activated && s'.assets[a].key == s'.assets[b].key
      ensures a == b
    {
      AssetsOfStep(s, step, s', a);
      AssetsOfStep(s, step, s', b);
    }
  }

  lemma StepKeepsInv(s: FileState, step: Step, s': FileState)
    requires Inv(s) && Next(s, step, s')
    ensures Inv(s')
  {
    StepKeepsDelivery(s, step, s');
    StepKeepsOwners(s, step, s');
    StepKeepsFinisher(s, step, s');
    StepKeepsOnce(s, step, s');
  }

  /**
   * Main result: in every run each operation key delivers at most one asset,
   * only through the attempt that finished it with success, and every kind
   * and owner has at most one delivered asset.
   */
  lemma {:induction false} EachKeyDeliversOnce(states: seq<FileState>, steps: seq<Step>, i: nat)
    requires Run(states, steps) && i <= |steps|
    ensures Inv(states[i])
  {
    if i > 0 {
      EachKeyDeliversOnce(states, steps, i - 1);
      assert Next(states[i - 1], steps[i - 1], states[i]);
      StepKeepsInv(states[i - 1], steps[i - 1], states[i]);
    }
  }

  function LifeStage(a: Asset): nat {
    match a.phase
    case Staged => 0
    case Active => 1
    case Retired => 2
    case _ => 3
  }

  /** The asset life cycle: staged, active, retired, given to clean-up, and never back. */
  ghost predicate Advances(a: Asset, b: Asset) {
    && b.key == a.key && b.attempt == a.attempt && b.created == a.created
    && LifeStage(a) <= LifeStage(b) && (a.activated ==> b.activated)
    && (a.protectedUntil.Some? ==> b.protectedUntil.Some? && a.protectedUntil.value <= b.protectedUntil.value)
  }

  lemma StepAdvances(s: FileState, step: Step, s': FileState, id: nat)
    requires Next(s, step, s') && id in s.assets
    ensures id in s'.assets && Advances(s.assets[id], s'.assets[id])
  {
  }

  /** Every run only moves assets forward and never shortens a reader's protection, not even by retiring. */
  lemma {:induction false} AssetsAdvance(states: seq<FileState>, steps: seq<Step>, i: nat, j: nat, id: nat)
    requires Run(states, steps) && i <= j <= |steps| && id in states[i].assets
    ensures id in states[j].assets && Advances(states[i].assets[id], states[j].assets[id])
    decreases j
  {
    if i < j {
      AssetsAdvance(states, steps, i, j - 1, id);
      StepAdvances(states[j - 1], steps[j - 1], states[j], id);
    }
  }

  // ------------------------------------------------------------------ clean-up and readers

  /** Readable files are in storage; a clean-up only deletes what is marked; what was uploaded stays until then. */
  ghost predicate StorageInv(s: FileState) {
    && (forall id :: id in s.assets && Readable(s.assets[id]) ==> id in s.objects)
    && (forall id :: id in s.reclaimed ==> id in s.assets && Gone(s.assets[id]))
    && (forall id :: id in s.uploaded ==> id in s.reclaimed || id in s.objects)
  }

  /** A step makes a file readable only by applying it, and marks what it reclaims. */
  lemma ReadableAfterStep(s: FileState, step: Step, s': FileState, id: nat)
    requires Next(s, step, s') && id in s'.assets && Readable(s'.assets[id])
    ensures id in s.assets && (Readable(s.assets[id]) || (step.Apply? && step.file == Some(id) && id in s.uploaded && !Gone(s.assets[id])))
  {
  }

  lemma ReclaimedAfterStep(s: FileState, step: Step, s': FileState, id: nat)
    requires Next(s, step, s') && id in s'.reclaimed && (id in s.reclaimed ==> id in s.assets && Gone(s.assets[id]))
    ensures id in s'.assets && Gone(s'.assets[id])
  {
    if id in s.reclaimed {
      StepAdvances(s, step, s', id);
    }
  }

  lemma StepKeepsStorage(s: FileState, step: Step, s': FileState)
    requires StorageInv(s) && Next(s, step, s')
    ensures StorageInv(s')
  {
    forall id | id in s'.assets && Readable(s'.assets[id]) ensures id in s'.objects {
      ReadableAfterStep(s, step, s', id);
    }
    forall id | id in s'.reclaimed ensures id in s'.assets && Gone(s'.assets[id]) {
      ReclaimedAfterStep(s, step, s', id);
    }
  }

  /** A file that can be delivered is in storage, whatever uploads, attempts and clean-ups do. */
  lemma {:induction false} DeliveredFilesAreStored(states: seq<FileState>, steps: seq<Step>, i: nat)
    requires Run(states, steps) && i <= |steps|
    ensures StorageInv(states[i])
  {
    if i > 0 {
      DeliveredFilesAreStored(states, steps, i - 1);
      StepKeepsStorage(states[i - 1], steps[i - 1], states[i]);
    }
  }

  /** The attempt still owns its operation, and its staged file waits for it. */
  ghost predicate Waits(s: FileState, key: Name, attempt: nat, id: nat) {
    Passes(s.ops, key, attempt, s.clock) && id in s.assets && s.assets[id].key == key && s.assets[id].attempt == attempt && s.assets[id].phase == Staged
  }

  /** The step abandons the file. */
  predicate Abandons(step: Step, id: nat) {
    step.AbandonFile? && step.id == id
  }

  lemma StepKeepsWaiting(s: FileState, step: Step, s': FileState, key: Name, attempt: nat, id: nat)
    requires AttemptsAreOwned(s) && Next(s, step, s') && Waits(s, key, attempt, id) && !Abandons(step, id)
    requires Passes(s'.ops, key, attempt, s'.clock)
    ensures Waits(s', key, attempt, id)
  {
  }

  /** An attempt that passes now passed before, from its claim on. */
  lemma PassedBefore(s: FileState, step: Step, s': FileState, key: Name, attempt: nat)
    requires AttemptsAreOwned(s) && Next(s, step, s') && attempt in s.issued && Passes(s'.ops, key, attempt, s'.clock)
    ensures Passes(s.ops, key, attempt, s.clock)
  {
  }

  /** As long as its attempt owns the operation and does not abandon it, a staged file stays staged, whatever others and clean-up do. */
  lemma {:induction false} StagedFilesWait(states: seq<FileState>, steps: seq<Step>, i: nat, j: nat, key: Name, attempt: nat, id: nat)
    requires Run(states, steps) && i <= j <= |steps| && Waits(states[i], key, attempt, id)
    requires forall m :: i <= m < j ==> !Abandons(steps[m], id)
    requires Passes(states[j].ops, key, attempt, states[j].clock)
    ensures Waits(states[j], key, attempt, id)
    decreases j
  {
    if i < j {
      EachKeyDeliversOnce(states, steps, i);
      EachKeyDeliversOnce(states, steps, j - 1);
      AttemptsStayIssued(states, steps, i, j - 1, attempt);
      PassedBefore(states[j - 1], steps[j - 1], states[j], key, attempt);
      StagedFilesWait(states, steps, i, j - 1, key, attempt, id);
      StepKeepsWaiting(states[j - 1], steps[j - 1], states[j], key, attempt, id);
    }
  }

  /** What the attempt uploaded is still there when it comes to apply it. */
  lemma WaitingFilesAreStored(states: seq<FileState>, steps: seq<Step>, j: nat, key: Name, attempt: nat, id: nat)
    requires Run(states, steps) && j <= |steps| && Waits(states[j], key, attempt, id) && id in states[j].uploaded
    ensures id in states[j].objects
  {
    DeliveredFilesAreStored(states, steps, j);
  }

  lemma {:induction false} AttemptsStayIssued(states: seq<FileState>, steps: seq<Step>, i: nat, j: nat, attempt: nat)
    requires Run(states, steps) && i <= j <= |steps| && attempt in states[i].issued
    ensures attempt in states[j].issued
    decreases j
  {
    if i < j {
      AttemptsStayIssued(states, steps, i, j - 1, attempt);
      assert Next(states[j - 1], steps[j - 1], states[j]);
    }
  }

  /**
   * Applying a file: afterwards it is the one delivered asset of its owner, the
   * one before it is retired from this moment on, the operation has its
   * result, and no other asset changed.
   */
  lemma ApplyDelivers(s: FileState, step: Step, s': FileState, id: nat)
    requires OneDelivery(s.assets) && Next(s, step, s') && step.Apply? && step.file == Some(id) && step.owner.Some?
    requires Passes(s.ops, step.key, step.attempt, step.now) && CanCommit(s.assets, id, step.attempt, step.kind, step.owner)
    ensures ActiveAssets(s'.assets, Slot(step.kind, step.owner)) == {id}
    ensures s'.assets[id].slot == Slot(step.kind, step.owner) && s'.assets[id].activated
    ensures forall a :: a in ActiveAssets(s.assets, Slot(step.kind, step.owner)) ==>
              s'.assets[a] == s.assets[a].(phase := Retired, retired := Some(step.now), nextAttempt := Some(step.now))
    ensures forall a :: a in s.assets && a != id && a !in ActiveAssets(s.assets, Slot(step.kind, step.owner)) ==> a in s'.assets && s'.assets[a] == s.assets[a]
    ensures step.key in s'.ops && s'.ops[step.key].phase == Succeeded && s'.ops[step.key].status == step.status
  {
  }

  /** Staging adds one row of the attempt, made now and never delivered, exactly while the attempt passes. */
  lemma StagingAddsTheFile(s: FileState, step: Step, s': FileState)
    requires step.StageFile? && Next(s, step, s')
    ensures step.id in s'.assets <==> Passes(s.ops, step.key, step.attempt, step.now)
    ensures step.id in s'.assets ==>
              var a := s'.assets[step.id];
              && a.slot == step.slot && a.key == step.key && a.attempt == step.attempt && a.phase == Staged && a.created == step.now
              && !a.activated && a.retired.None? && a.protectedUntil.None? && a.nextAttempt.None? && a.retries == 0
    ensures forall id :: id in s.assets ==> id in s'.assets && s'.assets[id] == s.assets[id]
  {
  }

  /** Abandoning gives exactly the attempt's own staged file to clean-up, due at once. */
  lemma AbandoningTakesTheFile(s: FileState, step: Step, s': FileState)
    requires step.AbandonFile? && Next(s, step, s')
    ensures s'.assets.Keys == s.assets.Keys && s'.ops == s.ops && s'.objects == s.objects
    ensures forall id :: id in s.assets && !(id == step.id && MayActivate(s.assets, id, step.attempt)) ==> s'.assets[id] == s.assets[id]
    ensures MayActivate(s.assets, step.id, step.attempt) ==> s'.assets[step.id] == s.assets[step.id].(phase := DeletePending, nextAttempt := Some(step.now))
  {
  }

  /**
   * A look of clean-up marks exactly what may be reclaimed, and puts the next
   * look at a row that is still needed off by a quarter of an hour.  No object
   * is deleted yet, and no other row changes.
   */
  lemma CleanUpDecides(s: FileState, step: Step, s': FileState)
    requires step.CleanUpFile? && Next(s, step, s') && step.id in s.assets
    ensures s'.assets.Keys == s.assets.Keys && s'.ops == s.ops && s'.objects == s.objects && s'.uploaded == s.uploaded
    ensures forall id :: id in s.assets && id != step.id ==> s'.assets[id] == s.assets[id]
    ensures var a, b := s.assets[step.id], s'.assets[step.id];
            var reason := ReclaimReason(a, if a.key in s.ops then Some(s.ops[a.key]) else None, step.now);
            && (reason == Reclaim ==> b == (if a.phase == Deleted then a else a.(phase := DeletePending)) && s'.reclaimed == s.reclaimed + {step.id})
            && (reason == Done ==> b == a && s'.reclaimed == s.reclaimed)
            && (reason != Reclaim && reason != Done ==> b == a.(nextAttempt := Some(step.now + 15 * 60 * SECOND)) && s'.reclaimed == s.reclaimed)
  {
  }

  /** Objects come by uploads for their staged rows and go by deletions of what was marked; a confirmed upload is remembered. */
  lemma ObjectsComeAndGo(s: FileState, step: Step, s': FileState)
    requires Next(s, step, s')
    ensures step.Upload? ==> step.id in s.assets && step.id !in s.uploaded
    ensures step.Upload? ==> s' == s.(objects := s.objects + {step.id}, uploaded := s'.uploaded) && s'.uploaded == if step.confirmed then s.uploaded + {step.id} else s.uploaded
    ensures step.DeleteObject? ==> step.id in s.reclaimed && step.id !in s'.objects && s'.objects + {step.id} == s.objects + {step.id} && s'.assets == s.assets
    ensures !step.Upload? && !step.DeleteObject? ==> s'.objects == s.objects && s'.uploaded == s.uploaded
  {
  }

  /** A committed delivery protects exactly the asset it reads, for a quarter of an hour or as long as it was protected before. */
  lemma ReadingProtects(s: FileState, step: Step, s': FileState)
    requires step.ReadFile? && Next(s, step, s') && step.id in s.assets && Readable(s.assets[step.id])
    ensures s'.assets.Keys == s.assets.Keys && forall id :: id in s.assets && id != step.id ==> s'.assets[id] == s.assets[id]
    ensures var before, until := s.assets[step.id].protectedUntil, step.now + 15 * 60 * SECOND;
            s'.assets[step.id] == s.assets[step.id].(protectedUntil := Some(if before.Some? && before.value > until then before.value else until))
  {
  }

  /** After a deletion the row is deleted and due once more a day later; after that look, never again; a failed one is due after its wait. */
  lemma RecordingPutsOff(s: FileState, step: Step, s': FileState)
    requires step.RecordFile? && Next(s, step, s') && step.id in s.assets && Gone(s.assets[step.id])
    ensures s'.assets.Keys == s.assets.Keys && forall id :: id in s.assets && id != step.id ==> s'.assets[id] == s.assets[id]
    ensures var a, b := s.assets[step.id], s'.assets[step.id];
            if step.failed then b == a.(phase := DeletePending, retries := a.retries + 1, nextAttempt := Some(step.now + Backoff(a.retries + 1)))
            else if a.phase == Deleted then b == a.(nextAttempt := None)
            else b == a.(phase := Deleted, nextAttempt := Some(step.now + 24 * 60 * 60 * SECOND))
  {
  }

  /** The attempt's own staged file of the kind can always be committed, whatever is delivered at the time; one of another kind only when nothing of that kind is. */
  lemma CommitsExactlyWhen(assets: Assets, id: nat, attempt: nat, kind: Name, owner: Option<int>)
    requires id in assets
    ensures CanCommit(assets, id, attempt, assets[id].slot.kind, owner) <==> assets[id].phase == Staged && assets[id].attempt == attempt
    ensures kind != assets[id].slot.kind ==>
              (CanCommit(assets, id, attempt, kind, owner) <==> MayActivate(assets, id, attempt) && ActiveAssets(assets, Slot(assets[id].slot.kind, owner)) == {})
  {
  }

  /** Applying without a file retires what is delivered for the owner and stores the result; nothing else changes. */
  lemma ApplyWithoutFile(s: FileState, step: Step, s': FileState)
    requires Next(s, step, s') && step.Apply? && step.file.None? && Passes(s.ops, step.key, step.attempt, step.now)
    ensures ActiveAssets(s'.assets, Slot(step.kind, step.owner)) == {}
    ensures forall a :: a in ActiveAssets(s.assets, Slot(step.kind, step.owner)) ==>
              s'.assets[a] == s.assets[a].(phase := Retired, retired := Some(step.now), nextAttempt := Some(step.now))
    ensures s'.assets.Keys == s.assets.Keys && forall a :: a in s.assets && a !in ActiveAssets(s.assets, Slot(step.kind, step.owner)) ==> s'.assets[a] == s.assets[a]
    ensures step.key in s'.ops && s'.ops[step.key].phase == Succeeded && s'.ops[step.key].status == step.status
  {
  }

  /** Claiming, refusing and giving back are those of the portal form of the leases, and concern no file. */
  lemma OperationSteps(s: FileState, step: Step, s': FileState)
    requires Next(s, step, s') && (step.Claim? || step.Reject? || step.GiveBack?)
    ensures s'.assets == s.assets && s'.objects == s.objects && s'.clock == step.now
    ensures step.Claim? && (step.key !in s.ops || (step.request == s.ops[step.key].request && Resumable(s.ops[step.key], step.now))) ==>
              var attempt := if step.key in s.ops then step.second else step.first;
              forall t :: Passes(s'.ops, step.key, attempt, t) <==> t < step.now + LEASE
    ensures step.Claim? && step.key in s.ops && !(step.request == s.ops[step.key].request && Resumable(s.ops[step.key], step.now)) && s'.ops != s.ops ==>
              s.ops[step.key].phase == Processing && SameRequest(Portal, s.ops[step.key].request, step.request)
    ensures step.Reject? && Passes(s.ops, step.key, step.attempt, step.now) ==> s'.ops[step.key].phase == Rejected && s'.ops[step.key].status == step.status
    ensures step.GiveBack? && Passes(s.ops, step.key, step.attempt, step.now) ==> s'.ops[step.key] == s.ops[step.key].(leaseUntil := step.now)
  {
  }

  /** An attempt that does not pass changes nothing but the time. */
  lemma LostAttemptsDoNothing(s: FileState, step: Step, s': FileState)
    requires Next(s, step, s') && (step.StageFile? || step.Apply? || step.Reject?) && !Passes(s.ops, step.key, step.attempt, step.now)
    ensures s' == s.(clock := step.now)
  {
  }

  ghost predicate ProtectedReading(s: FileState, id: nat, until: int) {
    && id in s.assets && Readable(s.assets[id])
    && s.assets[id].protectedUntil.Some? && until <= s.assets[id].protectedUntil.value
  }

  lemma StepKeepsReading(s: FileState, step: Step, s': FileState, id: nat, until: int)
    requires ProtectedReading(s, id, until) && Next(s, step, s') && s'.clock < until
    ensures ProtectedReading(s', id, until) && s.clock <= s'.clock
  {
    StepAdvances(s, step, s', id);
  }

  lemma ClockNeverBack(s: FileState, step: Step, s': FileState)
    requires Next(s, step, s')
    ensures s.clock <= s'.clock
  {
  }

  lemma {:induction false} ReadingGoesOn(states: seq<FileState>, steps: seq<Step>, i: nat, j: nat, id: nat, until: int)
    requires Run(states, steps) && i <= j <= |steps| && ProtectedReading(states[i], id, until) && states[j].clock < until
    ensures ProtectedReading(states[j], id, until)
    decreases j
  {
    if i < j {
      ClockNeverBack(states[j - 1], steps[j - 1], states[j]);
      ReadingGoesOn(states, steps, i, j - 1, id, until);
      StepKeepsReading(states[j - 1], steps[j - 1], states[j], id, until);
    }
  }

  /**
   * A delivery that committed its protection finds its file for as long as it
   * promised, even if the file is retired and cleaned up in the meantime.
   */
  lemma ReadersAreServed(states: seq<FileState>, steps: seq<Step>, i: nat, j: nat, id: nat)
    requires Run(states, steps) && i < j <= |steps| && steps[i].ReadFile? && steps[i].id == id
    requires id in states[i].assets && Readable(states[i].assets[id])
    requires states[j].clock < steps[i].now + 15 * 60 * SECOND
    ensures id in states[j].objects
  {
    ReadingGoesOn(states, steps, i + 1, j, id, steps[i].now + READ_PROTECTION);
    DeliveredFilesAreStored(states, steps, j);
  }
}
