/**
 * The statements of metronome_repository.py on the rows of one owner.  Each
 * method is one transaction; the contracts name the step of Metronome it is.
 */
module MetronomeStore {
  import opened Prelude
  import opened Metronome

  ghost predicate Admits(groups: map<GroupKey, Group>, x: nat, g: Group) {
    GroupOk(g) && GroupKey(x, g.ordinal) !in groups && forall k :: k in groups && k.session == x ==> groups[k].place != g.place
  }

  /** Every row formed by the groups is one of them. */
  lemma {:induction false} RowsComeFromGroups(x: nat, gs: seq<Group>, k: GroupKey)
    requires k in GroupRows(x, gs)
    ensures GroupRows(x, gs)[k] in gs && GroupRows(x, gs)[k].ordinal == k.ordinal
  {
    var rest := gs[..|gs| - 1];
    if k != GroupKey(x, gs[|gs| - 1].ordinal) {
      RowsComeFromGroups(x, rest, k);
    }
  }

  /** Every fitting group has its row. */
  lemma {:induction false} GroupsHaveRows(x: nat, gs: seq<Group>, j: nat)
    requires GroupsFit(gs) && j < |gs|
    ensures GroupKey(x, gs[j].ordinal) in GroupRows(x, gs) && GroupRows(x, gs)[GroupKey(x, gs[j].ordinal)] == gs[j]
  {
    var rest := gs[..|gs| - 1];
    if j < |rest| {
      assert forall i :: 0 <= i < |rest| ==> rest[i] == gs[i];
      GroupsHaveRows(x, rest, j);
    }
  }

  /** The row constraints accept the next group exactly when the longer list fits. */
  lemma {:induction false} AdmittedGroupFits(base: map<GroupKey, Group>, x: nat, done: seq<Group>, g: Group)
    requires RowsOf(base, x) == map[] && GroupsFit(done)
    ensures Admits(base + GroupRows(x, done), x, g) <==> GroupsFit(done + [g])
  {
    if GroupsFit(done + [g]) {
      FitsIsAdmitted(base, x, done, g);
    }
    if Admits(base + GroupRows(x, done), x, g) {
      AdmittedFits(base + GroupRows(x, done), x, done, g);
    }
  }

  lemma {:induction false} FitsIsAdmitted(base: map<GroupKey, Group>, x: nat, done: seq<Group>, g: Group)
    requires RowsOf(base, x) == map[] && GroupsFit(done) && GroupsFit(done + [g])
    ensures Admits(base + GroupRows(x, done), x, g)
  {
    FittingGroupIsNew(x, done, g);
    assert (done + [g])[|done|] == g;
    forall k | k in base ensures k.session != x {
      assert k in RowsOf(base, x) <==> k.session == x;
    }
  }

  lemma {:induction false} AdmittedFits(groups: map<GroupKey, Group>, x: nat, done: seq<Group>, g: Group)
    requires GroupsFit(done) && Admits(groups, x, g)
    requires forall k :: k in GroupRows(x, done) ==> k in groups && groups[k] == GroupRows(x, done)[k]
    ensures GroupsFit(done + [g])
  {
    forall a | 0 <= a < |done| ensures done[a].ordinal != g.ordinal && done[a].place != g.place {
      GroupsHaveRows(x, done, a);
      assert GroupKey(x, done[a].ordinal) in groups;
    }
    NewGroupFits(done, g);
  }

  lemma NewGroupFits(done: seq<Group>, g: Group)
    requires GroupsFit(done) && GroupOk(g) && forall a :: 0 <= a < |done| ==> done[a].ordinal != g.ordinal && done[a].place != g.place
    ensures GroupsFit(done + [g])
  {
  }

  lemma {:induction false} FittingGroupIsNew(x: nat, done: seq<Group>, g: Group)
    requires GroupsFit(done) && GroupsFit(done + [g])
    ensures forall k :: k in GroupRows(x, done) ==> GroupRows(x, done)[k].place != g.place && k.ordinal != g.ordinal
  {
    forall k | k in GroupRows(x, done) ensures GroupRows(x, done)[k].place != g.place && k.ordinal != g.ordinal {
      RowsComeFromGroups(x, done, k);
      var j :| 0 <= j < |done| && done[j] == GroupRows(x, done)[k];
      assert (done + [g])[j] == done[j] && (done + [g])[|done|] == g;
    }
  }

  lemma PrefixFits(gs: seq<Group>, i: nat)
    requires i <= |gs| && GroupsFit(gs)
    ensures GroupsFit(gs[..i])
  {
  }

  class MetronomeRepository {
    var revoked: bool
    var preferences: Option<Preferences>
    var sessions: map<nat, Session>
    var parts: map<nat, Part>
    var groups: map<GroupKey, Group>
    var tombstones: set<nat>
    var operations: map<nat, Operation>

    function Snapshot(): Owner
      reads this
    {
      Owner(revoked, preferences, sessions, parts, groups, tombstones, operations)
    }

    constructor ()
      ensures Snapshot() == NEW_OWNER
    {
      revoked, preferences, sessions, parts, groups, tombstones, operations := false, None, map[], map[], map[], {}, map[];
    }

    /** `DELETE FROM metronome_sessions` with its ON DELETE CASCADE. */
    method DeleteSessions(gone: set<nat>)
      modifies this`sessions, this`parts, this`groups
      ensures Snapshot() == WithoutSessions(old(Snapshot()), gone)
    {
      sessions := sessions - gone;
      parts := parts - gone;
      groups := map k | k in groups && k.session !in gone :: groups[k];
    }

    method PutPreferences(expected: nat, consent: bool) returns (r: Outcome)
      modifies this
      ensures (Snapshot(), r) == DoPutPreferences(old(Snapshot()), expected, consent)
    {
      var locked := Lock(Snapshot(), None, None, false);
      if locked.Err? {
        return Err(locked.error);
      }
      var p := locked.value;
      if expected != p.revision {
        return Err(RevisionConflict);
      }
      var bump := if consent != p.consent then 1 else 0;
      ghost var pending := InUpload(Snapshot());
      preferences := Some(Preferences(p.epoch, p.revision + 1, p.consentRevision + bump, consent));
      if bump == 1 && !consent {
        var uploading := set x | x in sessions && sessions[x].status == Uploading;
        assert uploading == pending;
        DeleteSessions(uploading);
      }
      return Ok(Prefs(preferences.value));
    }

    method CreateSession(x: nat, epoch: nat, consentRevision: nat, data: SessionData, limit: nat) returns (r: Outcome)
      modifies this`sessions
      ensures (Snapshot(), r) == DoCreate(old(Snapshot()), x, epoch, consentRevision, data, limit)
    {
      var locked := Lock(Snapshot(), Some(epoch), Some(consentRevision), true);
      if locked.Err? {
        return Err(locked.error);
      }
      if x in tombstones {
        return Err(Tombstoned);
      }
      if x in sessions {
        if sessions[x].data.contentHash != data.contentHash {
          return Err(SessionConflict);
        }
        return Ok(Stored(sessions[x].status, false));
      }
      if |sessions| >= limit {
        return Err(StorageLimit);
      }
      if !CountsOk(data) {
        return Err(ConstraintViolation);
      }
      sessions := sessions[x := Session(epoch, Uploading, data)];
      return Ok(Stored(Uploading, true));
    }

    method PutPart(x: nat, epoch: nat, consentRevision: nat, hash: Name, gs: seq<Group>) returns (r: Outcome)
      modifies this`parts
      ensures (Snapshot(), r) == DoPutPart(old(Snapshot()), x, epoch, consentRevision, hash, gs)
    {
      var locked := Lock(Snapshot(), Some(epoch), Some(consentRevision), true);
      if locked.Err? {
        return Err(locked.error);
      }
      if x !in sessions {
        return Err(NotFound);
      }
      if sessions[x].status != Uploading {
        if x !in parts {
          return Ok(PartStored(true));
        }
      }
      if x in parts {
        if parts[x].hash != hash {
          return Err(PartConflict);
        }
        return Ok(PartStored(false));
      }
      if |gs| > 256 {
        return Err(ConstraintViolation);
      }
      parts := parts[x := Part(hash, gs)];
      return Ok(PartStored(false));
    }

    /** The two sums of the partition check. */
    method SumCounts(gs: seq<Group>) returns (target: int, valid: int)
      ensures target == SumTarget(gs) && valid == SumValid(gs)
    {
      target, valid := 0, 0;
      for i := 0 to |gs|
        invariant target == SumTarget(gs[..i]) && valid == SumValid(gs[..i])
      {
        assert gs[..i + 1][..i] == gs[..i];
        target, valid := target + gs[i].target, valid + gs[i].valid;
      }
      assert gs[..|gs|] == gs;
    }

    /** `INSERT INTO metronome_summary_groups` of one row under its constraints. */
    method InsertGroup(x: nat, g: Group) returns (ok: bool)
      modifies this`groups
      ensures ok <==> Admits(old(groups), x, g)
      ensures groups == if ok then old(groups)[GroupKey(x, g.ordinal) := g] else old(groups)
    {
      ok := GroupOk(g) && GroupKey(x, g.ordinal) !in groups && forall k | k in groups :: k.session == x ==> groups[k].place != g.place;
      if ok {
        groups := groups[GroupKey(x, g.ordinal) := g];
      }
    }

    /** The insert loop of `finalize`; a violated constraint stops it. */
    method InsertGroups(x: nat, gs: seq<Group>) returns (ok: bool)
      requires RowsOf(groups, x) == map[]
      modifies this`groups
      ensures ok <==> GroupsFit(gs)
      ensures ok ==> groups == old(groups) + GroupRows(x, gs)
    {
      for i := 0 to |gs|
        invariant GroupsFit(gs[..i])
        invariant groups == old(groups) + GroupRows(x, gs[..i])
      {
        AdmittedGroupFits(old(groups), x, gs[..i], gs[i]);
        assert gs[..i + 1] == gs[..i] + [gs[i]] && gs[..i + 1][..i] == gs[..i];
        ok := InsertGroup(x, gs[i]);
        if !ok {
          if GroupsFit(gs) { PrefixFits(gs, i + 1); }
          return;
        }
      }
      assert gs[..|gs|] == gs;
      return true;
    }

    method Finalize(x: nat, epoch: nat, consentRevision: nat, hash: Name, groupCount: int, status: Status) returns (r: Outcome)
      requires Inv(Snapshot())
      modifies this
      ensures (Snapshot(), r) == DoFinalize(old(Snapshot()), x, epoch, consentRevision, hash, groupCount, status)
    {
      var locked := Lock(Snapshot(), Some(epoch), Some(consentRevision), true);
      if locked.Err? {
        return Err(locked.error);
      }
      if x !in sessions {
        return Err(NotFound);
      }
      if sessions[x].status != Uploading {
        return Ok(Finalized(sessions[x].status));
      }
      if groupCount != sessions[x].data.groups {
        return Err(SessionConflict);
      }
      if x !in parts || parts[x].hash != hash {
        return Err(PartConflict);
      }
      var gs := parts[x].groups;
      if |gs| != groupCount {
        return Err(SessionConflict);
      }
      var target, valid := SumCounts(gs);
      if groupCount != 0 && (target != sessions[x].data.target || valid != sessions[x].data.valid) {
        return Err(SessionConflict);
      }
      var backup := groups;
      assert RowsOf(groups, x) == map[];
      var ok := InsertGroups(x, gs);
      if !ok {
        groups := backup;
        return Err(ConstraintViolation);
      }
      sessions := sessions[x := sessions[x].(status := status)];
      parts := parts - {x};
      return Ok(Finalized(status));
    }

    method DeleteSession(x: nat, operation: nat, epoch: nat) returns (r: Outcome)
      modifies this
      ensures (Snapshot(), r) == DoDeleteSession(old(Snapshot()), x, operation, epoch)
    {
      var hash := SessionDeletion(x, epoch);
      var locked := Lock(Snapshot(), None, None, false);
      if locked.Err? {
        return Err(locked.error);
      }
      if operation in operations {
        if operations[operation].hash != hash {
          return Err(OperationConflict);
        }
        return Ok(operations[operation].response);
      }
      locked := Lock(Snapshot(), Some(epoch), None, false);
      if locked.Err? {
        return Err(locked.error);
      }
      if x !in sessions {
        return Err(NotFound);
      }
      tombstones := tombstones + {x};
      DeleteSessions({x});
      operations := operations[operation := Operation(hash, SessionDeleted(x))];
      return Ok(SessionDeleted(x));
    }

    method DeleteHistory(operation: nat, epoch: nat) returns (r: Outcome)
      modifies this
      ensures (Snapshot(), r) == DoDeleteHistory(old(Snapshot()), operation, epoch)
    {
      var hash := HistoryDeletion(epoch);
      var locked := Lock(Snapshot(), None, None, false);
      if locked.Err? {
        return Err(locked.error);
      }
      if operation in operations {
        if operations[operation].hash != hash {
          return Err(OperationConflict);
        }
        return Ok(operations[operation].response);
      }
      locked := Lock(Snapshot(), Some(epoch), None, false);
      if locked.Err? {
        return Err(locked.error);
      }
      var deleted := |sessions|;
      DeleteSessions(sessions.Keys);
      tombstones := {};
      preferences := Some(preferences.value.(epoch := preferences.value.epoch + 1));
      var response := HistoryDeleted(preferences.value.epoch, deleted);
      operations := operations[operation := Operation(hash, response)];
      return Ok(response);
    }
  }
}
