/**
 * Metronome practice history of one owner: consent, history epochs, upload,
 * finalization and replay-safe deletion
 * (src/backend/repositories/metronome_repository.py).
 */
module Metronome {
  import opened Prelude

  datatype Status = Uploading | Complete | Incomplete

  datatype Preferences = Preferences(epoch: nat, revision: nat, consentRevision: nat, consent: bool)

  /** A JSON value; only whether it is an object matters to a constraint. */
  datatype Json = Object(text: Name) | Other(text: Name)

  datatype SessionData = SessionData(
    contentHash: Name,
    duration: int,
    target: int,
    valid: int,
    localDetail: int,
    extraDetail: int,
    extraTotal: int,
    groups: int,
    versions: Json,
    score: Json)

  datatype Session = Session(epoch: nat, status: Status, data: SessionData)

  /** `place` stands for the condition, layer and beat position keys. */
  datatype Group = Group(ordinal: int, place: Name, target: int, valid: int, extra: int, stats: Json, quality: Json)

  datatype Part = Part(hash: Name, groups: seq<Group>)

  datatype GroupKey = GroupKey(session: nat, ordinal: int)

  /** Hashes of delete requests; the hash is taken to be injective. */
  datatype RequestHash = SessionDeletion(session: nat, epoch: nat) | HistoryDeletion(epoch: nat)

  datatype Response =
    | Prefs(preferences: Preferences)
    | Stored(status: Status, created: bool)
    | PartStored(alreadyFinalized: bool)
    | Finalized(status: Status)
    | SessionDeleted(session: nat)
    | HistoryDeleted(epoch: nat, count: nat)

  datatype Error =
    | OwnerRevoked | EpochMismatch | ConsentRevision | ConsentRequired | Tombstoned
    | RevisionConflict | SessionConflict | PartConflict | OperationConflict | NotFound | StorageLimit | ConstraintViolation

  datatype Operation = Operation(hash: RequestHash, response: Response)

  /** All rows of one owner. */
  datatype Owner = Owner(
    revoked: bool,
    preferences: Option<Preferences>,
    sessions: map<nat, Session>,
    parts: map<nat, Part>,
    groups: map<GroupKey, Group>,
    tombstones: set<nat>,
    operations: map<nat, Operation>)

  type Outcome = Result<Response, Error>

  datatype Step =
    | Resolve
    | Revoke
    | PutPreferences(expected: nat, consent: bool)
    | CreateSession(session: nat, epoch: nat, consentRevision: nat, data: SessionData, limit: nat)
    | PutPart(session: nat, epoch: nat, consentRevision: nat, hash: Name, groups: seq<Group>)
    | Finalize(session: nat, epoch: nat, consentRevision: nat, hash: Name, groupCount: int, status: Status)
    | DeleteSession(session: nat, operation: nat, epoch: nat)
    | DeleteHistory(operation: nat, epoch: nat)

  // ------------------------------------------------------------------ constraints

  predicate CountsOk(d: SessionData) {
    && 0 <= d.duration <= 1800000 && 0 <= d.target <= 28800 && 0 <= d.valid <= d.target
    && 0 <= d.localDetail <= 36000 && 0 <= d.extraDetail <= 7200 && d.extraDetail <= d.extraTotal
    && 0 <= d.groups <= 256 && d.versions.Object? && d.score.Object?
  }

  predicate GroupOk(g: Group) {
    && 0 <= g.ordinal <= 255 && 0 <= g.target <= 28800 && 0 <= g.valid <= g.target && 0 <= g.extra
    && g.stats.Object? && g.quality.Object?
  }

  /** The CHECK, primary key and UNIQUE constraints on the rows of one session. */
  predicate GroupsFit(gs: seq<Group>) {
    && (forall i :: 0 <= i < |gs| ==> GroupOk(gs[i]))
    && (forall i, j :: 0 <= i < j < |gs| ==> gs[i].ordinal != gs[j].ordinal && gs[i].place != gs[j].place)
  }

  function SumTarget(gs: seq<Group>): int {
    if gs == [] then 0 else SumTarget(gs[..|gs| - 1]) + gs[|gs| - 1].target
  }

  function SumValid(gs: seq<Group>): int {
    if gs == [] then 0 else SumValid(gs[..|gs| - 1]) + gs[|gs| - 1].valid
  }

  /** The rows that a list of groups forms. */
  function GroupRows(session: nat, gs: seq<Group>): map<GroupKey, Group> {
    if gs == [] then map[]
    else GroupRows(session, gs[..|gs| - 1])[GroupKey(session, gs[|gs| - 1].ordinal) := gs[|gs| - 1]]
  }

  function RowsOf(groups: map<GroupKey, Group>, session: nat): map<GroupKey, Group> {
    map k | k in groups && k.session == session :: groups[k]
  }

  /** Deleting sessions cascades to their parts and groups. */
  function WithoutSessions(o: Owner, gone: set<nat>): Owner {
    o.(sessions := o.sessions - gone,
       parts := o.parts - gone,
       groups := map k | k in o.groups && k.session !in gone :: o.groups[k])
  }

  function InUpload(o: Owner): set<nat> {
    set x | x in o.sessions && o.sessions[x].status == Uploading
  }

  // ------------------------------------------------------------------ what each call does

  /** `_lock`: the checks, in their order. */
  function Lock(o: Owner, epoch: Option<nat>, consentRevision: Option<nat>, needConsent: bool): Result<Preferences, Error> {
    if o.revoked || o.preferences.None? then Err(OwnerRevoked)
    else
      var p := o.preferences.value;
      if epoch.Some? && epoch.value != p.epoch then Err(EpochMismatch)
      else if consentRevision.Some? && consentRevision.value != p.consentRevision then Err(ConsentRevision)
      else if needConsent && !p.consent then Err(ConsentRequired)
      else Ok(p)
  }

  function DoPutPreferences(o: Owner, expected: nat, consent: bool): (Owner, Outcome) {
    match Lock(o, None, None, false)
    case Err(e) => (o, Err(e))
    case Ok(p) =>
      if expected != p.revision then (o, Err(RevisionConflict))
      else
        var changed := consent != p.consent;
        var p' := Preferences(p.epoch, p.revision + 1, if changed then p.consentRevision + 1 else p.consentRevision, consent);
        var o' := o.(preferences := Some(p'));
        (if changed && !consent then WithoutSessions(o', InUpload(o)) else o', Ok(Prefs(p')))
  }

  function DoCreate(o: Owner, x: nat, epoch: nat, consentRevision: nat, data: SessionData, limit: nat): (Owner, Outcome) {
    match Lock(o, Some(epoch), Some(consentRevision), true)
    case Err(e) => (o, Err(e))
    case Ok(_) =>
      if x in o.tombstones then (o, Err(Tombstoned))
      else if x in o.sessions then
        (o, if o.sessions[x].data.contentHash != data.contentHash then Err(SessionConflict) else Ok(Stored(o.sessions[x].status, false)))
      else if |o.sessions| >= limit then (o, Err(StorageLimit))
      else if !CountsOk(data) then (o, Err(ConstraintViolation))
      else (o.(sessions := o.sessions[x := Session(epoch, Uploading, data)]), Ok(Stored(Uploading, true)))
  }

  function DoPutPart(o: Owner, x: nat, epoch: nat, consentRevision: nat, hash: Name, gs: seq<Group>): (Owner, Outcome) {
    match Lock(o, Some(epoch), Some(consentRevision), true)
    case Err(e) => (o, Err(e))
    case Ok(_) =>
      if x !in o.sessions then (o, Err(NotFound))
      else if o.sessions[x].status != Uploading && x !in o.parts then (o, Ok(PartStored(true)))
      else if x in o.parts then (o, if o.parts[x].hash != hash then Err(PartConflict) else Ok(PartStored(false)))
      else if |gs| > 256 then (o, Err(ConstraintViolation))
      else (o.(parts := o.parts[x := Part(hash, gs)]), Ok(PartStored(false)))
  }

  function DoFinalize(o: Owner, x: nat, epoch: nat, consentRevision: nat, hash: Name, groupCount: int, status: Status): (Owner, Outcome) {
    match Lock(o, Some(epoch), Some(consentRevision), true)
    case Err(e) => (o, Err(e))
    case Ok(_) =>
      if x !in o.sessions then (o, Err(NotFound))
      else
        var s := o.sessions[x];
        if s.status != Uploading then (o, Ok(Finalized(s.status)))
        else if groupCount != s.data.groups then (o, Err(SessionConflict))
        else if x !in o.parts || o.parts[x].hash != hash then (o, Err(PartConflict))
        else
          var gs := o.parts[x].groups;
          if |gs| != groupCount || (groupCount != 0 && (SumTarget(gs) != s.data.target || SumValid(gs) != s.data.valid)) then (o, Err(SessionConflict))
          else if !GroupsFit(gs) then (o, Err(ConstraintViolation))
          else
            (o.(sessions := o.sessions[x := s.(status := status)], parts := o.parts - {x}, groups := o.groups + GroupRows(x, gs)),
             Ok(Finalized(status)))
  }

  /** `_operation`: a stored answer of the same request, or a clash of operation ids. */
  function Replay(o: Owner, operation: nat, hash: RequestHash): Option<Outcome> {
    if operation !in o.operations then None
    else if o.operations[operation].hash != hash then Some(Err(OperationConflict))
    else Some(Ok(o.operations[operation].response))
  }

  function DoDeleteSession(o: Owner, x: nat, operation: nat, epoch: nat): (Owner, Outcome) {
    var hash := SessionDeletion(x, epoch);
    match Lock(o, None, None, false)
    case Err(e) => (o, Err(e))
    case Ok(p) =>
      if Replay(o, operation, hash).Some? then (o, Replay(o, operation, hash).value)
      else if epoch != p.epoch then (o, Err(EpochMismatch))
      else if x !in o.sessions then (o, Err(NotFound))
      else
        (WithoutSessions(o, {x}).(tombstones := o.tombstones + {x}, operations := o.operations[operation := Operation(hash, SessionDeleted(x))]),
         Ok(SessionDeleted(x)))
  }

  function DoDeleteHistory(o: Owner, operation: nat, epoch: nat): (Owner, Outcome) {
    var hash := HistoryDeletion(epoch);
    match Lock(o, None, None, false)
    case Err(e) => (o, Err(e))
    case Ok(p) =>
      if Replay(o, operation, hash).Some? then (o, Replay(o, operation, hash).value)
      else if epoch != p.epoch then (o, Err(EpochMismatch))
      else
        var response := HistoryDeleted(p.epoch + 1, |o.sessions|);
        (WithoutSessions(o, o.sessions.Keys).(tombstones := {}, preferences := Some(p.(epoch := p.epoch + 1)),
                                              operations := o.operations[operation := Operation(hash, response)]),
         Ok(response))
  }

  /** The revocation trigger removes every metronome row of the owner. */
  function DoRevoke(o: Owner): Owner {
    Owner(true, None, map[], map[], map[], {}, map[])
  }

  /** The preferences row of an active owner is created on first use. */
  function DoResolve(o: Owner): Owner {
    if !o.revoked && o.preferences.None? then o.(preferences := Some(Preferences(1, 1, 1, false))) else o
  }

  function Next(o: Owner, step: Step): (Owner, Outcome) {
    match step
    case Resolve => (DoResolve(o), if o.revoked then Err(OwnerRevoked) else Ok(Prefs(DoResolve(o).preferences.value)))
    case Revoke => (DoRevoke(o), Err(OwnerRevoked))
    case PutPreferences(expected, consent) => DoPutPreferences(o, expected, consent)
    case CreateSession(x, epoch, consentRevision, data, limit) => DoCreate(o, x, epoch, consentRevision, data, limit)
    case PutPart(x, epoch, consentRevision, hash, gs) => DoPutPart(o, x, epoch, consentRevision, hash, gs)
    case Finalize(x, epoch, consentRevision, hash, groupCount, status) => DoFinalize(o, x, epoch, consentRevision, hash, groupCount, status)
    case DeleteSession(x, operation, epoch) => DoDeleteSession(o, x, operation, epoch)
    case DeleteHistory(operation, epoch) => DoDeleteHistory(o, operation, epoch)
  }

  // ------------------------------------------------------------------ runs

  const NEW_OWNER := Owner(false, None, map[], map[], map[], {}, map[])

  /** Callers finalize to one of the two final statuses. */
  ghost predicate Wanted(step: Step) {
    step.Finalize? ==> step.status != Uploading
  }

  ghost predicate Run(states: seq<Owner>, steps: seq<Step>) {
    && |states| == |steps| + 1 && states[0] == NEW_OWNER
    && forall i :: 0 <= i < |steps| ==> Wanted(steps[i]) && states[i + 1] == Next(states[i], steps[i]).0
  }

  /** The stored rows of a finalized session are exactly the groups of one accepted part. */
  ghost predicate ExactGroups(o: Owner, x: nat)
    requires x in o.sessions
  {
    exists gs :: FinalGroups(o.sessions[x].data, RowsOf(o.groups, x), x, gs)
  }

  ghost predicate FinalGroups(data: SessionData, rows: map<GroupKey, Group>, x: nat, gs: seq<Group>) {
    && rows == GroupRows(x, gs) && GroupsFit(gs) && |gs| == data.groups
    && (data.groups != 0 ==> SumTarget(gs) == data.target && SumValid(gs) == data.valid)
  }

  /** What every reachable state satisfies. */
  ghost predicate Inv(o: Owner) {
    && (o.preferences.None? ==> o.sessions == map[])
    && (forall x :: x in o.sessions ==> o.sessions[x].epoch == o.preferences.value.epoch && x !in o.tombstones)
    && (o.preferences.Some? && !o.preferences.value.consent ==> InUpload(o) == {})
    && (forall x :: x in o.parts ==> x in o.sessions && o.sessions[x].status == Uploading)
    && (forall k :: k in o.groups ==> k.session in o.sessions && o.sessions[k.session].status != Uploading)
    && (forall x :: x in o.sessions && o.sessions[x].status != Uploading ==> ExactGroups(o, x))
  }

  lemma {:induction false} GroupRowsBelong(x: nat, gs: seq<Group>)
    ensures forall k :: k in GroupRows(x, gs) <==> k.session == x && exists i :: 0 <= i < |gs| && gs[i].ordinal == k.ordinal
  {
    if gs != [] {
      var rest, last := gs[..|gs| - 1], gs[|gs| - 1];
      GroupRowsBelong(x, rest);
      forall k ensures k in GroupRows(x, gs) <==> k.session == x && exists i :: 0 <= i < |gs| && gs[i].ordinal == k.ordinal {
        if k in GroupRows(x, rest) {
          var i :| 0 <= i < |rest| && rest[i].ordinal == k.ordinal;
          assert gs[i].ordinal == k.ordinal;
        }
        if k.session == x && exists i :: 0 <= i < |gs| && gs[i].ordinal == k.ordinal {
          var i :| 0 <= i < |gs| && gs[i].ordinal == k.ordinal;
          if i < |rest| { assert rest[i].ordinal == k.ordinal; }
        }
      }
    }
  }

  lemma {:induction false} GroupRowsCount(x: nat, gs: seq<Group>)
    requires GroupsFit(gs)
    ensures |GroupRows(x, gs)| == |gs|
  {
    if gs != [] {
      var rest, last := gs[..|gs| - 1], gs[|gs| - 1];
      assert forall i :: 0 <= i < |rest| ==> rest[i] == gs[i];
      GroupRowsCount(x, rest);
      GroupRowsBelong(x, rest);
      assert GroupKey(x, last.ordinal) !in GroupRows(x, rest);
    }
  }

  lemma RemovalKeepsInv(o: Owner, gone: set<nat>)
    requires Inv(o)
    ensures Inv(WithoutSessions(o, gone))
  {
    var o' := WithoutSessions(o, gone);
    forall x | x in o'.sessions && o'.sessions[x].status != Uploading ensures ExactGroups(o', x) {
      assert ExactGroups(o, x);
      assert RowsOf(o'.groups, x) == RowsOf(o.groups, x);
    }
  }

  /** Adding the rows of one session leaves the rows of the others. */
  lemma {:induction false} RowsAfterInsert(groups: map<GroupKey, Group>, x: nat, gs: seq<Group>, y: nat)
    ensures y != x ==> RowsOf(groups + GroupRows(x, gs), y) == RowsOf(groups, y)
    ensures RowsOf(groups, x) == map[] ==> RowsOf(groups + GroupRows(x, gs), x) == GroupRows(x, gs)
    ensures forall k :: k in groups + GroupRows(x, gs) && k !in groups ==> k.session == x
  {
    GroupRowsBelong(x, gs);
    if RowsOf(groups, x) == map[] {
      assert forall k :: k in groups ==> (k in RowsOf(groups, x) <==> k.session == x);
    }
  }

  lemma SameRowsStayExact(before: Owner, after: Owner, x: nat)
    requires x in before.sessions && x in after.sessions && after.sessions[x].data == before.sessions[x].data
    requires ExactGroups(before, x) && RowsOf(after.groups, x) == RowsOf(before.groups, x)
    ensures ExactGroups(after, x)
  {
  }

  lemma {:induction false} FinalizeKeepsExact(o: Owner, x: nat, status: Status, gs: seq<Group>, o': Owner, y: nat)
    requires Inv(o) && x in o.parts && status != Uploading
    requires FinalGroups(o.sessions[x].data, GroupRows(x, gs), x, gs)
    requires o' == o.(sessions := o.sessions[x := o.sessions[x].(status := status)], parts := o.parts - {x}, groups := o.groups + GroupRows(x, gs))
    requires y in o'.sessions && o'.sessions[y].status != Uploading
    ensures ExactGroups(o', y)
  {
    RowsAfterInsert(o.groups, x, gs, y);
    if y == x {
      assert RowsOf(o.groups, x) == map[];
      assert FinalGroups(o'.sessions[x].data, RowsOf(o'.groups, x), x, gs);
    } else {
      SameRowsStayExact(o, o', y);
    }
  }

  lemma {:induction false} FinalizeKeepsInv(o: Owner, x: nat, status: Status, gs: seq<Group>, o': Owner)
    requires Inv(o) && x in o.parts && status != Uploading
    requires FinalGroups(o.sessions[x].data, GroupRows(x, gs), x, gs)
    requires o' == o.(sessions := o.sessions[x := o.sessions[x].(status := status)], parts := o.parts - {x}, groups := o.groups + GroupRows(x, gs))
    ensures Inv(o')
  {
    assert InUpload(o') <= InUpload(o);
    RowsAfterInsert(o.groups, x, gs, x);
    forall y | y in o'.sessions && o'.sessions[y].status != Uploading ensures ExactGroups(o', y) {
      FinalizeKeepsExact(o, x, status, gs, o', y);
    }
  }

  /** New preferences of the same epoch do not matter unless they withdraw consent. */
  lemma NewPreferencesKeepInv(o: Owner, p: Preferences)
    requires Inv(o) && o.preferences.Some? && p.epoch == o.preferences.value.epoch
    requires !p.consent ==> InUpload(o) == {}
    ensures Inv(o.(preferences := Some(p)))
  {
    var o' := o.(preferences := Some(p));
    assert InUpload(o') == InUpload(o);
    forall x | x in o'.sessions && o'.sessions[x].status != Uploading ensures ExactGroups(o', x) {
      SameRowsStayExact(o, o', x);
    }
  }

  lemma PreferencesKeepInv(o: Owner, expected: nat, consent: bool)
    requires Inv(o)
    ensures Inv(DoPutPreferences(o, expected, consent).0)
  {
    var o' := DoPutPreferences(o, expected, consent).0;
    if o' != o {
      var left := WithoutSessions(o, InUpload(o));
      RemovalKeepsInv(o, InUpload(o));
      assert InUpload(left) == {};
      if consent || !o.preferences.value.consent {
        NewPreferencesKeepInv(o, o'.preferences.value);
        assert o' == o.(preferences := o'.preferences);
      } else {
        NewPreferencesKeepInv(left, o'.preferences.value);
        assert o' == left.(preferences := o'.preferences);
      }
    }
  }

  lemma CreateKeepsInv(o: Owner, x: nat, epoch: nat, consentRevision: nat, data: SessionData, limit: nat)
    requires Inv(o)
    ensures Inv(DoCreate(o, x, epoch, consentRevision, data, limit).0)
  {
    var o' := DoCreate(o, x, epoch, consentRevision, data, limit).0;
    if o' != o {
      forall y | y in o'.sessions && o'.sessions[y].status != Uploading ensures ExactGroups(o', y) {
        assert ExactGroups(o, y);
      }
    }
  }

  /** The owner's bookkeeping may change as long as it stays above what is stored. */
  lemma BookkeepingKeepsInv(o: Owner, o': Owner)
    requires Inv(o) && o'.sessions == o.sessions && o'.groups == o.groups && o'.parts == o.parts
    requires o.preferences.Some? ==> o'.preferences.Some? && o'.preferences.value.consent == o.preferences.value.consent
    requires o.preferences.None? ==> o'.preferences.None?
    requires forall x :: x in o.sessions ==> o'.preferences.value.epoch == o.preferences.value.epoch && x !in o'.tombstones
    ensures Inv(o')
  {
    assert InUpload(o') == InUpload(o);
    forall x | x in o'.sessions && o'.sessions[x].status != Uploading ensures ExactGroups(o', x) {
      SameRowsStayExact(o, o', x);
    }
  }

  lemma SessionDeletionKeepsInv(o: Owner, x: nat, operation: nat, epoch: nat)
    requires Inv(o)
    ensures Inv(DoDeleteSession(o, x, operation, epoch).0)
  {
    var o' := DoDeleteSession(o, x, operation, epoch).0;
    if o' != o {
      RemovalKeepsInv(o, {x});
      BookkeepingKeepsInv(WithoutSessions(o, {x}), o');
    }
  }

  lemma HistoryDeletionKeepsInv(o: Owner, operation: nat, epoch: nat)
    requires Inv(o)
    ensures Inv(DoDeleteHistory(o, operation, epoch).0)
  {
    var o' := DoDeleteHistory(o, operation, epoch).0;
    if o' != o {
      RemovalKeepsInv(o, o.sessions.Keys);
      BookkeepingKeepsInv(WithoutSessions(o, o.sessions.Keys), o');
    }
  }

  lemma PartKeepsInv(o: Owner, x: nat, epoch: nat, consentRevision: nat, hash: Name, gs: seq<Group>)
    requires Inv(o)
    ensures Inv(DoPutPart(o, x, epoch, consentRevision, hash, gs).0)
  {
    var o' := DoPutPart(o, x, epoch, consentRevision, hash, gs).0;
    if o' != o {
      assert InUpload(o') == InUpload(o);
      forall y | y in o'.sessions && o'.sessions[y].status != Uploading ensures ExactGroups(o', y) {
        assert ExactGroups(o, y);
      }
    }
  }

  lemma StepKeepsInv(o: Owner, step: Step)
    requires Inv(o) && Wanted(step)
    ensures Inv(Next(o, step).0)
  {
    match step
    case Resolve =>
    case Revoke =>
    case PutPreferences(expected, consent) => PreferencesKeepInv(o, expected, consent);
    case CreateSession(x, epoch, consentRevision, data, limit) => CreateKeepsInv(o, x, epoch, consentRevision, data, limit);
    case PutPart(x, epoch, consentRevision, hash, gs) => PartKeepsInv(o, x, epoch, consentRevision, hash, gs);
    case Finalize(x, epoch, consentRevision, hash, groupCount, status) =>
      if Next(o, step).0 != o {
        FinalizeKeepsInv(o, x, status, o.parts[x].groups, Next(o, step).0);
      }
    case DeleteSession(x, operation, epoch) => SessionDeletionKeepsInv(o, x, operation, epoch);
    case DeleteHistory(operation, epoch) => HistoryDeletionKeepsInv(o, operation, epoch);
  }

  lemma {:induction false} RunsKeepInv(states: seq<Owner>, steps: seq<Step>, i: nat)
    requires Run(states, steps) && i <= |steps|
    ensures Inv(states[i])
  {
    if i > 0 {
      RunsKeepInv(states, steps, i - 1);
      StepKeepsInv(states[i - 1], steps[i - 1]);
    }
  }

  // ------------------------------------------------------------------ finalized sessions

  /** A finalized session has its declared number of group rows, with matching sums, and no part left. */
  lemma FinalizedIsExact(states: seq<Owner>, steps: seq<Step>, i: nat, x: nat)
    requires Run(states, steps) && i <= |steps| && x in states[i].sessions && states[i].sessions[x].status != Uploading
    ensures x !in states[i].parts
    ensures |RowsOf(states[i].groups, x)| == states[i].sessions[x].data.groups
    ensures exists gs :: FinalGroups(states[i].sessions[x].data, RowsOf(states[i].groups, x), x, gs)
  {
    RunsKeepInv(states, steps, i);
    assert ExactGroups(states[i], x);
    var gs :| FinalGroups(states[i].sessions[x].data, RowsOf(states[i].groups, x), x, gs);
    GroupRowsCount(x, gs);
  }

  /** The session and its rows are as they were. */
  ghost predicate Unchanged(before: Owner, after: Owner, x: nat) {
    x in before.sessions && x in after.sessions && after.sessions[x] == before.sessions[x] && RowsOf(after.groups, x) == RowsOf(before.groups, x)
  }

  /** The session was removed, by deletion, by a new epoch or by revocation. */
  ghost predicate Gone(before: Owner, after: Owner, x: nat) {
    after.revoked ||
    (before.preferences.Some? && after.preferences.Some? && before.preferences.value.epoch < after.preferences.value.epoch) ||
    (x in after.tombstones && x !in after.sessions)
  }

  lemma FinalizedStep(o: Owner, step: Step, x: nat)
    requires Inv(o) && Wanted(step) && x in o.sessions && o.sessions[x].status != Uploading
    ensures Unchanged(o, Next(o, step).0, x) || Gone(o, Next(o, step).0, x)
  {
    match step
    case Finalize(y, epoch, consentRevision, hash, groupCount, status) => FinalizeLeavesOthers(o, y, epoch, consentRevision, hash, groupCount, status, x);
    case PutPreferences(expected, consent) => PreferencesLeaveFinalized(o, expected, consent, x);
    case DeleteSession(_, _, _) => DeletionLeavesOthers(o, step, x);
    case DeleteHistory(_, _) => DeletionLeavesOthers(o, step, x);
    case Resolve =>
    case Revoke =>
    case CreateSession(_, _, _, _, _) => UploadLeavesOthers(o, step, x);
    case PutPart(_, _, _, _, _) => UploadLeavesOthers(o, step, x);
  }

  lemma PreferencesLeaveFinalized(o: Owner, expected: nat, consent: bool, x: nat)
    requires x in o.sessions && o.sessions[x].status != Uploading
    ensures Unchanged(o, DoPutPreferences(o, expected, consent).0, x)
  {
    RemovalLeavesOthers(o, InUpload(o), x);
  }

  lemma DeletionLeavesOthers(o: Owner, step: Step, x: nat)
    requires (step.DeleteSession? || step.DeleteHistory?) && x in o.sessions
    ensures Unchanged(o, Next(o, step).0, x) || Gone(o, Next(o, step).0, x)
  {
    if step.DeleteSession? && step.session != x {
      RemovalLeavesOthers(o, {step.session}, x);
    }
  }

  lemma UploadLeavesOthers(o: Owner, step: Step, x: nat)
    requires (step.CreateSession? || step.PutPart?) && x in o.sessions
    ensures Unchanged(o, Next(o, step).0, x)
  {
  }

  lemma RemovalLeavesOthers(o: Owner, gone: set<nat>, x: nat)
    requires x in o.sessions && x !in gone
    ensures Unchanged(o, WithoutSessions(o, gone), x)
  {
  }

  lemma FinalizeLeavesOthers(o: Owner, y: nat, epoch: nat, consentRevision: nat, hash: Name, groupCount: int, status: Status, x: nat)
    requires Inv(o) && x in o.sessions && o.sessions[x].status != Uploading
    ensures Unchanged(o, DoFinalize(o, y, epoch, consentRevision, hash, groupCount, status).0, x)
  {
    if DoFinalize(o, y, epoch, consentRevision, hash, groupCount, status).0 != o {
      RowsAfterInsert(o.groups, y, o.parts[y].groups, x);
    }
  }

  /** Epochs only grow while the owner is active, and revocation is final. */
  lemma EpochStep(o: Owner, step: Step)
    ensures var o' := Next(o, step).0;
            && (o.revoked ==> o'.revoked)
            && (o.preferences.Some? && !o'.revoked ==> o'.preferences.Some?)
            && (o.preferences.Some? && !o'.revoked ==> o.preferences.value.epoch <= o'.preferences.value.epoch)
            && (o.preferences.Some? && !o'.revoked ==> o.preferences.value.consentRevision <= o'.preferences.value.consentRevision)
  {
  }

  /** Finalized data is never changed afterwards: it stays as it is until it is deleted. */
  lemma {:induction false} FinalizedNeverChanges(states: seq<Owner>, steps: seq<Step>, i: nat, j: nat, x: nat)
    requires Run(states, steps) && i <= j <= |steps| && x in states[i].sessions && states[i].sessions[x].status != Uploading
    ensures states[i].preferences.Some? && (states[j].revoked || (states[j].preferences.Some? && states[i].preferences.value.epoch <= states[j].preferences.value.epoch))
    ensures Unchanged(states[i], states[j], x) || Gone(states[i], states[j], x)
    decreases j
  {
    RunsKeepInv(states, steps, i);
    if i < j {
      FinalizedNeverChanges(states, steps, i, j - 1, x);
      RunsKeepInv(states, steps, j - 1);
      EpochStep(states[j - 1], steps[j - 1]);
      if Unchanged(states[i], states[j - 1], x) {
        FinalizedStep(states[j - 1], steps[j - 1], x);
      } else {
        if !states[j - 1].revoked && x in states[j - 1].tombstones && x !in states[j - 1].sessions {
          TombstoneStep(states[j - 1], steps[j - 1], x);
        }
      }
    }
  }

  /** A tombstone keeps its session away for the rest of the epoch. */
  lemma TombstoneStep(o: Owner, step: Step, x: nat)
    requires o.preferences.Some? && x in o.tombstones && x !in o.sessions
    ensures Gone(o, Next(o, step).0, x)
  {
  }

  // ------------------------------------------------------------------ no resurrection

  /** Nothing of session `x` can be written by a request that carries epoch `e` or an older one. */
  ghost predicate Buried(o: Owner, x: nat, e: nat) {
    o.revoked ||
    (o.preferences.Some? && (e < o.preferences.value.epoch || (e == o.preferences.value.epoch && x in o.tombstones && x !in o.sessions)))
  }

  /** The step deletes `x` in epoch `e`: by itself, or with the whole history. */
  ghost predicate Deletes(o: Owner, step: Step, x: nat, e: nat) {
    x in o.sessions && x !in Next(o, step).0.sessions &&
    ((step.DeleteSession? && step.epoch == e) || (step.DeleteHistory? && step.epoch == e))
  }

  /** The step is an upload request for session `x` that carries epoch `e`. */
  predicate Uploads(step: Step, x: nat, e: nat) {
    (step.CreateSession? || step.PutPart? || step.Finalize?) && step.session == x && step.epoch == e
  }

  lemma DeletionBuries(o: Owner, step: Step, x: nat, e: nat)
    requires Inv(o) && Deletes(o, step, x, e)
    ensures Buried(Next(o, step).0, x, e)
  {
  }

  lemma StepKeepsBuried(o: Owner, step: Step, x: nat, e: nat)
    requires Buried(o, x, e)
    ensures Buried(Next(o, step).0, x, e)
  {
    EpochStep(o, step);
    if !o.revoked && x in o.tombstones && x !in o.sessions {
      TombstoneStep(o, step, x);
    }
  }

  lemma {:induction false} StaysBuried(states: seq<Owner>, steps: seq<Step>, i: nat, j: nat, x: nat, e: nat)
    requires Run(states, steps) && i <= j <= |steps| && Buried(states[i], x, e)
    ensures Buried(states[j], x, e)
    decreases j
  {
    if i < j {
      StaysBuried(states, steps, i, j - 1, x, e);
      StepKeepsBuried(states[j - 1], steps[j - 1], x, e);
    }
  }

  /**
   * No resurrection: after `x` was deleted in epoch `e`, every later create,
   * part or finalize request for `x` with epoch `e` fails and changes nothing,
   * although the full deletion also drops the tombstones.
   */
  lemma DeletedStaysDeleted(states: seq<Owner>, steps: seq<Step>, i: nat, j: nat, x: nat, e: nat)
    requires Run(states, steps) && i < j < |steps|
    requires Deletes(states[i], steps[i], x, e) && Uploads(steps[j], x, e)
    ensures Next(states[j], steps[j]).1.Err? && states[j + 1] == states[j]
  {
    RunsKeepInv(states, steps, i);
    DeletionBuries(states[i], steps[i], x, e);
    StaysBuried(states, steps, i + 1, j, x, e);
  }

  /** Every stored session carries the owner's current epoch. */
  lemma SessionsAreCurrent(states: seq<Owner>, steps: seq<Step>, i: nat)
    requires Run(states, steps) && i <= |steps|
    ensures forall x :: x in states[i].sessions ==>
              states[i].preferences.Some? && states[i].sessions[x].epoch == states[i].preferences.value.epoch
  {
    RunsKeepInv(states, steps, i);
  }

  // ------------------------------------------------------------------ consent

  /** Without consent nothing is being uploaded. */
  lemma NoUploadWithoutConsent(states: seq<Owner>, steps: seq<Step>, i: nat)
    requires Run(states, steps) && i <= |steps|
    requires states[i].preferences.Some? ==> !states[i].preferences.value.consent
    ensures InUpload(states[i]) == {}
  {
    RunsKeepInv(states, steps, i);
  }

  ghost predicate Withdraws(o: Owner, step: Step) {
    step.PutPreferences? && o.preferences.Some? && o.preferences.value.consent && Next(o, step).1.Ok? && !step.consent
  }

  lemma {:induction false} ConsentRevisionGrows(states: seq<Owner>, steps: seq<Step>, i: nat, j: nat)
    requires Run(states, steps) && i <= j <= |steps| && states[i].preferences.Some?
    ensures states[j].revoked || (states[j].preferences.Some? && states[i].preferences.value.consentRevision <= states[j].preferences.value.consentRevision)
    decreases j
  {
    if i < j {
      ConsentRevisionGrows(states, steps, i, j - 1);
      EpochStep(states[j - 1], steps[j - 1]);
    }
  }

  /** An upload prepared under the consent that was withdrawn is refused for good, whatever is agreed to later. */
  lemma WithdrawnConsentStaysWithdrawn(states: seq<Owner>, steps: seq<Step>, i: nat, j: nat)
    requires Run(states, steps) && i < j < |steps| && Withdraws(states[i], steps[i])
    requires steps[j].CreateSession? || steps[j].PutPart? || steps[j].Finalize?
    requires steps[j].consentRevision <= states[i].preferences.value.consentRevision
    ensures Next(states[j], steps[j]).1.Err? && states[j + 1] == states[j]
  {
    ConsentRevisionGrows(states, steps, i + 1, j);
  }

  lemma RevisionStep(o: Owner, step: Step)
    requires o.preferences.Some? && !Next(o, step).0.revoked
    ensures Next(o, step).0.preferences.Some? && o.preferences.value.revision <= Next(o, step).0.preferences.value.revision
  {
  }

  lemma {:induction false} RevisionsGrow(states: seq<Owner>, steps: seq<Step>, i: nat, j: nat)
    requires Run(states, steps) && i <= j <= |steps| && states[i].preferences.Some?
    ensures states[j].revoked || (states[j].preferences.Some? && states[i].preferences.value.revision <= states[j].preferences.value.revision)
    decreases j
  {
    if i < j {
      RevisionsGrow(states, steps, i, j - 1);
      EpochStep(states[j - 1], steps[j - 1]);
      if !states[j].revoked {
        RevisionStep(states[j - 1], steps[j - 1]);
      }
    }
  }

  /** Of all preference updates prepared for the same revision at most one is accepted. */
  lemma OnePutPerRevision(states: seq<Owner>, steps: seq<Step>, i: nat, j: nat)
    requires Run(states, steps) && i < j < |steps| && steps[i].PutPreferences? && steps[j].PutPreferences?
    requires steps[i].expected == steps[j].expected && Next(states[i], steps[i]).1.Ok?
    ensures Next(states[j], steps[j]).1.Err? && states[j + 1] == states[j]
  {
    assert states[i + 1].preferences.value.revision == steps[i].expected + 1;
    RevisionsGrow(states, steps, i + 1, j);
  }

  // ------------------------------------------------------------------ storage and repetition

  lemma OnlyCreationAdds(o: Owner, step: Step)
    requires !step.CreateSession?
    ensures Next(o, step).0.sessions.Keys <= o.sessions.Keys
  {
  }

  lemma CreationAddsOne(o: Owner, x: nat, epoch: nat, consentRevision: nat, data: SessionData, limit: nat)
    requires DoCreate(o, x, epoch, consentRevision, data, limit).0 != o
    ensures |o.sessions| < limit && DoCreate(o, x, epoch, consentRevision, data, limit).0.sessions.Keys == o.sessions.Keys + {x}
  {
  }

  lemma SessionsStep(o: Owner, step: Step, cap: nat)
    requires |o.sessions| <= cap && (step.CreateSession? ==> step.limit <= cap)
    ensures |Next(o, step).0.sessions| <= cap
  {
    if step.CreateSession? {
      if Next(o, step).0 != o {
        CreationAddsOne(o, step.session, step.epoch, step.consentRevision, step.data, step.limit);
        assert |o.sessions.Keys + {step.session}| <= |o.sessions.Keys| + 1;
      }
    } else {
      OnlyCreationAdds(o, step);
      SubsetCardinality(Next(o, step).0.sessions.Keys, o.sessions.Keys);
    }
  }

  /** The owner never stores more sessions than the largest limit that was ever applied. */
  lemma {:induction false} SessionsWithinLimit(states: seq<Owner>, steps: seq<Step>, cap: nat, i: nat)
    requires Run(states, steps) && i <= |steps|
    requires forall k :: 0 <= k < i && steps[k].CreateSession? ==> steps[k].limit <= cap
    ensures |states[i].sessions| <= cap
  {
    if i > 0 {
      SessionsWithinLimit(states, steps, cap, i - 1);
      SessionsStep(states[i - 1], steps[i - 1], cap);
    }
  }

  /** Sending an accepted upload request again is accepted and changes nothing. */
  lemma ResendChangesNothing(o: Owner, step: Step)
    requires Wanted(step) && (step.CreateSession? || step.PutPart? || step.Finalize?) && Next(o, step).1.Ok?
    ensures var after := Next(o, step).0;
            Next(after, step).0 == after && Next(after, step).1.Ok?
  {
  }

  // ------------------------------------------------------------------ replays

  lemma OperationStep(o: Owner, step: Step, operation: nat)
    requires operation in o.operations
    ensures Next(o, step).0.revoked || (operation in Next(o, step).0.operations && Next(o, step).0.operations[operation] == o.operations[operation])
  {
  }

  lemma {:induction false} OperationsStay(states: seq<Owner>, steps: seq<Step>, i: nat, j: nat, operation: nat)
    requires Run(states, steps) && i <= j <= |steps| && operation in states[i].operations
    ensures states[j].revoked || (operation in states[j].operations && states[j].operations[operation] == states[i].operations[operation])
    decreases j
  {
    if i < j {
      OperationsStay(states, steps, i, j - 1, operation);
      EpochStep(states[j - 1], steps[j - 1]);
      if !states[j - 1].revoked {
        OperationStep(states[j - 1], steps[j - 1], operation);
      }
    }
  }

  /** Repeating a delete that succeeded changes nothing and answers as the first time, even in a later epoch. */
  lemma DeletesReplay(states: seq<Owner>, steps: seq<Step>, i: nat, j: nat)
    requires Run(states, steps) && i < j < |steps| && steps[j] == steps[i]
    requires steps[i].DeleteSession? || steps[i].DeleteHistory?
    requires Next(states[i], steps[i]).1.Ok?
    ensures states[j + 1] == states[j]
    ensures Next(states[j], steps[j]).1 == Next(states[i], steps[i]).1 || Next(states[j], steps[j]).1 == Err(OwnerRevoked)
  {
    OperationsStay(states, steps, i + 1, j, steps[i].operation);
  }
}
