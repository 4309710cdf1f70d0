/**
 * Tuner practice history of one owner: multi-part upload, finalization into
 * ordered note events, storage limits and deletion
 * (src/backend/repositories/tuner_repository.py).
 */
module Tuner {
  import opened Prelude

  /** 24 hours. */
  const DAY := 86400000000

  datatype UploadStatus = Uploading | Complete

  /** `body` is the hash of the whole request body. */
  datatype SessionData = SessionData(body: Name, duration: int, eventCount: int)

  /** `created` in microseconds. */
  datatype Session = Session(epoch: nat, status: UploadStatus, created: int, data: SessionData)

  datatype Event = Event(id: nat, start: int, end: int, content: Name)

  datatype PartKey = PartKey(session: nat, index: int)

  /** The content hash of a part is taken to be injective, so the events stand for it. */
  datatype Part = Part(hash: Name, events: seq<Event>)

  datatype EventKey = EventKey(session: nat, event: nat)

  datatype NoteEvent = NoteEvent(ordinal: nat, event: Event)

  datatype Limits = Limits(sessions: nat, events: int)

  datatype Owner = Owner(
    revoked: bool,
    epoch: nat,
    sessions: map<nat, Session>,
    parts: map<PartKey, Part>,
    events: map<EventKey, NoteEvent>,
    tombstones: set<nat>)

  datatype Response =
    | Created(status: UploadStatus, created: bool)
    | PartStored(stored: bool)
    | Finalized(finalized: bool)
    | SessionDeleted(deleted: bool)
    | HistoryDeleted(epoch: nat)
    | Removed(count: nat)

  datatype Error = OwnerRevoked | EpochMismatch | Tombstoned | Conflict | NotFound | StorageLimit | ConstraintViolation

  type Outcome = Result<Response, Error>

  datatype Step =
    | CreateSession(session: nat, epoch: nat, data: SessionData, now: int)
    | PutPart(session: nat, epoch: nat, index: int, hash: Name, events: seq<Event>)
    | Finalize(session: nat, epoch: nat, hashes: seq<Name>, eventCount: int)
    | DeleteSession(session: nat)
    | DeleteHistory(expected: Option<nat>)
    | CleanUp(now: int, picked: set<nat>)
    | Revoke

  // ------------------------------------------------------------------ rows

  predicate CountOk(d: SessionData) {
    0 <= d.eventCount <= 10000 && 0 <= d.duration <= 7200000
  }

  predicate EventOk(e: Event) {
    0 <= e.start <= e.end
  }

  /** CHECK and primary key of the note events of one session. */
  predicate EventsFit(evs: seq<Event>) {
    && (forall i :: 0 <= i < |evs| ==> EventOk(evs[i]))
    && (forall i, j :: 0 <= i < j < |evs| ==> evs[i].id != evs[j].id)
  }

  /** The note events written for a list: ordinals count from 0 in list order. */
  function EventRows(x: nat, evs: seq<Event>): map<EventKey, NoteEvent> {
    if evs == [] then map[]
    else
      var last := |evs| - 1;
      EventRows(x, evs[..last])[EventKey(x, evs[last].id) := NoteEvent(last, evs[last])]
  }

  function RowsOf(events: map<EventKey, NoteEvent>, x: nat): map<EventKey, NoteEvent> {
    map k | k in events && k.session == x :: events[k]
  }

  /** The stored parts of a session are exactly the indexes 0..n-1 with these hashes. */
  predicate PartsMatch(parts: map<PartKey, Part>, x: nat, hashes: seq<Name>) {
    && (forall i :: 0 <= i < |hashes| ==> PartKey(x, i) in parts && parts[PartKey(x, i)].hash == hashes[i])
    && (forall k :: k in parts && k.session == x ==> 0 <= k.index < |hashes|)
  }

  /** The events of parts 0..n-1 one after the other. */
  function Concatenated(parts: map<PartKey, Part>, x: nat, n: nat): seq<Event> {
    if n == 0 then []
    else Concatenated(parts, x, n - 1) + (if PartKey(x, n - 1) in parts then parts[PartKey(x, n - 1)].events else [])
  }

  function WithoutSessions(o: Owner, gone: set<nat>): Owner {
    o.(sessions := o.sessions - gone,
       parts := map k | k in o.parts && k.session !in gone :: o.parts[k],
       events := map k | k in o.events && k.session !in gone :: o.events[k])
  }

  /** `SUM(event_count)` over the stored sessions. */
  ghost function TotalCount(sessions: map<nat, Session>): int {
    if sessions == map[] then 0
    else var x :| x in sessions; sessions[x].data.eventCount + TotalCount(sessions - {x})
  }

  /** The sum does not depend on the order of the sessions. */
  lemma {:induction false} TotalWithout(sessions: map<nat, Session>, y: nat)
    requires y in sessions
    ensures TotalCount(sessions) == sessions[y].data.eventCount + TotalCount(sessions - {y})
    decreases |sessions|
  {
    var x :| x in sessions && TotalCount(sessions) == sessions[x].data.eventCount + TotalCount(sessions - {x});
    if x != y {
      assert |sessions - {x}| < |sessions| && |sessions - {y}| < |sessions| by {
        assert (sessions - {x}).Keys == sessions.Keys - {x} && (sessions - {y}).Keys == sessions.Keys - {y};
      }
      TotalWithout(sessions - {x}, y);
      TotalWithout(sessions - {y}, x);
      assert sessions - {x} - {y} == sessions - {y} - {x};
    }
  }

  // ------------------------------------------------------------------ what each call does

  function LockOwner(o: Owner, epoch: Option<nat>): Result<nat, Error> {
    if o.revoked then Err(OwnerRevoked)
    else if epoch.Some? && epoch.value != o.epoch then Err(EpochMismatch)
    else Ok(o.epoch)
  }

  ghost function DoCreate(o: Owner, x: nat, epoch: nat, data: SessionData, now: int, limits: Limits): (Owner, Outcome) {
    match LockOwner(o, Some(epoch))
    case Err(e) => (o, Err(e))
    case Ok(_) =>
      if x in o.tombstones then (o, Err(Tombstoned))
      else if x in o.sessions then
        (o, if o.sessions[x].data.body != data.body then Err(Conflict) else Ok(Created(o.sessions[x].status, false)))
      else if |o.sessions| >= limits.sessions || TotalCount(o.sessions) + data.eventCount > limits.events then (o, Err(StorageLimit))
      else if !CountOk(data) then (o, Err(ConstraintViolation))
      else (o.(sessions := o.sessions[x := Session(epoch, Uploading, now, data)]), Ok(Created(Uploading, true)))
  }

  function DoPutPart(o: Owner, x: nat, epoch: nat, index: int, hash: Name, evs: seq<Event>): (Owner, Outcome) {
    match LockOwner(o, Some(epoch))
    case Err(e) => (o, Err(e))
    case Ok(_) =>
      if x in o.tombstones then (o, Err(Tombstoned))
      else if x !in o.sessions then (o, Err(NotFound))
      else if o.sessions[x].status != Uploading then (o, Err(Conflict))
      else if PartKey(x, index) in o.parts then
        (o, if o.parts[PartKey(x, index)] != Part(hash, evs) then Err(Conflict) else Ok(PartStored(false)))
      else if !(0 <= index < 100 && |evs| <= 500) then (o, Err(ConstraintViolation))
      else (o.(parts := o.parts[PartKey(x, index) := Part(hash, evs)]), Ok(PartStored(true)))
  }

  function DoFinalize(o: Owner, x: nat, epoch: nat, hashes: seq<Name>, eventCount: int): (Owner, Outcome) {
    match LockOwner(o, Some(epoch))
    case Err(e) => (o, Err(e))
    case Ok(_) =>
      if x in o.tombstones then (o, Err(Tombstoned))
      else if x !in o.sessions then (o, Err(NotFound))
      else if o.sessions[x].status == Complete then (o, Ok(Finalized(false)))
      else if !PartsMatch(o.parts, x, hashes) then (o, Err(Conflict))
      else
        var evs := Concatenated(o.parts, x, |hashes|);
        if |evs| != eventCount || o.sessions[x].data.eventCount != eventCount then (o, Err(Conflict))
        else if !EventsFit(evs) then (o, Err(ConstraintViolation))
        else
          (o.(sessions := o.sessions[x := o.sessions[x].(status := Complete)],
              parts := map k | k in o.parts && k.session != x :: o.parts[k],
              events := o.events + EventRows(x, evs)),
           Ok(Finalized(true)))
  }

  function DoDeleteSession(o: Owner, x: nat): (Owner, Outcome) {
    match LockOwner(o, None)
    case Err(e) => (o, Err(e))
    case Ok(_) => (WithoutSessions(o, {x}).(tombstones := o.tombstones + {x}), Ok(SessionDeleted(x in o.sessions)))
  }

  function DoDeleteHistory(o: Owner, expected: Option<nat>): (Owner, Outcome) {
    match LockOwner(o, expected)
    case Err(e) => (o, Err(e))
    case Ok(_) => (WithoutSessions(o, o.sessions.Keys).(epoch := o.epoch + 1), Ok(HistoryDeleted(o.epoch + 1)))
  }

  /** Uploads that were started more than a day ago. */
  function Abandoned(o: Owner, now: int): set<nat> {
    set x | x in o.sessions && o.sessions[x].status == Uploading && o.sessions[x].created < now - DAY
  }

  /** What a DELETE with LIMIT may pick: in no order, and as many as the limit allows. */
  ghost predicate MayPick(o: Owner, now: int, maxRows: nat, picked: set<nat>) {
    && picked <= Abandoned(o, now) && |picked| <= maxRows
    && (|picked| < maxRows ==> picked == Abandoned(o, now))
  }

  /** Clean-up removes abandoned uploads only. */
  function DoCleanUp(o: Owner, now: int, picked: set<nat>): (Owner, Outcome) {
    var gone := picked * Abandoned(o, now);
    (WithoutSessions(o, gone), Ok(Removed(|gone|)))
  }

  /** Revocation deletes the sessions; the tombstones stay with the revoked owner. */
  function DoRevoke(o: Owner): (Owner, Outcome) {
    (WithoutSessions(o, o.sessions.Keys).(revoked := true), Err(OwnerRevoked))
  }

  ghost function Next(o: Owner, step: Step, limits: Limits): (Owner, Outcome) {
    match step
    case CreateSession(x, epoch, data, now) => DoCreate(o, x, epoch, data, now, limits)
    case PutPart(x, epoch, index, hash, evs) => DoPutPart(o, x, epoch, index, hash, evs)
    case Finalize(x, epoch, hashes, eventCount) => DoFinalize(o, x, epoch, hashes, eventCount)
    case DeleteSession(x) => DoDeleteSession(o, x)
    case DeleteHistory(expected) => DoDeleteHistory(o, expected)
    case CleanUp(now, picked) => DoCleanUp(o, now, picked)
    case Revoke => DoRevoke(o)
  }

  const NEW_OWNER := Owner(false, 1, map[], map[], map[], {})

  ghost predicate Run(states: seq<Owner>, steps: seq<Step>, limits: Limits) {
    && |states| == |steps| + 1 && states[0] == NEW_OWNER && limits.events >= 0
    && forall i :: 0 <= i < |steps| ==> states[i + 1] == Next(states[i], steps[i], limits).0
  }

  // ------------------------------------------------------------------ invariant

  /** The rows of a complete session are a list of its declared length with ordinals in list order. */
  ghost predicate ExactEvents(o: Owner, x: nat)
    requires x in o.sessions
  {
    exists evs :: FinalEvents(o.sessions[x].data, RowsOf(o.events, x), x, evs)
  }

  ghost predicate FinalEvents(data: SessionData, rows: map<EventKey, NoteEvent>, x: nat, evs: seq<Event>) {
    rows == EventRows(x, evs) && EventsFit(evs) && |evs| == data.eventCount
  }

  ghost predicate Inv(o: Owner, limits: Limits) {
    && (forall x :: x in o.sessions ==> o.sessions[x].epoch == o.epoch && x !in o.tombstones && CountOk(o.sessions[x].data))
    && (o.revoked ==> o.sessions == map[])
    && (forall k :: k in o.parts ==> k.session in o.sessions && o.sessions[k.session].status == Uploading)
    && (forall k :: k in o.events ==> k.session in o.sessions && o.sessions[k.session].status == Complete)
    && (forall x :: x in o.sessions && o.sessions[x].status == Complete ==> ExactEvents(o, x))
    && TotalCount(o.sessions) <= limits.events
  }

  predicate HasId(evs: seq<Event>, id: nat) {
    exists i :: 0 <= i < |evs| && evs[i].id == id
  }

  lemma {:induction false} EventRowsBelong(x: nat, evs: seq<Event>)
    ensures forall k :: k in EventRows(x, evs) <==> k.session == x && HasId(evs, k.event)
  {
    if evs != [] {
      var rest, last := evs[..|evs| - 1], evs[|evs| - 1];
      EventRowsBelong(x, rest);
      forall id ensures HasId(evs, id) <==> HasId(rest, id) || id == last.id {
        if HasId(rest, id) {
          var i :| 0 <= i < |rest| && rest[i].id == id;
          assert evs[i].id == id;
        }
        if HasId(evs, id) && id != last.id {
          var i :| 0 <= i < |evs| && evs[i].id == id;
          assert rest[i].id == id;
        }
        assert evs[|evs| - 1].id == last.id;
      }
    }
  }

  /** The rows of a fitting list are the list: one row per event, its place as the ordinal. */
  lemma {:induction false} EventRowsAreTheList(x: nat, evs: seq<Event>)
    requires EventsFit(evs)
    ensures |EventRows(x, evs)| == |evs|
    ensures forall i :: 0 <= i < |evs| ==> EventKey(x, evs[i].id) in EventRows(x, evs)
    ensures forall i :: 0 <= i < |evs| ==> EventRows(x, evs)[EventKey(x, evs[i].id)] == NoteEvent(i, evs[i])
  {
    if evs != [] {
      var rest, last := evs[..|evs| - 1], evs[|evs| - 1];
      assert forall i :: 0 <= i < |rest| ==> rest[i] == evs[i];
      EventRowsAreTheList(x, rest);
      EventRowsBelong(x, rest);
      assert EventKey(x, last.id) !in EventRows(x, rest);
    }
  }

  /** Adding the rows of one session leaves the rows of the others. */
  lemma {:induction false} RowsAfterInsert(events: map<EventKey, NoteEvent>, x: nat, evs: seq<Event>, y: nat)
    ensures y != x ==> RowsOf(events + EventRows(x, evs), y) == RowsOf(events, y)
    ensures RowsOf(events, x) == map[] ==> RowsOf(events + EventRows(x, evs), x) == EventRows(x, evs)
    ensures forall k :: k in events + EventRows(x, evs) && k !in events ==> k.session == x
  {
    EventRowsBelong(x, evs);
    if RowsOf(events, x) == map[] {
      assert forall k :: k in events ==> (k in RowsOf(events, x) <==> k.session == x);
    }
  }

  // ------------------------------------------------------------------ the sum of the counts

  lemma TotalAfterPut(sessions: map<nat, Session>, x: nat, s: Session)
    ensures x in sessions ==> TotalCount(sessions[x := s]) == TotalCount(sessions) - sessions[x].data.eventCount + s.data.eventCount
    ensures x !in sessions ==> TotalCount(sessions[x := s]) == TotalCount(sessions) + s.data.eventCount
  {
    TotalWithout(sessions[x := s], x);
    assert sessions[x := s] - {x} == sessions - {x};
    if x in sessions {
      TotalWithout(sessions, x);
    } else {
      assert sessions - {x} == sessions;
    }
  }

  lemma {:induction false} TotalAfterRemoval(sessions: map<nat, Session>, gone: set<nat>)
    requires forall x :: x in sessions ==> CountOk(sessions[x].data)
    ensures TotalCount(sessions - gone) <= TotalCount(sessions)
    decreases |sessions|
  {
    if y :| y in sessions && y in gone {
      TotalWithout(sessions, y);
      assert |sessions - {y}| < |sessions| by { assert (sessions - {y}).Keys == sessions.Keys - {y}; }
      TotalAfterRemoval(sessions - {y}, gone);
      assert sessions - {y} - gone == sessions - gone;
    } else {
      assert sessions - gone == sessions;
    }
  }

  function OtherRows(events: map<EventKey, NoteEvent>, y: nat): map<EventKey, NoteEvent> {
    map k | k in events && k.session != y :: events[k]
  }

  lemma RowsSplit(events: map<EventKey, NoteEvent>, y: nat)
    ensures |events| == |RowsOf(events, y)| + |OtherRows(events, y)|
    ensures forall x :: x != y ==> RowsOf(OtherRows(events, y), x) == RowsOf(events, x)
  {
    var mine, rest := RowsOf(events, y), OtherRows(events, y);
    assert events.Keys == mine.Keys + rest.Keys && mine.Keys !! rest.Keys;
    forall x | x != y ensures RowsOf(rest, x) == RowsOf(events, x) {}
  }

  /** If no session has more rows than its count, all rows together stay within the sum of the counts. */
  lemma {:induction false} RowsWithinTotal(sessions: map<nat, Session>, events: map<EventKey, NoteEvent>)
    requires forall k :: k in events ==> k.session in sessions
    requires forall x :: x in sessions ==> |RowsOf(events, x)| <= sessions[x].data.eventCount
    ensures |events| <= TotalCount(sessions)
    decreases |sessions|
  {
    if sessions == map[] {
      assert events == map[];
    } else {
      var y :| y in sessions;
      TotalWithout(sessions, y);
      OneSessionLess(sessions, events, y);
      RowsWithinTotal(sessions - {y}, OtherRows(events, y));
    }
  }

  lemma OneSessionLess(sessions: map<nat, Session>, events: map<EventKey, NoteEvent>, y: nat)
    requires y in sessions && forall k :: k in events ==> k.session in sessions
    requires forall x :: x in sessions ==> |RowsOf(events, x)| <= sessions[x].data.eventCount
    ensures |sessions - {y}| < |sessions| && forall k :: k in OtherRows(events, y) ==> k.session in sessions - {y}
    ensures forall x :: x in sessions - {y} ==> |RowsOf(OtherRows(events, y), x)| <= (sessions - {y})[x].data.eventCount
    ensures |events| <= sessions[y].data.eventCount + |OtherRows(events, y)|
  {
    assert (sessions - {y}).Keys == sessions.Keys - {y};
    RowsSplit(events, y);
  }

  // ------------------------------------------------------------------ every run keeps the invariant

  lemma RemovalKeepsInv(o: Owner, gone: set<nat>, limits: Limits)
    requires Inv(o, limits)
    ensures Inv(WithoutSessions(o, gone), limits)
  {
    var o' := WithoutSessions(o, gone);
    forall x | x in o'.sessions && o'.sessions[x].status == Complete ensures ExactEvents(o', x) {
      assert ExactEvents(o, x);
      assert RowsOf(o'.events, x) == RowsOf(o.events, x);
    }
    TotalAfterRemoval(o.sessions, gone);
  }

  lemma SameRowsStayExact(before: Owner, after: Owner, x: nat)
    requires x in before.sessions && x in after.sessions && after.sessions[x].data == before.sessions[x].data
    requires ExactEvents(before, x) && RowsOf(after.events, x) == RowsOf(before.events, x)
    ensures ExactEvents(after, x)
  {
  }

  /** The state after an accepted finalization. */
  function Completed(o: Owner, x: nat, evs: seq<Event>): Owner
    requires x in o.sessions
  {
    o.(sessions := o.sessions[x := o.sessions[x].(status := Complete)],
       parts := map k | k in o.parts && k.session != x :: o.parts[k],
       events := o.events + EventRows(x, evs))
  }

  lemma FinalizeKeepsExact(o: Owner, x: nat, evs: seq<Event>, y: nat, limits: Limits)
    requires Inv(o, limits) && x in o.sessions && o.sessions[x].status == Uploading
    requires EventsFit(evs) && |evs| == o.sessions[x].data.eventCount
    requires y in o.sessions && (y != x ==> o.sessions[y].status == Complete)
    ensures ExactEvents(Completed(o, x, evs), y)
  {
    var o' := Completed(o, x, evs);
    RowsAfterInsert(o.events, x, evs, y);
    if y == x {
      assert RowsOf(o.events, x) == map[];
      assert FinalEvents(o'.sessions[x].data, RowsOf(o'.events, x), x, evs);
    } else {
      SameRowsStayExact(o, o', y);
    }
  }

  lemma FinalizeKeepsInv(o: Owner, x: nat, evs: seq<Event>, limits: Limits)
    requires Inv(o, limits) && x in o.sessions && o.sessions[x].status == Uploading
    requires EventsFit(evs) && |evs| == o.sessions[x].data.eventCount
    ensures Inv(Completed(o, x, evs), limits)
  {
    var o' := Completed(o, x, evs);
    RowsAfterInsert(o.events, x, evs, x);
    TotalAfterPut(o.sessions, x, o'.sessions[x]);
    forall y | y in o'.sessions && o'.sessions[y].status == Complete ensures ExactEvents(o', y) {
      FinalizeKeepsExact(o, x, evs, y, limits);
    }
  }

  lemma CreateKeepsInv(o: Owner, x: nat, epoch: nat, data: SessionData, now: int, limits: Limits)
    requires Inv(o, limits)
    ensures Inv(DoCreate(o, x, epoch, data, now, limits).0, limits)
  {
    var o' := DoCreate(o, x, epoch, data, now, limits).0;
    if o' != o {
      TotalAfterPut(o.sessions, x, o'.sessions[x]);
      forall y | y in o'.sessions && o'.sessions[y].status == Complete ensures ExactEvents(o', y) {
        assert ExactEvents(o, y);
      }
    }
  }

  lemma PartKeepsInv(o: Owner, x: nat, epoch: nat, index: int, hash: Name, evs: seq<Event>, limits: Limits)
    requires Inv(o, limits)
    ensures Inv(DoPutPart(o, x, epoch, index, hash, evs).0, limits)
  {
    var o' := DoPutPart(o, x, epoch, index, hash, evs).0;
    forall y | y in o'.sessions && o'.sessions[y].status == Complete ensures ExactEvents(o', y) {
      assert ExactEvents(o, y);
    }
  }

  /** The owner fields change with the sessions that a deletion removes. */
  lemma OwnerFieldsKeepInv(o: Owner, o': Owner, limits: Limits)
    requires Inv(o, limits) && o'.sessions == o.sessions && o'.parts == o.parts && o'.events == o.events
    requires forall x :: x in o.sessions ==> o'.epoch == o.epoch && x !in o'.tombstones
    requires o'.revoked ==> o.sessions == map[]
    ensures Inv(o', limits)
  {
    forall y | y in o'.sessions && o'.sessions[y].status == Complete ensures ExactEvents(o', y) {
      assert ExactEvents(o, y);
    }
  }

  lemma DeletionKeepsInv(o: Owner, step: Step, limits: Limits)
    requires Inv(o, limits) && (step.DeleteSession? || step.DeleteHistory? || step.Revoke?)
    ensures Inv(Next(o, step, limits).0, limits)
  {
    var o' := Next(o, step, limits).0;
    if o' != o {
      var gone := if step.DeleteSession? then {step.session} else o.sessions.Keys;
      RemovalKeepsInv(o, gone, limits);
      var left := WithoutSessions(o, gone);
      assert o'.sessions == left.sessions && o'.events == left.events && o'.parts == left.parts;
      OwnerFieldsKeepInv(left, o', limits);
    }
  }

  lemma StepKeepsInv(o: Owner, step: Step, limits: Limits)
    requires Inv(o, limits)
    ensures Inv(Next(o, step, limits).0, limits)
  {
    match step
    case CreateSession(x, epoch, data, now) => CreateKeepsInv(o, x, epoch, data, now, limits);
    case PutPart(x, epoch, index, hash, evs) => PartKeepsInv(o, x, epoch, index, hash, evs, limits);
    case Finalize(x, epoch, hashes, eventCount) =>
      if Next(o, step, limits).0 != o {
        FinalizeKeepsInv(o, x, Concatenated(o.parts, x, |hashes|), limits);
      }
    case DeleteSession(x) => DeletionKeepsInv(o, step, limits);
    case DeleteHistory(expected) => DeletionKeepsInv(o, step, limits);
    case CleanUp(now, picked) => RemovalKeepsInv(o, picked * Abandoned(o, now), limits);
    case Revoke => DeletionKeepsInv(o, step, limits);
  }

  lemma {:induction false} RunsKeepInv(states: seq<Owner>, steps: seq<Step>, limits: Limits, i: nat)
    requires Run(states, steps, limits) && i <= |steps|
    ensures Inv(states[i], limits)
  {
    if i > 0 {
      RunsKeepInv(states, steps, limits, i - 1);
      StepKeepsInv(states[i - 1], steps[i - 1], limits);
    }
  }

  /** The note events of all complete sessions together never exceed the limit that only creation checks. */
  lemma StoredEventsWithinLimit(states: seq<Owner>, steps: seq<Step>, limits: Limits, i: nat)
    requires Run(states, steps, limits) && i <= |steps|
    ensures |states[i].events| <= limits.events
  {
    RunsKeepInv(states, steps, limits, i);
    var o := states[i];
    forall x | x in o.sessions ensures |RowsOf(o.events, x)| <= o.sessions[x].data.eventCount {
      if o.sessions[x].status == Complete {
        assert ExactEvents(o, x);
        var evs :| FinalEvents(o.sessions[x].data, RowsOf(o.events, x), x, evs);
        EventRowsAreTheList(x, evs);
      } else {
        assert RowsOf(o.events, x) == map[];
      }
    }
    RowsWithinTotal(o.sessions, o.events);
  }

  // ------------------------------------------------------------------ finalized sessions are the uploaded parts

  /** The events of a list of parts one after the other. */
  function Flatten(list: seq<Part>): seq<Event> {
    if list == [] then [] else list[0].events + Flatten(list[1..])
  }

  lemma {:induction false} FlattenLast(list: seq<Part>, part: Part)
    ensures Flatten(list + [part]) == Flatten(list) + part.events
  {
    if list == [] {
      assert Flatten([part]) == part.events + Flatten([]);
    } else {
      assert (list + [part])[1..] == list[1..] + [part];
      FlattenLast(list[1..], part);
    }
  }

  lemma {:induction false} ConcatenatedIsFlat(parts: map<PartKey, Part>, x: nat, list: seq<Part>)
    requires forall k :: 0 <= k < |list| ==> PartKey(x, k) in parts && parts[PartKey(x, k)] == list[k]
    ensures Concatenated(parts, x, |list|) == Flatten(list)
  {
    if list != [] {
      var rest, last := list[..|list| - 1], list[|list| - 1];
      ConcatenatedIsFlat(parts, x, rest);
      FlattenLast(rest, last);
      assert list == rest + [last];
    }
  }

  /** The step is the upload that stored this part. */
  ghost predicate Stores(o: Owner, step: Step, x: nat, index: int, part: Part, limits: Limits) {
    && step.PutPart? && step.session == x && step.index == index && Part(step.hash, step.events) == part
    && Next(o, step, limits).1 == Ok(PartStored(true))
  }

  ghost predicate Uploaded(states: seq<Owner>, steps: seq<Step>, limits: Limits, i: nat, x: nat, index: int, part: Part)
    requires |states| == |steps| + 1 && i <= |steps|
  {
    exists j :: 0 <= j < i && Stores(states[j], steps[j], x, index, part, limits)
  }

  /** The rows are the parts of the list in index order, each uploaded before. */
  ghost predicate FromUploads(states: seq<Owner>, steps: seq<Step>, limits: Limits, i: nat, x: nat, rows: map<EventKey, NoteEvent>, list: seq<Part>)
    requires |states| == |steps| + 1 && i <= |steps|
  {
    && rows == EventRows(x, Flatten(list)) && EventsFit(Flatten(list))
    && forall k :: 0 <= k < |list| ==> Uploaded(states, steps, limits, i, x, k, list[k])
  }

  lemma PartStep(o: Owner, step: Step, limits: Limits, x: nat, index: int)
    requires PartKey(x, index) in Next(o, step, limits).0.parts
    ensures var part := Next(o, step, limits).0.parts[PartKey(x, index)];
            (PartKey(x, index) in o.parts && o.parts[PartKey(x, index)] == part) || Stores(o, step, x, index, part, limits)
  {
  }

  lemma {:induction false} PartsWereUploaded(states: seq<Owner>, steps: seq<Step>, limits: Limits, i: nat, x: nat, index: int)
    requires Run(states, steps, limits) && i <= |steps| && PartKey(x, index) in states[i].parts
    ensures Uploaded(states, steps, limits, i, x, index, states[i].parts[PartKey(x, index)])
  {
    var key := PartKey(x, index);
    PartStep(states[i - 1], steps[i - 1], limits, x, index);
    if Stores(states[i - 1], steps[i - 1], x, index, states[i].parts[key], limits) {
    } else {
      PartsWereUploaded(states, steps, limits, i - 1, x, index);
      var j :| 0 <= j < i - 1 && Stores(states[j], steps[j], x, index, states[i].parts[key], limits);
      assert 0 <= j < i;
    }
  }

  /** A finalization writes the stored parts in index order, whatever order they came in. */
  lemma FinalizeUsesUploads(states: seq<Owner>, steps: seq<Step>, limits: Limits, i: nat, x: nat) returns (list: seq<Part>)
    requires Run(states, steps, limits) && i < |steps| && steps[i].Finalize? && steps[i].session == x
    requires Next(states[i], steps[i], limits).1 == Ok(Finalized(true))
    ensures FromUploads(states, steps, limits, i + 1, x, RowsOf(states[i + 1].events, x), list)
    ensures |list| == |steps[i].hashes| && forall k :: 0 <= k < |list| ==> list[k].hash == steps[i].hashes[k]
  {
    RunsKeepInv(states, steps, limits, i);
    var o, n := states[i], |steps[i].hashes|;
    list := seq(n, k requires 0 <= k < n => o.parts[PartKey(x, k)]);
    ConcatenatedIsFlat(o.parts, x, list);
    assert RowsOf(o.events, x) == map[];
    RowsAfterInsert(o.events, x, Flatten(list), x);
    forall k | 0 <= k < n ensures Uploaded(states, steps, limits, i + 1, x, k, list[k]) {
      PartsWereUploaded(states, steps, limits, i, x, k);
      var j :| 0 <= j < i && Stores(states[j], steps[j], x, k, list[k], limits);
      assert 0 <= j < i + 1;
    }
  }

  /** The session and its rows are as they were. */
  ghost predicate Unchanged(before: Owner, after: Owner, x: nat) {
    x in before.sessions && x in after.sessions && after.sessions[x] == before.sessions[x] && RowsOf(after.events, x) == RowsOf(before.events, x)
  }

  lemma RemovalLeavesOthers(o: Owner, gone: set<nat>, x: nat)
    requires x in o.sessions && x !in gone
    ensures Unchanged(o, WithoutSessions(o, gone), x)
  {
  }

  lemma FinalizeLeavesOthers(o: Owner, step: Step, limits: Limits, x: nat)
    requires step.Finalize? && x in o.sessions && o.sessions[x].status == Complete
    ensures Unchanged(o, Next(o, step, limits).0, x)
  {
    if Next(o, step, limits).0 != o {
      RowsAfterInsert(o.events, step.session, Concatenated(o.parts, step.session, |step.hashes|), x);
    }
  }

  /** A complete session is never changed: every step leaves it alone or deletes it for good. */
  lemma CompleteStep(o: Owner, step: Step, limits: Limits, x: nat)
    requires x in o.sessions && o.sessions[x].status == Complete
    ensures Unchanged(o, Next(o, step, limits).0, x) || x !in Next(o, step, limits).0.sessions
  {
    match step
    case Finalize(_, _, _, _) => FinalizeLeavesOthers(o, step, limits, x);
    case DeleteSession(y) => if y != x { RemovalLeavesOthers(o, {y}, x); }
    case CleanUp(now, picked) => RemovalLeavesOthers(o, picked * Abandoned(o, now), x);
    case DeleteHistory(_) =>
    case Revoke =>
    case CreateSession(_, _, _, _) =>
    case PutPart(_, _, _, _, _) =>
  }

  lemma BecomesComplete(o: Owner, step: Step, limits: Limits, x: nat)
    requires x in Next(o, step, limits).0.sessions && Next(o, step, limits).0.sessions[x].status == Complete
    requires x in o.sessions ==> o.sessions[x].status != Complete
    ensures step.Finalize? && step.session == x && Next(o, step, limits).1 == Ok(Finalized(true))
  {
  }

  lemma LaterStillUploaded(states: seq<Owner>, steps: seq<Step>, limits: Limits, i: nat, x: nat, rows: map<EventKey, NoteEvent>, list: seq<Part>)
    requires |states| == |steps| + 1 && 0 < i <= |steps| && FromUploads(states, steps, limits, i - 1, x, rows, list)
    ensures FromUploads(states, steps, limits, i, x, rows, list)
  {
    forall k | 0 <= k < |list| ensures Uploaded(states, steps, limits, i, x, k, list[k]) {
      assert Uploaded(states, steps, limits, i - 1, x, k, list[k]);
      var j :| 0 <= j < i - 1 && Stores(states[j], steps[j], x, k, list[k], limits);
      assert 0 <= j < i;
    }
  }

  /**
   * For any order and repetition of part uploads, the note events of a
   * complete session are exactly its uploaded parts concatenated by index,
   * with ordinals counting from 0, and there are as many as were declared.
   */
  lemma {:induction false} CompleteIsTheUploads(states: seq<Owner>, steps: seq<Step>, limits: Limits, i: nat, x: nat) returns (list: seq<Part>)
    requires Run(states, steps, limits) && i <= |steps|
    requires x in states[i].sessions && states[i].sessions[x].status == Complete
    ensures FromUploads(states, steps, limits, i, x, RowsOf(states[i].events, x), list)
    ensures |Flatten(list)| == |RowsOf(states[i].events, x)| == states[i].sessions[x].data.eventCount
    ensures forall p :: 0 <= p < |Flatten(list)| ==> EventKey(x, Flatten(list)[p].id) in RowsOf(states[i].events, x)
    ensures forall p :: 0 <= p < |Flatten(list)| ==> RowsOf(states[i].events, x)[EventKey(x, Flatten(list)[p].id)] == NoteEvent(p, Flatten(list)[p])
    ensures forall index :: PartKey(x, index) !in states[i].parts
  {
    assert i > 0;
    var before := states[i - 1];
    if x in before.sessions && before.sessions[x].status == Complete {
      list := CompleteIsTheUploads(states, steps, limits, i - 1, x);
      CompleteStep(before, steps[i - 1], limits, x);
      LaterStillUploaded(states, steps, limits, i, x, RowsOf(states[i].events, x), list);
    } else {
      BecomesComplete(before, steps[i - 1], limits, x);
      list := FinalizeUsesUploads(states, steps, limits, i - 1, x);
    }
    EventRowsAreTheList(x, Flatten(list));
    RunsKeepInv(states, steps, limits, i);
    DeclaredCount(states[i], x, Flatten(list), limits);
  }

  lemma {:induction false} DeclaredCount(o: Owner, x: nat, evs: seq<Event>, limits: Limits)
    requires Inv(o, limits) && x in o.sessions && o.sessions[x].status == Complete
    requires RowsOf(o.events, x) == EventRows(x, evs) && EventsFit(evs)
    ensures |evs| == o.sessions[x].data.eventCount
  {
    assert ExactEvents(o, x);
    var other :| FinalEvents(o.sessions[x].data, RowsOf(o.events, x), x, other);
    EventRowsAreTheList(x, evs);
    EventRowsAreTheList(x, other);
  }

  /** The first upload of a part wins: it stays as it is until its session is complete or removed. */
  lemma FirstUploadWins(o: Owner, step: Step, limits: Limits, key: PartKey)
    requires key in o.parts
    ensures var o' := Next(o, step, limits).0;
            || (key in o'.parts && o'.parts[key] == o.parts[key])
            || key.session !in o'.sessions
            || o'.sessions[key.session].status == Complete
  {
  }

  // ------------------------------------------------------------------ storage and repetition

  lemma OnlyCreationAdds(o: Owner, step: Step, limits: Limits)
    requires !step.CreateSession?
    ensures Next(o, step, limits).0.sessions.Keys <= o.sessions.Keys
  {
  }

  lemma CreationAddsOne(o: Owner, x: nat, epoch: nat, data: SessionData, now: int, limits: Limits)
    requires DoCreate(o, x, epoch, data, now, limits).0 != o
    ensures |o.sessions| < limits.sessions && DoCreate(o, x, epoch, data, now, limits).0.sessions.Keys == o.sessions.Keys + {x}
  {
  }

  lemma SessionsStep(o: Owner, step: Step, limits: Limits)
    requires |o.sessions| <= limits.sessions
    ensures |Next(o, step, limits).0.sessions| <= limits.sessions
  {
    if step.CreateSession? {
      if Next(o, step, limits).0 != o {
        CreationAddsOne(o, step.session, step.epoch, step.data, step.now, limits);
        assert |o.sessions.Keys + {step.session}| <= |o.sessions.Keys| + 1;
      }
    } else {
      OnlyCreationAdds(o, step, limits);
      SubsetCardinality(Next(o, step, limits).0.sessions.Keys, o.sessions.Keys);
    }
  }

  /** The owner never stores more sessions than the limit. */
  lemma {:induction false} SessionsWithinLimit(states: seq<Owner>, steps: seq<Step>, limits: Limits, i: nat)
    requires Run(states, steps, limits) && i <= |steps|
    ensures |states[i].sessions| <= limits.sessions
  {
    if i > 0 {
      SessionsWithinLimit(states, steps, limits, i - 1);
      SessionsStep(states[i - 1], steps[i - 1], limits);
    }
  }

  /** Sending an accepted upload request again is accepted and changes nothing. */
  lemma ResendChangesNothing(o: Owner, step: Step, limits: Limits)
    requires (step.CreateSession? || step.PutPart? || step.Finalize?) && Next(o, step, limits).1.Ok?
    ensures var after := Next(o, step, limits).0;
            Next(after, step, limits).0 == after && Next(after, step, limits).1.Ok?
  {
  }

  // ------------------------------------------------------------------ no resurrection

  /** Nothing of session `x` can be written by a request that carries epoch `e` or an older one. */
  ghost predicate Buried(o: Owner, x: nat, e: nat) {
    o.revoked || e < o.epoch || (x in o.tombstones && x !in o.sessions)
  }

  lemma StepKeepsBuried(o: Owner, step: Step, limits: Limits, x: nat, e: nat)
    requires Buried(o, x, e)
    ensures Buried(Next(o, step, limits).0, x, e)
  {
  }

  lemma {:induction false} StaysBuried(states: seq<Owner>, steps: seq<Step>, limits: Limits, i: nat, j: nat, x: nat, e: nat)
    requires Run(states, steps, limits) && i <= j <= |steps| && Buried(states[i], x, e)
    ensures Buried(states[j], x, e)
    decreases j
  {
    if i < j {
      StaysBuried(states, steps, limits, i, j - 1, x, e);
      StepKeepsBuried(states[j - 1], steps[j - 1], limits, x, e);
    }
  }

  /** The step is an upload request for session `x` that carries epoch `e`. */
  predicate Uploads(step: Step, x: nat, e: nat) {
    (step.CreateSession? || step.PutPart? || step.Finalize?) && step.session == x && step.epoch == e
  }

  /** A session deleted on its own takes no upload of any epoch again. */
  lemma DeletedSessionStaysDeleted(states: seq<Owner>, steps: seq<Step>, limits: Limits, i: nat, j: nat, x: nat, e: nat)
    requires Run(states, steps, limits) && i < j < |steps|
    requires steps[i] == DeleteSession(x) && Next(states[i], steps[i], limits).1.Ok? && Uploads(steps[j], x, e)
    ensures Next(states[j], steps[j], limits).1.Err? && states[j + 1] == states[j]
  {
    StaysBuried(states, steps, limits, i + 1, j, x, states[j].epoch);
  }

  /** After the history of an epoch was deleted, no upload that carries this epoch or an older one is taken. */
  lemma DeletedHistoryStaysDeleted(states: seq<Owner>, steps: seq<Step>, limits: Limits, i: nat, j: nat, x: nat, e: nat)
    requires Run(states, steps, limits) && i < j < |steps|
    requires steps[i].DeleteHistory? && Next(states[i], steps[i], limits).1.Ok? && e <= states[i].epoch && Uploads(steps[j], x, e)
    ensures states[i + 1].sessions == map[]
    ensures Next(states[j], steps[j], limits).1.Err? && states[j + 1] == states[j]
  {
    assert states[i + 1].epoch == states[i].epoch + 1;
    EpochsGrow(states, steps, limits, i + 1, j);
  }

  lemma {:induction false} EpochsGrow(states: seq<Owner>, steps: seq<Step>, limits: Limits, i: nat, j: nat)
    requires Run(states, steps, limits) && i <= j <= |steps|
    ensures states[i].epoch <= states[j].epoch
    decreases j
  {
    if i < j {
      EpochsGrow(states, steps, limits, i, j - 1);
    }
  }

  /** Every stored session carries the owner's current epoch. */
  lemma SessionsAreCurrent(states: seq<Owner>, steps: seq<Step>, limits: Limits, i: nat)
    requires Run(states, steps, limits) && i <= |steps|
    ensures forall x :: x in states[i].sessions ==> states[i].sessions[x].epoch == states[i].epoch
  {
    RunsKeepInv(states, steps, limits, i);
  }
}
