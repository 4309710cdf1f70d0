/**
 * The statements of tuner_repository.py on the rows of one owner.  Each
 * method is one transaction; the contracts name the step of Tuner it is.
 */
module TunerStore {
  import opened Prelude
  import opened Tuner

  /** The row constraints accept the next event exactly when the longer list fits. */
  lemma {:induction false} AdmittedEventFits(base: map<EventKey, NoteEvent>, x: nat, done: seq<Event>, e: Event)
    requires RowsOf(base, x) == map[] && EventsFit(done)
    ensures EventOk(e) && EventKey(x, e.id) !in base + EventRows(x, done) <==> EventsFit(done + [e])
  {
    EventRowsBelong(x, done);
    assert EventKey(x, e.id) in base <==> EventKey(x, e.id) in RowsOf(base, x);
    assert (done + [e])[|done|] == e;
    if EventsFit(done + [e]) {
      forall i | 0 <= i < |done| ensures done[i].id != e.id {
        assert (done + [e])[i] == done[i];
      }
    } else if EventOk(e) {
      SomeIdRepeats(done, e);
    }
  }

  lemma SomeIdRepeats(done: seq<Event>, e: Event)
    requires EventsFit(done) && EventOk(e) && !EventsFit(done + [e])
    ensures HasId(done, e.id)
  {
    if !HasId(done, e.id) {
      assert forall i :: 0 <= i < |done| ==> done[i].id != e.id;
      assert EventsFit(done + [e]);
    }
  }

  class TunerRepository {
    const limits: Limits
    var revoked: bool
    var epoch: nat
    var sessions: map<nat, Session>
    var parts: map<PartKey, Part>
    var events: map<EventKey, NoteEvent>
    var tombstones: set<nat>

    function Snapshot(): Owner
      reads this
    {
      Owner(revoked, epoch, sessions, parts, events, tombstones)
    }

    constructor (limits: Limits)
      ensures Snapshot() == NEW_OWNER && this.limits == limits
    {
      this.limits := limits;
      revoked, epoch, sessions, parts, events, tombstones := false, 1, map[], map[], map[], {};
    }

    /** `DELETE FROM tuner_sessions` with its ON DELETE CASCADE. */
    method DeleteSessions(gone: set<nat>)
      modifies this`sessions, this`parts, this`events
      ensures Snapshot() == WithoutSessions(old(Snapshot()), gone)
    {
      sessions := sessions - gone;
      parts := map k | k in parts && k.session !in gone :: parts[k];
      events := map k | k in events && k.session !in gone :: events[k];
    }

    /** `SELECT COALESCE(SUM(event_count), 0)`. */
    method SumOfCounts() returns (total: int)
      ensures total == TotalCount(sessions)
    {
      total := 0;
      var todo := sessions;
      while todo != map[]
        invariant todo.Keys <= sessions.Keys && total + TotalCount(todo) == TotalCount(sessions)
        decreases |todo.Keys|
      {
        var x :| x in todo;
        TotalWithout(todo, x);
        assert (todo - {x}).Keys == todo.Keys - {x};
        total := total + todo[x].data.eventCount;
        todo := todo - {x};
      }
    }

    method CreateSession(x: nat, e: nat, data: SessionData, now: int) returns (r: Outcome)
      modifies this`sessions
      ensures (Snapshot(), r) == DoCreate(old(Snapshot()), x, e, data, now, limits)
    {
      var locked := LockOwner(Snapshot(), Some(e));
      if locked.Err? {
        return Err(locked.error);
      }
      if x in tombstones {
        return Err(Tombstoned);
      }
      if x in sessions {
        if sessions[x].data.body != data.body {
          return Err(Conflict);
        }
        return Ok(Created(sessions[x].status, false));
      }
      var stored := SumOfCounts();
      if |sessions| >= limits.sessions || stored + data.eventCount > limits.events {
        return Err(StorageLimit);
      }
      if !CountOk(data) {
        return Err(ConstraintViolation);
      }
      sessions := sessions[x := Session(e, Uploading, now, data)];
      return Ok(Created(Uploading, true));
    }

    method PutPart(x: nat, e: nat, index: int, hash: Name, evs: seq<Event>) returns (r: Outcome)
      modifies this`parts
      ensures (Snapshot(), r) == DoPutPart(old(Snapshot()), x, e, index, hash, evs)
    {
      var locked := LockOwner(Snapshot(), Some(e));
      if locked.Err? {
        return Err(locked.error);
      }
      if x in tombstones {
        return Err(Tombstoned);
      }
      if x !in sessions {
        return Err(NotFound);
      }
      if sessions[x].status != Uploading {
        return Err(Conflict);
      }
      var key := PartKey(x, index);
      if key in parts {
        if parts[key].hash != hash || parts[key].events != evs {
          return Err(Conflict);
        }
        return Ok(PartStored(false));
      }
      if !(0 <= index < 100 && |evs| <= 500) {
        return Err(ConstraintViolation);
      }
      parts := parts[key := Part(hash, evs)];
      return Ok(PartStored(true));
    }

    /** The list comprehension over the fetched parts. */
    method CollectEvents(x: nat, n: nat) returns (evs: seq<Event>)
      requires forall i :: 0 <= i < n ==> PartKey(x, i) in parts
      ensures evs == Concatenated(parts, x, n)
    {
      evs := [];
      for i := 0 to n
        invariant evs == Concatenated(parts, x, i)
      {
        evs := evs + parts[PartKey(x, i)].events;
      }
    }

    /** The insert loop of `finalize`; a violated constraint stops it. */
    method InsertEvents(x: nat, evs: seq<Event>) returns (ok: bool)
      requires RowsOf(events, x) == map[]
      modifies this`events
      ensures ok <==> EventsFit(evs)
      ensures ok ==> events == old(events) + EventRows(x, evs)
    {
      for ordinal := 0 to |evs|
        invariant EventsFit(evs[..ordinal])
        invariant events == old(events) + EventRows(x, evs[..ordinal])
      {
        var ev := evs[ordinal];
        AdmittedEventFits(old(events), x, evs[..ordinal], ev);
        assert evs[..ordinal + 1] == evs[..ordinal] + [ev] && evs[..ordinal + 1][..ordinal] == evs[..ordinal];
        if !EventOk(ev) || EventKey(x, ev.id) in events {
          if EventsFit(evs) { PrefixFits(evs, ordinal + 1); }
          return false;
        }
        events := events[EventKey(x, ev.id) := NoteEvent(ordinal, ev)];
      }
      assert evs[..|evs|] == evs;
      return true;
    }

    method Finalize(x: nat, e: nat, hashes: seq<Name>, eventCount: int) returns (r: Outcome)
      requires Inv(Snapshot(), limits)
      modifies this`sessions, this`parts, this`events
      ensures (Snapshot(), r) == DoFinalize(old(Snapshot()), x, e, hashes, eventCount)
    {
      var locked := LockOwner(Snapshot(), Some(e));
      if locked.Err? {
        return Err(locked.error);
      }
      if x in tombstones {
        return Err(Tombstoned);
      }
      if x !in sessions {
        return Err(NotFound);
      }
      if sessions[x].status == Complete {
        return Ok(Finalized(false));
      }
      if !PartsMatch(parts, x, hashes) {
        return Err(Conflict);
      }
      var evs := CollectEvents(x, |hashes|);
      if |evs| != eventCount || sessions[x].data.eventCount != eventCount {
        return Err(Conflict);
      }
      var backup := events;
      assert RowsOf(events, x) == map[];
      var ok := InsertEvents(x, evs);
      if !ok {
        events := backup;
        return Err(ConstraintViolation);
      }
      parts := map k | k in parts && k.session != x :: parts[k];
      sessions := sessions[x := sessions[x].(status := Complete)];
      return Ok(Finalized(true));
    }

    method DeleteSession(x: nat) returns (r: Outcome)
      modifies this
      ensures (Snapshot(), r) == DoDeleteSession(old(Snapshot()), x)
    {
      var locked := LockOwner(Snapshot(), None);
      if locked.Err? {
        return Err(locked.error);
      }
      tombstones := tombstones + {x};
      var deleted := x in sessions;
      DeleteSessions({x});
      return Ok(SessionDeleted(deleted));
    }

    method DeleteHistory(expected: Option<nat>) returns (r: Outcome)
      modifies this
      ensures (Snapshot(), r) == DoDeleteHistory(old(Snapshot()), expected)
    {
      var locked := LockOwner(Snapshot(), expected);
      if locked.Err? {
        return Err(locked.error);
      }
      DeleteSessions(sessions.Keys);
      epoch := epoch + 1;
      return Ok(HistoryDeleted(epoch));
    }

    method CleanUpExpiredParts(now: int, maxRows: nat) returns (ghost picked: set<nat>, r: Outcome)
      modifies this`sessions, this`parts, this`events
      ensures MayPick(old(Snapshot()), now, maxRows, picked) && r == Ok(Removed(|picked|))
      ensures (Snapshot(), r) == DoCleanUp(old(Snapshot()), now, picked)
    {
      var abandoned, gone := Abandoned(Snapshot(), now), {};
      while |gone| < maxRows && abandoned - gone != {}
        invariant gone <= abandoned && |gone| <= maxRows
        decreases maxRows - |gone|
      {
        var x :| x in abandoned - gone;
        gone := gone + {x};
      }
      assert abandoned - gone == {} ==> gone == abandoned;
      assert gone * abandoned == gone;
      DeleteSessions(gone);
      return gone, Ok(Removed(|gone|));
    }
  }

  lemma PrefixFits(evs: seq<Event>, i: nat)
    requires i <= |evs| && EventsFit(evs)
    ensures EventsFit(evs[..i])
  {
  }
}
