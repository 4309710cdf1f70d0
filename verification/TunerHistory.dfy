/**
 * What the answers of the tuner history promise a client: what is stored is
 * what was sent, who is refused and why, and what is taken away.
 */
module TunerHistory {
  import opened Prelude
  import opened Tuner

  // ------------------------------------------------------------------ what is stored was sent

  /** The events of a list of parts are those of the first, then those of the others. */
  lemma {:induction false} FlattenIsInOrder(first: seq<Part>, others: seq<Part>)
    ensures Flatten(first + others) == Flatten(first) + Flatten(others)
    ensures forall part :: Flatten([part]) == part.events
  {
    forall part ensures Flatten([part]) == part.events {
      assert Flatten([part]) == part.events + Flatten([]);
    }
    if first == [] {
      assert first + others == others;
    } else {
      assert (first + others)[1..] == first[1..] + others;
      FlattenIsInOrder(first[1..], others);
    }
  }

  /** Step `h` created the session that is stored at `i`, and it was there ever since. */
  ghost predicate CreatedBy(states: seq<Owner>, steps: seq<Step>, limits: Limits, h: nat, i: nat, x: nat)
    requires |states| == |steps| + 1 && i <= |steps|
  {
    && h < i && x in states[i].sessions
    && steps[h].CreateSession? && steps[h].session == x && Next(states[h], steps[h], limits).1 == Ok(Created(Uploading, true))
    && states[i].sessions[x].data == steps[h].data && states[i].sessions[x].epoch == steps[h].epoch && states[i].sessions[x].created == steps[h].now
    && forall m :: h < m <= i ==> x in states[m].sessions
  }

  lemma NewSession(o: Owner, step: Step, limits: Limits, x: nat)
    requires x !in o.sessions && x in Next(o, step, limits).0.sessions
    ensures step.CreateSession? && step.session == x && Next(o, step, limits).1 == Ok(Created(Uploading, true))
    ensures Next(o, step, limits).0.sessions[x] == Session(step.epoch, Uploading, step.now, step.data)
  {
  }

  lemma KeptSession(o: Owner, step: Step, limits: Limits, x: nat)
    requires x in o.sessions && x in Next(o, step, limits).0.sessions
    ensures Next(o, step, limits).0.sessions[x] == o.sessions[x].(status := Next(o, step, limits).0.sessions[x].status)
  {
  }

  /** Every stored session holds exactly the data, the epoch and the time of the request that created it. */
  lemma {:induction false} StoredAsCreated(states: seq<Owner>, steps: seq<Step>, limits: Limits, i: nat, x: nat) returns (h: nat)
    requires Run(states, steps, limits) && i <= |steps| && x in states[i].sessions
    ensures CreatedBy(states, steps, limits, h, i, x)
  {
    if x in states[i - 1].sessions {
      h := StoredAsCreated(states, steps, limits, i - 1, x);
      KeptSession(states[i - 1], steps[i - 1], limits, x);
    } else {
      h := i - 1;
      NewSession(states[h], steps[h], limits, x);
    }
  }

  // ------------------------------------------------------------------ acceptance and refusal

  predicate DeclaredOk(d: SessionData) {
    InRange(d.eventCount, 0, 10000) && InRange(d.duration, 0, 7200000)
  }

  /** A session is created exactly when the owner is in this epoch, the id is new and not buried, and both limits and the declared ranges allow it. */
  lemma CreatesExactlyWhen(o: Owner, x: nat, epoch: nat, data: SessionData, now: int, limits: Limits)
    ensures var (after, r) := Next(o, CreateSession(x, epoch, data, now), limits);
            && (r == Ok(Created(Uploading, true)) <==>
                  !o.revoked && epoch == o.epoch && x !in o.tombstones && x !in o.sessions && HasRoom(o, data, limits) && DeclaredOk(data))
            && (r == Ok(Created(Uploading, true)) ==> after == o.(sessions := o.sessions[x := Session(epoch, Uploading, now, data)]))
            && (r != Ok(Created(Uploading, true)) ==> after == o)
  {
  }

  /** One more session, and its events on top of the declared ones of all stored sessions. */
  ghost predicate HasRoom(o: Owner, data: SessionData, limits: Limits) {
    |o.sessions| < limits.sessions && TotalCount(o.sessions) + data.eventCount <= limits.events
  }

  /** Creating a stored session again answers its status, or a conflict for another body. */
  lemma CreatesOnce(o: Owner, x: nat, epoch: nat, data: SessionData, now: int, limits: Limits)
    requires !o.revoked && epoch == o.epoch && x !in o.tombstones && x in o.sessions
    ensures Next(o, CreateSession(x, epoch, data, now), limits) ==
              (o, if o.sessions[x].data.body == data.body then Ok(Created(o.sessions[x].status, false)) else Err(Conflict))
  {
  }

  /** Why a creation is refused: the first of these that applies. */
  lemma CreateRefusals(o: Owner, x: nat, epoch: nat, data: SessionData, now: int, limits: Limits)
    requires Next(o, CreateSession(x, epoch, data, now), limits).1.Err?
    ensures Next(o, CreateSession(x, epoch, data, now), limits).1.error ==
              if o.revoked then OwnerRevoked
              else if epoch != o.epoch then EpochMismatch
              else if x in o.tombstones then Tombstoned
              else if x in o.sessions then Conflict
              else if !HasRoom(o, data, limits) then StorageLimit
              else ConstraintViolation
  {
  }

  /** A part is stored as it was sent under its index when there is none; the same part again changes nothing, another one conflicts. */
  lemma PartAnswers(o: Owner, x: nat, epoch: nat, index: int, hash: Name, evs: seq<Event>, limits: Limits)
    ensures Next(o, PutPart(x, epoch, index, hash, evs), limits) ==
              if o.revoked then (o, Err(OwnerRevoked))
              else if epoch != o.epoch then (o, Err(EpochMismatch))
              else if x in o.tombstones then (o, Err(Tombstoned))
              else if x !in o.sessions then (o, Err(NotFound))
              else if o.sessions[x].status == Complete then (o, Err(Conflict))
              else if PartKey(x, index) in o.parts then
                (o, if o.parts[PartKey(x, index)].hash == hash && o.parts[PartKey(x, index)].events == evs then Ok(PartStored(false)) else Err(Conflict))
              else if !InRange(index, 0, 99) || !InRange(|evs|, 0, 500) then (o, Err(ConstraintViolation))
              else (o.(parts := o.parts[PartKey(x, index) := Part(hash, evs)]), Ok(PartStored(true)))
  {
  }

  /** These are all parts of the session, by index from 0. */
  ghost predicate PartsAre(o: Owner, x: nat, list: seq<Part>) {
    && (forall k :: 0 <= k < |list| ==> PartKey(x, k) in o.parts && o.parts[PartKey(x, k)] == list[k])
    && (forall key :: key in o.parts && key.session == x ==> InRange(key.index, 0, |list| - 1))
  }

  /** Ids are used once, and no event ends before it starts. */
  predicate EventsOk(evs: seq<Event>) {
    && (forall i | 0 <= i < |evs| :: 0 <= evs[i].start && evs[i].start <= evs[i].end)
    && (forall i, j :: 0 <= i < |evs| && 0 <= j < |evs| && evs[i].id == evs[j].id ==> i == j)
  }

  lemma EventsOkIsFit(evs: seq<Event>)
    ensures EventsOk(evs) <==> EventsFit(evs)
  {
    if EventsOk(evs) {
      forall i | 0 <= i < |evs| ensures EventOk(evs[i]) {
      }
    }
    if EventsFit(evs) {
      forall i, j | 0 <= i < |evs| && 0 <= j < |evs| && evs[i].id == evs[j].id ensures i == j {
        if i < j {} else if j < i {}
      }
      forall i | 0 <= i < |evs| ensures 0 <= evs[i].start && evs[i].start <= evs[i].end {
        assert EventOk(evs[i]);
      }
    }
  }

  ghost predicate HashesAre(list: seq<Part>, hashes: seq<Name>) {
    |hashes| == |list| && forall k :: 0 <= k < |list| ==> hashes[k] == list[k].hash
  }

  lemma {:induction false} MatchesExactly(o: Owner, x: nat, list: seq<Part>, hashes: seq<Name>)
    requires PartsAre(o, x, list)
    ensures PartsMatch(o.parts, x, hashes) <==> HashesAre(list, hashes)
    ensures Concatenated(o.parts, x, |list|) == Flatten(list)
  {
    ConcatenatedIsFlat(o.parts, x, list);
    assert |hashes| < |list| ==> PartKey(x, |hashes|) in o.parts;
    assert |list| < |hashes| ==> PartKey(x, |list|) !in o.parts;
  }

  /**
   * With all its parts stored by index, a session in upload is completed
   * exactly when the given hashes are those of the parts in order, the number
   * of events is the given and the declared one, and the events are valid.
   */
  lemma {:induction false} CompletesExactlyWhen(o: Owner, x: nat, epoch: nat, hashes: seq<Name>, eventCount: int, limits: Limits, list: seq<Part>)
    requires !o.revoked && epoch == o.epoch && x !in o.tombstones && x in o.sessions && o.sessions[x].status == Uploading && PartsAre(o, x, list)
    ensures var (after, r) := Next(o, Finalize(x, epoch, hashes, eventCount), limits);
            && (r.Ok? <==> HashesAre(list, hashes) && |Flatten(list)| == eventCount == o.sessions[x].data.eventCount && EventsOk(Flatten(list)))
            && (r.Ok? ==> r == Ok(Finalized(true))) && (r.Err? ==> after == o)
            && (r.Err? ==> r.error == if HashesAre(list, hashes) && |Flatten(list)| == eventCount == o.sessions[x].data.eventCount then ConstraintViolation else Conflict)
  {
    MatchesExactly(o, x, list, hashes);
    EventsOkIsFit(Flatten(list));
  }

  lemma CompletesTo(o: Owner, step: Step, limits: Limits, o': Owner)
    requires step.Finalize? && o' == Next(o, step, limits).0 && o' != o
    ensures var x, evs := step.session, Concatenated(o.parts, step.session, |step.hashes|);
            && x in o.sessions && PartsMatch(o.parts, x, step.hashes) && EventsFit(evs) && o'.events == o.events + EventRows(x, evs)
            && o'.sessions == o.sessions[x := o.sessions[x].(status := Complete)] && o.sessions[x].status == Uploading
            && o'.parts == map k | k in o.parts && k.session != x :: o.parts[k]
  {
  }

  /** The note events of the session are exactly these, numbered from 0. */
  ghost predicate EventsAre(events: map<EventKey, NoteEvent>, x: nat, evs: seq<Event>) {
    && |RowsOf(events, x)| == |evs|
    && forall p :: 0 <= p < |evs| ==> EventKey(x, evs[p].id) in events && events[EventKey(x, evs[p].id)] == NoteEvent(p, evs[p])
  }

  lemma {:induction false} WrittenEvents(events: map<EventKey, NoteEvent>, x: nat, evs: seq<Event>)
    requires RowsOf(events, x) == map[] && EventsFit(evs)
    ensures EventsAre(events + EventRows(x, evs), x, evs)
  {
    RowsAfterInsert(events, x, evs, x);
    EventRowsAreTheList(x, evs);
    var after := events + EventRows(x, evs);
    assert RowsOf(after, x) == EventRows(x, evs);
    forall p | 0 <= p < |evs| ensures EventKey(x, evs[p].id) in after && after[EventKey(x, evs[p].id)] == NoteEvent(p, evs[p]) {
      assert EventKey(x, evs[p].id) in EventRows(x, evs);
    }
  }

  /** Completion turns the parts into note events numbered from 0 in the order of the parts; nothing else changes. */
  lemma {:induction false} CompletionEffect(o: Owner, step: Step, limits: Limits, list: seq<Part>, o': Owner, y: nat)
    requires Inv(o, limits) && step.Finalize? && PartsAre(o, step.session, list)
    requires o' == Next(o, step, limits).0 && o' != o
    ensures step.session in o.sessions && o'.sessions == o.sessions[step.session := o.sessions[step.session].(status := Complete)]
    ensures forall key :: key in o'.parts <==> key in o.parts && key.session != step.session
    ensures EventsAre(o'.events, step.session, Flatten(list))
    ensures y != step.session ==> RowsOf(o'.events, y) == RowsOf(o.events, y)
  {
    CompletesTo(o, step, limits, o');
    MatchesExactly(o, step.session, list, step.hashes);
    assert RowsOf(o.events, step.session) == map[];
    WrittenEvents(o.events, step.session, Flatten(list));
    RowsAfterInsert(o.events, step.session, Flatten(list), y);
  }

  // ------------------------------------------------------------------ what is taken away

  /** Nothing is stored for these sessions any more, and every other session is as it was. */
  ghost predicate OnlyGone(before: Owner, after: Owner, gone: set<nat>) {
    && after.sessions == before.sessions - gone
    && (forall k :: k in after.parts <==> k in before.parts && k.session !in gone)
    && (forall k :: k in after.parts ==> after.parts[k] == before.parts[k])
    && (forall k :: k in after.events <==> k in before.events && k.session !in gone)
    && (forall k :: k in after.events ==> after.events[k] == before.events[k])
  }

  /** A deletion takes exactly the session and buries its id, whether it was stored or not. */
  lemma DeletionTakesTheSession(o: Owner, x: nat, limits: Limits)
    ensures var (after, r) := Next(o, DeleteSession(x), limits);
            && (r.Err? <==> o.revoked) && (o.revoked ==> r == Err(OwnerRevoked) && after == o)
            && (r.Ok? ==> r.value == SessionDeleted(x in o.sessions) && OnlyGone(o, after, {x}))
            && (r.Ok? ==> after.tombstones == o.tombstones + {x} && after.epoch == o.epoch && !after.revoked)
  {
  }

  /** The deletion of the history takes all sessions and starts the next epoch, exactly for the current one if one is given. */
  lemma DeletionTakesTheHistory(o: Owner, expected: Option<nat>, limits: Limits)
    ensures var (after, r) := Next(o, DeleteHistory(expected), limits);
            && (r.Ok? <==> !o.revoked && (expected.None? || expected.value == o.epoch)) && (r.Err? ==> after == o)
            && (r.Err? ==> r.error == if o.revoked then OwnerRevoked else EpochMismatch)
            && (r.Ok? ==> r.value == HistoryDeleted(o.epoch + 1) && after.epoch == o.epoch + 1 && OnlyGone(o, after, o.sessions.Keys))
            && (r.Ok? ==> after.tombstones == o.tombstones && !after.revoked)
  {
  }

  /** Clean-up takes sessions in upload that were started more than a day before; a bounded one takes as many as it may. */
  lemma CleanUpTakesAbandoned(o: Owner, now: int, maxRows: nat, picked: set<nat>, limits: Limits)
    requires MayPick(o, now, maxRows, picked)
    ensures var (after, r) := Next(o, CleanUp(now, picked), limits);
            r == Ok(Removed(|picked|)) && OnlyGone(o, after, picked) && after.tombstones == o.tombstones && after.epoch == o.epoch
    ensures forall x :: x in picked ==> x in o.sessions && o.sessions[x].status == Uploading && now - o.sessions[x].created > 24 * 60 * 60 * 1000000
    ensures |picked| < maxRows ==> forall x :: x in o.sessions && o.sessions[x].status == Uploading && now - o.sessions[x].created > 24 * 60 * 60 * 1000000 ==> x in picked
  {
    assert picked * Abandoned(o, now) == picked;
  }

  /** Revocation takes everything for good. */
  lemma RevocationTakesEverything(o: Owner, limits: Limits)
    requires Inv(o, limits)
    ensures var after := Next(o, Revoke, limits).0; after.revoked && after.sessions == map[] && after.parts == map[] && after.events == map[]
  {
    var after := Next(o, Revoke, limits).0;
    assert forall k :: k !in after.parts;
    assert forall k :: k !in after.events;
  }
}
