/**
 * What the answers of the metronome history promise a client: what is stored
 * is what was sent, who is refused and why, and what a deletion takes away.
 */
module MetronomeHistory {
  import opened Prelude
  import opened Metronome

  // ------------------------------------------------------------------ sums and rows in the client's terms

  function TargetOf(g: Group): int {
    g.target
  }

  function ValidOf(g: Group): int {
    g.valid
  }

  function Total(gs: seq<Group>, count: Group -> int): int {
    if gs == [] then 0 else count(gs[0]) + Total(gs[1..], count)
  }

  lemma {:induction false} TotalOfLast(gs: seq<Group>, last: Group, count: Group -> int)
    ensures Total(gs + [last], count) == Total(gs, count) + count(last)
  {
    if gs == [] {
      assert gs + [last] == [last];
    } else {
      assert (gs + [last])[1..] == gs[1..] + [last];
      TotalOfLast(gs[1..], last, count);
    }
  }

  lemma {:induction false} SumsAreTotals(gs: seq<Group>)
    ensures SumTarget(gs) == Total(gs, TargetOf) && SumValid(gs) == Total(gs, ValidOf)
  {
    if gs != [] {
      var rest, last := gs[..|gs| - 1], gs[|gs| - 1];
      assert gs == rest + [last];
      SumsAreTotals(rest);
      TotalOfLast(rest, last, TargetOf);
      TotalOfLast(rest, last, ValidOf);
    }
  }

  /** The rows of the session are exactly these groups, each under its ordinal. */
  ghost predicate RowsAre(rows: map<GroupKey, Group>, x: nat, gs: seq<Group>) {
    && (forall i :: 0 <= i < |gs| ==> GroupKey(x, gs[i].ordinal) in rows && rows[GroupKey(x, gs[i].ordinal)] == gs[i])
    && (forall k :: k in rows ==> k.session == x && exists i :: 0 <= i < |gs| && gs[i].ordinal == k.ordinal)
  }

  lemma OneMoreRow(rows: map<GroupKey, Group>, x: nat, rest: seq<Group>, last: Group)
    requires RowsAre(rows, x, rest) && forall i :: 0 <= i < |rest| ==> rest[i].ordinal != last.ordinal
    ensures RowsAre(rows[GroupKey(x, last.ordinal) := last], x, rest + [last])
  {
    var gs := rest + [last];
    assert gs[|rest|] == last;
    forall k | k in rows ensures exists i :: 0 <= i < |gs| && gs[i].ordinal == k.ordinal {
      var i :| 0 <= i < |rest| && rest[i].ordinal == k.ordinal;
      assert gs[i] == rest[i];
    }
  }

  lemma {:induction false} GroupRowsAreTheGroups(x: nat, gs: seq<Group>)
    requires GroupsFit(gs)
    ensures RowsAre(GroupRows(x, gs), x, gs)
  {
    if gs != [] {
      var rest, last := gs[..|gs| - 1], gs[|gs| - 1];
      assert gs == rest + [last] && forall i :: 0 <= i < |rest| ==> rest[i] == gs[i];
      GroupRowsAreTheGroups(x, rest);
      OneMoreRow(GroupRows(x, rest), x, rest, last);
    }
  }

  // ------------------------------------------------------------------ what is stored was sent

  /** Step `h` created the session that is stored at `i`, and it was there ever since. */
  ghost predicate CreatedBy(states: seq<Owner>, steps: seq<Step>, h: nat, i: nat, x: nat)
    requires |states| == |steps| + 1 && i <= |steps|
  {
    && h < i && x in states[i].sessions
    && steps[h].CreateSession? && steps[h].session == x && Next(states[h], steps[h]).1 == Ok(Stored(Uploading, true))
    && states[i].sessions[x].data == steps[h].data && states[i].sessions[x].epoch == steps[h].epoch
    && forall m :: h < m <= i ==> x in states[m].sessions
  }

  lemma NewSession(o: Owner, step: Step, x: nat)
    requires x !in o.sessions && x in Next(o, step).0.sessions
    ensures step.CreateSession? && step.session == x && Next(o, step).1 == Ok(Stored(Uploading, true))
    ensures Next(o, step).0.sessions[x] == Session(step.epoch, Uploading, step.data)
    ensures Next(o, step).0.parts == o.parts
  {
  }

  lemma KeptSession(o: Owner, step: Step, x: nat)
    requires x in o.sessions && x in Next(o, step).0.sessions
    ensures Next(o, step).0.sessions[x].data == o.sessions[x].data && Next(o, step).0.sessions[x].epoch == o.sessions[x].epoch
  {
  }

  /** Every stored session holds exactly the data and the epoch of the request that created it. */
  lemma {:induction false} StoredAsCreated(states: seq<Owner>, steps: seq<Step>, i: nat, x: nat) returns (h: nat)
    requires Run(states, steps) && i <= |steps| && x in states[i].sessions
    ensures CreatedBy(states, steps, h, i, x)
  {
    if x in states[i - 1].sessions {
      h := StoredAsCreated(states, steps, i - 1, x);
      KeptSession(states[i - 1], steps[i - 1], x);
    } else {
      h := i - 1;
      NewSession(states[h], steps[h], x);
    }
  }

  /** Step `p` uploaded the part. */
  ghost predicate UploadedAt(states: seq<Owner>, steps: seq<Step>, p: nat, x: nat, part: Part)
    requires |states| == |steps| + 1 && p < |steps|
  {
    && steps[p].PutPart? && steps[p].session == x && Part(steps[p].hash, steps[p].groups) == part
    && Next(states[p], steps[p]).1 == Ok(PartStored(false))
  }

  lemma NewPart(o: Owner, step: Step, x: nat)
    requires x in Next(o, step).0.parts && !(x in o.parts && Next(o, step).0.parts[x] == o.parts[x])
    ensures step.PutPart? && step.session == x && Next(o, step).0.parts[x] == Part(step.hash, step.groups)
    ensures Next(o, step).1 == Ok(PartStored(false))
  {
  }

  ghost predicate SentBetween(states: seq<Owner>, steps: seq<Step>, h: nat, i: nat, x: nat, part: Part)
    requires |states| == |steps| + 1 && i <= |steps|
  {
    exists p :: h < p < i && UploadedAt(states, steps, p, x, part)
  }

  /** A stored part was uploaded after the session had been created. */
  lemma {:induction false} PartWasSent(states: seq<Owner>, steps: seq<Step>, h: nat, i: nat, x: nat)
    requires Run(states, steps) && i <= |steps| && CreatedBy(states, steps, h, i, x) && x in states[i].parts
    ensures SentBetween(states, steps, h, i, x, states[i].parts[x])
    decreases i
  {
    RunsKeepInv(states, steps, h);
    if i == h + 1 {
      CreationIsNew(states[h], steps[h], x);
      assert false;
    } else if x in states[i - 1].parts && states[i].parts[x] == states[i - 1].parts[x] {
      CreatedBefore(states, steps, h, i, x);
      PartWasSent(states, steps, h, i - 1, x);
      var p :| h < p < i - 1 && UploadedAt(states, steps, p, x, states[i].parts[x]);
      assert UploadedAt(states, steps, p, x, states[i].parts[x]) && h < p < i;
    } else {
      NewPart(states[i - 1], steps[i - 1], x);
      assert UploadedAt(states, steps, i - 1, x, states[i].parts[x]);
    }
  }

  lemma CreationIsNew(o: Owner, step: Step, x: nat)
    requires Inv(o) && step.CreateSession? && step.session == x && Next(o, step).1 == Ok(Stored(Uploading, true))
    ensures x !in o.sessions && x !in Next(o, step).0.parts
  {
  }

  /** The rows of the session are the groups of a part that was sent after its creation. */
  ghost predicate IsTheUpload(states: seq<Owner>, steps: seq<Step>, h: nat, i: nat, x: nat, part: Part)
    requires |states| == |steps| + 1 && h < i <= |steps|
  {
    && SentBetween(states, steps, h, i, x, part)
    && steps[h].CreateSession? && FinalGroups(steps[h].data, RowsOf(states[i].groups, x), x, part.groups)
  }

  lemma OnlyFinalizes(o: Owner, step: Step, o': Owner, x: nat)
    requires o' == Next(o, step).0 && x in o.sessions && o.sessions[x].status == Uploading
    requires x in o'.sessions && o'.sessions[x].status != Uploading
    ensures step.Finalize? && step.session == x && x in o.parts && o' != o
  {
  }

  lemma FinalizesTo(o: Owner, step: Step, o': Owner)
    requires step.Finalize? && o' == Next(o, step).0 && o' != o
    ensures step.session in o.sessions && step.session in o.parts
    ensures var x, gs := step.session, o.parts[step.session].groups;
            && o'.groups == o.groups + GroupRows(x, gs) && FinalGroups(o.sessions[x].data, GroupRows(x, gs), x, gs)
            && o'.sessions == o.sessions[x := Session(o.sessions[x].epoch, step.status, o.sessions[x].data)] && o'.parts == o.parts - {x}
  {
  }

  lemma BecomesFinal(o: Owner, step: Step, o': Owner, x: nat)
    requires Inv(o) && o' == Next(o, step).0 && x in o.sessions && o.sessions[x].status == Uploading
    requires x in o'.sessions && o'.sessions[x].status != Uploading
    ensures x in o.parts && FinalGroups(o.sessions[x].data, RowsOf(o'.groups, x), x, o.parts[x].groups)
  {
    OnlyFinalizes(o, step, o', x);
    FinalizesTo(o, step, o');
    RowsAfterInsert(o.groups, x, o.parts[x].groups, x);
    assert RowsOf(o.groups, x) == map[];
  }

  lemma StaysFinal(o: Owner, step: Step, o': Owner, x: nat)
    requires Inv(o) && Wanted(step) && o' == Next(o, step).0
    requires x in o.sessions && o.sessions[x].status != Uploading && x in o'.sessions
    ensures o'.sessions[x] == o.sessions[x] && RowsOf(o'.groups, x) == RowsOf(o.groups, x)
  {
    FinalizedStep(o, step, x);
    if Gone(o, o', x) {
      GoneIsGone(o, step, o', x);
    }
  }

  lemma GoneIsGone(o: Owner, step: Step, o': Owner, x: nat)
    requires Inv(o) && o' == Next(o, step).0 && Gone(o, o', x) && x in o.sessions && x in o'.sessions
    ensures o' == o
  {
  }

  lemma StartsUploading(states: seq<Owner>, steps: seq<Step>, h: nat, x: nat)
    requires Run(states, steps) && h < |steps| && CreatedBy(states, steps, h, h + 1, x)
    ensures states[h + 1].sessions[x].status == Uploading
  {
    RunsKeepInv(states, steps, h);
    CreationIsNew(states[h], steps[h], x);
    NewSession(states[h], steps[h], x);
  }

  lemma FinalIsThePart(states: seq<Owner>, steps: seq<Step>, h: nat, i: nat, x: nat, o: Owner, step: Step)
    requires |states| == |steps| + 1 && h < i <= |steps| && Inv(o) && states[i] == Next(o, step).0
    requires x in o.sessions && o.sessions[x].status == Uploading && x in states[i].sessions && states[i].sessions[x].status != Uploading
    requires steps[h].CreateSession? && o.sessions[x].data == steps[h].data
    requires x in o.parts ==> SentBetween(states, steps, h, i, x, o.parts[x])
    ensures x in o.parts && IsTheUpload(states, steps, h, i, x, o.parts[x])
  {
    BecomesFinal(o, step, states[i], x);
  }

  lemma FirstFinal(states: seq<Owner>, steps: seq<Step>, h: nat, i: nat, x: nat)
    requires Run(states, steps) && h + 1 < i <= |steps| && CreatedBy(states, steps, h, i - 1, x) && x in states[i].sessions
    requires states[i - 1].sessions[x].status == Uploading && states[i].sessions[x].status != Uploading
    ensures x in states[i - 1].parts && IsTheUpload(states, steps, h, i, x, states[i - 1].parts[x])
  {
    var o := states[i - 1];
    RunsKeepInv(states, steps, i - 1);
    if x in o.parts {
      PartWasSent(states, steps, h, i - 1, x);
      SentStays(states, steps, h, i, x, o.parts[x]);
    }
    FinalIsThePart(states, steps, h, i, x, o, steps[i - 1]);
  }

  lemma StillFinal(states: seq<Owner>, steps: seq<Step>, h: nat, i: nat, x: nat, part: Part)
    requires Run(states, steps) && h + 1 < i <= |steps| && IsTheUpload(states, steps, h, i - 1, x, part)
    requires x in states[i - 1].sessions && x in states[i].sessions && states[i - 1].sessions[x].status != Uploading
    ensures IsTheUpload(states, steps, h, i, x, part)
  {
    RunsKeepInv(states, steps, i - 1);
    StaysFinal(states[i - 1], steps[i - 1], states[i], x);
    SentStays(states, steps, h, i, x, part);
  }

  /** The finalized session is the one created at `h`, and its rows are the part that was sent for it. */
  lemma {:induction false} FinalizedFrom(states: seq<Owner>, steps: seq<Step>, h: nat, i: nat, x: nat) returns (part: Part)
    requires Run(states, steps) && i <= |steps| && CreatedBy(states, steps, h, i, x) && states[i].sessions[x].status != Uploading
    ensures IsTheUpload(states, steps, h, i, x, part)
    decreases i
  {
    if i == h + 1 {
      StartsUploading(states, steps, h, x);
      assert false;
    } else {
      CreatedBefore(states, steps, h, i, x);
      if states[i - 1].sessions[x].status == Uploading {
        FirstFinal(states, steps, h, i, x);
        part := states[i - 1].parts[x];
      } else {
        part := FinalizedFrom(states, steps, h, i - 1, x);
        StillFinal(states, steps, h, i, x, part);
      }
    }
  }

  lemma CreatedBefore(states: seq<Owner>, steps: seq<Step>, h: nat, i: nat, x: nat)
    requires Run(states, steps) && h + 1 < i <= |steps| && CreatedBy(states, steps, h, i, x)
    ensures CreatedBy(states, steps, h, i - 1, x)
  {
    KeptSession(states[i - 1], steps[i - 1], x);
  }

  lemma SentStays(states: seq<Owner>, steps: seq<Step>, h: nat, i: nat, x: nat, part: Part)
    requires |states| == |steps| + 1 && 0 < i <= |steps| && SentBetween(states, steps, h, i - 1, x, part)
    ensures SentBetween(states, steps, h, i, x, part)
  {
    var p :| h < p < i - 1 && UploadedAt(states, steps, p, x, part);
    assert h < p < i && UploadedAt(states, steps, p, x, part);
  }

  /**
   * A finalized session is what the client sent: the data of its creating
   * request, and as rows exactly the groups of one part uploaded after it, as
   * many as that request declared and, if there are any, with its counts as
   * their sums.
   */
  lemma FinalizedIsTheUpload(states: seq<Owner>, steps: seq<Step>, i: nat, x: nat) returns (h: nat, part: Part)
    requires Run(states, steps) && i <= |steps| && x in states[i].sessions && states[i].sessions[x].status != Uploading
    ensures CreatedBy(states, steps, h, i, x) && SentBetween(states, steps, h, i, x, part)
    ensures RowsAre(RowsOf(states[i].groups, x), x, part.groups) && |part.groups| == steps[h].data.groups
    ensures part.groups != [] ==> Total(part.groups, TargetOf) == steps[h].data.target && Total(part.groups, ValidOf) == steps[h].data.valid
  {
    h := StoredAsCreated(states, steps, i, x);
    part := FinalizedFrom(states, steps, h, i, x);
    GroupRowsAreTheGroups(x, part.groups);
    SumsAreTotals(part.groups);
  }

  // ------------------------------------------------------------------ acceptance and refusal

  /** The owner may upload with this epoch and this consent revision. */
  predicate Admitted(o: Owner, epoch: nat, consentRevision: nat) {
    && !o.revoked && o.preferences.Some? && o.preferences.value.epoch == epoch
    && o.preferences.value.consentRevision == consentRevision && o.preferences.value.consent
  }

  /** Declared counts in their ranges, and JSON objects where they are wanted. */
  predicate DeclaredOk(d: SessionData) {
    && InRange(d.duration, 0, 1800000) && InRange(d.target, 0, 28800) && InRange(d.valid, 0, d.target)
    && InRange(d.localDetail, 0, 36000) && InRange(d.extraDetail, 0, 7200) && d.extraDetail <= d.extraTotal
    && InRange(d.groups, 0, 256) && d.versions.Object? && d.score.Object?
  }

  /** A session is created exactly when the owner may upload, the id is new and not buried, and the limit and the declared ranges allow it. */
  lemma CreatesExactlyWhen(o: Owner, x: nat, epoch: nat, consentRevision: nat, data: SessionData, limit: nat)
    ensures var (after, r) := Next(o, CreateSession(x, epoch, consentRevision, data, limit));
            && (r == Ok(Stored(Uploading, true)) && x !in o.sessions <==>
                  Admitted(o, epoch, consentRevision) && x !in o.tombstones && x !in o.sessions && |o.sessions| < limit && DeclaredOk(data))
            && (r == Ok(Stored(Uploading, true)) && x !in o.sessions ==>
                  after == o.(sessions := o.sessions[x := Session(epoch, Uploading, data)]))
            && (x in o.sessions || r.Err? ==> after == o)
  {
  }

  /** Creating a stored session again answers its status, or a conflict for other contents. */
  lemma CreatesOnce(o: Owner, x: nat, epoch: nat, consentRevision: nat, data: SessionData, limit: nat)
    requires Admitted(o, epoch, consentRevision) && x !in o.tombstones && x in o.sessions
    ensures Next(o, CreateSession(x, epoch, consentRevision, data, limit)) ==
              (o, if o.sessions[x].data.contentHash == data.contentHash then Ok(Stored(o.sessions[x].status, false)) else Err(SessionConflict))
  {
  }

  /** Why the three upload requests are refused at the door: the first of these that applies. */
  lemma DoorRefusals(o: Owner, step: Step)
    requires step.CreateSession? || step.PutPart? || step.Finalize?
    ensures !Admitted(o, step.epoch, step.consentRevision) ==>
              Next(o, step) == (o, Err(if o.revoked || o.preferences.None? then OwnerRevoked
                                       else if step.epoch != o.preferences.value.epoch then EpochMismatch
                                       else if step.consentRevision != o.preferences.value.consentRevision then ConsentRevision
                                       else ConsentRequired))
    ensures step.CreateSession? && Admitted(o, step.epoch, step.consentRevision) && step.session in o.tombstones ==> Next(o, step) == (o, Err(Tombstoned))
    ensures !step.CreateSession? && Admitted(o, step.epoch, step.consentRevision) && step.session !in o.sessions ==> Next(o, step) == (o, Err(NotFound))
  {
  }

  /** The first part of a session is stored as it was sent; another one with its hash changes nothing, any other conflicts. */
  lemma PartAnswers(o: Owner, x: nat, epoch: nat, consentRevision: nat, hash: Name, gs: seq<Group>)
    requires Inv(o) && Admitted(o, epoch, consentRevision) && x in o.sessions
    ensures Next(o, PutPart(x, epoch, consentRevision, hash, gs)) ==
              if o.sessions[x].status != Uploading then (o, Ok(PartStored(true)))
              else if x in o.parts then (o, if o.parts[x].hash == hash then Ok(PartStored(false)) else Err(PartConflict))
              else if |gs| > 256 then (o, Err(ConstraintViolation))
              else (o.(parts := o.parts[x := Part(hash, gs)]), Ok(PartStored(false)))
  {
  }

  /** The groups satisfy the constraints of their rows. */
  predicate GroupsOk(gs: seq<Group>) {
    && (forall i | 0 <= i < |gs| :: InRange(gs[i].ordinal, 0, 255) && InRange(gs[i].target, 0, 28800) && InRange(gs[i].valid, 0, gs[i].target))
    && (forall i | 0 <= i < |gs| :: gs[i].extra >= 0 && gs[i].stats.Object? && gs[i].quality.Object?)
    && (forall i, j :: 0 <= i < |gs| && 0 <= j < |gs| && (gs[i].ordinal == gs[j].ordinal || gs[i].place == gs[j].place) ==> i == j)
  }

  lemma GroupsOkIsFit(gs: seq<Group>)
    ensures GroupsOk(gs) <==> GroupsFit(gs)
  {
    if GroupsFit(gs) {
      forall i, j | 0 <= i < |gs| && 0 <= j < |gs| && (gs[i].ordinal == gs[j].ordinal || gs[i].place == gs[j].place) ensures i == j {
        if i < j {} else if j < i {}
      }
    }
  }

  /** The declared groups are there, and add up to the declared counts if there are any. */
  predicate AddsUp(data: SessionData, gs: seq<Group>) {
    |gs| == data.groups && (gs != [] ==> Total(gs, TargetOf) == data.target && Total(gs, ValidOf) == data.valid)
  }

  predicate HasPart(o: Owner, x: nat, hash: Name) {
    x in o.parts && o.parts[x].hash == hash
  }

  /** A session in upload is finalized exactly when the hash is that of its part, the groups are the declared ones and their rows are valid. */
  lemma FinalizesExactlyWhen(o: Owner, x: nat, epoch: nat, consentRevision: nat, hash: Name, groupCount: int, status: Status)
    requires Admitted(o, epoch, consentRevision) && x in o.sessions && o.sessions[x].status == Uploading && status != Uploading
    ensures var (after, r) := Next(o, Finalize(x, epoch, consentRevision, hash, groupCount, status));
            && (r.Ok? <==> groupCount == o.sessions[x].data.groups && HasPart(o, x, hash) && AddsUp(o.sessions[x].data, o.parts[x].groups) && GroupsOk(o.parts[x].groups))
            && (r.Err? <==> after == o) && (r.Ok? ==> r == Ok(Finalized(status)))
  {
    if x in o.parts {
      SumsAreTotals(o.parts[x].groups);
      GroupsOkIsFit(o.parts[x].groups);
    }
  }

  /** A finalization changes the status and turns the part into exactly its rows; nothing else changes. */
  lemma FinalizationEffect(o: Owner, step: Step, o': Owner, y: nat)
    requires Inv(o) && step.Finalize? && o' == Next(o, step).0 && o' != o
    ensures var x := step.session;
            && x in o.sessions && x in o.parts && RowsAre(RowsOf(o'.groups, x), x, o.parts[x].groups)
            && o'.sessions == o.sessions[x := Session(o.sessions[x].epoch, step.status, o.sessions[x].data)] && o'.parts == o.parts - {x}
            && (y != x ==> RowsOf(o'.groups, y) == RowsOf(o.groups, y))
  {
    FinalizesTo(o, step, o');
    var x, gs := step.session, o.parts[step.session].groups;
    GroupRowsAreTheGroups(x, gs);
    assert RowsOf(o.groups, x) == map[];
    RowsAfterInsert(o.groups, x, gs, x);
    RowsAfterInsert(o.groups, x, gs, y);
  }

  /** Why it is refused: wrong count, wrong part, wrong sums or invalid rows, in this order. */
  lemma FinalizeRefusals(o: Owner, x: nat, epoch: nat, consentRevision: nat, hash: Name, groupCount: int, status: Status)
    requires Admitted(o, epoch, consentRevision) && x in o.sessions && o.sessions[x].status == Uploading
    requires Next(o, Finalize(x, epoch, consentRevision, hash, groupCount, status)).1.Err?
    ensures Next(o, Finalize(x, epoch, consentRevision, hash, groupCount, status)).1.error ==
              if groupCount != o.sessions[x].data.groups then SessionConflict
              else if !HasPart(o, x, hash) then PartConflict
              else if !AddsUp(o.sessions[x].data, o.parts[x].groups) then SessionConflict
              else ConstraintViolation
  {
    if x in o.parts {
      SumsAreTotals(o.parts[x].groups);
    }
  }

  /** Create, one part that adds up, and finalize: in a run of three steps all are accepted, and the session ends as it was sent. */
  lemma UploadSucceeds(o: Owner, x: nat, epoch: nat, consentRevision: nat, data: SessionData, limit: nat, hash: Name, gs: seq<Group>, status: Status)
    requires Inv(o) && Admitted(o, epoch, consentRevision) && x !in o.tombstones && x !in o.sessions && |o.sessions| < limit && status != Uploading
    requires DeclaredOk(data) && AddsUp(data, gs) && GroupsOk(gs)
    ensures var (one, first) := Next(o, CreateSession(x, epoch, consentRevision, data, limit));
            var (two, second) := Next(one, PutPart(x, epoch, consentRevision, hash, gs));
            var (three, third) := Next(two, Finalize(x, epoch, consentRevision, hash, |gs|, status));
            && first == Ok(Stored(Uploading, true)) && second == Ok(PartStored(false)) && third == Ok(Finalized(status))
            && x in three.sessions && three.sessions[x] == Session(epoch, status, data) && RowsAre(RowsOf(three.groups, x), x, gs)
  {
    var create, part := CreateSession(x, epoch, consentRevision, data, limit), PutPart(x, epoch, consentRevision, hash, gs);
    CreatesExactlyWhen(o, x, epoch, consentRevision, data, limit);
    StepKeepsInv(o, create);
    var one := Next(o, create).0;
    PartAnswers(one, x, epoch, consentRevision, hash, gs);
    StepKeepsInv(one, part);
    var two := Next(one, part).0;
    FinalizesExactlyWhen(two, x, epoch, consentRevision, hash, |gs|, status);
    var finalize := Finalize(x, epoch, consentRevision, hash, |gs|, status);
    FinalizationEffect(two, finalize, Next(two, finalize).0, x);
  }

  // ------------------------------------------------------------------ preferences

  /**
   * Preferences change exactly for the current revision: the revision grows,
   * the consent is the given one, its revision grows exactly when the consent
   * changes, and exactly a withdrawal removes what is being uploaded.
   */
  lemma PreferencesEffect(o: Owner, expected: nat, consent: bool)
    requires !o.revoked && o.preferences.Some?
    ensures var (after, r) := Next(o, PutPreferences(expected, consent)); var p := o.preferences.value;
            && (r.Ok? <==> expected == p.revision) && (r.Err? ==> r.error == RevisionConflict && after == o)
            && (r.Ok? ==> after.preferences == Some(Preferences(p.epoch, p.revision + 1, p.consentRevision + if consent == p.consent then 0 else 1, consent)))
            && (r.Ok? ==> r.value == Prefs(after.preferences.value) && after.tombstones == o.tombstones && after.operations == o.operations)
            && (r.Ok? ==> forall x :: x in after.sessions <==> x in o.sessions && !(p.consent && !consent && o.sessions[x].status == Uploading))
            && (r.Ok? ==> forall x :: x in after.sessions ==> after.sessions[x] == o.sessions[x])
  {
  }

  /** The owner agreed in step `h`, and has not said otherwise since. */
  ghost predicate AgreedAt(states: seq<Owner>, steps: seq<Step>, h: nat, i: nat)
    requires |states| == |steps| + 1 && i <= |steps|
  {
    && h < i && steps[h].PutPreferences? && steps[h].consent && Next(states[h], steps[h]).1.Ok?
    && forall m :: h < m < i && steps[m].PutPreferences? && !steps[m].consent ==> Next(states[m], steps[m]).1.Err?
  }

  lemma ConsentStep(o: Owner, step: Step)
    requires Next(o, step).0.preferences.Some? && Next(o, step).0.preferences.value.consent
    ensures if step.PutPreferences? && Next(o, step).1.Ok? then step.consent
            else o.preferences.Some? && o.preferences.value.consent
  {
  }

  /** Consent is never there on its own: the owner gave it, and did not withdraw it later. */
  lemma {:induction false} ConsentWasGiven(states: seq<Owner>, steps: seq<Step>, i: nat) returns (h: nat)
    requires Run(states, steps) && i <= |steps| && states[i].preferences.Some? && states[i].preferences.value.consent
    ensures AgreedAt(states, steps, h, i)
  {
    var o, step := states[i - 1], steps[i - 1];
    ConsentStep(o, step);
    if step.PutPreferences? && Next(o, step).1.Ok? {
      h := i - 1;
    } else {
      h := ConsentWasGiven(states, steps, i - 1);
    }
  }

  /** First use makes preferences without consent, a later one changes nothing; a revoked owner has nothing and gets nothing. */
  lemma ResolveAndRevoke(o: Owner)
    ensures !o.revoked && o.preferences.None? ==>
              Next(o, Resolve).0 == o.(preferences := Some(Preferences(1, 1, 1, false))) && Next(o, Resolve).1 == Ok(Prefs(Preferences(1, 1, 1, false)))
    ensures !o.revoked && o.preferences.Some? ==> Next(o, Resolve) == (o, Ok(Prefs(o.preferences.value)))
    ensures o.revoked ==> Next(o, Resolve) == (o, Err(OwnerRevoked))
    ensures Next(o, Revoke).0 == NEW_OWNER.(revoked := true)
  {
  }

  // ------------------------------------------------------------------ deletion

  /** Nothing is stored for the session any more, and every other session is as it was. */
  ghost predicate OnlyGone(before: Owner, after: Owner, x: nat) {
    && x !in after.sessions && x !in after.parts && RowsOf(after.groups, x) == map[]
    && after.sessions == before.sessions - {x} && after.parts == before.parts - {x}
    && forall y :: y != x ==> RowsOf(after.groups, y) == RowsOf(before.groups, y)
  }

  /** A new deletion of a session is accepted exactly for the current epoch and a stored session; then exactly that session is gone. */
  lemma DeletionTakesTheSession(o: Owner, x: nat, operation: nat, epoch: nat)
    requires !o.revoked && o.preferences.Some? && operation !in o.operations
    ensures var (after, r) := Next(o, DeleteSession(x, operation, epoch));
            && (r.Ok? <==> epoch == o.preferences.value.epoch && x in o.sessions)
            && (r.Err? ==> after == o && r.error == if epoch != o.preferences.value.epoch then EpochMismatch else NotFound)
            && (r.Ok? ==> r.value == SessionDeleted(x) && OnlyGone(o, after, x) && after.preferences == o.preferences)
            && (r.Ok? ==> after.tombstones == o.tombstones + {x})
  {
  }

  lemma NothingLeft(o: Owner)
    requires Inv(o)
    ensures var left := WithoutSessions(o, o.sessions.Keys); left.sessions == map[] && left.parts == map[] && left.groups == map[]
  {
    var left := WithoutSessions(o, o.sessions.Keys);
    assert forall x :: x !in left.sessions && x !in left.parts;
    assert forall k :: k !in left.groups;
  }

  /** A new deletion of the history is accepted exactly for the current epoch, and answers the next epoch and the number of sessions. */
  lemma HistoryDeletionAnswers(o: Owner, operation: nat, epoch: nat)
    requires !o.revoked && o.preferences.Some? && operation !in o.operations
    ensures Next(o, DeleteHistory(operation, epoch)).1 ==
              if epoch == o.preferences.value.epoch then Ok(HistoryDeleted(epoch + 1, |o.sessions|)) else Err(EpochMismatch)
    ensures epoch != o.preferences.value.epoch ==> Next(o, DeleteHistory(operation, epoch)).0 == o
  {
  }

  /** It takes everything away and starts the next epoch. */
  lemma DeletionTakesTheHistory(o: Owner, operation: nat, o': Owner)
    requires Inv(o) && !o.revoked && o.preferences.Some? && operation !in o.operations
    requires o' == DoDeleteHistory(o, operation, o.preferences.value.epoch).0
    ensures o'.sessions == map[] && o'.parts == map[] && o'.groups == map[] && o'.tombstones == {}
    ensures o'.preferences == Some(o.preferences.value.(epoch := o.preferences.value.epoch + 1))
  {
    NothingLeft(o);
  }

  /** What a delete request asks for, besides its operation id. */
  predicate SameDeletion(a: Step, b: Step) {
    || (a.DeleteSession? && b.DeleteSession? && a.session == b.session && a.epoch == b.epoch)
    || (a.DeleteHistory? && b.DeleteHistory? && a.epoch == b.epoch)
  }

  /** A different deletion under the operation id of one that succeeded conflicts and changes nothing. */
  lemma OtherDeletionConflicts(states: seq<Owner>, steps: seq<Step>, i: nat, j: nat)
    requires Run(states, steps) && i < j < |steps|
    requires (steps[i].DeleteSession? || steps[i].DeleteHistory?) && (steps[j].DeleteSession? || steps[j].DeleteHistory?)
    requires steps[i].operation == steps[j].operation && !SameDeletion(steps[i], steps[j])
    requires Next(states[i], steps[i]).1.Ok? && steps[i].operation !in states[i].operations
    ensures states[j + 1] == states[j]
    ensures Next(states[j], steps[j]).1 == Err(OperationConflict) || (states[j].revoked && Next(states[j], steps[j]).1 == Err(OwnerRevoked))
  {
    OperationsStay(states, steps, i + 1, j, steps[i].operation);
    PreferencesStay(states, steps, i + 1, j);
  }

  lemma {:induction false} PreferencesStay(states: seq<Owner>, steps: seq<Step>, i: nat, j: nat)
    requires Run(states, steps) && i <= j <= |steps| && states[i].preferences.Some?
    ensures states[j].revoked || states[j].preferences.Some?
    decreases j
  {
    if i < j {
      PreferencesStay(states, steps, i, j - 1);
      EpochStep(states[j - 1], steps[j - 1]);
    }
  }
}
