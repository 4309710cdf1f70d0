/**
 * Row-level writes with versions: optimistic conflict checks and strictly
 * increasing versions under a clock that may stall or step back
 * (src/backend/repositories/db_item_repository.py, src/backend/utils/concurrency.py,
 * src/backend/utils/datetime_utils.py).  Instants count microseconds.
 */
module RowStore {
  import opened Prelude

  /** Five seconds. */
  const MAX_FUTURE_VERSION_SKEW := 5000000

  /** A stored `updated_at`; one that is missing or cannot be parsed is no instant. */
  datatype Version = At(micros: int) | Unreadable

  /** Column values, none for NULL; a column that is not there reads as NULL. */
  type Columns = map<Name, Option<Name>>

  datatype Row = Row(version: Version, data: Columns)

  /** The client's version token after stripping. */
  datatype Token = Absent | Naive | Garbled | Instant(micros: int)

  datatype Error = NotFound | FutureVersion | Conflict | InvalidToken | UnreadableVersion | Refused(reason: Name)

  type Rows = map<nat, Row>

  /** The pure callback: checks and the new contents, or a refusal. */
  type Mutate = Row -> Result<Columns, Name>

  type Authorize = Row -> Option<Name>

  datatype Step =
    | Insert(data: Columns, now: int)
    | Update(id: nat, mutate: Mutate, token: Token, now: int)
    | UpdateColumns(id: nat, guard: Columns, data: Columns, bump: bool, now: int)
    | Delete(id: nat, authorize: Authorize, token: Token)
    | UpdateMany(updates: map<nat, Columns>, now: int)

  // ------------------------------------------------------------------ the rules of one write

  function NextVersion(previous: Version, now: int): Result<int, Error> {
    match previous
    case Unreadable => Ok(now)
    case At(p) =>
      if p > now + MAX_FUTURE_VERSION_SKEW then Err(FutureVersion)
      else Ok(if now > p + 1 then now else p + 1)
  }

  function EnsureExpected(version: Version, token: Token): Option<Error> {
    match token
    case Absent => None
    case Naive => Some(Conflict)
    case Garbled => Some(InvalidToken)
    case Instant(t) =>
      if version.Unreadable? then Some(UnreadableVersion)
      else if t != version.micros then Some(Conflict)
      else None
  }

  /** `max(id) + 1`, counting from 1. */
  ghost predicate NewId(rows: Rows, id: nat) {
    && (forall k :: k in rows ==> k < id)
    && (id == 1 || (id > 1 && id - 1 in rows))
  }

  function PgUpdate(rows: Rows, id: nat, mutate: Mutate, token: Token, now: int): (Rows, Result<Row, Error>) {
    if id !in rows then (rows, Err(NotFound))
    else
      var version := NextVersion(rows[id].version, now);
      if version.Err? then (rows, Err(version.error))
      else
        var stale := EnsureExpected(rows[id].version, token);
        if stale.Some? then (rows, Err(stale.value))
        else
          var data := mutate(rows[id]);
          if data.Err? then (rows, Err(Refused(data.error)))
          else
            var row := Row(At(version.value), data.value);
            (rows[id := row], Ok(row))
  }

  /** The list adapter generates the version last. */
  function ListUpdate(rows: Rows, id: nat, mutate: Mutate, token: Token, now: int): (Rows, Result<Row, Error>) {
    if id !in rows then (rows, Err(NotFound))
    else
      var stale := EnsureExpected(rows[id].version, token);
      if stale.Some? then (rows, Err(stale.value))
      else
        var data := mutate(rows[id]);
        if data.Err? then (rows, Err(Refused(data.error)))
        else
          var version := NextVersion(rows[id].version, now);
          if version.Err? then (rows, Err(version.error))
          else
            var row := Row(At(version.value), data.value);
            (rows[id := row], Ok(row))
  }

  function Column(data: Columns, c: Name): Option<Name> {
    if c in data then data[c] else None
  }

  /** Every named column has the named value. */
  predicate Matches(data: Columns, named: Columns) {
    forall c | c in named :: Column(data, c) == named[c]
  }

  /** A row that is missing or no longer matches the guard yields no row and no error. */
  function UpdatedColumns(rows: Rows, id: nat, guard: Columns, data: Columns, bump: bool, now: int): (Rows, Result<Option<Row>, Error>) {
    if id !in rows || !Matches(rows[id].data, guard) then (rows, Ok(None))
    else
      var version := if bump then NextVersion(rows[id].version, now) else Ok(0);
      if version.Err? then (rows, Err(version.error))
      else
        var row := Row(if bump then At(version.value) else rows[id].version, rows[id].data + data);
        (rows[id := row], Ok(Some(row)))
  }

  function Deleted(rows: Rows, id: nat, authorize: Authorize, token: Token): (Rows, Result<Row, Error>) {
    if id !in rows then (rows, Err(NotFound))
    else if authorize(rows[id]).Some? then (rows, Err(Refused(authorize(rows[id]).value)))
    else
      var stale := EnsureExpected(rows[id].version, token);
      if stale.Some? then (rows, Err(stale.value)) else (rows - {id}, Ok(rows[id]))
  }

  predicate Changes(rows: Rows, updates: map<nat, Columns>, id: nat) {
    id in rows && id in updates && !Matches(rows[id].data, updates[id])
  }

  /** One reading for all rows. */
  function OneReading(now: int): nat -> int {
    _ => now
  }

  /** `clock` gives the reading that counts for each row. */
  predicate Blocked(rows: Rows, updates: map<nat, Columns>, clock: nat -> int) {
    exists id | id in rows :: Changes(rows, updates, id) && NextVersion(rows[id].version, clock(id)).Err?
  }

  function MovedRow(row: Row, update: Option<Columns>, now: int): Row {
    if update.None? || Matches(row.data, update.value) || NextVersion(row.version, now).Err? then row
    else Row(At(NextVersion(row.version, now).value), row.data + update.value)
  }

  function Wanted(updates: map<nat, Columns>, id: nat): Option<Columns> {
    if id in updates then Some(updates[id]) else None
  }

  /** All or nothing: only rows that change get a new version; missing ids are skipped. */
  function UpdatedMany(rows: Rows, updates: map<nat, Columns>, clock: nat -> int): (Rows, Result<(), Error>) {
    if Blocked(rows, updates, clock) then (rows, Err(FutureVersion))
    else (map id | id in rows :: MovedRow(rows[id], Wanted(updates, id), clock(id)), Ok(()))
  }

  /** One committed or refused call of the PostgreSQL store. */
  ghost predicate Next(rows: Rows, step: Step, rows': Rows) {
    match step
    case Insert(data, now) => exists id: nat :: NewId(rows, id) && rows' == rows[id := Row(At(now), data)]
    case Update(id, mutate, token, now) => rows' == PgUpdate(rows, id, mutate, token, now).0
    case UpdateColumns(id, guard, data, bump, now) => rows' == UpdatedColumns(rows, id, guard, data, bump, now).0
    case Delete(id, authorize, token) => rows' == Deleted(rows, id, authorize, token).0
    case UpdateMany(updates, now) => rows' == UpdatedMany(rows, updates, OneReading(now)).0
  }

  ghost predicate Run(states: seq<Rows>, steps: seq<Step>) {
    |states| == |steps| + 1 && forall i :: 0 <= i < |steps| ==> Next(states[i], steps[i], states[i + 1])
  }

  // ------------------------------------------------------------------ one update

  /** An update commits exactly when the row exists, is not too far ahead, matches the token and is accepted. */
  lemma CommitsExactlyWhen(rows: Rows, id: nat, mutate: Mutate, token: Token, now: int)
    ensures PgUpdate(rows, id, mutate, token, now).1.Ok? <==>
              && id in rows
              && (rows[id].version.At? ==> rows[id].version.micros <= now + MAX_FUTURE_VERSION_SKEW)
              && (token == Absent || (token.Instant? && rows[id].version == At(token.micros)))
              && mutate(rows[id]).Ok?
  {
    if id in rows && token.Instant? && rows[id].version.At? {
      assert rows[id].version == At(token.micros) <==> rows[id].version.micros == token.micros;
    }
  }

  /** A committed version is above the previous one, not below the clock, and at most 1 µs past the tolerated skew. */
  lemma CommitMovesTheVersion(rows: Rows, id: nat, mutate: Mutate, token: Token, now: int)
    requires PgUpdate(rows, id, mutate, token, now).1.Ok?
    ensures var after := PgUpdate(rows, id, mutate, token, now).0;
            && after[id].version.At?
            && now <= after[id].version.micros
            && (rows[id].version.At? ==> rows[id].version.micros < after[id].version.micros <= now + MAX_FUTURE_VERSION_SKEW + 1)
            && (rows[id].version.Unreadable? ==> after[id].version.micros == now)
            && forall k :: k in rows && k != id ==> after[k] == rows[k]
  {
  }

  /** Every row but one is as it was. */
  predicate OthersStay(before: Rows, after: Rows, id: nat) {
    (forall k | k in before :: k != id ==> k in after && after[k] == before[k]) && (forall k | k in after :: k != id ==> k in before)
  }

  /** A committed update stores what the callback made of the row it read, and nothing else changes. */
  lemma UpdateStoresTheCallback(rows: Rows, id: nat, mutate: Mutate, token: Token, now: int)
    ensures var (after, r) := PgUpdate(rows, id, mutate, token, now);
            && (r.Err? ==> after == rows)
            && (r.Ok? ==> id in rows && mutate(rows[id]).Ok? && after.Keys == rows.Keys && OthersStay(rows, after, id))
            && (r.Ok? ==> after[id].data == mutate(rows[id]).value && r.value == after[id])
  {
  }

  /** Why an update is refused: the first of these that applies. */
  lemma UpdateRefusals(rows: Rows, id: nat, mutate: Mutate, token: Token, now: int)
    requires PgUpdate(rows, id, mutate, token, now).1.Err?
    ensures var e := PgUpdate(rows, id, mutate, token, now).1.error;
            if id !in rows then e == NotFound
            else if rows[id].version.At? && rows[id].version.micros > now + MAX_FUTURE_VERSION_SKEW then e == FutureVersion
            else match token
              case Naive => e == Conflict
              case Garbled => e == InvalidToken
              case Absent => mutate(rows[id]).Err? && e == Refused(mutate(rows[id]).error)
              case Instant(t) =>
                if rows[id].version.Unreadable? then e == UnreadableVersion
                else if rows[id].version.micros != t then e == Conflict
                else mutate(rows[id]).Err? && e == Refused(mutate(rows[id]).error)
  {
  }

  /** Afterwards the named columns have the named values and every other column its old one. */
  predicate Overwritten(before: Columns, named: Columns, after: Columns) {
    && (forall c | c in named :: Column(after, c) == named[c])
    && (forall c | c in before :: c !in named ==> Column(after, c) == before[c])
    && (forall c | c in after :: c in named || c in before)
  }

  /**
   * A column update is made exactly when the row is there and every guarded
   * column has the guarded value; it writes the named columns, and moves the
   * version exactly when that is asked for.
   */
  lemma ColumnsAreWritten(rows: Rows, id: nat, guard: Columns, data: Columns, bump: bool, now: int)
    ensures var (after, r) := UpdatedColumns(rows, id, guard, data, bump, now);
            && ((r.Ok? && r.value.Some?) || (r.Err? && bump) <==> id in rows && forall c :: c in guard ==> Column(rows[id].data, c) == guard[c])
            && (r.Err? <==> bump && id in rows && Matches(rows[id].data, guard) && rows[id].version.At? && rows[id].version.micros > now + MAX_FUTURE_VERSION_SKEW)
            && (r.Err? ==> r.error == FutureVersion)
            && (!(r.Ok? && r.value.Some?) ==> after == rows)
            && (r.Ok? && r.value.Some? ==> after.Keys == rows.Keys && OthersStay(rows, after, id) && r.value.value == after[id])
            && (r.Ok? && r.value.Some? ==> Overwritten(rows[id].data, data, after[id].data))
            && (r.Ok? && r.value.Some? && !bump ==> after[id].version == rows[id].version)
            && (r.Ok? && r.value.Some? && bump ==> Moves(rows[id].version, after[id].version, now))
  {
  }

  /** The new version is above the old one and not below the clock; without an old one it is the clock. */
  predicate Moves(before: Version, after: Version, now: int) {
    && after.At? && now <= after.micros
    && (before.At? ==> before.micros < after.micros && (after.micros == now || after.micros == before.micros + 1))
    && (before.Unreadable? ==> after.micros == now)
  }

  /** A deletion takes away exactly that row, when nobody objects and the token fits. */
  lemma DeletionTakesTheRow(rows: Rows, id: nat, authorize: Authorize, token: Token)
    ensures var (after, r) := Deleted(rows, id, authorize, token);
            && (r.Ok? <==> id in rows && authorize(rows[id]).None? && (token == Absent || (token.Instant? && rows[id].version == At(token.micros))))
            && (r.Ok? ==> id !in after && after.Keys == rows.Keys - {id} && OthersStay(rows, after, id) && r.value == rows[id])
            && (r.Err? ==> after == rows)
            && (r.Err? && id in rows && authorize(rows[id]).Some? ==> r.error == Refused(authorize(rows[id]).value))
  {
    if id in rows && token.Instant? && rows[id].version.At? {
      assert rows[id].version == At(token.micros) <==> rows[id].version.micros == token.micros;
    }
  }

  /** A named column of the row has another value than the batch gives it. */
  ghost predicate SomeColumnChanges(rows: Rows, updates: map<nat, Columns>, id: nat) {
    id in rows && id in updates && exists c :: c in updates[id] && Column(rows[id].data, c) != updates[id][c]
  }

  /** The batch is refused exactly when a row that it changes is too far ahead of its clock reading, and then nothing happens. */
  lemma BatchRefusedExactly(rows: Rows, updates: map<nat, Columns>, clock: nat -> int)
    ensures UpdatedMany(rows, updates, clock).1.Err? <==>
              exists id :: SomeColumnChanges(rows, updates, id) && rows[id].version.At? && rows[id].version.micros > clock(id) + MAX_FUTURE_VERSION_SKEW
    ensures UpdatedMany(rows, updates, clock).1.Err? ==> UpdatedMany(rows, updates, clock) == (rows, Err(FutureVersion))
  {
    forall id ensures SomeColumnChanges(rows, updates, id) <==> Changes(rows, updates, id) {
    }
  }

  /**
   * An accepted batch gives every named column of every existing row the named
   * value and leaves all other columns and rows; the version of a row moves
   * exactly when one of its columns changes.
   */
  lemma BatchWritesWhatItNames(rows: Rows, updates: map<nat, Columns>, clock: nat -> int, id: nat)
    requires UpdatedMany(rows, updates, clock).1.Ok?
    ensures var after := UpdatedMany(rows, updates, clock).0;
            && after.Keys == rows.Keys
            && (id in rows && id !in updates ==> after[id] == rows[id])
            && (id in rows && id in updates ==> Overwritten(rows[id].data, updates[id], after[id].data))
            && (SomeColumnChanges(rows, updates, id) ==> Moves(rows[id].version, after[id].version, clock(id)))
            && (id in rows && !SomeColumnChanges(rows, updates, id) ==> after[id] == rows[id])
  {
    assert SomeColumnChanges(rows, updates, id) <==> Changes(rows, updates, id);
  }

  predicate AboveAll(rows: Rows, id: nat) {
    id >= 1 && forall k | k in rows :: k < id
  }

  /** The next id is the least one that is at least 1 and above all stored ids. */
  lemma NewIdIsNext(rows: Rows, id: nat)
    ensures NewId(rows, id) <==> AboveAll(rows, id) && forall m: nat :: AboveAll(rows, m) ==> id <= m
  {
    if NewId(rows, id) {
      forall m: nat | AboveAll(rows, m) ensures id <= m {
      }
    } else if AboveAll(rows, id) {
      assert AboveAll(rows, id - 1);
    }
  }

  /** An insert adds one row with the given columns, the clock as its version and the next id. */
  lemma InsertAddsTheRow(rows: Rows, data: Columns, now: int, rows': Rows)
    requires Next(rows, Insert(data, now), rows')
    ensures exists id :: AboveAll(rows, id) && id in rows' && rows'[id] == Row(At(now), data) && OthersStay(rows, rows', id)
  {
    var id :| NewId(rows, id) && rows' == rows[id := Row(At(now), data)];
    assert AboveAll(rows, id) && OthersStay(rows, rows', id);
  }

  // ------------------------------------------------------------------ the two stores

  /** The list adapter commits the same updates with the same rows. */
  lemma StoresCommitAlike(rows: Rows, id: nat, mutate: Mutate, token: Token, now: int)
    ensures PgUpdate(rows, id, mutate, token, now).0 == ListUpdate(rows, id, mutate, token, now).0
    ensures PgUpdate(rows, id, mutate, token, now).1.Ok? == ListUpdate(rows, id, mutate, token, now).1.Ok?
  {
  }

  /**
   * The answers differ exactly when the stored version is too far ahead and
   * the token or the callback would have refused the update anyway.
   */
  lemma StoresAnswerDifferently(rows: Rows, id: nat, mutate: Mutate, token: Token, now: int)
    ensures PgUpdate(rows, id, mutate, token, now).1 != ListUpdate(rows, id, mutate, token, now).1 <==>
              && id in rows
              && rows[id].version.At? && rows[id].version.micros > now + MAX_FUTURE_VERSION_SKEW
              && (EnsureExpected(rows[id].version, token).Some? || mutate(rows[id]).Err?)
  {
    if id in rows && EnsureExpected(rows[id].version, token).Some? {
      assert EnsureExpected(rows[id].version, token).value != FutureVersion;
    }
  }

  // ------------------------------------------------------------------ runs

  /** The version did not go back. */
  predicate NotBefore(earlier: Version, later: Version) {
    earlier.At? ==> later.At? && earlier.micros <= later.micros
  }

  lemma StepKeepsVersion(rows: Rows, step: Step, rows': Rows, id: nat)
    requires Next(rows, step, rows') && id in rows && id in rows'
    ensures NotBefore(rows[id].version, rows'[id].version)
  {
  }

  ghost predicate DeletedBetween(states: seq<Rows>, id: nat, i: nat, j: nat)
    requires i <= j < |states|
  {
    exists k :: i <= k <= j && id !in states[k]
  }

  lemma StillThere(states: seq<Rows>, id: nat, i: nat, j: nat)
    requires i < j < |states| && !DeletedBetween(states, id, i, j)
    ensures !DeletedBetween(states, id, i, j - 1) && id in states[i] && id in states[j - 1] && id in states[j]
  {
  }

  /** As long as a row is not deleted its version never goes back. */
  lemma {:induction false} VersionsNeverGoBack(states: seq<Rows>, steps: seq<Step>, id: nat, i: nat, j: nat)
    requires Run(states, steps) && i <= j <= |steps| && !DeletedBetween(states, id, i, j)
    ensures id in states[i] && id in states[j]
    ensures NotBefore(states[i][id].version, states[j][id].version)
    decreases j
  {
    if i < j {
      StillThere(states, id, i, j);
      VersionsNeverGoBack(states, steps, id, i, j - 1);
      StepKeepsVersion(states[j - 1], steps[j - 1], states[j], id);
    }
  }

  ghost predicate Commits(rows: Rows, step: Step) {
    step.Update? && PgUpdate(rows, step.id, step.mutate, step.token, step.now).1.Ok?
  }

  /** Committed updates of one row get strictly increasing versions, whatever the clock does. */
  lemma CommittedVersionsIncrease(states: seq<Rows>, steps: seq<Step>, i: nat, j: nat)
    requires Run(states, steps) && i < j < |steps|
    requires Commits(states[i], steps[i]) && Commits(states[j], steps[j]) && steps[i].id == steps[j].id
    requires !DeletedBetween(states, steps[i].id, i, j)
    ensures states[i + 1][steps[i].id].version.At? && states[j + 1][steps[i].id].version.At?
    ensures states[i + 1][steps[i].id].version.micros < states[j + 1][steps[i].id].version.micros
  {
    var id := steps[i].id;
    CommitMovesTheVersion(states[i], id, steps[i].mutate, steps[i].token, steps[i].now);
    assert !DeletedBetween(states, id, i + 1, j);
    VersionsNeverGoBack(states, steps, id, i + 1, j);
    CommitMovesTheVersion(states[j], id, steps[j].mutate, steps[j].token, steps[j].now);
  }

  /** The step inserts the row again, at a clock reading that has not passed the token. */
  ghost predicate Reinserts(rows: Rows, step: Step, rows': Rows, id: nat, token: int) {
    step.Insert? && id !in rows && id in rows' && step.now <= token
  }

  ghost predicate ReinsertedBetween(states: seq<Rows>, steps: seq<Step>, id: nat, token: int, i: nat, j: nat)
    requires |states| == |steps| + 1 && j <= |steps|
  {
    exists k :: i <= k < j && Reinserts(states[k], steps[k], states[k + 1], id, token)
  }

  /** Only an insert brings a row, and with the reading as its version. */
  lemma OnlyInsertsBringRows(rows: Rows, step: Step, rows': Rows, id: nat)
    requires Next(rows, step, rows') && id !in rows && id in rows'
    ensures step.Insert? && rows'[id].version == At(step.now)
  {
  }

  lemma {:induction false} UnreadableFromTheStart(states: seq<Rows>, steps: seq<Step>, id: nat, j: nat)
    requires Run(states, steps) && j <= |steps| && id in states[j] && states[j][id].version.Unreadable?
    ensures !DeletedBetween(states, id, 0, j)
  {
    if j > 0 {
      if id in states[j - 1] {
        StepKeepsVersion(states[j - 1], steps[j - 1], states[j], id);
        UnreadableFromTheStart(states, steps, id, j - 1);
      } else {
        OnlyInsertsBringRows(states[j - 1], steps[j - 1], states[j], id);
        assert false;
      }
    }
  }

  predicate NotPast(rows: Rows, id: nat, token: int) {
    id in rows && (rows[id].version.At? ==> rows[id].version.micros <= token)
  }

  /** A row whose version has not passed the token was there all along, or an insert that had not passed it brought it back. */
  lemma {:induction false} PresentOrReinserted(states: seq<Rows>, steps: seq<Step>, id: nat, token: int, i: nat, j: nat)
    requires Run(states, steps) && i <= j <= |steps| && NotPast(states[j], id, token)
    ensures ReinsertedBetween(states, steps, id, token, i, j) || !DeletedBetween(states, id, i, j)
    decreases j
  {
    if states[j][id].version.Unreadable? {
      UnreadableFromTheStart(states, steps, id, j);
    } else if i < j {
      if id in states[j - 1] {
        StepKeepsVersion(states[j - 1], steps[j - 1], states[j], id);
        PresentOrReinserted(states, steps, id, token, i, j - 1);
      } else {
        OnlyInsertsBringRows(states[j - 1], steps[j - 1], states[j], id);
        assert Reinserts(states[j - 1], steps[j - 1], states[j], id, token);
      }
    }
  }

  /**
   * Of all updates of a row that carry the same instant as token, two commit
   * only if the row was deleted between them and inserted again by a clock
   * that had not passed the token.
   */
  lemma OneCommitPerToken(states: seq<Rows>, steps: seq<Step>, i: nat, j: nat)
    requires Run(states, steps) && i < j < |steps|
    requires Commits(states[i], steps[i]) && Commits(states[j], steps[j]) && steps[i].id == steps[j].id
    requires steps[i].token.Instant? && steps[j].token == steps[i].token
    ensures ReinsertedBetween(states, steps, steps[i].id, steps[i].token.micros, i + 1, j)
  {
    var id, token := steps[i].id, steps[i].token.micros;
    CommitsExactlyWhen(states[i], id, steps[i].mutate, steps[i].token, steps[i].now);
    CommitsExactlyWhen(states[j], id, steps[j].mutate, steps[j].token, steps[j].now);
    CommitMovesTheVersion(states[i], id, steps[i].mutate, steps[i].token, steps[i].now);
    PresentOrReinserted(states, steps, id, token, i + 1, j);
    if !DeletedBetween(states, id, i + 1, j) {
      VersionsNeverGoBack(states, steps, id, i + 1, j);
      assert false;
    }
  }

  /** Two updates of the row commit with the token, and every insert of it in between reads the clock at or after the floor. */
  ghost predicate CommitsTwice(states: seq<Rows>, steps: seq<Step>, id: nat, token: int, floor: int, i: nat, j: nat) {
    && Run(states, steps) && i < j < |steps|
    && Commits(states[i], steps[i]) && steps[i].id == id && steps[i].token == Instant(token)
    && Commits(states[j], steps[j]) && steps[j].id == id && steps[j].token == Instant(token)
    && forall k :: i < k < j && steps[k].Insert? && id !in states[k] && id in states[k + 1] ==> floor <= steps[k].now
  }

  ghost predicate CanCommitTwice(id: nat, token: int, floor: int) {
    exists states, steps, i, j :: CommitsTwice(states, steps, id, token, floor, i, j)
  }

  /** Update, delete, insert at the floor, move to the token if it is not there yet, and the same update commits again. */
  lemma CommitAgain(id: nat, token: int, floor: int) returns (states: seq<Rows>, steps: seq<Step>)
    requires id > 0 && floor <= token
    ensures CommitsTwice(states, steps, id, token, floor, 0, 4)
  {
    var update := Update(id, (row: Row) => Ok(row.data), Instant(token), token);
    var rest: Rows := if id == 1 then map[] else map[id - 1 := Row(Unreadable, map[])];
    var before, after := rest[id := Row(At(token), map[])], rest[id := Row(At(token + 1), map[])];
    steps := [update, Delete(id, _ => None, Absent), Insert(map[], floor), UpdateColumns(id, map[], map[], floor < token, token), update];
    states := [before, after, rest, rest[id := Row(At(floor), map[])], before, after];
    assert after - {id} == rest && NewId(rest, id);
    assert before[id := Row(At(token + 1), map[])] == after;
    assert states[3][id := Row(At(token), map[])] == before;
  }

  /**
   * Ids are reused, so a token can outlive its row: exactly as long as a row
   * is inserted again by a clock that has not passed the token.
   */
  lemma TokensOutliveExactly(id: nat, token: int, floor: int)
    requires id > 0
    ensures CanCommitTwice(id, token, floor) <==> floor <= token
  {
    if floor <= token {
      var states, steps := CommitAgain(id, token, floor);
    } else if CanCommitTwice(id, token, floor) {
      var states, steps, i, j :| CommitsTwice(states, steps, id, token, floor, i, j);
      OneCommitPerToken(states, steps, i, j);
    }
  }

  function Reading(step: Step): Option<int> {
    match step
    case Insert(_, now) => Some(now)
    case Update(_, _, _, now) => Some(now)
    case UpdateColumns(_, _, _, _, now) => Some(now)
    case Delete(_, _, _) => None
    case UpdateMany(_, now) => Some(now)
  }

  predicate Within(rows: Rows, latest: int) {
    forall id | id in rows :: rows[id].version.At? ==> rows[id].version.micros <= latest + MAX_FUTURE_VERSION_SKEW + 1
  }

  lemma StepStaysWithin(rows: Rows, step: Step, rows': Rows, latest: int)
    requires Next(rows, step, rows') && Within(rows, latest) && (Reading(step).Some? ==> Reading(step).value <= latest)
    ensures Within(rows', latest)
  {
    forall id | id in rows' && rows'[id].version.At? ensures rows'[id].version.micros <= latest + MAX_FUTURE_VERSION_SKEW + 1 {
      if id in rows {}
    }
  }

  /** No version ever runs further ahead of the latest clock reading than the tolerated skew and 1 µs. */
  lemma {:induction false} VersionsStayNearTheClock(states: seq<Rows>, steps: seq<Step>, latest: int, i: nat)
    requires Run(states, steps) && i <= |steps| && Within(states[0], latest)
    requires forall k :: 0 <= k < i && Reading(steps[k]).Some? ==> Reading(steps[k]).value <= latest
    ensures Within(states[i], latest)
  {
    if i > 0 {
      VersionsStayNearTheClock(states, steps, latest, i - 1);
      StepStaysWithin(states[i - 1], steps[i - 1], states[i], latest);
    }
  }
}
