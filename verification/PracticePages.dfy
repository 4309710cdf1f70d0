/**
 * Keyset paging of the practice sessions of one owner, newest first
 * (`list_sessions` of src/backend/repositories/metronome_repository.py).
 */
module PracticePages {
  import opened Calendar
  import opened Cursor
  import opened Prelude
  import Metronome
  import Orders

  datatype Session = Session(started: Instant, status: Metronome.Status, condition: Name)

  datatype Filter = Filter(start: Option<Instant>, end: Option<Instant>, condition: Option<Name>)

  /** What the sessions are ordered by: the instant, then the id. */
  datatype Key = Key(started: Instant, id: Uuid)

  datatype Page = Page(items: seq<Key>, next: Option<string>)

  // ------------------------------------------------------------------ the order

  function Places(k: Key): seq<nat> {
    var t, u := k.started, k.id;
    [t.year, t.month, t.day, t.hour, t.minute, t.second, t.micro, u.a, u.b, u.c, u.d, u.e]
  }

  predicate Lexicographic(a: seq<nat>, b: seq<nat>)
    requires |a| == |b|
  {
    a != [] && (a[0] < b[0] || (a[0] == b[0] && Lexicographic(a[1..], b[1..])))
  }

  predicate Less(a: Key, b: Key) {
    Lexicographic(Places(a), Places(b))
  }

  predicate ValidKey(k: Key) {
    ValidInstant(k.started) && ValidUuid(k.id)
  }

  /** Earlier in time, or at the same instant with the smaller id. */
  predicate Earlier(a: Key, b: Key) {
    Micros(a.started) < Micros(b.started) || (Micros(a.started) == Micros(b.started) && Number(a.id) < Number(b.id))
  }

  lemma {:induction false} FirstPlace(x: nat, y: nat, xs: seq<nat>, ys: seq<nat>)
    requires |xs| == |ys|
    ensures Lexicographic([x] + xs, [y] + ys) <==> x < y || (x == y && Lexicographic(xs, ys))
  {
    assert ([x] + xs)[1..] == xs && ([y] + ys)[1..] == ys;
  }

  lemma UuidPlaces(a: Uuid, b: Uuid)
    ensures Lexicographic([a.a, a.b, a.c, a.d, a.e], [b.a, b.b, b.c, b.d, b.e]) <==>
              a.a < b.a || (a.a == b.a && (a.b < b.b || (a.b == b.b && (a.c < b.c || (a.c == b.c && (a.d < b.d || (a.d == b.d && a.e < b.e)))))))
  {
    FirstPlace(a.a, b.a, [a.b, a.c, a.d, a.e], [b.b, b.c, b.d, b.e]);
    FirstPlace(a.b, b.b, [a.c, a.d, a.e], [b.c, b.d, b.e]);
    FirstPlace(a.c, b.c, [a.d, a.e], [b.d, b.e]);
    FirstPlace(a.d, b.d, [a.e], [b.e]);
    FirstPlace(a.e, b.e, [], []);
  }

  lemma TimePlaces(a: Instant, b: Instant)
    ensures Lexicographic([a.hour, a.minute, a.second, a.micro], [b.hour, b.minute, b.second, b.micro]) <==> EarlierTime(a, b)
  {
    FirstPlace(a.hour, b.hour, [a.minute, a.second, a.micro], [b.minute, b.second, b.micro]);
    FirstPlace(a.minute, b.minute, [a.second, a.micro], [b.second, b.micro]);
    FirstPlace(a.second, b.second, [a.micro], [b.micro]);
    FirstPlace(a.micro, b.micro, [], []);
  }

  lemma DayPlaces(a: Instant, b: Instant)
    ensures Lexicographic([a.year, a.month, a.day], [b.year, b.month, b.day]) <==> EarlierDay(a, b)
  {
    FirstPlace(a.year, b.year, [a.month, a.day], [b.month, b.day]);
    FirstPlace(a.month, b.month, [a.day], [b.day]);
    FirstPlace(a.day, b.day, [], []);
  }

  /** A longer list is compared by its front first. */
  lemma {:induction false} FrontDecides(p: seq<nat>, q: seq<nat>, xs: seq<nat>, ys: seq<nat>)
    requires |p| == |q| && |xs| == |ys|
    ensures Lexicographic(p + xs, q + ys) <==> Lexicographic(p, q) || (p == q && Lexicographic(xs, ys))
  {
    if p == [] {
      assert p + xs == xs && q + ys == ys;
    } else {
      assert p == [p[0]] + p[1..] && q == [q[0]] + q[1..];
      assert p + xs == [p[0]] + (p[1..] + xs) && q + ys == [q[0]] + (q[1..] + ys);
      FirstPlace(p[0], q[0], p[1..], q[1..]);
      FirstPlace(p[0], q[0], p[1..] + xs, q[1..] + ys);
      FrontDecides(p[1..], q[1..], xs, ys);
    }
  }

  lemma PlacesDecide(a: Key, b: Key)
    ensures var s, t, u, v := a.started, b.started, a.id, b.id;
            Less(a, b) <==>
              || EarlierDay(s, t)
              || ([s.year, s.month, s.day] == [t.year, t.month, t.day] && EarlierTime(s, t))
              || (s == t && Lexicographic([u.a, u.b, u.c, u.d, u.e], [v.a, v.b, v.c, v.d, v.e]))
  {
    var s, t, u, v := a.started, b.started, a.id, b.id;
    var day, date := [s.year, s.month, s.day], [t.year, t.month, t.day];
    var time, hour := [s.hour, s.minute, s.second, s.micro], [t.hour, t.minute, t.second, t.micro];
    var us, vs := [u.a, u.b, u.c, u.d, u.e], [v.a, v.b, v.c, v.d, v.e];
    assert Places(a) == day + (time + us) && Places(b) == date + (hour + vs);
    FrontDecides(day, date, time + us, hour + vs);
    FrontDecides(time, hour, us, vs);
    DayPlaces(s, t);
    TimePlaces(s, t);
    SameFields(s, t);
  }

  lemma SameFields(s: Instant, t: Instant)
    ensures [s.year, s.month, s.day] == [t.year, t.month, t.day] <==> s.year == t.year && s.month == t.month && s.day == t.day
    ensures [s.hour, s.minute, s.second, s.micro] == [t.hour, t.minute, t.second, t.micro] <==>
              s.hour == t.hour && s.minute == t.minute && s.second == t.second && s.micro == t.micro
  {
    var p, q := [s.year, s.month, s.day], [t.year, t.month, t.day];
    var x, y := [s.hour, s.minute, s.second, s.micro], [t.hour, t.minute, t.second, t.micro];
    assert p == q ==> p[0] == q[0] && p[1] == q[1] && p[2] == q[2];
    assert x == y ==> x[0] == y[0] && x[1] == y[1] && x[2] == y[2] && x[3] == y[3];
  }

  /** The comparison place by place is the comparison in time, by the microsecond and then by the 128 bits of the id. */
  lemma OrderIsTime(a: Key, b: Key)
    requires ValidKey(a) && ValidKey(b)
    ensures Less(a, b) <==> Earlier(a, b)
  {
    PlacesDecide(a, b);
    UuidPlaces(a.id, b.id);
    SameFields(a.started, b.started);
    FieldOrderIsTime(a.started, b.started);
    GroupOrderIsNumber(a.id, b.id);
  }

  lemma {:induction false} LexicographicIsTotal(a: seq<nat>, b: seq<nat>)
    requires |a| == |b|
    ensures Lexicographic(a, b) || a == b || Lexicographic(b, a)
    ensures !(Lexicographic(a, b) && Lexicographic(b, a)) && (a == b ==> !Lexicographic(a, b))
  {
    if a != [] {
      LexicographicIsTotal(a[1..], b[1..]);
      assert a == [a[0]] + a[1..] && b == [b[0]] + b[1..];
    }
  }

  lemma {:induction false} LexicographicIsTransitive(a: seq<nat>, b: seq<nat>, c: seq<nat>)
    requires |a| == |b| == |c| && Lexicographic(a, b) && Lexicographic(b, c)
    ensures Lexicographic(a, c)
  {
    if a[0] == b[0] && b[0] == c[0] {
      LexicographicIsTransitive(a[1..], b[1..], c[1..]);
    }
  }

  lemma PlacesTellKeys(a: Key, b: Key)
    requires Places(a) == Places(b)
    ensures a == b
  {
    var p, q := Places(a), Places(b);
    assert p[0] == q[0] && p[1] == q[1] && p[2] == q[2] && p[3] == q[3] && p[4] == q[4] && p[5] == q[5];
    assert p[6] == q[6] && p[7] == q[7] && p[8] == q[8] && p[9] == q[9] && p[10] == q[10] && p[11] == q[11];
  }

  lemma LessIsTotal(a: Key, b: Key)
    ensures Less(a, b) || a == b || Less(b, a)
    ensures !(Less(a, b) && Less(b, a)) && !Less(a, a)
  {
    LexicographicIsTotal(Places(a), Places(b));
    LexicographicIsTotal(Places(a), Places(a));
    if Places(a) == Places(b) {
      PlacesTellKeys(a, b);
    }
  }

  lemma LessIsTransitive(a: Key, b: Key, c: Key)
    requires Less(a, b) && Less(b, c)
    ensures Less(a, c)
  {
    LexicographicIsTransitive(Places(a), Places(b), Places(c));
  }

  ghost predicate Greatest(x: Key, s: set<Key>) {
    x in s && forall y :: y in s && y != x ==> Less(y, x)
  }

  lemma GreatestExists(s: set<Key>)
    requires s != {}
    ensures exists x :: Greatest(x, s)
  {
    forall a, b, c ensures Less(a, b) || a == b || Less(b, a) ensures !Less(a, a) ensures Less(a, b) && Less(b, c) ==> Less(a, c) {
      LessIsTotal(a, b);
      if Less(a, b) && Less(b, c) { LessIsTransitive(a, b, c); }
    }
    Orders.GreatestExists(s, Less);
    var x :| Orders.Greatest(x, s, Less);
    assert Greatest(x, s);
  }

  ghost predicate Descending(s: seq<Key>) {
    forall i, j :: 0 <= i < j < |s| ==> Less(s[j], s[i])
  }

  /** Newest first: of two neighbours or more distant keys the later one in the list is earlier in time, or has the smaller id. */
  ghost predicate NewestFirst(s: seq<Key>) {
    forall i, j :: 0 <= i < j < |s| ==> Earlier(s[j], s[i])
  }

  lemma DescendingIsNewestFirst(s: seq<Key>)
    requires Descending(s) && forall k :: k in s ==> ValidKey(k)
    ensures NewestFirst(s)
  {
    forall i, j | 0 <= i < j < |s| ensures Earlier(s[j], s[i]) {
      OrderIsTime(s[j], s[i]);
    }
  }

  ghost predicate AllBelow(s: set<Key>, above: seq<Key>) {
    forall k, i :: k in s && 0 <= i < |above| ==> Less(k, above[i])
  }

  /** The keys are listed completely, each once, newest first. */
  ghost predicate Listing(s: seq<Key>, keys: set<Key>) {
    NewestFirst(s) && Elements(s) == keys
  }

  // ------------------------------------------------------------------ the query

  predicate Matches(s: Session, f: Filter) {
    && s.status != Metronome.Uploading
    && (f.start.Some? ==> Micros(f.start.value) <= Micros(s.started))
    && (f.end.Some? ==> Micros(s.started) < Micros(f.end.value))
    && (f.condition.Some? ==> s.condition == f.condition.value)
  }

  function Matching(sessions: map<Uuid, Session>, f: Filter): set<Key> {
    set id | id in sessions && Matches(sessions[id], f) :: Key(sessions[id].started, id)
  }

  function Beyond(keys: set<Key>, after: Option<Key>): set<Key> {
    set k | k in keys && (after.Some? ==> Less(k, after.value))
  }

  /** One page: the next keys in order, and where to go on if there are more. */
  ghost predicate IsPage(keys: set<Key>, after: Option<Key>, limit: nat, items: seq<Key>, next: Option<Key>) {
    var rest := Beyond(keys, after);
    && Descending(items) && Elements(items) <= rest && AllBelow(rest - Elements(items), items)
    && |items| == (if |rest| <= limit then |rest| else limit)
    && (next.Some? <==> |rest| > limit)
    && (next.Some? && limit > 0 ==> next.value == items[limit - 1])
    && (next.Some? && limit == 0 ==> Greatest(next.value, rest))
  }

  ghost predicate ValidKeys(keys: set<Key>) {
    forall k :: k in keys ==> ValidKey(k)
  }

  function EarlierThan(keys: set<Key>, after: Option<Key>): set<Key> {
    set k | k in keys && (after.Some? ==> Earlier(k, after.value))
  }

  /**
   * The page in numbers: the newest of the keys that are earlier than where it
   * starts, newest first, and as many of them as the limit allows.
   */
  ghost predicate NewestPage(keys: set<Key>, after: Option<Key>, limit: nat, items: seq<Key>) {
    var open := EarlierThan(keys, after);
    && NewestFirst(items) && (forall k :: k in items ==> k in open)
    && (forall k, i :: k in open && k !in items && 0 <= i < |items| ==> Earlier(k, items[i]))
    && |items| == (if |open| <= limit then |open| else limit)
  }

  lemma PageIsNewest(keys: set<Key>, after: Option<Key>, limit: nat, items: seq<Key>, next: Option<Key>)
    requires IsPage(keys, after, limit, items, next) && ValidKeys(keys) && (after.Some? ==> ValidKey(after.value))
    ensures NewestPage(keys, after, limit, items)
  {
    var open := EarlierThan(keys, after);
    var rest := Beyond(keys, after);
    forall k | k in keys ensures k in open <==> k in rest {
      if after.Some? { OrderIsTime(k, after.value); }
    }
    assert open == rest;
    forall k | k in items ensures k in rest { assert k in Elements(items); }
    DescendingIsNewestFirst(items);
    forall k, i | k in open && k !in items && 0 <= i < |items| ensures Earlier(k, items[i]) {
      assert k in rest - Elements(items) && items[i] in items;
      OrderIsTime(k, items[i]);
    }
  }

  /** What matches: finished sessions of the range, from its start up to but not at its end, and of the condition, as they are stored. */
  lemma MatchingMeans(sessions: map<Uuid, Session>, f: Filter, k: Key)
    ensures k in Matching(sessions, f) <==>
              && k.id in sessions && k.started == sessions[k.id].started
              && (sessions[k.id].status == Metronome.Complete || sessions[k.id].status == Metronome.Incomplete)
              && (f.start.Some? ==> Micros(f.start.value) <= Micros(k.started))
              && (f.end.Some? ==> Micros(k.started) < Micros(f.end.value))
              && (f.condition.Some? ==> f.condition.value == sessions[k.id].condition)
  {
  }

  lemma DescendingIsDistinct(s: seq<Key>)
    requires Descending(s)
    ensures |Elements(s)| == |s|
  {
    forall i, j | 0 <= i < j < |s| ensures s[i] != s[j] {
      LessIsTotal(s[i], s[i]);
    }
    ElementsAtMostLength(s);
  }

  /** What remains after a page with a next cursor is what the page did not show. */
  lemma NextPageGoesOn(keys: set<Key>, after: Option<Key>, limit: nat, items: seq<Key>, next: Key)
    requires limit > 0 && IsPage(keys, after, limit, items, Some(next))
    ensures Beyond(keys, Some(next)) == Beyond(keys, after) - Elements(items)
    ensures |Beyond(keys, Some(next))| < |Beyond(keys, after)|
  {
    var rest := Beyond(keys, after);
    assert next in Elements(items);
    forall k | k in keys ensures k in Beyond(keys, Some(next)) <==> k in rest - Elements(items) {
      if k in rest - Elements(items) {
        assert Less(k, items[limit - 1]);
      }
      if Less(k, next) {
        if k in items {
          var i :| 0 <= i < |items| && items[i] == k;
          LessIsTotal(items[i], items[limit - 1]);
        }
        if after.Some? { LessIsTransitive(k, next, after.value); }
      }
    }
    assert Beyond(keys, Some(next)) < rest;
    SubsetCardinality(Beyond(keys, Some(next)), rest - {next});
  }

  /** The last page shows everything that is left. */
  lemma LastPageShowsTheRest(keys: set<Key>, after: Option<Key>, limit: nat, items: seq<Key>)
    requires IsPage(keys, after, limit, items, None)
    ensures Elements(items) == Beyond(keys, after)
  {
    DescendingIsDistinct(items);
    SubsetCardinality(Elements(items), Beyond(keys, after));
  }

  lemma Append(visited: seq<Key>, items: seq<Key>, rest: set<Key>)
    requires Descending(visited) && Descending(items) && AllBelow(rest, visited) && Elements(items) <= rest
    ensures Descending(visited + items) && Elements(visited + items) == Elements(visited) + Elements(items)
  {
    forall i, j | 0 <= i < j < |visited + items| ensures Less((visited + items)[j], (visited + items)[i]) {
      if i < |visited| <= j {
        assert items[j - |visited|] in Elements(items);
      }
    }
    assert forall k :: k in visited + items <==> k in visited || k in items;
  }

  // ------------------------------------------------------------------ the repository

  class PracticeHistory {
    const token: string
    var sessions: map<Uuid, Session>

    predicate Valid()
      reads this
    {
      ValidToken(token) && forall id :: id in sessions ==> ValidUuid(id) && ValidInstant(sessions[id].started)
    }

    constructor (token: string)
      requires ValidToken(token)
      ensures Valid() && sessions == map[]
    {
      this.token := token;
      sessions := map[];
    }

    /** `ORDER BY started_at DESC, session_uuid DESC LIMIT count`. */
    method SelectDescending(keys: set<Key>, count: nat) returns (rows: seq<Key>)
      ensures ValidKeys(keys) ==> NewestPage(keys, None, count, rows)
      ensures Descending(rows) && Elements(rows) <= keys && AllBelow(keys - Elements(rows), rows)
      ensures |rows| == if |keys| <= count then |keys| else count
    {
      rows := [];
      var todo := keys;
      while |rows| < count && todo != {}
        invariant Selected(keys, rows, todo) && |rows| <= count
        decreases todo
      {
        GreatestExists(todo);
        var x :| x in todo && forall y :: y in todo && y != x ==> Less(y, x);
        SelectGreatest(keys, rows, todo, x);
        rows := rows + [x];
        todo := todo - {x};
      }
      if ValidKeys(keys) {
        assert Beyond(keys, None) == keys;
        SelectedIsNewest(keys, count, rows);
      }
    }

    /** A cursor that cannot be decoded for this owner is an error; any other one yields the page behind it. */
    method ListSessions(f: Filter, cursor: Option<string>, limit: nat) returns (r: Option<Page>, ghost next: Option<Key>)
      requires Valid()
      ensures r.None? <==> cursor.Some? && Decode(token, cursor.value).None?
      ensures r.Some? ==> IsPage(Matching(sessions, f), After(cursor), limit, r.value.items, next)
      ensures r.Some? ==> NewestPage(Matching(sessions, f), After(cursor), limit, r.value.items)
      ensures r.Some? ==> (next.None? <==> r.value.next.None?)
      ensures r.Some? && next.Some? ==> Decode(token, r.value.next.value) == Some((next.value.started, next.value.id))
    {
      next := None;
      if cursor.Some? && Decode(token, cursor.value).None? {
        return None, None;
      }
      var rows := SelectDescending(Beyond(Matching(sessions, f), After(cursor)), limit + 1);
      if |rows| > limit {
        // A limit of zero makes the index -1, which is the last row.
        var last := if limit == 0 then rows[|rows| - 1] else rows[limit - 1];
        FullPage(Matching(sessions, f), After(cursor), limit, rows);
        PageInNumbers(f, cursor, limit, rows[..limit], Some(last));
        assert last in Elements(rows);
        var text := CursorOf(last);
        next := Some(last);
        return Some(Page(rows[..limit], Some(text))), next;
      }
      WholePage(Matching(sessions, f), After(cursor), limit, rows);
      PageInNumbers(f, cursor, limit, rows, None);
      return Some(Page(rows, None)), None;
    }

    lemma PageInNumbers(f: Filter, cursor: Option<string>, limit: nat, items: seq<Key>, next: Option<Key>)
      requires Valid() && IsPage(Matching(sessions, f), After(cursor), limit, items, next)
      ensures NewestPage(Matching(sessions, f), After(cursor), limit, items)
    {
      if After(cursor).Some? {
        DecodedIsValid(token, cursor.value);
      }
      PageIsNewest(Matching(sessions, f), After(cursor), limit, items, next);
    }

    method CursorOf(last: Key) returns (text: string)
      requires Valid() && last.id in sessions && sessions[last.id].started == last.started
      ensures Decode(token, text) == Some((last.started, last.id))
    {
      CursorRoundTrip(token, token, last.started, last.id);
      text := Encode(token, last.started, last.id);
    }

    function After(cursor: Option<string>): Option<Key>
      reads this
    {
      if cursor.Some? && Decode(token, cursor.value).Some?
      then Some(Key(Decode(token, cursor.value).value.0, Decode(token, cursor.value).value.1)) else None
    }

    /**
     * A reader that follows `nextCursor` until it is null: it stops, and for
     * every limit of at least 1 it has seen every matching session exactly
     * once, newest first.  With limit 0 it sees nothing.
     */
    method FollowCursors(f: Filter, limit: nat) returns (visited: seq<Key>)
      requires Valid()
      ensures limit > 0 ==> Listing(visited, Matching(sessions, f))
      ensures limit == 0 ==> visited == []
    {
      visited := [];
      var keys := Matching(sessions, f);
      ghost var after: Option<Key> := None;
      var cursor: Option<string> := None;
      var more := true;
      assert Beyond(keys, None) == keys;
      while more
        invariant cursor.Some? ==> Decode(token, cursor.value).Some?
        invariant after == After(cursor)
        invariant Seen(keys, limit, visited, if more then Beyond(keys, after) else {})
        decreases more, |Beyond(keys, after)|
      {
        var page, next := ListSessions(f, cursor, limit);
        SeenMore(keys, after, limit, page.value.items, next, visited);
        visited := visited + page.value.items;
        cursor := page.value.next;
        more := cursor.Some?;
        after := next;
      }
      if limit > 0 {
        assert Elements(visited) == keys;
        forall k | k in visited ensures ValidKey(k) { assert k in Elements(visited); }
        DescendingIsNewestFirst(visited);
      }
    }
  }

  /** What a reader has seen when `rest` is still to come. */
  ghost predicate Seen(keys: set<Key>, limit: nat, visited: seq<Key>, rest: set<Key>) {
    && Descending(visited) && AllBelow(rest, visited)
    && (limit > 0 ==> Elements(visited) == keys - rest)
    && (limit == 0 ==> visited == [])
  }

  ghost predicate Selected(keys: set<Key>, rows: seq<Key>, todo: set<Key>) {
    && Descending(rows) && Elements(rows) <= keys && todo == keys - Elements(rows)
    && AllBelow(todo, rows) && |rows| + |todo| == |keys|
  }

  lemma SelectedIsNewest(keys: set<Key>, count: nat, rows: seq<Key>)
    requires ValidKeys(keys) && Descending(rows) && Elements(rows) <= keys && AllBelow(keys - Elements(rows), rows)
    requires |rows| == if |keys| <= count then |keys| else count
    ensures NewestPage(keys, None, count, rows)
  {
    assert EarlierThan(keys, None) == keys;
    forall k | k in rows ensures k in keys { assert k in Elements(rows); }
    DescendingIsNewestFirst(rows);
    forall k, i | k in keys && k !in rows && 0 <= i < |rows| ensures Earlier(k, rows[i]) {
      assert k in keys - Elements(rows) && rows[i] in rows;
      OrderIsTime(k, rows[i]);
    }
  }

  lemma SelectGreatest(keys: set<Key>, rows: seq<Key>, todo: set<Key>, x: Key)
    requires Selected(keys, rows, todo) && Greatest(x, todo)
    ensures Selected(keys, rows + [x], todo - {x})
  {
    AppendOne(rows, x);
    assert AllBelow(todo - {x}, rows + [x]);
  }

  lemma AppendOne(rows: seq<Key>, x: Key)
    requires Descending(rows) && forall i :: 0 <= i < |rows| ==> Less(x, rows[i])
    ensures Descending(rows + [x]) && Elements(rows + [x]) == Elements(rows) + {x}
  {
  }

  lemma WholePage(keys: set<Key>, after: Option<Key>, limit: nat, rows: seq<Key>)
    requires Descending(rows) && Elements(rows) <= Beyond(keys, after) && |rows| == |Beyond(keys, after)| <= limit
    ensures IsPage(keys, after, limit, rows, None)
  {
    DescendingIsDistinct(rows);
    SubsetCardinality(Elements(rows), Beyond(keys, after));
  }

  lemma FullPage(keys: set<Key>, after: Option<Key>, limit: nat, rows: seq<Key>)
    requires var rest := Beyond(keys, after);
             Descending(rows) && Elements(rows) <= rest && AllBelow(rest - Elements(rows), rows) && |rows| == limit + 1 <= |rest|
    ensures IsPage(keys, after, limit, rows[..limit], Some(if limit == 0 then rows[limit] else rows[limit - 1]))
  {
    var rest, items := Beyond(keys, after), rows[..limit];
    assert rows == items + [rows[limit]];
    assert Elements(rows) == Elements(items) + {rows[limit]};
    forall k, i | k in rest - Elements(items) && 0 <= i < |items| ensures Less(k, items[i]) {
      if k == rows[limit] {} else { assert k in rest - Elements(rows); }
    }
    if limit == 0 {
      forall y | y in rest && y != rows[0] ensures Less(y, rows[0]) {
        assert y in rest - Elements(rows);
      }
    }
  }

  lemma EmptyPageGoesOn(keys: set<Key>, after: Option<Key>, next: Key)
    requires Greatest(next, Beyond(keys, after))
    ensures |Beyond(keys, Some(next))| < |Beyond(keys, after)|
  {
    var rest, later := Beyond(keys, after), Beyond(keys, Some(next));
    forall k | k in later ensures k in rest - {next} {
      LessIsTotal(next, next);
      if after.Some? { LessIsTransitive(k, next, after.value); }
    }
    SubsetCardinality(later, rest - {next});
  }

  lemma SeenLast(keys: set<Key>, after: Option<Key>, limit: nat, items: seq<Key>, visited: seq<Key>)
    requires IsPage(keys, after, limit, items, None) && Seen(keys, limit, visited, Beyond(keys, after))
    ensures Seen(keys, limit, visited + items, {})
  {
    Append(visited, items, Beyond(keys, after));
    LastPageShowsTheRest(keys, after, limit, items);
    if limit == 0 {
      assert items == [];
    } else {
      assert Elements(visited + items) == (keys - Beyond(keys, after)) + Beyond(keys, after);
    }
  }

  lemma SeenPage(keys: set<Key>, after: Option<Key>, limit: nat, items: seq<Key>, next: Key, visited: seq<Key>)
    requires limit > 0 && IsPage(keys, after, limit, items, Some(next)) && Seen(keys, limit, visited, Beyond(keys, after))
    ensures Seen(keys, limit, visited + items, Beyond(keys, Some(next)))
    ensures |Beyond(keys, Some(next))| < |Beyond(keys, after)|
  {
    var rest := Beyond(keys, after);
    Append(visited, items, rest);
    NextPageGoesOn(keys, after, limit, items, next);
    StillBelow(rest, visited, items);
    assert Elements(visited + items) == keys - (rest - Elements(items));
  }

  lemma SeenNothing(keys: set<Key>, after: Option<Key>, items: seq<Key>, next: Key, visited: seq<Key>)
    requires IsPage(keys, after, 0, items, Some(next)) && Seen(keys, 0, visited, Beyond(keys, after))
    ensures Seen(keys, 0, visited + items, Beyond(keys, Some(next)))
    ensures |Beyond(keys, Some(next))| < |Beyond(keys, after)|
  {
    EmptyPageGoesOn(keys, after, next);
    assert visited + items == [];
  }

  lemma SeenMore(keys: set<Key>, after: Option<Key>, limit: nat, items: seq<Key>, next: Option<Key>, visited: seq<Key>)
    requires IsPage(keys, after, limit, items, next) && Seen(keys, limit, visited, Beyond(keys, after))
    ensures Seen(keys, limit, visited + items, if next.Some? then Beyond(keys, next) else {})
    ensures next.Some? ==> |Beyond(keys, next)| < |Beyond(keys, after)|
  {
    match next
    case None => SeenLast(keys, after, limit, items, visited);
    case Some(k) => if limit > 0 { SeenPage(keys, after, limit, items, k, visited); } else { SeenNothing(keys, after, items, k, visited); }
  }

  lemma StillBelow(rest: set<Key>, visited: seq<Key>, items: seq<Key>)
    requires AllBelow(rest, visited) && AllBelow(rest - Elements(items), items)
    ensures AllBelow(rest - Elements(items), visited + items)
  {
  }
}
