/**
 * Instants and session ids as numbers: microseconds counted over the days of
 * the Gregorian calendar, and the 128 bits of a UUID.
 */
module Calendar {
  import opened Cursor

  function DaysBeforeMonth(year: nat, month: nat): nat {
    if month <= 1 then 0 else DaysBeforeMonth(year, month - 1) + DaysIn(year, month - 1)
  }

  /** The days from the start of year 1 to the start of the year. */
  function DaysBeforeYear(year: nat): nat {
    if year <= 1 then 0 else DaysBeforeYear(year - 1) + DaysBeforeMonth(year - 1, 13)
  }

  function DayNumber(t: Instant): int {
    DaysBeforeYear(t.year) + DaysBeforeMonth(t.year, t.month) + t.day - 1
  }

  /** Microseconds since midnight. */
  function TimeOfDay(t: Instant): nat {
    ((t.hour * 60 + t.minute) * 60 + t.second) * 1000000 + t.micro
  }

  const DAY := 86400000000

  /** Microseconds since the start of year 1. */
  function Micros(t: Instant): int {
    DayNumber(t) * DAY + TimeOfDay(t)
  }

  /** The UUID as a number of 128 bits. */
  function Number(u: Uuid): nat {
    (((u.a * 0x1_0000 + u.b) * 0x1_0000 + u.c) * 0x1_0000 + u.d) * 0x1_0000_0000_0000 + u.e
  }

  // ------------------------------------------------------------------ the calendar is the Gregorian one

  function Leap(year: nat): bool {
    year % 4 == 0 && (year % 100 != 0 || year % 400 == 0)
  }

  /** The month lengths are the usual ones. */
  lemma MonthLengths(year: nat)
    ensures [DaysIn(year, 1), DaysIn(year, 2), DaysIn(year, 3), DaysIn(year, 4), DaysIn(year, 5), DaysIn(year, 6),
             DaysIn(year, 7), DaysIn(year, 8), DaysIn(year, 9), DaysIn(year, 10), DaysIn(year, 11), DaysIn(year, 12)] ==
            [31, if Leap(year) then 29 else 28, 31, 30, 31, 30, 31, 31, 30, 31, 30, 31]
  {
  }

  lemma Quarter(year: nat, month: nat)
    requires month >= 1
    ensures DaysBeforeMonth(year, month + 3) == DaysBeforeMonth(year, month) + DaysIn(year, month) + DaysIn(year, month + 1) + DaysIn(year, month + 2)
  {
    assert DaysBeforeMonth(year, month + 2) == DaysBeforeMonth(year, month + 1) + DaysIn(year, month + 1);
  }

  lemma {:induction false} YearLength(year: nat)
    ensures DaysBeforeMonth(year, 13) == if Leap(year) then 366 else 365
  {
    Quarter(year, 1);
    Quarter(year, 4);
    Quarter(year, 7);
    Quarter(year, 10);
  }

  function LeapDaysUpTo(year: nat): int {
    year / 4 - year / 100 + year / 400
  }

  /** Days before a year: 365 for each, and one more for each leap day. */
  lemma {:induction false} DaysOfYears(year: nat)
    requires year >= 1
    ensures DaysBeforeYear(year) == 365 * (year - 1) + LeapDaysUpTo(year - 1)
  {
    if year > 1 {
      DaysOfYears(year - 1);
      YearLength(year - 1);
      LeapDays(year - 1);
    }
  }

  /** The number of a first of January, in closed form: 0 for the first day of year 1. */
  lemma FirstOfJanuary(t: Instant)
    requires t.year >= 1 && t.month == 1 && t.day == 1
    ensures DayNumber(t) == 365 * (t.year - 1) + LeapDaysUpTo(t.year - 1)
  {
    DaysOfYears(t.year);
  }

  lemma LeapDays(y: nat)
    requires y >= 1
    ensures LeapDaysUpTo(y) == LeapDaysUpTo(y - 1) + if Leap(y) then 1 else 0
  {
    Fourth(y);
    Hundredth(y);
    FourHundredth(y);
    LeapCounts(y % 4 == 0, y % 100 == 0, y % 400 == 0);
  }

  lemma LeapCounts(four: bool, hundred: bool, fourHundred: bool)
    requires (fourHundred ==> hundred) && (hundred ==> four)
    ensures (if four then 1 else 0) - (if hundred then 1 else 0) + (if fourHundred then 1 else 0) ==
              if four && (!hundred || fourHundred) then 1 else 0
  {
  }

  lemma Fourth(y: nat)
    requires y >= 1
    ensures y / 4 == (y - 1) / 4 + if y % 4 == 0 then 1 else 0
  {
  }

  lemma Hundredth(y: nat)
    requires y >= 1
    ensures y / 100 == (y - 1) / 100 + if y % 100 == 0 then 1 else 0
    ensures y % 100 == 0 ==> y % 4 == 0
  {
  }

  lemma FourHundredth(y: nat)
    requires y >= 1
    ensures y / 400 == (y - 1) / 400 + if y % 400 == 0 then 1 else 0
    ensures y % 400 == 0 ==> y % 100 == 0
  {
  }

  // ------------------------------------------------------------------ the order of the fields is the order of the numbers

  lemma {:induction false} LaterMonth(year: nat, month: nat, later: nat)
    requires 1 <= month < later <= 13
    ensures DaysBeforeMonth(year, month) + DaysIn(year, month) <= DaysBeforeMonth(year, later)
    decreases later
  {
    if month < later - 1 {
      LaterMonth(year, month, later - 1);
    }
  }

  lemma {:induction false} LaterYear(year: nat, later: nat)
    requires 1 <= year < later
    ensures DaysBeforeYear(year) + DaysBeforeMonth(year, 13) <= DaysBeforeYear(later)
    decreases later
  {
    if year < later - 1 {
      LaterYear(year, later - 1);
    }
  }

  predicate EarlierDay(a: Instant, b: Instant) {
    a.year < b.year || (a.year == b.year && (a.month < b.month || (a.month == b.month && a.day < b.day)))
  }

  predicate EarlierTime(a: Instant, b: Instant) {
    a.hour < b.hour || (a.hour == b.hour && (a.minute < b.minute || (a.minute == b.minute &&
    (a.second < b.second || (a.second == b.second && a.micro < b.micro)))))
  }

  lemma DayOrder(a: Instant, b: Instant)
    requires ValidInstant(a) && ValidInstant(b) && EarlierDay(a, b)
    ensures DayNumber(a) < DayNumber(b)
  {
    if a.year < b.year {
      LaterMonth(a.year, a.month, 13);
      LaterYear(a.year, b.year);
    } else if a.month < b.month {
      LaterMonth(a.year, a.month, b.month);
    }
  }

  lemma TimeOrder(a: Instant, b: Instant)
    requires ValidInstant(a) && ValidInstant(b) && EarlierTime(a, b)
    ensures TimeOfDay(a) < TimeOfDay(b)
  {
  }

  lemma WithinTheDay(t: Instant)
    requires ValidInstant(t)
    ensures TimeOfDay(t) < DAY
  {
  }

  /** An instant is earlier by its fields exactly when its number is smaller. */
  lemma FieldOrderIsTime(a: Instant, b: Instant)
    requires ValidInstant(a) && ValidInstant(b)
    ensures EarlierDay(a, b) || (a.year == b.year && a.month == b.month && a.day == b.day && EarlierTime(a, b)) <==> Micros(a) < Micros(b)
    ensures Micros(a) == Micros(b) <==> a == b
  {
    WithinTheDay(a);
    WithinTheDay(b);
    if EarlierDay(a, b) {
      DayOrder(a, b);
    } else if EarlierDay(b, a) {
      DayOrder(b, a);
    } else if EarlierTime(a, b) {
      TimeOrder(a, b);
    } else if EarlierTime(b, a) {
      TimeOrder(b, a);
    }
  }

  /** So is a UUID by its groups. */
  lemma GroupOrderIsNumber(a: Uuid, b: Uuid)
    requires ValidUuid(a) && ValidUuid(b)
    ensures a.a < b.a || (a.a == b.a && (a.b < b.b || (a.b == b.b && (a.c < b.c || (a.c == b.c && (a.d < b.d || (a.d == b.d && a.e < b.e))))))) <==> Number(a) < Number(b)
  {
  }
}
