/**
 * The opaque page cursor of metronome_repository.py: owner token, instant and
 * session id, joined by '|' and written in URL-safe base64.
 */
module Cursor {
  import opened Prelude
  import opened Text

  // ------------------------------------------------------------------ fixed-width numbers

  function DigitChar(d: nat): char
    requires d < 16
  {
    if d < 10 then '0' + (d as char) else 'a' + ((d - 10) as char)
  }

  function DigitValue(c: char): Option<nat> {
    if '0' <= c <= '9' then Some((c - '0') as nat)
    else if 'a' <= c <= 'f' then Some((c - 'a') as nat + 10)
    else None
  }

  predicate Base(b: nat) {
    b == 10 || b == 16
  }

  function Power(base: nat, width: nat): nat {
    if width == 0 then 1 else base * Power(base, width - 1)
  }

  /** The last `width` digits, with leading zeros. */
  function Print(n: nat, base: nat, width: nat): (s: string)
    requires Base(base)
    ensures |s| == width && '|' !in s
  {
    if width == 0 then "" else Print(n / base, base, width - 1) + [DigitChar(n % base)]
  }

  function Parse(s: string, base: nat): Option<nat>
    requires Base(base)
  {
    if s == "" then Some(0)
    else
      var high := Parse(s[..|s| - 1], base);
      var low := DigitValue(s[|s| - 1]);
      if high.None? || low.None? || low.value >= base then None else Some(high.value * base + low.value)
  }

  lemma DigitsOf(n: nat, base: nat, width: nat)
    requires Base(base) && width > 0 && n < Power(base, width)
    ensures n / base < Power(base, width - 1) && n / base * base + n % base == n
  {
    if base == 10 {
      assert n < 10 * Power(10, width - 1);
    } else {
      assert n < 16 * Power(16, width - 1);
    }
  }

  lemma {:induction false} ParseLast(high: string, value: nat, d: nat, base: nat)
    requires Base(base) && d < base && Parse(high, base) == Some(value)
    ensures Parse(high + [DigitChar(d)], base) == Some(value * base + d)
  {
    assert (high + [DigitChar(d)])[..|high|] == high;
    assert DigitValue(DigitChar(d)) == Some(d);
  }

  lemma {:induction false} ParsePrinted(n: nat, base: nat, width: nat)
    requires Base(base) && n < Power(base, width)
    ensures Parse(Print(n, base, width), base) == Some(n)
  {
    if width > 0 {
      DigitsOf(n, base, width);
      ParsePrinted(n / base, base, width - 1);
      ParseLast(Print(n / base, base, width - 1), n / base, n % base, base);
    }
  }

  // ------------------------------------------------------------------ separated fields

  /** A field: its separator comes before it. */
  datatype Shape = Shape(separator: char, width: nat)

  predicate Fit(values: seq<nat>, shapes: seq<Shape>, base: nat) {
    |values| == |shapes| && forall i :: 0 <= i < |values| ==> values[i] < Power(base, shapes[i].width)
  }

  function PrintFields(values: seq<nat>, shapes: seq<Shape>, base: nat): (s: string)
    requires Base(base) && |values| == |shapes|
    ensures (forall f :: f in shapes ==> f.separator != '|') ==> '|' !in s
  {
    if values == [] then ""
    else [shapes[0].separator] + Print(values[0], base, shapes[0].width) + PrintFields(values[1..], shapes[1..], base)
  }

  /** The values of exactly these fields, or nothing. */
  function ParseFields(s: string, shapes: seq<Shape>, base: nat): Option<seq<nat>>
    requires Base(base)
    decreases |shapes|
  {
    if shapes == [] then (if s == "" then Some([]) else None)
    else
      var end := 1 + shapes[0].width;
      if |s| < end || s[0] != shapes[0].separator then None
      else
        var first := Parse(s[1..end], base);
        var others := ParseFields(s[end..], shapes[1..], base);
        if first.None? || others.None? then None else Some([first.value] + others.value)
  }

  lemma CutField(separator: char, first: string, tail: string)
    ensures var s, end := [separator] + first + tail, 1 + |first|;
            |s| >= end && s[0] == separator && s[1..end] == first && s[end..] == tail
  {
  }

  lemma {:induction false} ParsePrintedFields(values: seq<nat>, shapes: seq<Shape>, base: nat)
    requires Base(base) && Fit(values, shapes, base)
    ensures ParseFields(PrintFields(values, shapes, base), shapes, base) == Some(values)
    decreases |values|
  {
    if values != [] {
      var s := PrintFields(values, shapes, base);
      var first, end := Print(values[0], base, shapes[0].width), 1 + shapes[0].width;
      var tail := PrintFields(values[1..], shapes[1..], base);
      CutField(shapes[0].separator, first, tail);
      ParsePrinted(values[0], base, shapes[0].width);
      ParsePrintedFields(values[1..], shapes[1..], base);
      assert values == [values[0]] + values[1..];
    }
  }

  // ------------------------------------------------------------------ instants and session ids

  /** An instant in UTC by its calendar fields. */
  datatype Instant = Instant(year: nat, month: nat, day: nat, hour: nat, minute: nat, second: nat, micro: nat)

  /** A UUID by its five groups of hexadecimal digits. */
  datatype Uuid = Uuid(a: nat, b: nat, c: nat, d: nat, e: nat)

  function DaysIn(year: nat, month: nat): nat {
    if month == 2 then (if year % 4 == 0 && (year % 100 != 0 || year % 400 == 0) then 29 else 28)
    else if month in {4, 6, 9, 11} then 30
    else 31
  }

  predicate ValidInstant(t: Instant) {
    && 1 <= t.year <= 9999 && 1 <= t.month <= 12 && 1 <= t.day <= DaysIn(t.year, t.month)
    && t.hour < 24 && t.minute < 60 && t.second < 60 && t.micro < 1000000
  }

  /** The first and the last instant, the ends of the months, and the leap days. */
  lemma EndsOfTime(t: Instant, year: nat, month: nat)
    ensures ValidInstant(Instant(1, 1, 1, 0, 0, 0, 0)) && ValidInstant(Instant(9999, 12, 31, 23, 59, 59, 999999))
    ensures ValidInstant(Instant(2024, 2, 29, 0, 0, 0, 0)) && !ValidInstant(Instant(2023, 2, 29, 0, 0, 0, 0)) && !ValidInstant(Instant(1900, 2, 29, 0, 0, 0, 0))
    ensures ValidInstant(t) ==> t.month in {1, 2, 3, 4, 5, 6, 7, 8, 9, 10, 11, 12} && t.day != 0 && t.year != 0
    ensures 1 <= year <= 9999 && 1 <= month <= 12 ==> ValidInstant(Instant(year, month, 1, 0, 0, 0, 0)) && ValidInstant(Instant(year, month, DaysIn(year, month), 0, 0, 0, 0))
  {
  }

  predicate ValidUuid(u: Uuid) {
    && u.a < 0x1_0000_0000 && u.b < 0x1_0000 && u.c < 0x1_0000 && u.d < 0x1_0000 && u.e < 0x1_0000_0000_0000
  }

  const TIME_SHAPE := [Shape('-', 2), Shape('-', 2), Shape('T', 2), Shape(':', 2), Shape(':', 2)]
  const MICRO_SHAPE := TIME_SHAPE + [Shape('.', 6)]
  const UUID_SHAPE := [Shape('-', 4), Shape('-', 4), Shape('-', 4), Shape('-', 12)]

  function TimeValues(t: Instant): seq<nat> {
    [t.month, t.day, t.hour, t.minute, t.second] + if t.micro == 0 then [] else [t.micro]
  }

  /** `isoformat` leaves the fraction out when it is zero. */
  function PrintInstant(t: Instant): (s: string)
    ensures '|' !in s
  {
    Print(t.year, 10, 4) + PrintFields(TimeValues(t), if t.micro == 0 then TIME_SHAPE else MICRO_SHAPE, 10) + "Z"
  }

  function ParseInstant(s: string): Option<Instant> {
    if |s| < 5 || s[|s| - 1] != 'Z' then None
    else
      var year := Parse(s[..4], 10);
      var middle := s[4..|s| - 1];
      var fields := if ParseFields(middle, TIME_SHAPE, 10).Some? then ParseFields(middle, TIME_SHAPE, 10) else ParseFields(middle, MICRO_SHAPE, 10);
      if year.None? || fields.None? || |fields.value| < 5 then None
      else
        var v := fields.value;
        var t := Instant(year.value, v[0], v[1], v[2], v[3], v[4], if |v| == 6 then v[5] else 0);
        if ValidInstant(t) then Some(t) else None
  }

  function PrintUuid(u: Uuid): (s: string)
    ensures '|' !in s
  {
    Print(u.a, 16, 8) + PrintFields([u.b, u.c, u.d, u.e], UUID_SHAPE, 16)
  }

  function ParseUuid(s: string): Option<Uuid> {
    if |s| < 8 then None
    else
      var a := Parse(s[..8], 16);
      var fields := ParseFields(s[8..], UUID_SHAPE, 16);
      if a.None? || fields.None? || |fields.value| != 4 then None
      else Some(Uuid(a.value, fields.value[0], fields.value[1], fields.value[2], fields.value[3]))
  }

  lemma OneMoreDigit(high: nat, low: nat, power: nat, base: nat)
    requires Base(base) && high < power && low < base
    ensures high * base + low < base * power
  {
    if base == 10 {} else {}
  }

  lemma {:induction false} ParsedIsBelow(s: string, base: nat)
    requires Base(base) && Parse(s, base).Some?
    ensures Parse(s, base).value < Power(base, |s|)
  {
    if s != "" {
      var high, low := s[..|s| - 1], DigitValue(s[|s| - 1]);
      ParsedIsBelow(high, base);
      OneMoreDigit(Parse(high, base).value, low.value, Power(base, |high|), base);
    }
  }

  lemma {:induction false} FieldsAreBelow(s: string, shapes: seq<Shape>, base: nat)
    requires Base(base) && ParseFields(s, shapes, base).Some?
    ensures Fit(ParseFields(s, shapes, base).value, shapes, base)
    decreases |shapes|
  {
    if shapes != [] {
      var end := 1 + shapes[0].width;
      ParsedIsBelow(s[1..end], base);
      FieldsAreBelow(s[end..], shapes[1..], base);
    }
  }

  lemma PowersOfTen()
    ensures Power(10, 2) == 100 && Power(10, 4) == 10000 && Power(10, 6) == 1000000
  {
    assert Power(10, 1) == 10 * Power(10, 0);
    assert Power(10, 3) == 1000;
    assert Power(10, 5) == 100000;
  }

  lemma PowersOfSixteen()
    ensures Power(16, 4) == 0x1_0000 && Power(16, 8) == 0x1_0000_0000 && Power(16, 12) == 0x1_0000_0000_0000
  {
    assert Power(16, 2) == 0x100;
    assert Power(16, 6) == 0x100_0000;
    assert Power(16, 10) == 0x100_0000_0000;
  }

  lemma {:induction false} FirstField(value: nat, values: seq<nat>, shape: Shape, shapes: seq<Shape>, base: nat)
    requires Base(base) && |values| == |shapes|
    ensures PrintFields([value] + values, [shape] + shapes, base) == [shape.separator] + Print(value, base, shape.width) + PrintFields(values, shapes, base)
  {
    assert ([value] + values)[1..] == values && ([shape] + shapes)[1..] == shapes;
  }

  /** Digits stand from the highest to the lowest. */
  lemma PrintedDigits()
    ensures Print(2024, 10, 4) == "2024" && Print(7, 10, 2) == "07" && Print(0x1af0, 16, 4) == "1af0"
  {
  }

  /** Nothing but digits of the base is read. */
  lemma {:induction false} OnlyDigitsParse(s: string, base: nat, i: nat)
    requires Base(base) && Parse(s, base).Some? && i < |s|
    ensures '0' <= s[i] <= '9' || (base == 16 && 'a' <= s[i] <= 'f')
  {
    if i < |s| - 1 {
      assert s[..|s| - 1][i] == s[i];
      OnlyDigitsParse(s[..|s| - 1], base, i);
    }
  }

  function PrintedDate(t: Instant): string {
    "-" + Print(t.month, 10, 2) + "-" + Print(t.day, 10, 2)
  }

  function PrintedTime(t: Instant): string {
    "T" + Print(t.hour, 10, 2) + ":" + Print(t.minute, 10, 2) + ":" + Print(t.second, 10, 2)
  }

  function PrintedFraction(t: Instant): string {
    if t.micro == 0 then "" else "." + Print(t.micro, 10, 6)
  }

  lemma {:induction false} DateFields(t: Instant, values: seq<nat>, shapes: seq<Shape>)
    requires |values| == |shapes|
    ensures PrintFields([t.month] + ([t.day] + values), [Shape('-', 2)] + ([Shape('-', 2)] + shapes), 10) == PrintedDate(t) + PrintFields(values, shapes, 10)
  {
    FirstField(t.month, [t.day] + values, Shape('-', 2), [Shape('-', 2)] + shapes, 10);
    FirstField(t.day, values, Shape('-', 2), shapes, 10);
  }

  lemma {:induction false} TimeFields(t: Instant, values: seq<nat>, shapes: seq<Shape>)
    requires |values| == |shapes|
    ensures PrintFields([t.hour] + ([t.minute] + ([t.second] + values)), [Shape('T', 2)] + ([Shape(':', 2)] + ([Shape(':', 2)] + shapes)), 10) ==
              PrintedTime(t) + PrintFields(values, shapes, 10)
  {
    FirstField(t.hour, [t.minute] + ([t.second] + values), Shape('T', 2), [Shape(':', 2)] + ([Shape(':', 2)] + shapes), 10);
    FirstField(t.minute, [t.second] + values, Shape(':', 2), [Shape(':', 2)] + shapes, 10);
    FirstField(t.second, values, Shape(':', 2), shapes, 10);
  }

  lemma FractionField(t: Instant)
    ensures PrintFields(if t.micro == 0 then [] else [t.micro], if t.micro == 0 then [] else [Shape('.', 6)], 10) == PrintedFraction(t)
  {
    if t.micro != 0 {
      FirstField(t.micro, [], Shape('.', 6), [], 10);
    }
  }

  /** `YYYY-MM-DDTHH:MM:SS`, the fraction if there is one, and Z. */
  lemma PrintedForm(t: Instant)
    ensures PrintInstant(t) == Print(t.year, 10, 4) + (PrintedDate(t) + (PrintedTime(t) + PrintedFraction(t))) + "Z"
  {
    var end: seq<nat>, shape: seq<Shape> := if t.micro == 0 then [] else [t.micro], if t.micro == 0 then [] else [Shape('.', 6)];
    var time, clock := [t.hour] + ([t.minute] + ([t.second] + end)), [Shape('T', 2)] + ([Shape(':', 2)] + ([Shape(':', 2)] + shape));
    DateFields(t, time, clock);
    TimeFields(t, end, shape);
    FractionField(t);
    assert TimeValues(t) == [t.month] + ([t.day] + time);
    assert (if t.micro == 0 then TIME_SHAPE else MICRO_SHAPE) == [Shape('-', 2)] + ([Shape('-', 2)] + clock);
  }

  /** What is parsed as an id is one. */
  lemma ParsedUuidIsValid(s: string)
    requires ParseUuid(s).Some?
    ensures ValidUuid(ParseUuid(s).value)
  {
    PowersOfSixteen();
    ParsedIsBelow(s[..8], 16);
    FieldsAreBelow(s[8..], UUID_SHAPE, 16);
  }

  /** A text that fits the longer shape has more characters than one that fits the shorter. */
  lemma {:induction false} FieldsHaveLength(values: seq<nat>, shapes: seq<Shape>, base: nat)
    requires Base(base) && |values| == |shapes|
    ensures |PrintFields(values, shapes, base)| == TotalWidth(shapes)
    decreases |shapes|
  {
    if shapes != [] {
      FieldsHaveLength(values[1..], shapes[1..], base);
    }
  }

  function TotalWidth(shapes: seq<Shape>): nat {
    if shapes == [] then 0 else 1 + shapes[0].width + TotalWidth(shapes[1..])
  }

  lemma {:induction false} ParsedHasLength(s: string, shapes: seq<Shape>, base: nat)
    requires Base(base) && ParseFields(s, shapes, base).Some?
    ensures |s| == TotalWidth(shapes)
    decreases |shapes|
  {
    if shapes != [] {
      ParsedHasLength(s[1 + shapes[0].width..], shapes[1..], base);
    }
  }

  /** The fields of a printed instant are found again, whichever shape it has. */
  lemma MiddleOfInstant(t: Instant)
    requires ValidInstant(t)
    ensures var middle := PrintFields(TimeValues(t), if t.micro == 0 then TIME_SHAPE else MICRO_SHAPE, 10);
            (if ParseFields(middle, TIME_SHAPE, 10).Some? then ParseFields(middle, TIME_SHAPE, 10) else ParseFields(middle, MICRO_SHAPE, 10)) == Some(TimeValues(t))
  {
    PowersOfTen();
    var shape := if t.micro == 0 then TIME_SHAPE else MICRO_SHAPE;
    ParsePrintedFields(TimeValues(t), shape, 10);
    if t.micro != 0 {
      var middle := PrintFields(TimeValues(t), shape, 10);
      FieldsHaveLength(TimeValues(t), shape, 10);
      ShapesDiffer();
      assert ParseFields(middle, TIME_SHAPE, 10).None? by {
        if ParseFields(middle, TIME_SHAPE, 10).Some? { ParsedHasLength(middle, TIME_SHAPE, 10); }
      }
    }
  }

  lemma ParsePrintedInstant(t: Instant)
    requires ValidInstant(t)
    ensures ParseInstant(PrintInstant(t)) == Some(t)
  {
    PowersOfTen();
    ParsePrinted(t.year, 10, 4);
    MiddleOfInstant(t);
    var middle := PrintFields(TimeValues(t), if t.micro == 0 then TIME_SHAPE else MICRO_SHAPE, 10);
    var s := PrintInstant(t);
    assert s == Print(t.year, 10, 4) + middle + "Z";
    assert s[..4] == Print(t.year, 10, 4) && s[4..|s| - 1] == middle;
  }

  lemma {:induction false} TotalWidthOfTwo(a: seq<Shape>, b: seq<Shape>)
    ensures TotalWidth(a + b) == TotalWidth(a) + TotalWidth(b)
  {
    if a == [] {
      assert a + b == b;
    } else {
      assert (a + b)[1..] == a[1..] + b;
      TotalWidthOfTwo(a[1..], b);
    }
  }

  lemma ShapesDiffer()
    ensures TotalWidth(MICRO_SHAPE) != TotalWidth(TIME_SHAPE)
  {
    TotalWidthOfTwo(TIME_SHAPE, [Shape('.', 6)]);
  }

  lemma ParsePrintedUuid(u: Uuid)
    requires ValidUuid(u)
    ensures ParseUuid(PrintUuid(u)) == Some(u)
  {
    PowersOfSixteen();
    ParsePrinted(u.a, 16, 8);
    ParsePrintedFields([u.b, u.c, u.d, u.e], UUID_SHAPE, 16);
    var s := PrintUuid(u);
    assert s[..8] == Print(u.a, 16, 8) && s[8..] == PrintFields([u.b, u.c, u.d, u.e], UUID_SHAPE, 16);
  }

  // ------------------------------------------------------------------ base64

  function Letter(v: nat): char
    requires v < 64
  {
    if v < 26 then 'A' + (v as char)
    else if v < 52 then 'a' + ((v - 26) as char)
    else if v < 62 then '0' + ((v - 52) as char)
    else if v == 62 then '-'
    else '_'
  }

  function LetterValue(c: char): (v: Option<nat>)
    ensures v.Some? ==> v.value < 64
  {
    if 'A' <= c <= 'Z' then Some((c - 'A') as nat)
    else if 'a' <= c <= 'z' then Some((c - 'a') as nat + 26)
    else if '0' <= c <= '9' then Some((c - '0') as nat + 52)
    else if c == '-' then Some(62)
    else if c == '_' then Some(63)
    else None
  }

  lemma LetterRoundTrip(v: nat)
    requires v < 64
    ensures LetterValue(Letter(v)) == Some(v) && Letter(v) != '='
  {
  }

  predicate Bytes(s: seq<nat>) {
    forall i :: 0 <= i < |s| ==> s[i] < 256
  }

  /** Three bytes become four letters; a shorter last group is padded. */
  function Base64(s: seq<nat>): string
    requires Bytes(s)
  {
    if s == [] then ""
    else if |s| == 1 then [Letter(s[0] / 4), Letter(s[0] % 4 * 16), '=', '=']
    else if |s| == 2 then [Letter(s[0] / 4), Letter(s[0] % 4 * 16 + s[1] / 16), Letter(s[1] % 16 * 4), '=']
    else Group(s[0], s[1], s[2]) + Base64(s[3..])
  }

  function Group(x: nat, y: nat, z: nat): string
    requires x < 256 && y < 256 && z < 256
  {
    [Letter(x / 4), Letter(x % 4 * 16 + y / 16), Letter(y % 16 * 4 + z / 64), Letter(z % 64)]
  }

  function Unbase64(s: string): Option<seq<nat>> {
    if s == "" then Some([])
    else if |s| < 4 || LetterValue(s[0]).None? || LetterValue(s[1]).None? then None
    else
      var p, q := LetterValue(s[0]).value, LetterValue(s[1]).value;
      var x := p * 4 + q / 16;
      if s[2] == '=' then (if s[3] == '=' && |s| == 4 then Some([x]) else None)
      else if LetterValue(s[2]).None? then None
      else
        var r := LetterValue(s[2]).value;
        var y := q % 16 * 16 + r / 4;
        if s[3] == '=' then (if |s| == 4 then Some([x, y]) else None)
        else if LetterValue(s[3]).None? then None
        else
          var rest := Unbase64(s[4..]);
          if rest.None? then None else Some([x, y, r % 4 * 64 + LetterValue(s[3]).value] + rest.value)
  }

  lemma Sextets(x: nat, y: nat, z: nat)
    requires x < 256 && y < 256 && z < 256
    ensures x / 4 * 4 + (x % 4 * 16 + y / 16) / 16 == x
    ensures (x % 4 * 16 + y / 16) % 16 * 16 + (y % 16 * 4 + z / 64) / 4 == y
    ensures (y % 16 * 4 + z / 64) % 4 * 64 + z % 64 == z
  {
    assert (x % 4 * 16 + y / 16) / 16 == x % 4 && (x % 4 * 16 + y / 16) % 16 == y / 16;
    assert (y % 16 * 4 + z / 64) / 4 == y % 16 && (y % 16 * 4 + z / 64) % 4 == z / 64;
  }

  lemma OneByte(x: nat)
    requires x < 256
    ensures Unbase64(Base64([x])) == Some([x])
  {
    LetterRoundTrip(x / 4);
    LetterRoundTrip(x % 4 * 16);
    Sextets(x, 0, 0);
  }

  lemma TwoBytes(x: nat, y: nat)
    requires x < 256 && y < 256
    ensures Unbase64(Base64([x, y])) == Some([x, y])
  {
    LetterRoundTrip(x / 4);
    LetterRoundTrip(x % 4 * 16 + y / 16);
    LetterRoundTrip(y % 16 * 4);
    Sextets(x, y, 0);
  }

  /** Four letters read back as three bytes. */
  lemma {:induction false} ReadGroup(p: nat, q: nat, r: nat, v: nat, x: nat, y: nat, z: nat, tail: string)
    requires p < 64 && q < 64 && r < 64 && v < 64 && Unbase64(tail).Some?
    requires x == p * 4 + q / 16 && y == q % 16 * 16 + r / 4 && z == r % 4 * 64 + v
    ensures Unbase64([Letter(p), Letter(q), Letter(r), Letter(v)] + tail) == Some([x, y, z] + Unbase64(tail).value)
  {
    LetterRoundTrip(p);
    LetterRoundTrip(q);
    LetterRoundTrip(r);
    LetterRoundTrip(v);
    assert ([Letter(p), Letter(q), Letter(r), Letter(v)] + tail)[4..] == tail;
  }

  lemma {:induction false} ThreeBytes(x: nat, y: nat, z: nat, tail: string)
    requires x < 256 && y < 256 && z < 256 && Unbase64(tail).Some?
    ensures Unbase64(Group(x, y, z) + tail) == Some([x, y, z] + Unbase64(tail).value)
  {
    Sextets(x, y, z);
    ReadGroup(x / 4, x % 4 * 16 + y / 16, y % 16 * 4 + z / 64, z % 64, x, y, z, tail);
  }

  lemma {:induction false} FirstGroup(s: seq<nat>, tail: seq<nat>, encoded: string)
    requires Bytes(s) && |s| >= 3 && s == [s[0], s[1], s[2]] + tail && Unbase64(encoded) == Some(tail)
    ensures Unbase64(Group(s[0], s[1], s[2]) + encoded) == Some(s)
  {
    ThreeBytes(s[0], s[1], s[2], encoded);
  }

  lemma {:induction false} LettersOfFirst(s: seq<nat>)
    requires Bytes(s) && |s| >= 3
    ensures Base64(s) == Group(s[0], s[1], s[2]) + Base64(s[3..])
  {
  }

  lemma {:induction false} OneMoreGroup(s: seq<nat>)
    requires Bytes(s) && |s| >= 3 && Unbase64(Base64(s[3..])) == Some(s[3..])
    ensures Unbase64(Group(s[0], s[1], s[2]) + Base64(s[3..])) == Some(s)
  {
    assert s == [s[0], s[1], s[2]] + s[3..];
    FirstGroup(s, s[3..], Base64(s[3..]));
  }

  /** The examples of section 10 of RFC 4648, and the two letters of the URL-safe alphabet. */
  lemma KnownAnswers()
    ensures Base64([0x66, 0x6f, 0x6f, 0x62, 0x61, 0x72]) == "Zm9vYmFy"
    ensures Base64([0x66, 0x6f]) == "Zm8=" && Base64([0x66]) == "Zg=="
    ensures Base64([0xfb, 0xff]) == "-_8="
  {
    assert [0x66, 0x6f, 0x6f, 0x62, 0x61, 0x72][3..] == [0x62, 0x61, 0x72];
    assert [0x62, 0x61, 0x72][3..] == [];
  }

  lemma {:induction false} Base64RoundTrip(s: seq<nat>)
    requires Bytes(s)
    ensures Unbase64(Base64(s)) == Some(s)
  {
    if |s| == 0 {
      assert s == [];
    } else if |s| == 1 {
      assert s == [s[0]];
      OneByte(s[0]);
    } else if |s| == 2 {
      assert s == [s[0], s[1]];
      TwoBytes(s[0], s[1]);
    } else {
      Base64RoundTrip(s[3..]);
      OneMoreGroup(s);
      LettersOfFirst(s);
    }
  }

  // ------------------------------------------------------------------ the cursor

  predicate Ascii(s: string) {
    forall i :: 0 <= i < |s| ==> s[i] < 128 as char
  }

  function ToBytes(s: string): (b: seq<nat>)
    requires Ascii(s)
    ensures |b| == |s| && Bytes(b)
  {
    seq(|s|, i requires 0 <= i < |s| => s[i] as nat)
  }

  /** Text that is not ASCII is never a printed cursor. */
  function ToText(b: seq<nat>): Option<string> {
    if forall i :: 0 <= i < |b| ==> b[i] < 128 then Some(seq(|b|, i requires 0 <= i < |b| && b[i] < 128 => b[i] as char)) else None
  }

  function Raw(token: string, t: Instant, u: Uuid): string {
    token + "|" + PrintInstant(t) + "|" + PrintUuid(u)
  }

  function Encode(token: string, t: Instant, u: Uuid): string
    requires Ascii(Raw(token, t, u))
  {
    Base64(ToBytes(Raw(token, t, u)))
  }

  /** Nothing for a malformed cursor, and nothing for one that carries another owner's token. */
  function Decode(token: string, cursor: string): Option<(Instant, Uuid)> {
    var bytes := Unbase64(cursor);
    if bytes.None? || ToText(bytes.value).None? then None
    else
      var parts := Split(ToText(bytes.value).value, '|');
      if |parts| != 3 || parts[0] != token then None
      else
        var t, u := ParseInstant(parts[1]), ParseUuid(parts[2]);
        if t.None? || u.None? then None else Some((t.value, u.value))
  }

  /** What a cursor decodes to is an instant and an id. */
  lemma DecodedIsValid(token: string, cursor: string)
    requires Decode(token, cursor).Some?
    ensures ValidInstant(Decode(token, cursor).value.0) && ValidUuid(Decode(token, cursor).value.1)
  {
    ParsedUuidIsValid(Split(ToText(Unbase64(cursor).value).value, '|')[2]);
  }

  /** Owner tokens are 24 hexadecimal digits. */
  predicate ValidToken(token: string) {
    Ascii(token) && '|' !in token
  }

  lemma {:induction false} PrintIsAscii(n: nat, base: nat, width: nat)
    requires Base(base)
    ensures Ascii(Print(n, base, width))
  {
    if width > 0 {
      PrintIsAscii(n / base, base, width - 1);
    }
  }

  lemma {:induction false} FieldsAreAscii(values: seq<nat>, shapes: seq<Shape>, base: nat)
    requires Base(base) && |values| == |shapes| && forall f :: f in shapes ==> f.separator < 128 as char
    ensures Ascii(PrintFields(values, shapes, base))
    decreases |values|
  {
    if values != [] {
      PrintIsAscii(values[0], base, shapes[0].width);
      FieldsAreAscii(values[1..], shapes[1..], base);
    }
  }

  lemma RawIsAscii(token: string, t: Instant, u: Uuid)
    requires ValidToken(token)
    ensures Ascii(Raw(token, t, u))
  {
    PrintIsAscii(t.year, 10, 4);
    FieldsAreAscii(TimeValues(t), if t.micro == 0 then TIME_SHAPE else MICRO_SHAPE, 10);
    PrintIsAscii(u.a, 16, 8);
    FieldsAreAscii([u.b, u.c, u.d, u.e], UUID_SHAPE, 16);
    assert Ascii(PrintInstant(t)) && Ascii(PrintUuid(u));
  }

  lemma RawSplits(token: string, t: Instant, u: Uuid)
    requires ValidToken(token)
    ensures Split(Raw(token, t, u), '|') == [token, PrintInstant(t), PrintUuid(u)]
  {
    var time, id := PrintInstant(t), PrintUuid(u);
    assert Raw(token, t, u) == token + "|" + (time + "|" + id);
    SplitFirst(token, time + "|" + id, '|');
    SplitFirst(time, id, '|');
    SplitWhole(id, '|');
  }

  lemma TextRoundTrip(raw: string)
    requires Ascii(raw)
    ensures var bytes := Unbase64(Base64(ToBytes(raw)));
            bytes.Some? && ToText(bytes.value) == Some(raw)
  {
    Base64RoundTrip(ToBytes(raw));
    assert ToText(ToBytes(raw)).value == raw;
  }

  lemma {:induction false} DecodeParts(reader: string, cursor: string, parts: seq<string>, t: Instant, u: Uuid)
    requires Unbase64(cursor).Some? && ToText(Unbase64(cursor).value).Some? && Split(ToText(Unbase64(cursor).value).value, '|') == parts
    requires |parts| == 3 && ParseInstant(parts[1]) == Some(t) && ParseUuid(parts[2]) == Some(u)
    ensures Decode(reader, cursor) == if reader == parts[0] then Some((t, u)) else None
  {
  }

  /** The owner who got the cursor gets its place back; every other owner gets nothing. */
  lemma CursorRoundTrip(token: string, reader: string, t: Instant, u: Uuid)
    requires ValidToken(token) && ValidInstant(t) && ValidUuid(u)
    ensures Ascii(Raw(token, t, u))
    ensures Decode(reader, Encode(token, t, u)) == if reader == token then Some((t, u)) else None
  {
    RawIsAscii(token, t, u);
    TextRoundTrip(Raw(token, t, u));
    RawSplits(token, t, u);
    ParsePrintedInstant(t);
    ParsePrintedUuid(u);
    DecodeParts(reader, Encode(token, t, u), [token, PrintInstant(t), PrintUuid(u)], t, u);
  }
}
