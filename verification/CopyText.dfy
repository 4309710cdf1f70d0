/**
 * The PostgreSQL COPY text form of the photo rows and its decoder
 * (`photo_rows` of scripts/repair_album_photo_metadata.py).
 */
module CopyText {
  import opened Integers
  import opened Prelude
  import opened Text

  /** NULL or a text. */
  type Cell = Option<string>

  datatype Error = BlockMissing | MalformedRow | ColumnMissing | NotAnInteger

  /** The two ids are converted to integers. */
  datatype Photo = Photo(id: int, album: int, cells: seq<Cell>)

  datatype Photos = Photos(columns: seq<string>, rows: seq<Photo>)

  const BACKSPACE := 8 as char
  const TAB := 9 as char
  const LF := 10 as char
  const VT := 11 as char
  const FF := 12 as char
  const CR := 13 as char

  // ------------------------------------------------------------------ what COPY prints

  /** The letter after the backslash, for the characters that are escaped. */
  function EscapeLetter(c: char): Option<char> {
    if c == BACKSPACE then Some('b')
    else if c == TAB then Some('t')
    else if c == LF then Some('n')
    else if c == VT then Some('v')
    else if c == FF then Some('f')
    else if c == CR then Some('r')
    else if c == '\\' then Some('\\')
    else None
  }

  function Escape(s: string): (r: string)
    ensures TAB !in r && LF !in r && CR !in r
  {
    if s == "" then ""
    else (if EscapeLetter(s[0]).Some? then ['\\', EscapeLetter(s[0]).value] else [s[0]]) + Escape(s[1..])
  }

  function PrintCell(c: Cell): (r: string)
    ensures TAB !in r && LF !in r && CR !in r
  {
    if c.None? then "\\N" else Escape(c.value)
  }

  function PrintCells(cells: seq<Cell>): (r: seq<string>)
    ensures |r| == |cells| && forall i :: 0 <= i < |r| ==> r[i] == PrintCell(cells[i])
  {
    seq(|cells|, i requires 0 <= i < |cells| => PrintCell(cells[i]))
  }

  function PrintRow(cells: seq<Cell>): string {
    if cells == [] then "" else Join(PrintCells(cells), TAB)
  }

  function PrintColumns(columns: seq<string>): string
    requires columns != []
  {
    if |columns| == 1 then columns[0] else columns[0] + ", " + PrintColumns(columns[1..])
  }

  const HEAD := "COPY public.album_photos ("
  const TAIL := ") FROM stdin;"
  const END := "\\."

  function PrintHeader(columns: seq<string>): string
    requires columns != []
  {
    HEAD + PrintColumns(columns) + TAIL
  }

  function PrintRows(rows: seq<Photo>): (lines: seq<string>)
    ensures |lines| == |rows| && forall i :: 0 <= i < |rows| ==> lines[i] == PrintRow(rows[i].cells)
  {
    seq(|rows|, i requires 0 <= i < |rows| => PrintRow(rows[i].cells))
  }

  // ------------------------------------------------------------------ what the decoder reads

  function Unescaped(letter: char): Option<char> {
    match letter
    case 'b' => Some(BACKSPACE)
    case 't' => Some(TAB)
    case 'n' => Some(LF)
    case 'v' => Some(VT)
    case 'f' => Some(FF)
    case 'r' => Some(CR)
    case '\\' => Some('\\')
    case _ => None
  }

  /** `re.sub` from left to right; an unknown escape stays as it is. */
  function Unescape(s: string): string {
    if s == "" then ""
    else if |s| >= 2 && s[0] == '\\' && Unescaped(s[1]).Some? then [Unescaped(s[1]).value] + Unescape(s[2..])
    else [s[0]] + Unescape(s[1..])
  }

  function Value(raw: string): Cell {
    if raw == "\\N" then None else Some(Unescape(raw))
  }

  /** `replace("\r\n", "\n")`. */
  function Unix(s: string): string {
    if s == "" then ""
    else if |s| >= 2 && s[0] == CR && s[1] == LF then [LF] + Unix(s[2..])
    else [s[0]] + Unix(s[1..])
  }

  /** `split(", ")`. */
  function SplitColumns(s: string): (columns: seq<string>)
    ensures columns != []
  {
    if s == "" then [""]
    else if |s| >= 2 && s[0] == ',' && s[1] == ' ' then [""] + SplitColumns(s[2..])
    else
      var rest := SplitColumns(s[1..]);
      [[s[0]] + rest[0]] + rest[1..]
  }

  /** The whole line is the COPY command of the table, with some column list. */
  predicate IsHeader(line: string) {
    |line| > |HEAD| + |TAIL| && line[..|HEAD|] == HEAD && line[|line| - |TAIL|..] == TAIL
  }

  function ColumnsOf(line: string): (columns: seq<string>)
    requires IsHeader(line)
    ensures columns != []
  {
    SplitColumns(line[|HEAD|..|line| - |TAIL|])
  }

  /** The first line that is the COPY command, or the number of lines. */
  function HeaderIndex(lines: seq<string>): (i: nat)
    ensures i <= |lines| && (i < |lines| ==> IsHeader(lines[i])) && forall k :: 0 <= k < i ==> !IsHeader(lines[k])
  {
    if lines == [] || IsHeader(lines[0]) then 0 else 1 + HeaderIndex(lines[1..])
  }

  /** The first line that ends a block, or the number of lines. */
  function EndIndex(lines: seq<string>): (i: nat)
    ensures i <= |lines| && (i < |lines| ==> lines[i] == END) && forall k :: 0 <= k < i ==> lines[k] != END
  {
    if lines == [] || lines[0] == END then 0 else 1 + EndIndex(lines[1..])
  }

  function Values(cells: seq<string>): seq<Cell> {
    seq(|cells|, i requires 0 <= i < |cells| => Value(cells[i]))
  }

  /** Where a dictionary made of the columns finds the name: at the last of them. */
  function ColumnIndex(columns: seq<string>, name: string): (i: nat)
    ensures i <= |columns| && (i < |columns| <==> name in columns) && (i < |columns| ==> columns[i] == name)
    ensures forall j :: i < j < |columns| ==> columns[j] != name
  {
    if columns == [] then 0
    else
      var last := |columns| - 1;
      var i := ColumnIndex(columns[..last], name);
      if columns[last] == name then last else if i == last then |columns| else i
  }

  function IntegerAt(columns: seq<string>, cells: seq<Cell>, name: string): Result<int, Error>
    requires |cells| == |columns|
  {
    var i := ColumnIndex(columns, name);
    if i == |columns| then Err(ColumnMissing)
    else
      var n := if cells[i].None? then None else IntOf(cells[i].value);
      if n.None? then Err(NotAnInteger) else Ok(n.value)
  }

  function DecodeRow(line: string, columns: seq<string>): Result<Photo, Error> {
    var raw := Split(line, TAB);
    if |raw| != |columns| then Err(MalformedRow)
    else
      var cells := Values(raw);
      var id := IntegerAt(columns, cells, "id");
      if id.Err? then Err(id.error)
      else
        var album := IntegerAt(columns, cells, "album_id");
        if album.Err? then Err(album.error) else Ok(Photo(id.value, album.value, cells))
  }

  /** The rows, or the error of the first line that has one. */
  function DecodeRows(lines: seq<string>, columns: seq<string>): Result<seq<Photo>, Error> {
    if lines == [] then Ok([])
    else
      var before := DecodeRows(lines[..|lines| - 1], columns);
      if before.Err? then Err(before.error)
      else
        var row := DecodeRow(lines[|lines| - 1], columns);
        if row.Err? then Err(row.error) else Ok(before.value + [row.value])
  }

  function DecodeBlock(lines: seq<string>, columns: seq<string>): Result<Photos, Error> {
    var rows := DecodeRows(lines, columns);
    if rows.Err? then Err(rows.error) else Ok(Photos(columns, rows.value))
  }

  function DecodeLines(lines: seq<string>): Result<Photos, Error> {
    var i := HeaderIndex(lines);
    if i == |lines| then Err(BlockMissing)
    else
      var body := lines[i + 1..];
      var n := EndIndex(body);
      if n == |body| then Err(BlockMissing) else DecodeBlock(body[..n], ColumnsOf(lines[i]))
  }

  function Decode(dump: string): Result<Photos, Error> {
    DecodeLines(Split(Unix(dump), LF))
  }

  /** The loop over the lines of the block. */
  method PhotoRows(dump: string) returns (r: Result<Photos, Error>)
    ensures r == Decode(dump)
  {
    var lines := Split(Unix(dump), LF);
    var i := HeaderIndex(lines);
    if i == |lines| {
      return Err(BlockMissing);
    }
    var body := lines[i + 1..];
    var n := EndIndex(body);
    if n == |body| {
      return Err(BlockMissing);
    }
    var columns := ColumnsOf(lines[i]);
    var rows: seq<Photo> := [];
    for k := 0 to n
      invariant DecodeRows(body[..k], columns) == Ok(rows)
    {
      assert body[..n][..k] == body[..k] && body[..n][..k + 1] == body[..k + 1];
      DecodeNext(body[..n], k, columns, rows);
      var raw := Split(body[k], TAB);
      if |raw| != |columns| {
        return Err(MalformedRow);
      }
      var cells := Values(raw);
      var id := IntegerAt(columns, cells, "id");
      if id.Err? {
        return Err(id.error);
      }
      var album := IntegerAt(columns, cells, "album_id");
      if album.Err? {
        return Err(album.error);
      }
      rows := rows + [Photo(id.value, album.value, cells)];
    }
    return Ok(Photos(columns, rows));
  }

  /** The next line adds its row, or its error ends the whole block. */
  lemma {:induction false} DecodeNext(lines: seq<string>, k: nat, columns: seq<string>, rows: seq<Photo>)
    requires k < |lines| && DecodeRows(lines[..k], columns) == Ok(rows)
    ensures match DecodeRow(lines[k], columns)
            case Ok(row) => DecodeRows(lines[..k + 1], columns) == Ok(rows + [row])
            case Err(e) => DecodeRows(lines, columns) == Err(e)
  {
    assert lines[..k + 1][..k] == lines[..k];
    if DecodeRow(lines[k], columns).Err? {
      FailedPrefix(lines, columns, k + 1);
    }
  }

  lemma {:induction false} FailedPrefix(lines: seq<string>, columns: seq<string>, k: nat)
    requires k <= |lines| && DecodeRows(lines[..k], columns).Err?
    ensures DecodeRows(lines, columns) == DecodeRows(lines[..k], columns)
    decreases |lines|
  {
    if k < |lines| {
      assert lines[..|lines| - 1][..k] == lines[..k];
      FailedPrefix(lines[..|lines| - 1], columns, k);
    } else {
      assert lines[..k] == lines;
    }
  }

  // ------------------------------------------------------------------ printing and decoding

  /** The escapes of the COPY text format: a letter for each of these characters, and a doubled backslash. */
  lemma EscapesOfCopy()
    ensures Escape([BACKSPACE]) == "\\b" && Escape([TAB]) == "\\t" && Escape([LF]) == "\\n" && Escape([VT]) == "\\v" && Escape([FF]) == "\\f" && Escape([CR]) == "\\r"
    ensures Escape("\\") == "\\\\" && Escape("a") == "a"
    ensures Value("\\N").None? && Value("\\x") == Some("\\x")
  {
    assert forall c :: [c][1..] == "";
    assert "\\x"[1..] == "x" && "x"[1..] == "";
    assert Unescape("x") == "x" && Unescape("\\x") == "\\x";
  }

  /** The command that starts the block, and the line that ends it. */
  lemma HeaderOfCopy(columns: string)
    requires columns != ""
    ensures PrintHeader([columns]) == "COPY public.album_photos (" + columns + ") FROM stdin;" && END == "\\."
    ensures PrintColumns(["id", columns]) == "id, " + columns
    ensures IsHeader(PrintHeader([columns])) && !IsHeader(HEAD + TAIL)
  {
    assert ["id", columns][1..] == [columns];
  }

  lemma {:induction false} UnescapeFirst(c: char, rest: string)
    ensures Unescape((if EscapeLetter(c).Some? then ['\\', EscapeLetter(c).value] else [c]) + rest) == [c] + Unescape(rest)
  {
    if EscapeLetter(c).Some? {
      assert (['\\', EscapeLetter(c).value] + rest)[2..] == rest;
    } else {
      assert ([c] + rest)[1..] == rest;
    }
  }

  lemma {:induction false} UnescapeEscape(s: string)
    ensures Unescape(Escape(s)) == s
  {
    if s != "" {
      UnescapeEscape(s[1..]);
      UnescapeFirst(s[0], Escape(s[1..]));
      assert [s[0]] + s[1..] == s;
    }
  }

  /** No text prints like NULL or like the end of the block, not even the texts `\N` and `\.`. */
  lemma {:induction false} TextsStayTexts(s: string)
    ensures Escape(s) != "\\N" && Escape(s) != END
  {
    if s != "" {
      var e := Escape(s);
      if EscapeLetter(s[0]).Some? {
        assert e[1] == EscapeLetter(s[0]).value && e[1] != 'N' && e[1] != '.';
      } else {
        assert e[0] == s[0] && e[0] != '\\';
      }
    }
  }

  lemma CellRoundTrip(c: Cell)
    ensures Value(PrintCell(c)) == c
  {
    if c.Some? {
      UnescapeEscape(c.value);
      TextsStayTexts(c.value);
    }
  }

  lemma RowRoundTrip(cells: seq<Cell>)
    requires cells != []
    ensures Values(Split(PrintRow(cells), TAB)) == cells && |Split(PrintRow(cells), TAB)| == |cells|
  {
    SplitJoined(PrintCells(cells), TAB);
    forall i | 0 <= i < |cells| ensures Value(PrintCells(cells)[i]) == cells[i] {
      CellRoundTrip(cells[i]);
    }
  }

  lemma {:induction false} JoinKeepsOut(parts: seq<string>, sep: char, c: char)
    requires parts != [] && c != sep && forall i :: 0 <= i < |parts| ==> c !in parts[i]
    ensures c !in Join(parts, sep)
  {
    if |parts| > 1 {
      JoinKeepsOut(parts[1..], sep, c);
    }
  }

  /** A printed row is one line, and not the end of the block. */
  lemma RowIsALine(cells: seq<Cell>)
    requires cells != []
    ensures LF !in PrintRow(cells) && CR !in PrintRow(cells) && PrintRow(cells) != END
  {
    JoinKeepsOut(PrintCells(cells), TAB, LF);
    JoinKeepsOut(PrintCells(cells), TAB, CR);
    if |cells| == 1 {
      assert PrintRow(cells) == PrintCell(cells[0]);
      if cells[0].Some? { TextsStayTexts(cells[0].value); }
    } else {
      TabInside(PrintCells(cells));
    }
  }

  lemma {:induction false} TabInside(parts: seq<string>)
    requires |parts| > 1
    ensures TAB in Join(parts, TAB)
  {
    assert Join(parts, TAB)[|parts[0]|] == TAB;
  }

  /** The ids of the row are printed in its cells. */
  predicate Spelled(photo: Photo, columns: seq<string>) {
    && columns != [] && |photo.cells| == |columns| && "id" in columns && "album_id" in columns
    && photo.cells[ColumnIndex(columns, "id")] == Some(PrintInt(photo.id))
    && photo.cells[ColumnIndex(columns, "album_id")] == Some(PrintInt(photo.album))
  }

  lemma PhotoRoundTrip(photo: Photo, columns: seq<string>)
    requires Spelled(photo, columns)
    ensures DecodeRow(PrintRow(photo.cells), columns) == Ok(photo)
  {
    RowRoundTrip(photo.cells);
    IntRoundTrip(photo.id);
    IntRoundTrip(photo.album);
  }

  lemma {:induction false} DecodeLast(lines: seq<string>, columns: seq<string>, rows: seq<Photo>, photo: Photo)
    requires Spelled(photo, columns) && DecodeRows(lines, columns) == Ok(rows)
    ensures DecodeRows(lines + [PrintRow(photo.cells)], columns) == Ok(rows + [photo])
  {
    PhotoRoundTrip(photo, columns);
    assert (lines + [PrintRow(photo.cells)])[..|lines|] == lines;
  }

  lemma PrintLast(rows: seq<Photo>, photo: Photo)
    ensures PrintRows(rows + [photo]) == PrintRows(rows) + [PrintRow(photo.cells)]
  {
  }

  lemma {:induction false} RowsRoundTrip(rows: seq<Photo>, columns: seq<string>)
    requires forall i :: 0 <= i < |rows| ==> Spelled(rows[i], columns)
    ensures DecodeRows(PrintRows(rows), columns) == Ok(rows)
  {
    if rows != [] {
      var first, last := rows[..|rows| - 1], rows[|rows| - 1];
      assert rows == first + [last];
      RowsRoundTrip(first, columns);
      PrintLast(first, last);
      DecodeLast(PrintRows(first), columns, first, last);
    }
  }

  predicate PlainColumns(columns: seq<string>) {
    columns != [] && forall i :: 0 <= i < |columns| ==> columns[i] != "" && ',' !in columns[i] && LF !in columns[i] && CR !in columns[i]
  }

  lemma {:induction false} SplitOneColumn(a: string)
    requires ',' !in a
    ensures SplitColumns(a) == [a]
  {
    if a != "" {
      SplitOneColumn(a[1..]);
      assert a == [a[0]] + a[1..];
    }
  }

  lemma {:induction false} SplitFirstColumn(a: string, b: string)
    requires ',' !in a
    ensures SplitColumns(a + ", " + b) == [a] + SplitColumns(b)
  {
    var s := a + ", " + b;
    if a == "" {
      assert s[2..] == b;
    } else {
      SplitFirstColumn(a[1..], b);
      assert s[1..] == a[1..] + ", " + b;
      assert a == [a[0]] + a[1..];
    }
  }

  lemma {:induction false} ColumnsRoundTrip(columns: seq<string>)
    requires PlainColumns(columns)
    ensures SplitColumns(PrintColumns(columns)) == columns
    ensures PrintColumns(columns) != "" && LF !in PrintColumns(columns) && CR !in PrintColumns(columns)
  {
    if |columns| == 1 {
      SplitOneColumn(columns[0]);
    } else {
      ColumnsRoundTrip(columns[1..]);
      SplitFirstColumn(columns[0], PrintColumns(columns[1..]));
      assert columns == [columns[0]] + columns[1..];
    }
  }

  lemma HeaderRoundTrip(columns: seq<string>)
    requires PlainColumns(columns)
    ensures IsHeader(PrintHeader(columns)) && ColumnsOf(PrintHeader(columns)) == columns
    ensures LF !in PrintHeader(columns) && CR !in PrintHeader(columns)
  {
    ColumnsRoundTrip(columns);
    var line := PrintHeader(columns);
    assert line[..|HEAD|] == HEAD && line[|line| - |TAIL|..] == TAIL;
    assert line[|HEAD|..|line| - |TAIL|] == PrintColumns(columns);
    NoBreaksInHead();
  }

  lemma NoBreaksInHead()
    ensures LF !in HEAD && CR !in HEAD && LF !in TAIL && CR !in TAIL
  {
  }

  /** The lines of a dump that holds the block. */
  function DumpLines(before: seq<string>, p: Photos, after: seq<string>): seq<string>
    requires p.columns != []
  {
    before + ([PrintHeader(p.columns)] + (PrintRows(p.rows) + ([END] + after)))
  }

  /** Rows of the table as they are: each has all columns, and the ids stand in theirs. */
  predicate Consistent(p: Photos) {
    PlainColumns(p.columns) && forall i :: 0 <= i < |p.rows| ==> Spelled(p.rows[i], p.columns)
  }

  lemma {:induction false} BodyEnds(rows: seq<Photo>, after: seq<string>)
    requires forall i :: 0 <= i < |rows| ==> rows[i].cells != []
    ensures EndIndex(PrintRows(rows) + ([END] + after)) == |rows|
  {
    var body := PrintRows(rows) + ([END] + after);
    forall k | 0 <= k < |rows| ensures body[k] != END {
      RowIsALine(rows[k].cells);
    }
    assert body[|rows|] == END;
  }

  lemma LinesRoundTrip(before: seq<string>, p: Photos, after: seq<string>)
    requires Consistent(p) && forall i :: 0 <= i < |before| ==> !IsHeader(before[i])
    ensures DecodeLines(DumpLines(before, p, after)) == Ok(p)
  {
    var body := PrintRows(p.rows) + ([END] + after);
    HeaderRoundTrip(p.columns);
    BodyEnds(p.rows, after);
    RowsRoundTrip(p.rows, p.columns);
    BlockPosition(before, PrintHeader(p.columns), body);
    BodyRows(PrintRows(p.rows), [END] + after);
    FoundBlock(DumpLines(before, p, after), |before|, body, |p.rows|);
  }

  lemma BlockPosition(before: seq<string>, header: string, body: seq<string>)
    ensures var lines := before + ([header] + body);
            lines[|before|] == header && lines[|before| + 1..] == body && forall k :: 0 <= k < |before| ==> lines[k] == before[k]
  {
  }

  lemma BodyRows(rows: seq<string>, rest: seq<string>)
    ensures (rows + rest)[..|rows|] == rows
  {
  }

  lemma {:induction false} FoundBlock(lines: seq<string>, i: nat, body: seq<string>, n: nat)
    requires i < |lines| && IsHeader(lines[i]) && (forall k :: 0 <= k < i ==> !IsHeader(lines[k])) && lines[i + 1..] == body
    requires EndIndex(body) == n < |body|
    ensures DecodeLines(lines) == DecodeBlock(body[..n], ColumnsOf(lines[i]))
  {
  }

  /** Lines ended by LF, or by CR LF. */
  function DumpText(lines: seq<string>, crlf: bool): string
    requires lines != []
  {
    if |lines| == 1 then lines[0]
    else lines[0] + ((if crlf then [CR, LF] else [LF]) + DumpText(lines[1..], crlf))
  }

  predicate PlainLines(lines: seq<string>) {
    forall i :: 0 <= i < |lines| ==> LF !in lines[i] && CR !in lines[i]
  }

  lemma {:induction false} UnixLine(line: string, rest: string)
    requires CR !in line
    ensures Unix(line + rest) == line + Unix(rest)
  {
    if line == "" {
      assert line + rest == rest;
    } else {
      assert (line + rest)[1..] == line[1..] + rest;
      UnixLine(line[1..], rest);
    }
  }

  lemma {:induction false} UnixBreak(line: string, crlf: bool, rest: string)
    requires CR !in line && LF !in line
    ensures Split(Unix(line + ((if crlf then [CR, LF] else [LF]) + rest)), LF) == [line] + Split(Unix(rest), LF)
  {
    var sep := if crlf then [CR, LF] else [LF];
    UnixLine(line, sep + rest);
    assert (sep + rest)[|sep|..] == rest;
    assert Unix(sep + rest) == [LF] + Unix(rest);
    SplitFirst(line, Unix(rest), LF);
    assert line + ([LF] + Unix(rest)) == line + [LF] + Unix(rest);
  }

  lemma {:induction false} UnixText(lines: seq<string>, crlf: bool)
    requires lines != [] && PlainLines(lines)
    ensures Split(Unix(DumpText(lines, crlf)), LF) == lines
  {
    if |lines| == 1 {
      UnixLine(lines[0], "");
      assert lines[0] + "" == lines[0];
      SplitWhole(lines[0], LF);
    } else {
      UnixText(lines[1..], crlf);
      UnixBreak(lines[0], crlf, DumpText(lines[1..], crlf));
      assert [lines[0]] + lines[1..] == lines;
    }
  }

  /**
   * Whatever texts and NULLs the rows hold, and with either line ending,
   * decoding the printed block gives back the columns and the rows.
   */
  lemma {:induction false} DumpRoundTrip(before: seq<string>, p: Photos, after: seq<string>, crlf: bool)
    requires Consistent(p) && PlainLines(before) && PlainLines(after)
    requires forall i :: 0 <= i < |before| ==> !IsHeader(before[i])
    ensures Decode(DumpText(DumpLines(before, p, after), crlf)) == Ok(p)
  {
    var lines := DumpLines(before, p, after);
    HeaderRoundTrip(p.columns);
    forall k | 0 <= k < |p.rows| ensures LF !in PrintRows(p.rows)[k] && CR !in PrintRows(p.rows)[k] {
      RowIsALine(p.rows[k].cells);
    }
    assert PlainLines(PrintRows(p.rows));
    assert LF !in END && CR !in END;
    assert PlainLines([PrintHeader(p.columns)]) && PlainLines([END]);
    UnixText(lines, crlf);
    LinesRoundTrip(before, p, after);
  }

  /** What the decoder demands of one line. */
  predicate Legible(line: string, columns: seq<string>) {
    var cells := Values(Split(line, TAB));
    && |cells| == |columns| && "id" in columns && "album_id" in columns
    && cells[ColumnIndex(columns, "id")].Some? && IntOf(cells[ColumnIndex(columns, "id")].value).Some?
    && cells[ColumnIndex(columns, "album_id")].Some? && IntOf(cells[ColumnIndex(columns, "album_id")].value).Some?
  }

  ghost predicate AllLegible(lines: seq<string>, columns: seq<string>) {
    forall k :: 0 <= k < |lines| ==> Legible(lines[k], columns)
  }

  /** The line is the first that is not legible. */
  ghost predicate FirstIllegible(lines: seq<string>, columns: seq<string>, k: nat) {
    k < |lines| && !Legible(lines[k], columns) && forall j :: 0 <= j < k ==> Legible(lines[j], columns)
  }

  /** A block is decoded exactly when all of its lines are legible. */
  lemma {:induction false} RefusedExactly(lines: seq<string>, columns: seq<string>)
    ensures DecodeRows(lines, columns).Ok? <==> AllLegible(lines, columns)
  {
    if lines != [] {
      var rest, last := lines[..|lines| - 1], lines[|lines| - 1];
      RefusedExactly(rest, columns);
      LegibleDecodes(last, columns);
      LegibleParts(lines, columns);
    }
  }

  lemma LegibleParts(lines: seq<string>, columns: seq<string>)
    requires lines != []
    ensures AllLegible(lines, columns) <==> AllLegible(lines[..|lines| - 1], columns) && Legible(lines[|lines| - 1], columns)
  {
  }

  /** The first line that is not legible tells the error. */
  lemma {:induction false} FirstErrorWins(lines: seq<string>, columns: seq<string>, k: nat)
    requires FirstIllegible(lines, columns, k)
    ensures DecodeRow(lines[k], columns).Err? && DecodeRows(lines, columns) == Err(DecodeRow(lines[k], columns).error)
  {
    LegibleDecodes(lines[k], columns);
    RefusedExactly(lines[..k], columns);
    DecodeNext(lines, k, columns, DecodeRows(lines[..k], columns).value);
  }

  lemma LegibleDecodes(line: string, columns: seq<string>)
    ensures DecodeRow(line, columns).Ok? <==> Legible(line, columns)
  {
  }
}
