/**
 * If-None-Match against the current entity tag (`etag_matches` of
 * src/backend/core/http_cache.py; sections 8.8.3 and 13.1.2 of RFC 9110).
 */
module EntityTags {
  import opened Prelude

  // ------------------------------------------------------------------ the grammar

  /** White space of `str.strip` and of `\s` in a text pattern. */
  predicate IsSpace(c: char) {
    var n := c as int;
    || 0x09 <= n <= 0x0d || 0x1c <= n <= 0x20 || n == 0x85 || n == 0xa0 || n == 0x1680
    || 0x2000 <= n <= 0x200a || n == 0x2028 || n == 0x2029 || n == 0x202f || n == 0x205f || n == 0x3000
  }

  /** Tab to carriage return, the four separators, the blank, and those of Unicode; not their neighbours. */
  lemma KnownSpaces()
    ensures IsSpace('\t') && IsSpace('\n') && IsSpace('\r') && IsSpace(' ') && IsSpace(0x0b as char) && IsSpace(0x0c as char)
    ensures IsSpace(0x1c as char) && IsSpace(0x1d as char) && IsSpace(0x1e as char) && IsSpace(0x1f as char)
    ensures IsSpace(0x85 as char) && IsSpace(0xa0 as char) && IsSpace(0x1680 as char) && IsSpace(0x2000 as char) && IsSpace(0x200a as char)
    ensures !IsSpace(0x08 as char) && !IsSpace(0x0e as char) && !IsSpace(0x1b as char) && !IsSpace('!') && !IsSpace(0x1fff as char) && !IsSpace(0x200b as char)
  {
  }

  /** A character inside the quotes: a comma is one, a quote is not. */
  predicate IsTagChar(c: char) {
    var n := c as int;
    n == 0x21 || 0x23 <= n <= 0x7e || 0x80 <= n <= 0xff
  }

  /** The characters of an entity tag in section 8.8.3 of RFC 9110: visible ones but the quote, and those above ASCII. */
  lemma TagCharacters(c: char)
    ensures IsTagChar(c) <==> (c as int in VISIBLE_ASCII && c != '"') || (0x80 <= c as int && c as int <= 0xff)
    ensures IsTagChar(',') && IsTagChar('!') && !IsTagChar('"') && !IsTagChar(' ')
  {
  }

  const VISIBLE_ASCII := set n | 0x21 <= n <= 0x7e

  predicate AllSpaces(s: string) {
    forall i :: 0 <= i < |s| ==> IsSpace(s[i])
  }

  predicate IsOpaque(s: string) {
    |s| >= 2 && s[0] == '"' && s[|s| - 1] == '"' && forall i :: 1 <= i < |s| - 1 ==> IsTagChar(s[i])
  }

  predicate IsWeak(s: string) {
    |s| >= 2 && s[..2] == "W/"
  }

  /** `removeprefix("W/")`. */
  function Opaque(s: string): string {
    if IsWeak(s) then s[2..] else s
  }

  predicate IsTag(s: string) {
    IsOpaque(Opaque(s))
  }

  /** The weak comparison of two tags. */
  predicate WeaklyEqual(a: string, b: string) {
    Opaque(a) == Opaque(b)
  }

  /** Spaces, a comma, spaces; `comma` is where the comma is. */
  predicate IsSeparator(s: string, comma: nat) {
    comma < |s| && AllSpaces(s[..comma]) && s[comma] == ',' && AllSpaces(s[comma + 1..])
  }

  datatype Separator = Separator(text: string, comma: nat)

  function Render(tags: seq<string>, separators: seq<Separator>): string
    requires |tags| == |separators| + 1
  {
    if separators == [] then tags[0] else tags[0] + (separators[0].text + Render(tags[1..], separators[1..]))
  }

  /** The text is this list of well-formed tags. */
  ghost predicate IsListOf(s: string, tags: seq<string>, separators: seq<Separator>) {
    && |tags| == |separators| + 1
    && (forall i :: 0 <= i < |tags| ==> IsTag(tags[i]))
    && (forall i :: 0 <= i < |separators| ==> IsSeparator(separators[i].text, separators[i].comma))
    && s == Render(tags, separators)
  }

  // ------------------------------------------------------------------ the matcher

  function StripLeft(s: string): string {
    if s != "" && IsSpace(s[0]) then StripLeft(s[1..]) else s
  }

  function StripRight(s: string): string {
    if s != "" && IsSpace(s[|s| - 1]) then StripRight(s[..|s| - 1]) else s
  }

  function Strip(s: string): string {
    StripRight(StripLeft(s))
  }

  /** How far the characters of a tag go. */
  function TagChars(s: string): (n: nat)
    ensures n <= |s| && (forall i :: 0 <= i < n ==> IsTagChar(s[i])) && (n < |s| ==> !IsTagChar(s[n]))
  {
    if s != "" && IsTagChar(s[0]) then 1 + TagChars(s[1..]) else 0
  }

  function Spaces(s: string): (n: nat)
    ensures n <= |s| && AllSpaces(s[..n]) && (n < |s| ==> !IsSpace(s[n]))
  {
    if s != "" && IsSpace(s[0]) then 1 + Spaces(s[1..]) else 0
  }

  /** The length of the tag the text starts with: the pattern leaves no choice. */
  function TagAt(s: string): (n: Option<nat>)
    ensures n.Some? ==> 2 <= n.value <= |s| && IsTag(s[..n.value])
  {
    var start := if IsWeak(s) then 2 else 0;
    if |s| <= start || s[start] != '"' then None
    else
      var end := start + 1 + TagChars(s[start + 1..]);
      if end < |s| && s[end] == '"' then
        assert Opaque(s[..end + 1]) == s[start..end + 1];
        Some(end + 1)
      else None
  }

  /** The length of the separator the text starts with, taking all the spaces. */
  function SeparatorAt(s: string): (n: Option<nat>)
    ensures n.Some? ==> 0 < n.value <= |s|
  {
    var comma := Spaces(s);
    if comma < |s| && s[comma] == ',' then Some(comma + 1 + Spaces(s[comma + 1..])) else None
  }

  /** `re.fullmatch` of the list pattern, with the tags it runs over. */
  function FullMatch(s: string): Option<seq<string>>
    decreases |s|
  {
    var n := TagAt(s);
    if n.None? then None
    else if n.value == |s| then Some([s])
    else
      var rest := s[n.value..];
      var m := SeparatorAt(rest);
      if m.None? then None
      else
        var others := FullMatch(rest[m.value..]);
        if others.None? then None else Some([s[..n.value]] + others.value)
  }

  /** `re.findall` of the tag pattern. */
  function FindAll(s: string): seq<string>
    decreases |s|
  {
    if s == "" then []
    else if TagAt(s).Some? then [s[..TagAt(s).value]] + FindAll(s[TagAt(s).value..])
    else FindAll(s[1..])
  }

  predicate IsQuoted(etag: string) {
    (etag != "" && etag[0] == '"') || (|etag| >= 3 && etag[..3] == "W/\"")
  }

  /** What starts with a quote, or with the weak mark and a quote, however short. */
  lemma QuotedStarts(rest: string)
    ensures IsQuoted("\"" + rest) && IsQuoted("W/\"" + rest)
    ensures IsQuoted("W/" + rest) <==> rest != "" && rest[0] == '"'
    ensures IsQuoted("w/\"") == IsQuoted("W") == IsQuoted("") == false
  {
    assert ("W/\"" + rest)[..3] == "W/\"";
    if rest != "" {
      assert ("W/" + rest)[..3] == ['W', '/', rest[0]];
    }
  }

  /** An unquoted current tag is quoted before it is compared. */
  function Current(etag: string): string {
    if IsQuoted(etag) then Opaque(etag) else Opaque("\"" + etag + "\"")
  }

  predicate EtagMatches(header: string, etag: string) {
    var value := Strip(header);
    if value == "*" then true
    else if !IsQuoted(etag) && value == etag then true
    else if FullMatch(value).None? then false
    else exists tag | tag in FindAll(value) :: Opaque(tag) == Current(etag)
  }

  // ------------------------------------------------------------------ the matcher decides the grammar

  /** A tag followed by anything that does not start inside it is recognized at its length. */
  lemma TagIsFound(tag: string, rest: string)
    requires IsTag(tag)
    ensures TagAt(tag + rest) == Some(|tag|)
  {
    var s := tag + rest;
    var start := if IsWeak(tag) then 2 else 0;
    assert s[0] == tag[0] && s[1] == tag[1];
    assert IsWeak(s) == IsWeak(tag) by {
      assert s[..2] == tag[..2];
    }
    assert s[start] == '"';
    forall i | start + 1 <= i < |tag| - 1 ensures IsTagChar(s[i]) {
      assert s[i] == Opaque(tag)[i - start];
    }
    var after := s[start + 1..];
    var n := |tag| - start - 2;
    assert after[n] == Opaque(tag)[|Opaque(tag)| - 1] == '"';
    TagCharsEnd(after, n);
  }

  lemma {:induction false} TagCharsEnd(s: string, n: nat)
    requires n < |s| && !IsTagChar(s[n]) && forall i :: 0 <= i < n ==> IsTagChar(s[i])
    ensures TagChars(s) == n
  {
    if n > 0 {
      TagCharsEnd(s[1..], n - 1);
    }
  }

  lemma {:induction false} SpacesEnd(s: string, n: nat)
    requires n <= |s| && AllSpaces(s[..n]) && (n < |s| ==> !IsSpace(s[n]))
    ensures Spaces(s) == n
  {
    if n > 0 {
      assert s[0] == s[..n][0];
      assert s[1..][..n - 1] == s[..n][1..];
      SpacesEnd(s[1..], n - 1);
    }
  }

  lemma SeparatorIsFound(sep: Separator, rest: string)
    requires IsSeparator(sep.text, sep.comma) && rest != "" && !IsSpace(rest[0])
    ensures SeparatorAt(sep.text + rest) == Some(|sep.text|)
  {
    var s := sep.text + rest;
    assert s[..sep.comma] == sep.text[..sep.comma];
    SpacesEnd(s, sep.comma);
    var after := s[sep.comma + 1..];
    var n := |sep.text| - sep.comma - 1;
    assert after[..n] == sep.text[sep.comma + 1..];
    SpacesEnd(after, n);
  }

  lemma TagIsNoSpace(tag: string, rest: string)
    requires IsTag(tag)
    ensures tag + rest != "" && !IsSpace((tag + rest)[0]) && (tag + rest)[0] in {'W', '"'}
  {
    if IsWeak(tag) {
      assert tag[0] == tag[..2][0] == 'W';
    }
    assert (tag + rest)[0] == tag[0];
  }

  lemma {:induction false} RenderStartsWithTag(tags: seq<string>, separators: seq<Separator>)
    requires |tags| == |separators| + 1 && IsTag(tags[0])
    ensures Render(tags, separators) != "" && !IsSpace(Render(tags, separators)[0])
  {
    if separators == [] {
      TagIsNoSpace(tags[0], "");
      assert tags[0] + "" == tags[0];
    } else {
      TagIsNoSpace(tags[0], separators[0].text + Render(tags[1..], separators[1..]));
    }
  }

  lemma {:induction false} MatchCons(s: string, tag: string, sep: Separator, later: string, others: seq<string>)
    requires s == tag + (sep.text + later) && IsTag(tag) && IsSeparator(sep.text, sep.comma)
    requires FullMatch(later) == Some(others) && later != "" && !IsSpace(later[0])
    ensures FullMatch(s) == Some([tag] + others)
  {
    var rest := sep.text + later;
    TagIsFound(tag, rest);
    assert s[|tag|..] == rest && s[..|tag|] == tag;
    SeparatorIsFound(sep, later);
    assert rest[|sep.text|..] == later;
  }

  lemma {:induction false} MatchOne(tag: string)
    requires IsTag(tag)
    ensures FullMatch(tag) == Some([tag])
  {
    TagIsFound(tag, "");
    assert tag + "" == tag;
  }

  lemma {:induction false} OneIsMatched(s: string, tags: seq<string>)
    requires IsListOf(s, tags, [])
    ensures FullMatch(s) == Some(tags)
  {
    MatchOne(s);
    assert tags == [s];
  }

  lemma {:induction false} MoreAreMatched(s: string, tags: seq<string>, sep: Separator, later: string)
    requires |tags| > 1 && IsTag(tags[0]) && IsSeparator(sep.text, sep.comma) && later != "" && !IsSpace(later[0])
    requires s == tags[0] + (sep.text + later) && FullMatch(later) == Some(tags[1..])
    ensures FullMatch(s) == Some(tags)
  {
    assert [tags[0]] + tags[1..] == tags;
    MatchCons(s, tags[0], sep, later, tags[1..]);
  }

  lemma ListTail(s: string, tags: seq<string>, separators: seq<Separator>) returns (later: string)
    requires IsListOf(s, tags, separators) && separators != []
    ensures IsListOf(later, tags[1..], separators[1..]) && s == tags[0] + (separators[0].text + later)
    ensures later != "" && !IsSpace(later[0]) && IsTag(tags[0]) && IsSeparator(separators[0].text, separators[0].comma)
  {
    later := Render(tags[1..], separators[1..]);
    RenderStartsWithTag(tags[1..], separators[1..]);
  }

  /** Every list of tags is matched, and its tags are the ones in the list: no comma inside quotes splits one. */
  lemma {:induction false} ListsMatch(s: string, tags: seq<string>, separators: seq<Separator>)
    requires IsListOf(s, tags, separators)
    ensures FullMatch(s) == Some(tags)
    decreases |tags|
  {
    if separators == [] {
      OneIsMatched(s, tags);
    } else {
      var later := ListTail(s, tags, separators);
      ListsMatch(later, tags[1..], separators[1..]);
      MoreAreMatched(s, tags, separators[0], later);
    }
  }

  lemma MatchParts(s: string) returns (tag: string, sep: Separator, later: string)
    requires FullMatch(s).Some? && TagAt(s).value < |s|
    ensures s == tag + (sep.text + later) && |later| < |s|
    ensures IsTag(tag) && IsSeparator(sep.text, sep.comma)
    ensures FullMatch(later).Some? && FullMatch(s).value == [tag] + FullMatch(later).value
  {
    var n := TagAt(s).value;
    var m := SeparatorAt(s[n..]).value;
    tag, later := s[..n], s[n..][m..];
    sep := TakeSeparator(s[n..]);
    Rejoin(s, n, m);
  }

  lemma TakeSeparator(rest: string) returns (sep: Separator)
    requires SeparatorAt(rest).Some?
    ensures sep.text == rest[..SeparatorAt(rest).value] && IsSeparator(sep.text, sep.comma)
  {
    sep := Separator(rest[..SeparatorAt(rest).value], Spaces(rest));
    FoundIsSeparator(rest);
  }

  lemma Rejoin(s: string, n: nat, m: nat)
    requires n <= |s| && m <= |s| - n
    ensures s == s[..n] + (s[n..][..m] + s[n..][m..])
  {
  }

  /** Everything that is matched is a list of tags. */
  lemma {:induction false} MatchesAreLists(s: string) returns (separators: seq<Separator>)
    requires FullMatch(s).Some?
    ensures IsListOf(s, FullMatch(s).value, separators)
    decreases |s|
  {
    if TagAt(s).value == |s| {
      assert s[..|s|] == s;
      separators := [];
    } else {
      var tag, sep, later := MatchParts(s);
      var others := MatchesAreLists(later);
      separators := [sep] + others;
      ConsIsList(s, tag, sep, FullMatch(later).value, others, later);
    }
  }

  lemma {:induction false} FoundIsSeparator(s: string)
    requires SeparatorAt(s).Some?
    ensures IsSeparator(s[..SeparatorAt(s).value], Spaces(s))
  {
    var comma := Spaces(s);
    var m := SeparatorAt(s).value;
    assert s[..m][..comma] == s[..comma];
    assert s[..m][comma + 1..] == s[comma + 1..][..m - comma - 1];
  }

  lemma ConsIsList(s: string, tag: string, sep: Separator, tags: seq<string>, separators: seq<Separator>, later: string)
    requires IsTag(tag) && IsSeparator(sep.text, sep.comma) && IsListOf(later, tags, separators)
    requires s == tag + (sep.text + later)
    ensures IsListOf(s, [tag] + tags, [sep] + separators)
  {
    var all, seps := [tag] + tags, [sep] + separators;
    assert all[1..] == tags && seps[1..] == separators;
  }

  lemma WeakStartsWithW(s: string)
    ensures IsWeak(s) ==> s[0] == 'W'
  {
    if IsWeak(s) {
      assert s[..2][0] == 'W';
    }
  }

  lemma {:induction false} FindAllSkips(s: string, n: nat)
    requires n <= |s| && forall i :: 0 <= i < n ==> s[i] != 'W' && s[i] != '"'
    ensures FindAll(s) == FindAll(s[n..])
  {
    if n > 0 {
      WeakStartsWithW(s);
      assert TagAt(s).None?;
      FindAllSkips(s[1..], n - 1);
      assert s[1..][n - 1..] == s[n..];
    } else {
      assert s[0..] == s;
    }
  }

  lemma SeparatorHoldsNoTag(sep: Separator)
    requires IsSeparator(sep.text, sep.comma)
    ensures forall i :: 0 <= i < |sep.text| ==> sep.text[i] != 'W' && sep.text[i] != '"'
  {
    forall i | 0 <= i < |sep.text| ensures sep.text[i] != 'W' && sep.text[i] != '"' {
      assert i < sep.comma ==> sep.text[..sep.comma][i] == sep.text[i];
      assert i > sep.comma ==> sep.text[sep.comma + 1..][i - sep.comma - 1] == sep.text[i];
    }
  }

  lemma {:induction false} FindAllCons(s: string, tag: string, sep: Separator, later: string)
    requires s == tag + (sep.text + later) && IsTag(tag) && IsSeparator(sep.text, sep.comma)
    ensures FindAll(s) == [tag] + FindAll(later)
  {
    var rest := sep.text + later;
    TagIsFound(tag, rest);
    assert s[..|tag|] == tag && s[|tag|..] == rest;
    SeparatorHoldsNoTag(sep);
    FindAllSkips(rest, |sep.text|);
    assert rest[|sep.text|..] == later;
  }

  lemma {:induction false} FindAllOne(s: string)
    requires FullMatch(s).Some? && TagAt(s).value == |s|
    ensures FindAll(s) == FullMatch(s).value
  {
    assert s[..|s|] == s && s[|s|..] == "";
  }

  /** On a matched text `findall` gives exactly the tags of the list. */
  lemma {:induction false} FindAllIsTheList(s: string)
    requires FullMatch(s).Some?
    ensures FindAll(s) == FullMatch(s).value
    decreases |s|
  {
    if TagAt(s).value == |s| {
      FindAllOne(s);
    } else {
      var tag, sep, later := MatchParts(s);
      FindAllIsTheList(later);
      FindAllCons(s, tag, sep, later);
    }
  }

  // ------------------------------------------------------------------ what matching means

  ghost predicate SomeTagIs(s: string, current: string) {
    exists tags, separators, i :: IsListOf(s, tags, separators) && 0 <= i < |tags| && Opaque(tags[i]) == current
  }

  lemma {:induction false} ListedIsFound(s: string, tags: seq<string>, separators: seq<Separator>, i: nat)
    requires IsListOf(s, tags, separators) && i < |tags|
    ensures FullMatch(s).Some? && tags[i] in FindAll(s)
  {
    ListsMatch(s, tags, separators);
    FindAllIsTheList(s);
  }

  lemma {:induction false} FoundIsListed(s: string, tag: string)
    requires FullMatch(s).Some? && tag in FindAll(s)
    ensures SomeTagIs(s, Opaque(tag))
  {
    var separators := MatchesAreLists(s);
    FindAllIsTheList(s);
    var tags := FullMatch(s).value;
    var i :| 0 <= i < |tags| && tags[i] == tag;
    assert IsListOf(s, tags, separators) && Opaque(tags[i]) == Opaque(tag);
  }

  lemma {:induction false} SomeTagIsFound(s: string, current: string)
    ensures SomeTagIs(s, current) <==> FullMatch(s).Some? && exists tag :: tag in FindAll(s) && Opaque(tag) == current
  {
    if SomeTagIs(s, current) {
      var tags, separators, i :| IsListOf(s, tags, separators) && 0 <= i < |tags| && Opaque(tags[i]) == current;
      ListedIsFound(s, tags, separators, i);
    }
    if tag :| FullMatch(s).Some? && tag in FindAll(s) && Opaque(tag) == current {
      FoundIsListed(s, tag);
    }
  }

  /** For every header and every current tag: a star, the unquoted compatibility case, or a list with an equal tag. */
  lemma MatchingMeans(header: string, etag: string)
    ensures EtagMatches(header, etag) <==>
              || Strip(header) == "*"
              || (!IsQuoted(etag) && Strip(header) == etag)
              || SomeTagIs(Strip(header), Current(etag))
  {
    SomeTagIsFound(Strip(header), Current(etag));
  }

  /** A header that is one tag, commas inside or not, matches exactly when it is weakly equal. */
  lemma OneTagMatches(tag: string, etag: string)
    requires IsTag(tag) && IsTag(etag)
    ensures EtagMatches(tag, etag) <==> WeaklyEqual(tag, etag)
  {
    TagIsStripped(tag);
    MatchOne(tag);
    FindAllIsTheList(tag);
    TagIsQuoted(etag);
    assert tag != "*";
    if Opaque(tag) == Current(etag) {
      assert tag in FindAll(tag);
    }
  }

  lemma TagIsStripped(tag: string)
    requires IsTag(tag)
    ensures Strip(tag) == tag
  {
    TagIsNoSpace(tag, "");
    assert tag + "" == tag;
    assert tag[|tag| - 1] == Opaque(tag)[|Opaque(tag)| - 1] == '"';
  }

  lemma TagIsQuoted(etag: string)
    requires IsTag(etag)
    ensures IsQuoted(etag) && Current(etag) == Opaque(etag)
  {
    if IsWeak(etag) {
      assert etag[..3] == etag[..2] + [Opaque(etag)[0]];
    }
  }

  /** A current tag that is well formed: the star, or a list with a weakly equal tag, and nothing else. */
  lemma QuotedTagMatches(header: string, etag: string)
    requires IsTag(etag)
    ensures EtagMatches(header, etag) <==> Strip(header) == "*" || SomeTagIs(Strip(header), Opaque(etag))
  {
    TagIsQuoted(etag);
    MatchingMeans(header, etag);
  }
}
