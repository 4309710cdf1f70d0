/**
 * Decimal integers as Python's `int` reads them from ASCII text, and their
 * printed form.
 */
module Integers {
  import opened Prelude

  predicate IsDigit(c: char) {
    '0' <= c <= '9'
  }

  predicate IsSpace(c: char) {
    c == ' ' || 9 as char <= c <= 13 as char || 28 as char <= c <= 31 as char
  }

  function StripRight(s: string): string {
    if s != "" && IsSpace(s[|s| - 1]) then StripRight(s[..|s| - 1]) else s
  }

  function Strip(s: string): string {
    if s != "" && IsSpace(s[0]) then Strip(s[1..]) else StripRight(s)
  }

  /** Digits, with single underscores allowed between them. */
  function Digits(s: string): Option<nat> {
    if s == "" || !IsDigit(s[|s| - 1]) then None
    else
      var rest, d := s[..|s| - 1], (s[|s| - 1] - '0') as nat;
      if rest == "" then Some(d)
      else
        var high := Digits(if rest[|rest| - 1] == '_' then rest[..|rest| - 1] else rest);
        if high.None? then None else Some(10 * high.value + d)
  }

  function Signed(s: string): Option<int> {
    var signed := s != "" && (s[0] == '-' || s[0] == '+');
    var n := Digits(if signed then s[1..] else s);
    if n.None? then None
    else
      var m: int := n.value;
      Some(if signed && s[0] == '-' then -m else m)
  }

  function IntOf(text: string): Option<int> {
    Signed(Strip(text))
  }

  function PrintNat(n: nat): (s: string)
    ensures s != "" && forall i :: 0 <= i < |s| ==> IsDigit(s[i])
  {
    (if n < 10 then "" else PrintNat(n / 10)) + ['0' + (n % 10) as char]
  }

  function PrintInt(n: int): string {
    if n < 0 then "-" + PrintNat(-n) else PrintNat(n)
  }

  lemma {:induction false} DigitsOfPrinted(n: nat)
    ensures Digits(PrintNat(n)) == Some(n)
  {
    var s := PrintNat(n);
    assert (s[|s| - 1] - '0') as nat == n % 10;
    if n < 10 {
      assert s[..|s| - 1] == "";
    } else {
      DigitsOfPrinted(n / 10);
      assert s[..|s| - 1] == PrintNat(n / 10);
    }
  }

  /** Spaces around, a sign, single underscores between digits, and leading zeros; nothing else. */
  lemma KnownIntegers()
    ensures Digits("007") == Some(7) && Digits("1_0") == Some(10) && Digits("1__0") == None && Digits("_1") == None && Digits("1_") == None && Digits("") == None && Digits("1a") == None
    ensures Signed("-12") == Some(-12) && Signed("+3") == Some(3) && Signed("--1") == None
    ensures Strip("  5 ") == "5" && PrintInt(0) == "0"
    ensures IsSpace('\t') && IsSpace('\r') && IsSpace(28 as char) && IsSpace(31 as char) && !IsSpace(8 as char) && !IsSpace(14 as char) && !IsSpace(27 as char) && !IsSpace('!')
  {
    assert "-12"[1..] == "12" && "+3"[1..] == "3" && "--1"[1..] == "-1";
    assert Digits("12") == Some(12) && Digits("-1") == None;
  }

  lemma {:induction false} NothingToStrip(s: string)
    requires s != "" && !IsSpace(s[0]) && !IsSpace(s[|s| - 1])
    ensures Strip(s) == s
  {
  }

  lemma PrintedHasNoSpace(n: int)
    ensures var s := PrintInt(n); s != "" && !IsSpace(s[0]) && !IsSpace(s[|s| - 1])
  {
    var digits := PrintNat(if n < 0 then -n else n);
    assert PrintInt(n)[|PrintInt(n)| - 1] == digits[|digits| - 1];
  }

  lemma {:induction false} SignedDigits(digits: string, n: int)
    requires digits != "" && IsDigit(digits[0]) && n >= 0 && Digits(digits) == Some(n)
    ensures Signed(digits) == Some(n) && Signed("-" + digits) == Some(-n)
  {
    assert ("-" + digits)[1..] == digits;
  }

  /** A printed integer reads back. */
  lemma IntRoundTrip(n: int)
    ensures IntOf(PrintInt(n)) == Some(n)
  {
    PrintedHasNoSpace(n);
    NothingToStrip(PrintInt(n));
    var m := if n < 0 then -n else n;
    DigitsOfPrinted(m);
    SignedDigits(PrintNat(m), m);
  }
}
