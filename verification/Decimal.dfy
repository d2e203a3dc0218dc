/** std::to_string, std::stoi and std::stoull on decimal text. */
module Decimal {
  import opened Wrappers

  const UINT64_LIMIT: nat := 0x1_0000_0000_0000_0000
  const INT_MAX: nat := 0x7fff_ffff

  predicate IsDigit(c: char): (r: bool)
    ensures r <==> 48 <= c as int <= 57
  {
    '0' <= c <= '9'
  }

  /** isspace in the "C" locale. */
  predicate IsSpace(c: char): (r: bool)
    ensures r <==> c as int == 32 || 9 <= c as int <= 13
  {
    c == ' ' || c == '\t' || c == '\n' || c == '\U{0b}' || c == '\U{0c}' || c == '\r'
  }

  predicate AllDigits(s: string) { forall k | 0 <= k < |s| :: IsDigit(s[k]) }

  function DigitChar(d: nat): (c: char)
    requires d < 10
    ensures IsDigit(c) && DigitValue(c) == d
  {
    '0' + d as char
  }

  function DigitValue(c: char): (d: nat)
    requires IsDigit(c)
    ensures d < 10
  {
    (c - '0') as nat
  }

  /** The number a string of digits denotes; leading zeros are allowed. */
  function Value(s: string): nat
    requires AllDigits(s)
  {
    if s == "" then 0 else 10 * Value(s[..|s| - 1]) + DigitValue(s[|s| - 1])
  }

  function ToString(n: nat): (s: string)
    ensures s != "" && AllDigits(s)
    ensures |s| > 1 ==> s[0] != '0'
  {
    if n < 10 then [DigitChar(n)] else ToString(n / 10) + [DigitChar(n % 10)]
  }

  lemma {:induction false} ValueOfToString(n: nat)
    ensures Value(ToString(n)) == n
  {
    if n >= 10 {
      ValueOfToString(n / 10);
      assert ToString(n)[..|ToString(n)| - 1] == ToString(n / 10);
    }
  }

  /** std::to_string of a signed number. */
  function SignedToString(i: int): (s: string)
    ensures s != "" && (i >= 0 ==> AllDigits(s) && Value(s) == i && (|s| > 1 ==> s[0] != '0'))
    ensures i < 0 ==> s[0] == '-' && AllDigits(s[1..]) && Value(s[1..]) == -i && s[1] != '0'
  {
    ValueOfToString(if i < 0 then -i else i);
    if i < 0 then "-" + ToString(-i) else ToString(i)
  }

  /** std::stoi on a string of digits: it throws out_of_range beyond INT_MAX. */
  function Stoi(s: string): (r: Outcome<nat>)
    requires s != "" && AllDigits(s)
    ensures r.Ok? <==> Value(s) <= 2_147_483_647
  {
    if Value(s) <= INT_MAX then Ok(Value(s)) else Throw
  }

  /** The length of the longest run of digits at the start of `s`. */
  function DigitRun(s: string): (n: nat)
    ensures n <= |s| && AllDigits(s[..n])
    ensures n < |s| ==> !IsDigit(s[n])
  {
    if s == "" || !IsDigit(s[0]) then 0 else 1 + DigitRun(s[1..])
  }

  function SkipSpaces(s: string): string {
    if s != "" && IsSpace(s[0]) then SkipSpaces(s[1..]) else s
  }

  /**
   * std::stoull: leading white space and one sign are skipped, then the longest run of digits is
   * read and what follows is ignored.  No digit, or a number of 2^64 or more, throws; a minus sign
   * negates modulo 2^64, as strtoull does.
   */
  function Stoull(s: string): (r: Outcome<nat>)
    ensures r.Ok? ==> r.value < UINT64_LIMIT
  {
    var t := SkipSpaces(s);
    var signed := t != "" && (t[0] == '-' || t[0] == '+');
    var u := if signed then t[1..] else t;
    var n := DigitRun(u);
    if n == 0 then Throw
    else
      var v := Value(u[..n]);
      if v >= UINT64_LIMIT then Throw
      else if signed && t[0] == '-' && v > 0 then Ok(UINT64_LIMIT - v)
      else Ok(v)
  }

  lemma {:induction false} DigitRunOfDigits(s: string)
    requires AllDigits(s)
    ensures DigitRun(s) == |s|
  {
    if s != "" {
      DigitRunOfDigits(s[1..]);
    }
  }

  /** stoull undoes to_string on every uint64. */
  lemma StoullOfToString(n: nat)
    ensures Stoull(ToString(n)) == if n < 18_446_744_073_709_551_616 then Ok(n) else Throw
  {
    var s := ToString(n);
    assert IsDigit(s[0]);
    DigitRunOfDigits(s);
    assert s[..|s|] == s;
    ValueOfToString(n);
  }

  lemma {:induction false} SkipSpacesOf(w: string, s: string)
    requires forall k | 0 <= k < |w| :: IsSpace(w[k])
    requires s == "" || !IsSpace(s[0])
    ensures SkipSpaces(w + s) == s
  {
    if w == "" {
      assert w + s == s;
    } else {
      assert (w + s)[1..] == w[1..] + s;
      SkipSpacesOf(w[1..], s);
    }
  }

  lemma {:induction false} DigitRunStops(d: string, rest: string)
    requires AllDigits(d) && (rest == "" || !IsDigit(rest[0]))
    ensures DigitRun(d + rest) == |d|
  {
    if d == "" {
      assert d + rest == rest;
    } else {
      assert (d + rest)[1..] == d[1..] + rest;
      DigitRunStops(d[1..], rest);
    }
  }

  /**
   * stoull on any text: behind white space and at most one sign it reads the longest run of digits; none,
   * or a number of 2^64 or more, throws; a minus sign negates modulo 2^64; the rest is ignored.
   */
  lemma StoullMeaning(w: string, sign: string, d: string, rest: string)
    requires forall k | 0 <= k < |w| :: IsSpace(w[k])
    requires sign == "" || sign == "+" || sign == "-"
    requires AllDigits(d) && (rest == "" || !IsDigit(rest[0]))
    requires sign == "" && d == "" && rest != "" ==> !IsSpace(rest[0]) && rest[0] != '+' && rest[0] != '-'
    ensures Stoull(w + sign + d + rest) ==
            if d == "" || Value(d) >= 18_446_744_073_709_551_616 then Throw
            else Ok(if sign == "-" && Value(d) > 0 then 18_446_744_073_709_551_616 - Value(d) else Value(d))
  {
    hide Value, DigitRun, SkipSpaces;
    var t := sign + (d + rest);
    assert w + sign + d + rest == w + t;
    assert d != "" ==> IsDigit(d[0]) && t[|sign|] == d[0];
    SkipSpacesOf(w, t);
    var u := if sign == "" then t else t[1..];
    assert u == d + rest;
    DigitRunStops(d, rest);
    assert u[..|d|] == d;
  }
}
