/**
 * String helpers shared by the search controller and the SEO URL generator:
 * PHP's `str_replace` on a single character, `strtolower` on ASCII, the
 * decimal rendering PHP uses when an integer id is concatenated into a
 * string, and substring matching.
 */
module Strings {

  /** `str_replace(from, to, s)` for one-character needles: every `from` becomes `to`. */
  function ReplaceChar(s: string, from: char, to: char): (r: string)
    ensures |r| == |s|
    ensures forall i :: 0 <= i < |s| ==> r[i] == (if s[i] == from then to else s[i])
  {
    if s == [] then [] else [if s[0] == from then to else s[0]] + ReplaceChar(s[1..], from, to)
  }

  predicate IsUpperAscii(c: char) {
    'A' <= c <= 'Z'
  }

  /** `strtolower` on one character: only the ASCII letters A-Z change. */
  function LowerAsciiChar(c: char): (r: char)
    ensures IsUpperAscii(c) ==> r != c && 'a' <= r <= 'z'
    ensures !IsUpperAscii(c) ==> r == c
  {
    if IsUpperAscii(c) then (c as int + 32) as char else c
  }

  /** `strtolower` on a whole string (ASCII only, as PHP 8.2 and later do it). */
  function LowerAscii(s: string): (r: string)
    ensures |r| == |s|
    ensures forall i :: 0 <= i < |s| ==> r[i] == LowerAsciiChar(s[i])
  {
    if s == [] then [] else [LowerAsciiChar(s[0])] + LowerAscii(s[1..])
  }

  predicate IsDigit(c: char) {
    '0' <= c <= '9'
  }

  predicate AllDigits(s: string) {
    forall i :: 0 <= i < |s| ==> IsDigit(s[i])
  }

  function DigitChar(d: nat): (c: char)
    requires d < 10
    ensures IsDigit(c) && c as int - '0' as int == d
  {
    ('0' as int + d) as char
  }

  /** The decimal text of a non-negative integer, without leading zeros (PHP's `(string)$id`). */
  function Decimal(n: nat): (r: string)
    ensures |r| >= 1 && AllDigits(r)
    ensures r[0] == '0' ==> n == 0
  {
    if n < 10 then [DigitChar(n)] else Decimal(n / 10) + [DigitChar(n % 10)]
  }

  /** Reads a string of digits back as a number. */
  function ParseDecimal(s: string): (n: nat)
    requires AllDigits(s)
  {
    if s == [] then 0
    else ParseDecimal(s[..|s| - 1]) * 10 + (s[|s| - 1] as int - '0' as int)
  }

  lemma {:induction false} ParseDecimalOfDecimal(n: nat)
    ensures ParseDecimal(Decimal(n)) == n
  {
    if n >= 10 {
      var s := Decimal(n);
      assert s[..|s| - 1] == Decimal(n / 10);
      ParseDecimalOfDecimal(n / 10);
    }
  }

  /** Different ids never render to the same text. */
  lemma DecimalInjective(a: nat, b: nat)
    ensures Decimal(a) == Decimal(b) ==> a == b
  {
    ParseDecimalOfDecimal(a);
    ParseDecimalOfDecimal(b);
  }

  /** `pattern` occurs in `text` starting at position 0. */
  predicate IsPrefix(pattern: string, text: string) {
    |pattern| <= |text| && text[..|pattern|] == pattern
  }

  /** `pattern` occurs somewhere in `text` (SQL `LIKE '%pattern%'` without wildcards, case-sensitive). */
  predicate Contains(text: string, pattern: string)
    decreases |text|
  {
    IsPrefix(pattern, text) || (text != [] && Contains(text[1..], pattern))
  }

  /** The number of digits at the end of `s`. */
  function TrailingDigits(s: string): nat
  {
    if s == [] || !IsDigit(s[|s| - 1]) then 0 else 1 + TrailingDigits(s[..|s| - 1])
  }

  lemma {:induction false} TrailingDigitsAfterMarker(a: string, m: char, d: string)
    requires !IsDigit(m) && AllDigits(d)
    ensures TrailingDigits(a + [m] + d) == |d|
    decreases |d|
  {
    var u := a + [m] + d;
    if d != [] {
      assert u[..|u| - 1] == a + [m] + d[..|d| - 1];
      TrailingDigitsAfterMarker(a, m, d[..|d| - 1]);
    } else {
      assert u[|u| - 1] == m;
    }
  }

  /**
   * A text of the form `a + [m] + d`, where `d` is all digits and `m` is not a digit,
   * splits in exactly one way: the digits after the last non-digit are `d`.
   */
  lemma SplitAtMarker(a: string, m: char, d: string, b: string, n: char, e: string)
    requires !IsDigit(m) && !IsDigit(n) && AllDigits(d) && AllDigits(e)
    requires a + [m] + d == b + [n] + e
    ensures a == b && m == n && d == e
  {
    var u := a + [m] + d;
    TrailingDigitsAfterMarker(a, m, d);
    TrailingDigitsAfterMarker(b, n, e);
    assert |d| == |e| && |a| == |b|;
    assert u[..|a|] == a && u[..|b|] == b;
    assert u[|a|] == m && u[|b|] == n;
    assert u[|a| + 1..] == d && u[|b| + 1..] == e;
  }
}
