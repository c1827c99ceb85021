/**
 * Character and string helpers shared by the backend and the frontend models:
 * ASCII case folding, substring search, and decimal rendering of integers
 * (Python's `str(int)` and JavaScript's number-to-string agree on integers).
 */
module Chars {

  predicate IsDigit(c: char) {
    '0' <= c <= '9'
  }

  function DigitValue(c: char): (d: nat)
    requires IsDigit(c)
    ensures d < 10
  {
    c as int - '0' as int
  }

  function DigitChar(d: nat): (c: char)
    requires d < 10
    ensures IsDigit(c) && DigitValue(c) == d
  {
    ('0' as int + d) as char
  }

  predicate AllDigits(s: string) {
    forall i :: 0 <= i < |s| ==> IsDigit(s[i])
  }

  /** The value of a run of decimal digits, most significant digit first. */
  function DigitsValue(s: string): nat
    requires AllDigits(s)
  {
    if s == [] then 0 else DigitsValue(s[..|s| - 1]) * 10 + DigitValue(s[|s| - 1])
  }

  /** Canonical decimal rendering of a natural number: no leading zeros. */
  function NatToDecimal(n: nat): (s: string)
    ensures |s| > 0 && AllDigits(s)
    ensures s[0] == '0' <==> n == 0
    ensures n == 0 ==> s == "0"
  {
    if n < 10 then [DigitChar(n)] else NatToDecimal(n / 10) + [DigitChar(n % 10)]
  }

  /** Decimal rendering of an integer, with a leading '-' for negatives. */
  function IntToDecimal(n: int): (s: string)
    ensures |s| > 0
    ensures n < 0 <==> s[0] == '-'
    ensures n >= 0 ==> s == NatToDecimal(n)
    ensures n < 0 ==> s == "-" + NatToDecimal(-n)
  {
    if n < 0 then "-" + NatToDecimal(-n) else NatToDecimal(n)
  }

  lemma {:induction false} DigitsValueAppend(s: string, c: char)
    requires AllDigits(s) && IsDigit(c)
    ensures AllDigits(s + [c]) && DigitsValue(s + [c]) == DigitsValue(s) * 10 + DigitValue(c)
  {
    assert (s + [c])[..|s + [c]| - 1] == s;
  }

  /** Reading back the canonical rendering gives the number again. */
  lemma {:induction false} NatToDecimalValue(n: nat)
    ensures DigitsValue(NatToDecimal(n)) == n
  {
    if n >= 10 {
      NatToDecimalValue(n / 10);
      DigitsValueAppend(NatToDecimal(n / 10), DigitChar(n % 10));
    }
  }

  /** Different integers have different decimal renderings. */
  lemma IntToDecimalInjective(m: int, n: int)
    requires IntToDecimal(m) == IntToDecimal(n)
    ensures m == n
  {
    var s := IntToDecimal(m);
    if m < 0 {
      assert n < 0;
      assert s == "-" + NatToDecimal(-m) == "-" + NatToDecimal(-n);
      assert s[1..] == NatToDecimal(-m) && s[1..] == NatToDecimal(-n);
      NatToDecimalValue(-m);
      NatToDecimalValue(-n);
    } else {
      assert n >= 0;
      NatToDecimalValue(m);
      NatToDecimalValue(n);
    }
  }

  /** Lowercase hexadecimal digit of a nibble. */
  function HexDigit(d: nat): (c: char)
    requires d < 16
    ensures IsLowerHexDigit(c)
    ensures IsHexDigit(c) && HexValue(c) == d
  {
    if d < 10 then ('0' as int + d) as char else ('a' as int + d - 10) as char
  }

  predicate IsLowerHexDigit(c: char) {
    '0' <= c <= '9' || 'a' <= c <= 'f'
  }

  /** A hexadecimal digit in either case. */
  predicate IsHexDigit(c: char) {
    '0' <= c <= '9' || 'a' <= c <= 'f' || 'A' <= c <= 'F'
  }

  function HexValue(c: char): (d: nat)
    requires IsHexDigit(c)
    ensures d < 16
  {
    if '0' <= c <= '9' then c as int - '0' as int
    else if 'a' <= c <= 'f' then c as int - 'a' as int + 10
    else c as int - 'A' as int + 10
  }

  /** ASCII-only lower-casing of one character; every other character is kept. */
  function LowerChar(c: char): char {
    if 'A' <= c <= 'Z' then (c as int + 32) as char else c
  }

  /** ASCII-only lower-casing of a string, character by character. */
  function AsciiLower(s: string): (r: string)
    ensures |r| == |s|
    ensures forall i :: 0 <= i < |s| ==> r[i] == LowerChar(s[i])
  {
    if s == [] then [] else [LowerChar(s[0])] + AsciiLower(s[1..])
  }

  /** `sub` occurs in `s` as a contiguous run (JavaScript `s.includes(sub)`). */
  predicate Contains(s: string, sub: string) {
    exists i :: 0 <= i <= |s| && sub <= s[i..]
  }

  /** Number of leading characters of `s` that satisfy `ws`. */
  function StripStart(s: string, ws: char -> bool): (k: nat)
    ensures k <= |s|
    ensures forall i :: 0 <= i < k ==> ws(s[i])
    ensures k < |s| ==> !ws(s[k])
  {
    if s == [] || !ws(s[0]) then 0 else 1 + StripStart(s[1..], ws)
  }

  /** Length of `s` once its trailing characters that satisfy `ws` are dropped. */
  function StripEnd(s: string, ws: char -> bool): (k: nat)
    ensures k <= |s|
    ensures forall i :: k <= i < |s| ==> ws(s[i])
    ensures k > 0 ==> !ws(s[k - 1])
  {
    if s == [] || !ws(s[|s| - 1]) then |s| else StripEnd(s[..|s| - 1], ws)
  }

  /**
   * `s` without its leading and trailing characters that satisfy `ws`: what is
   * removed on either side is all "whitespace", and what is kept begins and ends
   * with a character that is not.
   */
  function Strip(s: string, ws: char -> bool): (r: string)
    ensures var a := StripStart(s, ws);
            && a + |r| <= |s| && r == s[a..a + |r|]
            && (forall i :: 0 <= i < a ==> ws(s[i]))
            && (forall i :: a + |r| <= i < |s| ==> ws(s[i]))
    ensures r == [] <==> forall i :: 0 <= i < |s| ==> ws(s[i])
    ensures r != [] ==> !ws(r[0]) && !ws(r[|r| - 1])
  {
    var a := StripStart(s, ws);
    var e := StripEnd(s[a..], ws);
    StripParts(s, ws, a, e);
    s[a..a + e]
  }

  /** The facts `Strip` promises, from those of its two scans. */
  lemma StripParts(s: string, ws: char -> bool, a: nat, e: nat)
    requires a == StripStart(s, ws) && e == StripEnd(s[a..], ws)
    ensures a + e <= |s|
    ensures forall i :: a + e <= i < |s| ==> ws(s[i])
    ensures e == 0 <==> forall i :: 0 <= i < |s| ==> ws(s[i])
    ensures e > 0 ==> !ws(s[a]) && !ws(s[a + e - 1])
  {
    var t := s[a..];
    forall i | a + e <= i < |s|
      ensures ws(s[i])
    {
      assert s[i] == t[i - a];
    }
    if e > 0 {
      assert s[a + e - 1] == t[e - 1];
    }
  }
}
