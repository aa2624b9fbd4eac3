/** Hex digits and the strict `#RRGGBB` colour test shared by the design codec
    and the page's palette parameter. */
module HexColor {

  predicate IsHexDigit(c: char)
  {
    '0' <= c <= '9' || 'a' <= c <= 'f' || 'A' <= c <= 'F'
  }

  predicate AllHexDigits(s: string)
  {
    forall i :: 0 <= i < |s| ==> IsHexDigit(s[i])
  }

  function DigitValue(c: char): (v: nat)
    requires IsHexDigit(c)
    ensures v < 16
  {
    if '0' <= c <= '9' then c as int - '0' as int
    else if 'a' <= c <= 'f' then c as int - 'a' as int + 10
    else c as int - 'A' as int + 10
  }

  /** The lower-case digit `toString(16)` prints for a value below 16. */
  function HexChar(v: nat): (c: char)
    requires v < 16
    ensures IsHexDigit(c) && DigitValue(c) == v && !('A' <= c <= 'F')
  {
    if v < 10 then ('0' as int + v) as char else ('a' as int + v - 10) as char
  }

  /** `/^#[0-9a-fA-F]{6}$/.test(s)`: a hash and exactly six hex digits, either case. */
  predicate IsHex(s: string)
  {
    |s| == 7 && s[0] == '#' && AllHexDigits(s[1..])
  }

  /** The three-digit short form is not accepted. */
  lemma ShortFormRejected(s: string)
    requires |s| == 4
    ensures !IsHex(s)
  {
  }
}
