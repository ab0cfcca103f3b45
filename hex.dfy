/**
  Lowercase hexadecimal rendering of an unsigned value, as printed by the
  %x conversion of ISO C11 section 7.21.6.1 (no precision, so no leading
  zeros and a single "0" for zero) and by QString::number(n, 16).
 */
module Hex {

  predicate IsHexDigit(c: char) {
    '0' <= c <= '9' || 'a' <= c <= 'f'
  }

  /** The lowercase digit character of a value below 16. */
  function DigitChar(d: nat): (c: char)
    requires d < 16
    ensures IsHexDigit(c)
  {
    if d < 10 then ('0' as int + d) as char else ('a' as int + d - 10) as char
  }

  /** The value of a hexadecimal digit character. */
  function DigitValue(c: char): (d: nat)
    requires IsHexDigit(c)
    ensures d < 16 && DigitChar(d) == c
  {
    if c <= '9' then c as int - '0' as int else c as int - 'a' as int + 10
  }

  /** The lowercase hexadecimal digits of n, most significant first. */
  function LowerHex(n: nat): (s: string)
    ensures 1 <= |s|
    ensures forall i :: 0 <= i < |s| ==> IsHexDigit(s[i])
    ensures s[0] == '0' <==> n == 0
    ensures ' ' !in s && ',' !in s
  {
    if n < 16 then [DigitChar(n)] else LowerHex(n / 16) + [DigitChar(n % 16)]
  }

  /** The value of a string of hexadecimal digits (0 for the empty string). */
  function HexValue(s: string): nat
    requires forall i :: 0 <= i < |s| ==> IsHexDigit(s[i])
  {
    if s == [] then 0 else HexValue(s[..|s| - 1]) * 16 + DigitValue(s[|s| - 1])
  }

  /** Reading back the printed digits gives the value that was printed. */
  lemma {:induction false} HexValueOfLowerHex(n: nat)
    ensures HexValue(LowerHex(n)) == n
  {
    if n >= 16 {
      var s := LowerHex(n);
      assert s[..|s| - 1] == LowerHex(n / 16);
      HexValueOfLowerHex(n / 16);
    }
  }

  /** Printing is injective: two values print alike only if they are equal. */
  lemma LowerHexInjective(m: nat, n: nat)
    requires LowerHex(m) == LowerHex(n)
    ensures m == n
  {
    HexValueOfLowerHex(m);
    HexValueOfLowerHex(n);
  }

  function Pow16(k: nat): nat {
    if k == 0 then 1 else 16 * Pow16(k - 1)
  }

  /** A value below 16^k prints in at most k digits. */
  lemma {:induction false} LowerHexLength(n: nat, k: nat)
    requires 1 <= k && n < Pow16(k)
    ensures |LowerHex(n)| <= k
  {
    if n >= 16 {
      LowerHexLength(n / 16, k - 1);
    }
  }

  /** A 32-bit unsigned value prints in at most 8 digits. */
  lemma LowerHexLength32(n: nat)
    requires n < 0x1_0000_0000
    ensures |LowerHex(n)| <= 8
  {
    assert Pow16(8) == 0x1_0000_0000;
    LowerHexLength(n, 8);
  }
}
