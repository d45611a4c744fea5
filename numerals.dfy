/**
 * Numerals in the radio dialogue: hexadecimal digits as `isxdigit` accepts
 * them and `strtoul(..., 16)` reads them, the fixed-width hexadecimal
 * rendering a status register is reported in, and the decimal rendering
 * `%lu` produces for the uplink payload.
 */
module Numerals {

  /** isxdigit: 0-9, a-f, A-F */
  predicate IsHexDigit(c: char)
  {
    '0' <= c <= '9' || 'a' <= c <= 'f' || 'A' <= c <= 'F'
  }

  predicate AllHex(s: string)
  {
    forall i :: 0 <= i < |s| ==> IsHexDigit(s[i])
  }

  function DigitValue(c: char): (v: nat)
    requires IsHexDigit(c)
    ensures v < 16
    ensures '0' <= c <= '9' ==> v < 10
  {
    if '0' <= c <= '9' then c as nat - '0' as nat
    else if 'a' <= c <= 'f' then c as nat - 'a' as nat + 10
    else c as nat - 'A' as nat + 10
  }

  /** strtoul(s, NULL, 16) on a string made of hex digits only. */
  function ParseHex(s: string): nat
    requires AllHex(s)
    decreases |s|
  {
    if s == [] then 0 else ParseHex(s[..|s| - 1]) * 16 + DigitValue(s[|s| - 1])
  }

  function Pow16(n: nat): (r: nat)
    ensures r >= 1
  {
    if n == 0 then 1 else 16 * Pow16(n - 1)
  }

  /** n hex digits read as a number below 16^n. */
  lemma {:induction false} ParseHexBound(s: string)
    requires AllHex(s)
    ensures ParseHex(s) < Pow16(|s|)
    decreases |s|
  {
    if s != [] {
      var init := s[..|s| - 1];
      ParseHexBound(init);
      assert ParseHex(init) + 1 <= Pow16(|init|);
      assert ParseHex(init) * 16 + 16 <= Pow16(|init|) * 16;
    }
  }

  /** The upper-case digit for d. */
  function HexChar(d: nat): (c: char)
    requires d < 16
    ensures IsHexDigit(c) && DigitValue(c) == d
  {
    if d < 10 then ('0' as int + d) as char else ('A' as int + d - 10) as char
  }

  /** The low `width` hex digits of v, most significant first, zero-padded. */
  function ToHex(v: nat, width: nat): (r: string)
    ensures |r| == width && AllHex(r)
  {
    if width == 0 then [] else ToHex(v / 16, width - 1) + [HexChar(v % 16)]
  }

  /** Reading back a wide-enough rendering gives the number. */
  lemma {:induction false} HexRoundTrip(v: nat, width: nat)
    requires v < Pow16(width)
    ensures ParseHex(ToHex(v, width)) == v
  {
    if width > 0 {
      var s := ToHex(v, width);
      assert s[..|s| - 1] == ToHex(v / 16, width - 1);
      assert s[|s| - 1] == HexChar(v % 16);
      HexRoundTrip(v / 16, width - 1);
    }
  }

  predicate IsDecimalDigit(c: char)
  {
    '0' <= c <= '9'
  }

  predicate AllDecimal(s: string)
  {
    forall i :: 0 <= i < |s| ==> IsDecimalDigit(s[i])
  }

  /** `%lu`: decimal digits, most significant first, no leading zero. */
  function Decimal(n: nat): (r: string)
    ensures |r| >= 1 && AllDecimal(r)
    ensures r[0] == '0' ==> n == 0
  {
    if n < 10 then [('0' as int + n) as char]
    else Decimal(n / 10) + [('0' as int + n % 10) as char]
  }

  function ParseDecimal(s: string): nat
    requires AllDecimal(s)
    decreases |s|
  {
    if s == [] then 0 else ParseDecimal(s[..|s| - 1]) * 10 + (s[|s| - 1] as nat - '0' as nat)
  }

  /** The decimal rendering reads back as the number it renders. */
  lemma {:induction false} DecimalRoundTrip(n: nat)
    ensures ParseDecimal(Decimal(n)) == n
  {
    var s := Decimal(n);
    if n >= 10 {
      assert s[..|s| - 1] == Decimal(n / 10);
      DecimalRoundTrip(n / 10);
    } else {
      assert s[..0] == [];
    }
  }

  function Pow10(k: nat): (r: nat)
    ensures r >= 1
  {
    if k == 0 then 1 else 10 * Pow10(k - 1)
  }

  /** A number below 10^k renders in at most k digits. */
  lemma {:induction false} DecimalLength(n: nat, k: nat)
    requires 1 <= k && n < Pow10(k)
    ensures |Decimal(n)| <= k
  {
    if n >= 10 {
      assert Pow10(1) == 10;
      DecimalLength(n / 10, k - 1);
    }
  }
}
