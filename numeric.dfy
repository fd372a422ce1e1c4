/**
  Fixed-width integers of the Rust source and the digit strings the source prints and parses:
  `{:016x}` hexadecimal, `{}` decimal, `u64::from_str_radix(_, 16)` and `str::parse::<u64>`.
*/
module Numeric {

  type u8 = x: int | 0 <= x < 0x100
  type u32 = x: int | 0 <= x < 0x1_0000_0000
  type u64 = x: int | 0 <= x < 0x1_0000_0000_0000_0000

  const U32_LIMIT: nat := 0x1_0000_0000
  const U64_LIMIT: nat := 0x1_0000_0000_0000_0000

  /** Rust's `as u32` on a `u64`: keeps the low 32 bits. */
  function TruncateU32(x: u64): (r: u32)
    ensures r < U32_LIMIT
    ensures x < U32_LIMIT ==> r == x
  {
    x % U32_LIMIT
  }

  // ---------------------------------------------------------------- digits

  predicate IsDecDigit(c: char) { '0' <= c <= '9' }

  predicate IsHexDigit(c: char) { '0' <= c <= '9' || 'a' <= c <= 'f' || 'A' <= c <= 'F' }

  predicate IsLowerHexDigit(c: char) { '0' <= c <= '9' || 'a' <= c <= 'f' }

  predicate AllDec(s: string) { forall i :: 0 <= i < |s| ==> IsDecDigit(s[i]) }

  predicate AllHex(s: string) { forall i :: 0 <= i < |s| ==> IsHexDigit(s[i]) }

  predicate AllLowerHex(s: string) { forall i :: 0 <= i < |s| ==> IsLowerHexDigit(s[i]) }

  function HexDigitValue(c: char): (v: nat)
    requires IsHexDigit(c)
    ensures v < 16
    ensures IsDecDigit(c) ==> v < 10
  {
    if '0' <= c <= '9' then c as int - '0' as int
    else if 'a' <= c <= 'f' then c as int - 'a' as int + 10
    else c as int - 'A' as int + 10
  }

  /** The digit `{:x}` prints for a value below 16 (lower case). */
  function LowerHexDigit(d: nat): (c: char)
    requires d < 16
    ensures IsLowerHexDigit(c) && IsHexDigit(c) && HexDigitValue(c) == d
    ensures d < 10 <==> IsDecDigit(c)
  {
    if d < 10 then ('0' as int + d) as char else ('a' as int + d - 10) as char
  }

  function Pow16(n: nat): (r: nat)
    ensures r >= 1
  {
    if n == 0 then 1 else 16 * Pow16(n - 1)
  }

  /** Value of a string of hexadecimal digits, most significant first. */
  function HexValue(s: string): nat
    requires AllHex(s)
  {
    if s == [] then 0 else HexValue(s[..|s| - 1]) * 16 + HexDigitValue(s[|s| - 1])
  }

  /** Value of a string of decimal digits, most significant first (leading zeros allowed). */
  function DecValue(s: string): nat
    requires AllDec(s)
  {
    if s == [] then 0 else DecValue(s[..|s| - 1]) * 10 + HexDigitValue(s[|s| - 1])
  }

  // ---------------------------------------------------------------- rendering

  /** `{:0wx}`: the low `width` hexadecimal digits of `x`, zero padded. */
  function HexPadded(x: nat, width: nat): (r: string)
    ensures |r| == width && AllLowerHex(r) && AllHex(r)
  {
    if width == 0 then [] else HexPadded(x / 16, width - 1) + [LowerHexDigit(x % 16)]
  }

  lemma {:induction false} HexPaddedRoundTrip(x: nat, width: nat)
    requires x < Pow16(width)
    ensures HexValue(HexPadded(x, width)) == x
  {
    if width > 0 {
      var h := HexPadded(x / 16, width - 1);
      assert x / 16 < Pow16(width - 1);
      HexPaddedRoundTrip(x / 16, width - 1);
      assert (h + [LowerHexDigit(x % 16)])[..width - 1] == h;
    }
  }

  /** `{:016x}` of a u64: always exactly sixteen digits. */
  function Hex16(x: u64): (r: string)
    ensures |r| == 16 && AllLowerHex(r) && AllHex(r)
  {
    HexPadded(x, 16)
  }

  lemma Pow16Is2To64()
    ensures Pow16(16) == U64_LIMIT
  {
    assert Pow16(4) == 0x1_0000;
    assert Pow16(8) == 0x1_0000_0000;
    assert Pow16(12) == 0x1_0000_0000_0000;
  }

  /** The sixteen digits printed for any u64 read back as that u64. */
  lemma Hex16RoundTrip(x: u64)
    ensures HexValue(Hex16(x)) == x
  {
    Pow16Is2To64();
    HexPaddedRoundTrip(x, 16);
  }

  /** Two values print the same sixteen digits only if they are equal. */
  lemma Hex16Injective(x: u64, y: u64)
    requires Hex16(x) == Hex16(y)
    ensures x == y
  {
    Hex16RoundTrip(x);
    Hex16RoundTrip(y);
  }

  /** `{}` of an unsigned integer: shortest decimal form, no leading zero. */
  function Decimal(n: nat): (r: string)
    ensures |r| > 0 && AllDec(r) && AllHex(r)
    ensures r[0] == '0' <==> n == 0
    ensures n == 0 ==> r == "0"
  {
    if n < 10 then [LowerHexDigit(n)] else Decimal(n / 10) + [LowerHexDigit(n % 10)]
  }

  lemma {:induction false} DecimalRoundTrip(n: nat)
    ensures DecValue(Decimal(n)) == n
  {
    if n >= 10 {
      var d := Decimal(n / 10);
      DecimalRoundTrip(n / 10);
      assert (d + [LowerHexDigit(n % 10)])[..|d|] == d;
    }
  }

  /** `{}` of a bool. */
  function BoolString(b: bool): string
  {
    if b then "true" else "false"
  }
}
