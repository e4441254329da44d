/**
 The numerals of the fact text: sixteen hexadecimal digits for identifiers, decimal for coordinates, and
 the integer parsers that read them back (`u64::from_str_radix`, `u32::from_str`), which also accept a
 leading plus sign.
 */
module Numerals {
  import opened Wrappers
  import opened Lexicon

  const PLUS: byte := 43

  function Digit(d: nat): byte
    requires d < 16
  {
    if d < 10 then 48 + d else 87 + d
  }

  /** The value of a digit, of either case, below the radix. */
  function DigitValue(radix: nat, b: byte): Option<nat> {
    var v := if 48 <= b <= 57 then b - 48 else if 97 <= b <= 122 then b - 87 else if 65 <= b <= 90 then b - 55 else 36;
    if v < radix then Some(v) else None
  }

  /** The hexadecimal digits of a number below 16 to the power `width`, most significant first. */
  function Hex(n: nat, width: nat): (r: Text)
    ensures |r| == width
  {
    if width == 0 then [] else Hex(n / 16, width - 1) + [Digit(n % 16)]
  }

  /** `to_string` of a number. */
  function Decimal(n: nat): (r: Text)
    ensures r != []
  {
    if n < 10 then [Digit(n)] else Decimal(n / 10) + [Digit(n % 10)]
  }

  function Value(radix: nat, digits: Text): Option<nat> {
    if digits == [] then Some(0)
    else
      match (Value(radix, digits[..|digits| - 1]), DigitValue(radix, digits[|digits| - 1]))
      case (Some(high), Some(low)) => Some(high * radix + low)
      case _ => None
  }

  /** `from_str_radix` for an unsigned type with the given limit. */
  function ParseUnsigned(radix: nat, text: Text, limit: nat): Option<nat> {
    var digits := if text != [] && text[0] == PLUS then text[1..] else text;
    if digits == [] then None
    else
      match Value(radix, digits)
      case Some(n) => if n < limit then Some(n) else None
      case None => None
  }

  function Power16(exponent: nat): nat {
    if exponent == 0 then 1 else 16 * Power16(exponent - 1)
  }

  lemma DigitRoundTrip(radix: nat, d: nat)
    requires 2 <= radix <= 16 && d < radix
    ensures DigitValue(radix, Digit(d)) == Some(d) && Digit(d) != PLUS
  {
  }

  lemma {:induction false} HexValue(n: nat, width: nat)
    requires n < Power16(width)
    ensures Value(16, Hex(n, width)) == Some(n)
    ensures PLUS !in Hex(n, width)
  {
    if width > 0 {
      HexValue(n / 16, width - 1);
      DigitRoundTrip(16, n % 16);
      var high := Hex(n / 16, width - 1);
      assert (high + [Digit(n % 16)])[..|high|] == high;
    }
  }

  lemma {:induction false} DecimalValue(n: nat)
    ensures Value(10, Decimal(n)) == Some(n)
    ensures PLUS !in Decimal(n)
  {
    DigitRoundTrip(10, n % 10);
    if n < 10 {
      assert Decimal(n)[..0] == [];
    } else {
      DecimalValue(n / 10);
      var high := Decimal(n / 10);
      assert (high + [Digit(n % 10)])[..|high|] == high;
    }
  }

  /** Every u64 is read back from its sixteen hexadecimal digits. */
  lemma HexRoundTrip(n: u64)
    ensures ParseUnsigned(16, Hex(n, 16), 0x1_0000_0000_0000_0000) == Some(n)
  {
    assert Power16(4) == 0x1_0000;
    assert Power16(8) == 0x1_0000_0000 by { assert Power16(6) == 0x100_0000; }
    assert Power16(12) == 0x1_0000_0000_0000 by { assert Power16(10) == 0x100_0000_0000; }
    assert Power16(16) == 0x1_0000_0000_0000_0000 by { assert Power16(14) == 0x100_0000_0000_0000; }
    HexValue(n, 16);
  }

  /** Every number below the limit is read back from its decimal text. */
  lemma DecimalRoundTrip(n: nat, limit: nat)
    requires n < limit
    ensures ParseUnsigned(10, Decimal(n), limit) == Some(n)
  {
    DecimalValue(n);
  }
}
