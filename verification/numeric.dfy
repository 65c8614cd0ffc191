/**
 * Fixed-width unsigned integers, the `as u16` narrowing cast, and Rust's
 * `str::parse::<u16>` together with the decimal rendering it inverts.
 */
module Numeric {
  import opened Wrappers
  import opened Sequences

  type uint8 = x: int | 0 <= x < 0x100
  type uint16 = x: int | 0 <= x < 0x1_0000
  type uint64 = x: int | 0 <= x < 0x1_0000_0000_0000_0000

  /** Rust's `x as u16` on an unsigned integer keeps the low 16 bits. */
  function AsU16(x: uint64): (r: uint16)
    ensures x < 0x1_0000 ==> r == x
  {
    x % 0x1_0000
  }

  predicate IsDigit(c: char) {
    '0' <= c <= '9'
  }

  predicate AllDigits(s: string) {
    forall i :: 0 <= i < |s| ==> IsDigit(s[i])
  }

  function DigitValue(c: char): nat
    requires IsDigit(c)
  {
    (c as int) - ('0' as int)
  }

  function DigitChar(d: nat): (c: char)
    requires d < 10
    ensures IsDigit(c) && DigitValue(c) == d
  {
    (('0' as int) + d) as char
  }

  /** The number a string of decimal digits denotes, most significant digit first. */
  function DigitsValue(s: string): nat
    requires AllDigits(s)
    decreases |s|
  {
    if |s| == 0 then 0 else 10 * DigitsValue(s[..|s| - 1]) + DigitValue(s[|s| - 1])
  }

  /** The canonical decimal rendering of `n`: no sign, no leading zeros. */
  function DecimalString(n: nat): (s: string)
    ensures 0 < |s| && AllDigits(s)
    ensures s[0] == '0' <==> n == 0
    decreases n
  {
    if n < 10 then [DigitChar(n)] else DecimalString(n / 10) + [DigitChar(n % 10)]
  }

  /** The digits Rust's `from_str_radix` inspects: one leading `+` is dropped. */
  function UnsignedDigits(s: string): string {
    if 0 < |s| && s[0] == '+' then s[1..] else s
  }

  /**
   * `s.parse::<u16>().ok()`: an optional `+`, then at least one decimal digit,
   * and the value must fit in 16 bits. There is no `-` for an unsigned type,
   * no surrounding whitespace and no other radix.
   */
  function ParseU16(s: string): (r: Option<uint16>)
    ensures |s| == 0 ==> r.None?
    ensures s == "+" ==> r.None?
    ensures 0 < |s| && s[0] == '-' ==> r.None?
    ensures r.Some? ==> AllDigits(UnsignedDigits(s)) && 0 < |UnsignedDigits(s)|
  {
    var digits := UnsignedDigits(s);
    if |digits| == 0 || !AllDigits(digits) then None
    else if DigitsValue(digits) < 0x1_0000 then Some(DigitsValue(digits))
    else None
  }

  lemma {:induction false} DecimalStringValue(n: nat)
    ensures DigitsValue(DecimalString(n)) == n
    decreases n
  {
    if n >= 10 {
      var s := DecimalString(n);
      assert s[..|s| - 1] == DecimalString(n / 10);
      DecimalStringValue(n / 10);
    }
  }

  lemma {:induction false} LeadingNonZeroPositive(t: string)
    requires 0 < |t| && AllDigits(t) && t[0] != '0'
    ensures DigitsValue(t) > 0
    decreases |t|
  {
    if |t| > 1 {
      LeadingNonZeroPositive(t[..|t| - 1]);
    }
  }

  lemma {:induction false} CanonicalDigits(t: string)
    requires 0 < |t| && AllDigits(t) && t[0] != '0'
    ensures DecimalString(DigitsValue(t)) == t
    decreases |t|
  {
    var n := DigitsValue(t);
    var c := t[|t| - 1];
    if |t| == 1 {
      assert t[..|t| - 1] == [];
      assert DigitsValue(t[..|t| - 1]) == 0;
      assert n == DigitValue(c);
      assert DigitChar(n) == c;
    } else {
      var init := t[..|t| - 1];
      LeadingNonZeroPositive(init);
      CanonicalDigits(init);
      assert n / 10 == DigitsValue(init);
      assert n % 10 == DigitValue(c);
      assert DigitChar(n % 10) == c;
      assert t == init + [c];
    }
  }

  /** Leading zeros, which `parse::<u16>` accepts and ignores. */
  predicate IsZeroPadding(z: string) {
    forall i :: 0 <= i < |z| ==> z[i] == '0'
  }

  lemma {:induction false} ZerosValue(z: string)
    requires IsZeroPadding(z)
    ensures AllDigits(z) && DigitsValue(z) == 0
    decreases |z|
  {
    if |z| > 0 {
      ZerosValue(z[..|z| - 1]);
    }
  }

  lemma {:induction false} LeadingZerosIgnored(z: string, t: string)
    requires IsZeroPadding(z)
    requires AllDigits(t)
    ensures AllDigits(z + t) && DigitsValue(z + t) == DigitsValue(t)
    decreases |t|
  {
    if |t| == 0 {
      assert z + t == z;
      ZerosValue(z);
    } else {
      var init := t[..|t| - 1];
      LeadingZerosIgnored(z, init);
      assert (z + t)[..|z + t| - 1] == z + init;
    }
  }

  /**
   * Formatting a port and parsing it back gives the port, whatever zeros
   * are put in front and with or without a leading `+`.
   */
  lemma FormatThenParse(z: string, n: uint16)
    requires IsZeroPadding(z)
    ensures ParseU16(z + DecimalString(n)) == Some(n)
    ensures ParseU16("+" + z + DecimalString(n)) == Some(n)
  {
    var d := DecimalString(n);
    DecimalStringValue(n);
    LeadingZerosIgnored(z, d);
    assert (z + d)[0] != '+';
    assert UnsignedDigits("+" + z + d) == z + d;
  }

  /** A digit string is some zeros followed by the canonical rendering of its value. */
  lemma {:induction false} ZerosThenCanonical(digits: string)
    requires 0 < |digits| && AllDigits(digits)
    ensures exists z :: IsZeroPadding(z) && digits == z + DecimalString(DigitsValue(digits))
    decreases |digits|
  {
    if digits[0] != '0' {
      CanonicalDigits(digits);
      assert digits == [] + DecimalString(DigitsValue(digits));
    } else if |digits| == 1 {
      assert digits[..0] == [];
      assert DigitsValue(digits) == 0;
      assert digits == [] + DecimalString(0);
    } else {
      var rest := digits[1..];
      ZerosThenCanonical(rest);
      var z :| IsZeroPadding(z) && rest == z + DecimalString(DigitsValue(rest));
      OneMoreZero(digits, z);
    }
  }

  /** Helper: the step of `ZerosThenCanonical` that prepends one more zero. */
  lemma OneMoreZero(digits: string, z: string)
    requires 1 < |digits| && AllDigits(digits) && digits[0] == '0'
    requires IsZeroPadding(z) && digits[1..] == z + DecimalString(DigitsValue(digits[1..]))
    ensures IsZeroPadding(digits[..1] + z)
    ensures digits == (digits[..1] + z) + DecimalString(DigitsValue(digits))
  {
    var zero, rest := digits[..1], digits[1..];
    assert IsZeroPadding(zero);
    assert digits == zero + rest;
    LeadingZerosIgnored(zero, rest);
    var d := DecimalString(DigitsValue(rest));
    assert DecimalString(DigitsValue(digits)) == d;
    ConcatAssociative(zero, z, d);
    PaddingConcat(zero, z);
  }

  /** Helper: zero paddings concatenate, stated separately to keep callers within the resource limit. */
  lemma PaddingConcat(a: string, b: string)
    requires IsZeroPadding(a) && IsZeroPadding(b)
    ensures IsZeroPadding(a + b)
  {
  }


  /**
   * Whatever string `parse::<u16>` accepts is the canonical rendering of the
   * value, preceded only by zeros and at most one leading `+`.
   */
  lemma ParseThenFormat(s: string, n: uint16)
    requires ParseU16(s) == Some(n)
    ensures exists sign, z :: (sign == "" || sign == "+") && IsZeroPadding(z)
                              && s == sign + z + DecimalString(n)
  {
    var digits := UnsignedDigits(s);
    assert AllDigits(digits) && 0 < |digits| && DigitsValue(digits) == n;
    var sign := if 0 < |s| && s[0] == '+' then "+" else "";
    assert s == sign + digits;
    ZerosThenCanonical(digits);
    var z :| IsZeroPadding(z) && digits == z + DecimalString(n);
    assert s == sign + z + DecimalString(n);
  }
}
