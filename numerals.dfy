/**
 * Number formatting and parsing used around the event log: Go's `%06x`
 * verb (the size field of a KERI version string), decimal numerals (Python's
 * `str(int)`) and Go's `strconv.Atoi`.
 */
module Numerals {
  import opened Common

  function Pow16(k: nat): nat
  {
    if k == 0 then 1 else 16 * Pow16(k - 1)
  }

  /** A lower-case hexadecimal digit. */
  function HexDigit(d: nat): char
    requires d < 16
  {
    if d < 10 then ('0' as int + d) as char else ('a' as int + (d - 10)) as char
  }

  /** The value of a lower-case hexadecimal digit, None for any other character. */
  function HexDigitValue(c: char): (r: Option<nat>)
    ensures r.Some? ==> r.value < 16
  {
    if '0' <= c <= '9' then Some(c as int - '0' as int)
    else if 'a' <= c <= 'f' then Some(c as int - 'a' as int + 10)
    else None
  }

  /** The shortest lower-case hexadecimal numeral of `n` (Go's `%x`). */
  function LowerHex(n: nat): (s: string)
    ensures |s| >= 1
    decreases n
  {
    if n < 16 then [HexDigit(n)] else LowerHex(n / 16) + [HexDigit(n % 16)]
  }

  /** `h` preceded by as many '0' as make it `width` long; longer numerals are kept whole. */
  function ZeroPad(h: string, width: nat): (s: string)
    ensures |s| == if |h| < width then width else |h|
    ensures s[|s| - |h|..] == h
  {
    if |h| < width then seq(width - |h|, _ => '0') + h else h
  }

  /** Go's `fmt.Sprintf("%06x", n)`. */
  function Hex06(n: nat): (r: string)
    ensures |r| >= 6 && |r| >= |LowerHex(n)| && r[|r| - |LowerHex(n)|..] == LowerHex(n)
  {
    ZeroPad(LowerHex(n), 6)
  }

  /** The value of a run of lower-case hexadecimal digits; the empty run reads as zero. */
  function HexValue(s: string): (r: Option<nat>)
    decreases |s|
  {
    if s == [] then Some(0)
    else
      match (HexValue(s[..|s| - 1]), HexDigitValue(s[|s| - 1]))
      case (Some(v), Some(d)) => Some(16 * v + d)
      case _ => None
  }

  /** The shortest numeral has at most `k` digits exactly when `n` is below 16^k. */
  lemma {:induction false} LowerHexWidth(n: nat, k: nat)
    requires k >= 1
    ensures |LowerHex(n)| <= k <==> n < Pow16(k)
    decreases n
  {
    if n >= 16 {
      if k == 1 {
        assert |LowerHex(n)| >= 2;
        assert Pow16(1) == 16;
      } else {
        LowerHexWidth(n / 16, k - 1);
      }
    } else {
      PowAtLeast16(k);
    }
  }

  lemma {:induction false} PowAtLeast16(k: nat)
    requires k >= 1
    ensures Pow16(k) >= 16
  {
    if k > 1 {
      PowAtLeast16(k - 1);
    }
  }

  lemma {:induction false} HexValueLowerHex(n: nat)
    ensures HexValue(LowerHex(n)) == Some(n)
    decreases n
  {
    var s := LowerHex(n);
    if n >= 16 {
      HexValueLowerHex(n / 16);
      assert s[..|s| - 1] == LowerHex(n / 16);
    }
  }

  /** Leading zeros do not change the value. */
  lemma {:induction false} HexValueZeros(z: nat, s: string)
    ensures HexValue(seq(z, _ => '0') + s) == HexValue(s)
    decreases |s|
  {
    var t := seq(z, _ => '0') + s;
    if s == [] {
      assert t == seq(z, _ => '0');
      AllZerosValue(z);
    } else {
      assert t[..|t| - 1] == seq(z, _ => '0') + s[..|s| - 1];
      HexValueZeros(z, s[..|s| - 1]);
    }
  }

  lemma {:induction false} AllZerosValue(z: nat)
    ensures HexValue(seq(z, _ => '0')) == Some(0)
  {
    if z > 0 {
      var t := seq(z, _ => '0');
      assert t[..|t| - 1] == seq(z - 1, _ => '0');
      AllZerosValue(z - 1);
    }
  }

  /**
   * Below 2^24 the `%06x` numeral is exactly six digits and reads back as
   * `n`; from 2^24 on it is longer than six.
   */
  lemma Hex06Exact(n: nat)
    ensures n < 0x100_0000 ==> |Hex06(n)| == 6 && HexValue(Hex06(n)) == Some(n)
    ensures n >= 0x100_0000 ==> |Hex06(n)| > 6
  {
    LowerHexWidth(n, 6);
    assert Pow16(6) == 0x100_0000;
    HexValueLowerHex(n);
    var h := LowerHex(n);
    if |h| < 6 {
      HexValueZeros(6 - |h|, h);
    }
  }

  /** Every character of a `%06x` numeral is a hexadecimal digit. */
  lemma Hex06Digits(n: nat)
    ensures forall i :: 0 <= i < |Hex06(n)| ==> HexDigitValue(Hex06(n)[i]).Some?
  {
    LowerHexDigits(n);
  }

  lemma {:induction false} LowerHexDigits(n: nat)
    ensures forall i :: 0 <= i < |LowerHex(n)| ==> HexDigitValue(LowerHex(n)[i]).Some?
    decreases n
  {
    if n >= 16 {
      LowerHexDigits(n / 16);
    }
  }

  // Decimal numerals

  function DecimalDigit(d: nat): char
    requires d < 10
  {
    ('0' as int + d) as char
  }

  predicate IsDigit(c: char)
  {
    '0' <= c <= '9'
  }

  /** The shortest decimal numeral of `n`. */
  function DecimalDigits(n: nat): (s: string)
    ensures |s| >= 1 && forall i :: 0 <= i < |s| ==> IsDigit(s[i])
    decreases n
  {
    if n < 10 then [DecimalDigit(n)] else DecimalDigits(n / 10) + [DecimalDigit(n % 10)]
  }

  /** Python's `str(i)` and Go's `strconv.Itoa(i)`. */
  function Decimal(i: int): string
  {
    if i < 0 then "-" + DecimalDigits(-i) else DecimalDigits(i)
  }

  /** The value of a non-empty run of decimal digits. */
  function DigitsValue(s: string): (r: Option<nat>)
    ensures r.Some? <==> |s| >= 1 && forall i :: 0 <= i < |s| ==> IsDigit(s[i])
    decreases |s|
  {
    if s == [] then None
    else if !IsDigit(s[|s| - 1]) then None
    else if |s| == 1 then Some(s[0] as int - '0' as int)
    else
      match DigitsValue(s[..|s| - 1])
      case None => None
      case Some(v) => Some(10 * v + (s[|s| - 1] as int - '0' as int))
  }

  const MinInt64: int := -0x8000_0000_0000_0000
  const MaxInt64: int := 0x7fff_ffff_ffff_ffff

  /** `s` without a leading sign. */
  function Unsigned(s: string): string
  {
    if |s| >= 1 && (s[0] == '-' || s[0] == '+') then s[1..] else s
  }

  /**
   * Go's `strconv.Atoi` on a 64-bit platform: an optional '+' or '-', then
   * one or more decimal digits, with the value inside the int64 range.
   */
  function Atoi(s: string): (r: Option<int>)
    ensures r.Some? ==> MinInt64 <= r.value <= MaxInt64
  {
    match DigitsValue(Unsigned(s))
    case None => None
    case Some(v) =>
      var i: int := if |s| >= 1 && s[0] == '-' then -(v as int) else v as int;
      if MinInt64 <= i <= MaxInt64 then Some(i) else None
  }

  lemma {:induction false} DigitsValueOfDecimal(n: nat)
    ensures DigitsValue(DecimalDigits(n)) == Some(n)
    decreases n
  {
    var s := DecimalDigits(n);
    if n >= 10 {
      DigitsValueOfDecimal(n / 10);
      assert s[..|s| - 1] == DecimalDigits(n / 10);
    }
  }

  /** `strconv.Atoi` reads back every int64 written in decimal. */
  lemma AtoiDecimal(i: int)
    requires MinInt64 <= i <= MaxInt64
    ensures Atoi(Decimal(i)) == Some(i)
  {
    var s := Decimal(i);
    if i < 0 {
      var d := DecimalDigits(-i);
      DigitsValueOfDecimal(-i);
      assert s == "-" + d;
      assert Unsigned(s) == d;
    } else {
      var d := DecimalDigits(i);
      DigitsValueOfDecimal(i);
      assert IsDigit(d[0]);
      assert Unsigned(s) == d;
    }
  }

  /** A string holding anything but sign and digits is rejected. */
  lemma AtoiRejectsNonDigit(s: string, k: nat)
    requires 0 < k < |s| && !IsDigit(s[k])
    ensures Atoi(s) == None
  {
    var digits := Unsigned(s);
    assert !IsDigit(digits[|digits| - (|s| - k)]);
  }
}
