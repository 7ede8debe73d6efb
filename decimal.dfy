/**
 * Base-10 integer text as Go's `strconv` package reads and writes it:
 * `strconv.ParseInt(s, 10, bitSize)` (and `strconv.Atoi`, which is
 * `ParseInt(s, 10, 64)` on a 64-bit platform) and `strconv.FormatInt(n, 10)`,
 * which is also what `fmt.Sprintf("%d", n)` prints.
 */
module Decimal {
  import opened Wrappers

  const MinInt32: int := -0x8000_0000
  const MaxInt32: int := 0x7fff_ffff
  const MinInt64: int := -0x8000_0000_0000_0000
  const MaxInt64: int := 0x7fff_ffff_ffff_ffff

  type Int32 = n: int | MinInt32 <= n <= MaxInt32
  type Int64 = n: int | MinInt64 <= n <= MaxInt64

  /** The `bitSize` argument of `ParseInt`: the width the result must fit. */
  datatype BitSize = Bits32 | Bits64

  predicate InRange(n: int, bits: BitSize) {
    match bits
    case Bits32 => MinInt32 <= n <= MaxInt32
    case Bits64 => MinInt64 <= n <= MaxInt64
  }

  predicate IsDigit(c: char) {
    '0' <= c <= '9'
  }

  predicate AllDigits(s: string) {
    forall i :: 0 <= i < |s| ==> IsDigit(s[i])
  }

  function DigitChar(d: nat): (c: char)
    requires d < 10
    ensures IsDigit(c)
  {
    ('0' as int + d) as char
  }

  function DigitValue(c: char): (d: nat)
    requires IsDigit(c)
    ensures d < 10 && DigitChar(d) == c
  {
    c as int - '0' as int
  }

  /** The value of a string of decimal digits, most significant first. */
  function DigitsValue(s: string): nat
    requires AllDigits(s)
    decreases |s|
  {
    if s == [] then 0
    else DigitsValue(s[..|s| - 1]) * 10 + DigitValue(s[|s| - 1])
  }

  predicate IsSign(c: char) {
    c == '+' || c == '-'
  }

  /** The text after a leading sign, if there is one. */
  function Unsigned(s: string): (u: string)
    ensures |s| > 0 && IsSign(s[0]) ==> u == s[1..]
    ensures !(|s| > 0 && IsSign(s[0])) ==> u == s
  {
    if |s| > 0 && IsSign(s[0]) then s[1..] else s
  }

  /** Base-10 integer syntax: an optional sign, then one or more digits. */
  predicate IsNumeral(s: string) {
    Unsigned(s) != [] && AllDigits(Unsigned(s))
  }

  /** The value a numeral denotes, negative exactly after a `-`. */
  function NumeralValue(s: string): int
    requires IsNumeral(s)
  {
    if s[0] == '-' then 0 - DigitsValue(Unsigned(s)) as int else DigitsValue(Unsigned(s)) as int
  }

  /**
   * `strconv.ParseInt(s, 10, bitSize)`: an optional `+` or `-` sign followed by
   * one or more decimal digits, whose value must fit the bit size; any other
   * text, and any value out of range, is an error (`None`).
   */
  function ParseInt(s: string, bits: BitSize): (r: Option<int>)
    ensures r.Some? <==> IsNumeral(s) && InRange(NumeralValue(s), bits)
    ensures r.Some? ==> InRange(r.value, bits)
    ensures r.Some? ==> |s| > 0 && (IsDigit(s[0]) || s[0] == '+' || s[0] == '-')
    ensures r.Some? ==> forall i :: 0 < i < |s| ==> IsDigit(s[i])
  {
    if s == [] then None
    else
      var negative := s[0] == '-';
      var digits := if s[0] == '+' || s[0] == '-' then s[1..] else s;
      if digits == [] || !AllDigits(digits) then None
      else
        var n := if negative then 0 - DigitsValue(digits) as int else DigitsValue(digits) as int;
        if InRange(n, bits) then Some(n) else None
  }

  /** Decimal digits of `n`, without leading zeros. */
  function FormatNat(n: nat): (s: string)
    ensures |s| >= 1 && AllDigits(s)
    ensures |s| > 1 ==> s[0] != '0'
    decreases n
  {
    if n < 10 then [DigitChar(n)]
    else FormatNat(n / 10) + [DigitChar(n % 10)]
  }

  /** `strconv.FormatInt(n, 10)`: a `-` for negative values, then the digits of |n|. */
  function FormatInt(n: int): (s: string)
    ensures |s| >= 1
    ensures n < 0 <==> s[0] == '-'
    ensures forall i :: 0 < i < |s| ==> IsDigit(s[i])
  {
    if n < 0 then "-" + FormatNat(-n) else FormatNat(n)
  }

  /** Reading back the digits `FormatNat` writes gives the number. */
  lemma {:induction false} DigitsOfFormat(n: nat)
    ensures DigitsValue(FormatNat(n)) == n
    decreases n
  {
    var s := FormatNat(n);
    if n >= 10 {
      DigitsOfFormat(n / 10);
      assert s[..|s| - 1] == FormatNat(n / 10);
      assert s[|s| - 1] == DigitChar(n % 10);
    }
  }

  /** Round trip: `ParseInt(FormatInt(n), 10, bitSize)` gives back every `n` of that width. */
  lemma ParseFormat(n: int, bits: BitSize)
    requires InRange(n, bits)
    ensures ParseInt(FormatInt(n), bits) == Some(n)
  {
    var s := FormatInt(n);
    if n < 0 {
      DigitsOfFormat(-n);
      assert s[1..] == FormatNat(-n);
    } else {
      DigitsOfFormat(n);
    }
  }

  /** A leading zero digit does not change the value of a digit string. */
  lemma {:induction false} DigitsLeadingZero(d: string)
    requires AllDigits(d)
    ensures AllDigits("0" + d) && DigitsValue("0" + d) == DigitsValue(d)
    decreases |d|
  {
    var z := "0" + d;
    if d != [] {
      DigitsLeadingZero(d[..|d| - 1]);
      assert z[..|z| - 1] == "0" + d[..|d| - 1];
      assert z[|z| - 1] == d[|d| - 1];
    }
  }

  /** A `+` sign before digits changes nothing. */
  lemma ParsePlusSign(d: string, bits: BitSize)
    requires AllDigits(d)
    ensures ParseInt("+" + d, bits) == ParseInt(d, bits)
  {
    assert ("+" + d)[1..] == d;
  }

  /** A leading zero changes nothing, with or without a `-` sign in front. */
  lemma ParseLeadingZero(d: string, bits: BitSize)
    requires d != [] && AllDigits(d)
    ensures ParseInt("0" + d, bits) == ParseInt(d, bits)
    ensures ParseInt("-0" + d, bits) == ParseInt("-" + d, bits)
  {
    DigitsLeadingZero(d);
    assert ("-0" + d)[1..] == "0" + d;
    assert ("-" + d)[1..] == d;
  }

  /** `-0` is zero. */
  lemma ParseNegativeZero(bits: BitSize)
    ensures ParseInt("-0", bits) == Some(0)
  {
    assert "-0"[1..] == "0";
  }

  /** A digit string without leading zeros is exactly what `FormatNat` writes for its value. */
  lemma {:induction false} FormatDigits(d: string)
    requires d != [] && AllDigits(d)
    requires |d| > 1 ==> d[0] != '0'
    ensures FormatNat(DigitsValue(d)) == d
    decreases |d|
  {
    if |d| > 1 {
      var init := d[..|d| - 1];
      FormatDigits(init);
      var n := DigitsValue(d);
      assert n == DigitsValue(init) * 10 + DigitValue(d[|d| - 1]);
      assert n / 10 == DigitsValue(init) && n % 10 == DigitValue(d[|d| - 1]);
      assert d == init + [d[|d| - 1]];
    }
  }

  /**
   * Round trip the other way: a numeral accepted by `ParseInt` and written
   * the way `FormatInt` writes (no `+`, no leading zero, no `-0`) is given
   * back by formatting its value.
   */
  lemma FormatParse(s: string, bits: BitSize)
    requires ParseInt(s, bits).Some?
    requires s[0] != '+' && s != "-0"
    requires |Unsigned(s)| > 1 ==> Unsigned(s)[0] != '0'
    ensures FormatInt(ParseInt(s, bits).value) == s
  {
    var d := Unsigned(s);
    FormatDigits(d);
    if s[0] == '-' {
      assert s == "-" + d;
    }
  }
}
