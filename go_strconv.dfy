/**
  Decimal integers as Go's `strconv` reads and `fmt` writes them, plus the
  stand-in for `float64` values.

  `strconv.ParseInt(s, 10, 64)` and, on a 64-bit platform, `strconv.Atoi(s)`
  accept exactly: an optional `+` or `-`, then one or more ASCII digits, with a
  value inside the int64 range. `fmt.Sprintf("%d", n)` writes an optional `-`
  and the digits without leading zeros; `%02d` pads to two digits.
*/
module GoStrconv {
  import opened Wrappers

  const MinInt64: int := -0x8000_0000_0000_0000
  const MaxInt64: int := 0x7fff_ffff_ffff_ffff

  /** Go's `int` and `int64` on a 64-bit platform. */
  type Int64 = x: int | MinInt64 <= x <= MaxInt64

  predicate IsDigit(c: char) { '0' <= c <= '9' }

  predicate AllDigits(s: string) { forall i :: 0 <= i < |s| ==> IsDigit(s[i]) }

  function DigitValue(c: char): nat
    requires IsDigit(c)
  {
    c as int - '0' as int
  }

  function DigitChar(d: nat): char
    requires d < 10
  {
    ('0' as int + d) as char
  }

  /** The value of a string of decimal digits, most significant first. */
  function DigitsValue(s: string): nat
    requires AllDigits(s)
  {
    if s == [] then 0 else 10 * DigitsValue(s[..|s| - 1]) + DigitValue(s[|s| - 1])
  }

  /** The digits after an optional leading sign. */
  function Unsigned(s: string): string
  {
    if s != [] && (s[0] == '+' || s[0] == '-') then s[1..] else s
  }

  /** `strconv.ParseInt(s, 10, 64)` / `strconv.Atoi(s)`: the value, or None on a
      syntax or range error. Spaces are not trimmed and `_` is not accepted. */
  function ParseInt(s: string): Option<Int64>
  {
    var digits := Unsigned(s);
    if digits == [] || !AllDigits(digits) then None
    else
      var magnitude: int := DigitsValue(digits);
      var v := if s[0] == '-' then -magnitude else magnitude;
      if MinInt64 <= v <= MaxInt64 then Some(v) else None
  }

  /** `fmt.Sprintf("%d", n)` for a non-negative `n`. */
  function FormatNat(n: nat): (s: string)
    ensures |s| >= 1 && AllDigits(s)
    ensures DigitsValue(s) == n
    ensures s[0] == '0' ==> n == 0
    ensures n < 10 <==> |s| == 1
  {
    if n < 10 then [DigitChar(n)]
    else
      var prefix := FormatNat(n / 10);
      var s := prefix + [DigitChar(n % 10)];
      assert s[..|s| - 1] == prefix;
      s
  }

  /** `fmt.Sprintf("%d", n)`. */
  function FormatInt(n: int): string
  {
    if n < 0 then "-" + FormatNat(-n) else FormatNat(n)
  }

  /** `fmt.Sprintf("%02d", n)` for a non-negative `n`: at least two digits, zero-padded. */
  function Pad2(n: nat): (s: string)
    ensures AllDigits(s) && DigitsValue(s) == n
    ensures n < 100 ==> |s| == 2
  {
    if n < 10 then
      var s := ['0', DigitChar(n)];
      assert s[..1] == ['0'] && ['0'][..0] == [];
      assert DigitsValue(['0']) == 0;
      s
    else FormatNat(n)
  }

  /** A decimal as `%d` writes it: no `+`, no leading zero, no `-0`. */
  predicate Canonical(s: string)
  {
    var digits := Unsigned(s);
    && (s != [] ==> s[0] != '+')
    && digits != [] && AllDigits(digits)
    && (digits[0] == '0' ==> |digits| == 1)
    && (s != [] && s[0] == '-' ==> digits != "0")
  }

  /** A non-empty digit string whose first digit is not 0 has a positive value. */
  lemma {:induction false} LeadingDigitPositive(s: string)
    requires s != [] && AllDigits(s) && s[0] != '0'
    ensures DigitsValue(s) > 0
  {
    if |s| > 1 {
      LeadingDigitPositive(s[..|s| - 1]);
    }
  }

  /** `%d` reproduces a digit string without leading zeros from its value. */
  lemma {:induction false} FormatDigitsValue(s: string)
    requires s != [] && AllDigits(s) && (s[0] == '0' ==> |s| == 1)
    ensures FormatNat(DigitsValue(s)) == s
  {
    if |s| > 1 {
      var prefix := s[..|s| - 1];
      var last := s[|s| - 1];
      FormatDigitsValue(prefix);
      LeadingDigitPositive(prefix);
      var v := DigitsValue(s);
      assert v == 10 * DigitsValue(prefix) + DigitValue(last);
      assert v / 10 == DigitsValue(prefix) && v % 10 == DigitValue(last);
      assert DigitChar(v % 10) == last;
      assert FormatNat(v) == FormatNat(v / 10) + [DigitChar(v % 10)];
      assert prefix + [last] == s;
    }
  }

  /** Parsing what `%d` wrote gives the number back, for every int64. */
  lemma ParseFormatInt(n: Int64)
    ensures ParseInt(FormatInt(n)) == Some(n)
  {
    var magnitude: nat := if n < 0 then -(n as int) else n as int;
    var digits := FormatNat(magnitude);
    if n < 0 {
      ParseSigned("-", digits);
      assert FormatInt(n) == "-" + digits;
    } else {
      ParseSigned("", digits);
      assert FormatInt(n) == "" + digits;
    }
  }

  /** The parser reads an optional sign followed by a digit string. */
  lemma ParseSigned(sign: string, digits: string)
    requires sign == "" || sign == "-" || sign == "+"
    requires digits != [] && AllDigits(digits)
    ensures var v: int := if sign == "-" then -(DigitsValue(digits) as int) else DigitsValue(digits);
      ParseInt(sign + digits) == if MinInt64 <= v <= MaxInt64 then Some(v) else None
  {
    var s := sign + digits;
    assert Unsigned(s) == digits;
    assert s[0] == '-' <==> sign == "-";
  }

  /** Writing back a parsed canonical decimal reproduces the text. */
  lemma FormatParseInt(s: string)
    requires Canonical(s) && ParseInt(s).Some?
    ensures FormatInt(ParseInt(s).value) == s
  {
    var digits := Unsigned(s);
    var magnitude: int := DigitsValue(digits);
    FormatDigitsValue(digits);
    var v := ParseInt(s).value;
    if s[0] == '-' {
      LeadingDigitPositive(digits);
      assert v == -magnitude;
      assert FormatInt(v) == "-" + FormatNat(magnitude);
      assert s == "-" + digits;
    } else {
      assert v == magnitude;
      assert s == digits;
    }
  }

  /** `float64`: the decoder only stores, compares with zero and tests for NaN. */
  datatype Float64 = Finite(value: real) | Infinite(negative: bool) | NaN

  const ZeroFloat: Float64 := Finite(0.0)

  /** `float64(n)` for an int; rounding above 2^53 is not modelled. */
  function FloatOfInt(n: int): Float64 { Finite(n as real) }

  /** What `strconv.ParseFloat(s, 64)` returns: a value and whether the error was nil.
      Go returns 0 on a syntax error and a signed infinity on a range error. */
  datatype FloatParse = FloatParse(value: Float64, ok: bool)
}
