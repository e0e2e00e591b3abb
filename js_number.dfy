/**
 * The JavaScript number operations the core uses, over exact reals:
 * `Math.round`, the scale-round-rescale idiom `Math.round(x * s) / s`,
 * and the decimal subset of `parseInt` / `parseFloat`.
 */
module JsNumber {

  import opened Wrappers
  import Text

  /** `Math.round(y)`: the integer nearest to `y`, a half rounding toward +infinity. */
  function MathRound(y: real): (n: int)
    ensures y - 0.5 < n as real <= y + 0.5
  {
    (y + 0.5).Floor
  }

  /** `Math.round(x * scale) / scale`: `x` on the grid of step `1/scale`, at most half a step away. */
  function RoundTo(x: real, scale: real): (r: real)
    requires scale > 0.0
    ensures x - 0.5 / scale < r <= x + 0.5 / scale
  {
    MathRound(x * scale) as real / scale
  }

  /** Scale used for money amounts and percentages: two decimal places. */
  const MoneyScale: real := 100.0
  /** Scale used for performance indices: four decimal places. */
  const IndexScale: real := 10000.0

  function RoundMoney(x: real): real { RoundTo(x, MoneyScale) }
  function RoundIndex(x: real): real { RoundTo(x, IndexScale) }

  /** Zero stays zero on every grid. */
  lemma RoundToZero(scale: real)
    requires scale > 0.0
    ensures RoundTo(0.0, scale) == 0.0
  {
  }

  /** Halves round up, also for negative numbers: -2.5 becomes -2, not -3. */
  lemma MathRoundHalves()
    ensures MathRound(2.5) == 3 && MathRound(-2.5) == -2 && MathRound(-0.5) == 0
  {
  }

  /** `Math.round` never decreases when its argument grows. */
  lemma MathRoundMonotone(x: real, y: real)
    requires x <= y
    ensures MathRound(x) <= MathRound(y)
  {
  }

  /** Rounding a negated value gives the negated rounding, or one more when the value lies exactly on a half. */
  lemma MathRoundNegate(y: real)
    ensures MathRound(-y) == -MathRound(y) || MathRound(-y) == -MathRound(y) + 1
    ensures MathRound(-y) == -MathRound(y) + 1 <==> (y + 0.5).Floor as real == y + 0.5
  {
  }

  /** The scale-round-rescale idiom never decreases when its argument grows. */
  lemma RoundToMonotone(x: real, y: real, scale: real)
    requires scale > 0.0 && x <= y
    ensures RoundTo(x, scale) <= RoundTo(y, scale)
  {
    assert y * scale - x * scale == (y - x) * scale;
    assert (y - x) * scale >= 0.0;
    MathRoundMonotone(x * scale, y * scale);
  }

  lemma RoundToDef(x: real, scale: real)
    requires scale > 0.0
    ensures RoundTo(x, scale) == MathRound(x * scale) as real / scale
  {
  }

  /** A value already on the grid comes back unchanged. */
  lemma RoundToOnGrid(k: int, scale: real)
    requires scale > 0.0
    ensures RoundTo(k as real / scale, scale) == k as real / scale
  {
    var x := k as real / scale;
    RoundToDef(x, scale);
    assert x * scale == k as real;
    assert MathRound(k as real) == k;
    assert MathRound(x * scale) == k;
    assert RoundTo(x, scale) == k as real / scale;
  }

  /** Rounding keeps a value at or above a threshold that lies on the grid at or above it. */
  lemma RoundToKeepsThreshold(x: real, k: int, scale: real)
    requires scale > 0.0 && k as real / scale <= x
    ensures k as real / scale <= RoundTo(x, scale)
  {
    RoundToMonotone(k as real / scale, x, scale);
    RoundToOnGrid(k, scale);
  }

  // ---------------------------------------------------------------------
  // parseInt / parseFloat (decimal notation only)
  // ---------------------------------------------------------------------

  predicate IsDigit(c: char) { '0' <= c <= '9' }

  predicate AllDigits(s: string) { forall k :: 0 <= k < |s| ==> IsDigit(s[k]) }

  /** The number of decimal digits `s` starts with. */
  function DigitRun(s: string): (n: nat)
    ensures n <= |s| && AllDigits(s[..n])
    ensures n == |s| || !IsDigit(s[n])
  {
    if s != [] && IsDigit(s[0]) then 1 + DigitRun(s[1..]) else 0
  }

  function DigitValue(c: char): nat
    requires IsDigit(c)
  {
    c as int - '0' as int
  }

  /** The natural number a string of decimal digits denotes. */
  function DigitsValue(ds: string): nat
    requires AllDigits(ds)
  {
    if ds == [] then 0 else DigitsValue(ds[..|ds| - 1]) * 10 + DigitValue(ds[|ds| - 1])
  }

  /** The value of the digits after a decimal point: `0.d1d2...`, always in [0, 1). */
  function FractionValue(ds: string): (f: real)
    requires AllDigits(ds)
    ensures 0.0 <= f < 1.0
  {
    if ds == [] then 0.0 else (DigitValue(ds[0]) as real + FractionValue(ds[1..])) / 10.0
  }

  function Pow10(e: nat): (p: real)
    ensures p >= 1.0
  {
    if e == 0 then 1.0 else 10.0 * Pow10(e - 1)
  }

  /** The text after leading white space and an optional sign, and whether the sign was a minus. */
  function Unsigned(s: string): (string, bool)
  {
    var t := Text.TrimStart(s);
    if t != [] && (t[0] == '-' || t[0] == '+') then (t[1..], t[0] == '-') else (t, false)
  }

  /** `parseInt(s)` in base 10: the integer spelled by the longest digit prefix after an optional sign; None is `NaN`. */
  function ParseInt(s: string): (r: Option<int>)
    ensures r.None? <==> Unsigned(s).0 == [] || !IsDigit(Unsigned(s).0[0])
    ensures r.Some? && !Unsigned(s).1 ==> r.value >= 0
    ensures r.Some? && Unsigned(s).1 ==> r.value <= 0
    ensures s != [] && IsDigit(s[0]) ==> r.Some? && r.value >= 0
  {
    var p := Unsigned(s);
    ParseDigits(p.0, p.1)
  }

  /** The integer spelled by the digits `u` starts with, negated when `negative`; None when there are none. */
  function ParseDigits(u: string, negative: bool): Option<int>
  {
    var n := DigitRun(u);
    if n == 0 then None
    else
      var v: int := DigitsValue(u[..n]);
      Some(if negative then -v else v)
  }

  /** The exponent part `e[+-]digits` at the start of `s`, or 0 when there is none (it is then not consumed). */
  function Exponent(s: string): int
  {
    if s != [] && (s[0] == 'e' || s[0] == 'E') then
      var t := s[1..];
      var (digits, negative) :=
        if t != [] && (t[0] == '-' || t[0] == '+') then (t[1..], t[0] == '-') else (t, false);
      var n := DigitRun(digits);
      if n == 0 then 0
      else if negative then -(DigitsValue(digits[..n]) as int) else DigitsValue(digits[..n]) as int
    else 0
  }

  function Scale10(x: real, e: int): (r: real)
    ensures x >= 0.0 ==> r >= 0.0
  {
    if e >= 0 then x * Pow10(e) else x / Pow10(-e)
  }

  /**
   * `parseFloat(s)`: the decimal number spelled by the longest prefix of the
   * form `[sign] digits [. digits] [e [sign] digits]` after leading white
   * space, with at least one mantissa digit; None is `NaN`.
   */
  function ParseFloat(s: string): (r: Option<real>)
    ensures var u := Unsigned(s).0;
            r.None? <==> !(u != [] && IsDigit(u[0])) && !(|u| >= 2 && u[0] == '.' && IsDigit(u[1]))
    ensures r.Some? && !Unsigned(s).1 ==> r.value >= 0.0
    ensures r.Some? && Unsigned(s).1 ==> r.value <= 0.0
    ensures s != [] && IsDigit(s[0]) ==> r.Some? && r.value >= 0.0
  {
    var u := Unsigned(s).0;
    var n := DigitRun(u);
    var whole := DigitsValue(u[..n]) as real;
    var rest := u[n..];
    var hasPoint := rest != [] && rest[0] == '.';
    var m := if hasPoint then DigitRun(rest[1..]) else 0;
    if n == 0 && m == 0 then None
    else
      var mantissa := whole + (if hasPoint then FractionValue(rest[1..][..m]) else 0.0);
      var tail := if hasPoint then rest[1..][m..] else rest;
      var magnitude := Scale10(mantissa, Exponent(tail));
      Some(if Unsigned(s).1 then -magnitude else magnitude)
  }

  /** The value of `parseFloat(s) || 0` and `parseInt(s) || 0`: `NaN` and zero both give zero. */
  function RealOrZero(r: Option<real>): real { r.GetOr(0.0) }
  function IntOrZero(r: Option<int>): int { r.GetOr(0) }

  // ---------------------------------------------------------------------
  // Round trips with the decimal spelling of a natural number
  // ---------------------------------------------------------------------

  function DigitChar(d: nat): (c: char)
    requires d < 10
    ensures IsDigit(c) && DigitValue(c) == d
  {
    ('0' as int + d) as char
  }

  /** The decimal spelling of `n`, without leading zeros. */
  function DecimalString(n: nat): (s: string)
    ensures s != [] && AllDigits(s)
  {
    if n < 10 then [DigitChar(n)] else DecimalString(n / 10) + [DigitChar(n % 10)]
  }

  lemma {:induction false} DigitsValueOfDecimal(n: nat)
    ensures DigitsValue(DecimalString(n)) == n
  {
    if n >= 10 {
      DigitsValueOfDecimal(n / 10);
      var s := DecimalString(n);
      assert s[..|s| - 1] == DecimalString(n / 10);
    }
  }

  lemma {:induction false} DigitRunOfDigits(ds: string, rest: string)
    requires AllDigits(ds)
    requires rest == [] || !IsDigit(rest[0])
    ensures DigitRun(ds + rest) == |ds|
  {
    if ds != [] {
      assert (ds + rest)[1..] == ds[1..] + rest;
      DigitRunOfDigits(ds[1..], rest);
    }
  }

  /** Text that starts with a digit has no white space or sign to skip. */
  lemma UnsignedOfDigitStart(s: string)
    requires s != [] && IsDigit(s[0])
    ensures Unsigned(s) == (s, false)
    ensures Unsigned(['-'] + s) == (s, true)
  {
  }

  /** `parseInt` reads back the decimal spelling of a natural number, whatever non-digit text follows it. */
  lemma ParseIntDecimal(n: nat, rest: string)
    requires rest == [] || !IsDigit(rest[0])
    ensures ParseInt(DecimalString(n) + rest) == Some(n)
  {
    var ds := DecimalString(n);
    var s := ds + rest;
    ParseIntDigits(ds, rest);
    DigitsValueOfDecimal(n);
  }

  /** With a leading minus sign, `parseInt` reads back the negated number. */
  lemma ParseIntNegativeDecimal(n: nat, rest: string)
    requires rest == [] || !IsDigit(rest[0])
    ensures ParseInt(['-'] + DecimalString(n) + rest) == Some(-(n as int))
  {
    var ds := DecimalString(n);
    ParseIntNegativeDigits(ds, rest);
    DigitsValueOfDecimal(n);
    assert ParseInt(['-'] + ds + rest) == Some(-(DigitsValue(ds) as int));
  }

  lemma ParseIntNegativeDigits(ds: string, rest: string)
    requires ds != [] && AllDigits(ds)
    requires rest == [] || !IsDigit(rest[0])
    ensures ParseInt(['-'] + ds + rest) == Some(-(DigitsValue(ds) as int))
  {
    var s := ds + rest;
    assert ['-'] + ds + rest == ['-'] + s;
    UnsignedOfDigitStart(s);
    ParseDigitsPrefix(ds, rest, true);
  }

  lemma ParseIntDigits(ds: string, rest: string)
    requires ds != [] && AllDigits(ds)
    requires rest == [] || !IsDigit(rest[0])
    ensures ParseInt(ds + rest) == Some(DigitsValue(ds) as int)
  {
    UnsignedOfDigitStart(ds + rest);
    ParseDigitsPrefix(ds, rest, false);
  }

  lemma ParseDigitsPrefix(ds: string, rest: string, negative: bool)
    requires ds != [] && AllDigits(ds)
    requires rest == [] || !IsDigit(rest[0])
    ensures ParseDigits(ds + rest, negative) == Some(if negative then -(DigitsValue(ds) as int) else DigitsValue(ds) as int)
  {
    var s := ds + rest;
    DigitRunOfDigits(ds, rest);
    assert s[..|ds|] == ds;
  }

  /** `parseFloat` reads back the decimal spelling of a natural number, whatever follows that does not continue a number. */
  lemma ParseFloatDecimal(n: nat, rest: string)
    requires rest == [] || !(IsDigit(rest[0]) || rest[0] in ".eE")
    ensures ParseFloat(DecimalString(n) + rest) == Some(n as real)
  {
    var ds := DecimalString(n);
    var s := ds + rest;
    DigitRunOfDigits(ds, rest);
    DigitsValueOfDecimal(n);
    assert s[..|ds|] == ds;
    assert s[|ds|..] == rest;
    UnsignedOfDigitStart(s);
    assert Exponent(rest) == 0;
  }
}
