/** The slice of java.math.BigDecimal the spreadsheet import uses: the
    string constructor, the sign test, the narrowing casts of a numeric cell
    and the rounding onto a price column of scale 2. */
module Decimals {
  import opened Wrappers
  import opened Text

  /** The number `unscaled` × 10^`exponent` (BigDecimal's scale is the
      negated exponent). */
  datatype Decimal = Decimal(unscaled: int, exponent: int)

  function Pow10(n: nat): (r: nat)
    ensures r >= 1
  {
    if n == 0 then 1 else 10 * Pow10(n - 1)
  }

  function Abs(n: int): nat { if n < 0 then -n else n }

  /** `d.compareTo(BigDecimal.ZERO) > 0` */
  predicate IsPositive(d: Decimal) { d.unscaled > 0 }

  /** Equal in value to 1 (`numeric == 1` on a cell). */
  predicate IsOne(d: Decimal) {
    if d.exponent >= 0 then d.unscaled * Pow10(d.exponent) == 1
    else d.unscaled == Pow10(-d.exponent)
  }

  /** The integer part, rounding toward zero, as Java's `(long)` and `(int)`
      casts of a double do before they saturate. */
  function Truncate(d: Decimal): int {
    if d.exponent >= 0 then d.unscaled * Pow10(d.exponent)
    else
      var m := Abs(d.unscaled) / Pow10(-d.exponent);
      if d.unscaled < 0 then -m else m
  }

  const Int64Min: int := -0x8000_0000_0000_0000
  const Int64Max: int := 0x7FFF_FFFF_FFFF_FFFF

  /** Java's narrowing of an out-of-range value to the nearest bound. */
  function Clamp(n: int, lo: int, hi: int): (r: int)
    requires lo <= hi
    ensures lo <= r <= hi
    ensures lo <= n <= hi ==> r == n
  {
    if n < lo then lo else if n > hi then hi else n
  }

  /** `(long) d`: the integer part when it fits in 64 bits, else the
      nearer bound. */
  function ToLong(d: Decimal): (r: int)
    ensures Int64Min <= r <= Int64Max
    ensures Int64Min <= Truncate(d) <= Int64Max ==> r == Truncate(d)
    ensures Truncate(d) > Int64Max ==> r == Int64Max
    ensures Truncate(d) < Int64Min ==> r == Int64Min
  {
    Clamp(Truncate(d), Int64Min, Int64Max)
  }

  /** `(int) d`: the integer part when it fits in 32 bits, else the
      nearer bound. */
  function ToInt(d: Decimal): (r: int)
    ensures InInt32(r)
    ensures Int32Min <= Truncate(d) <= Int32Max ==> r == Truncate(d)
    ensures Truncate(d) > Int32Max ==> r == Int32Max
    ensures Truncate(d) < Int32Min ==> r == Int32Min
  {
    Clamp(Truncate(d), Int32Min, Int32Max)
  }

  /** Storing in a column of scale 2: the value in cents, halves rounded away
      from zero. */
  function ToCents(d: Decimal): (r: int)
    ensures d.exponent >= -2 ==> r == d.unscaled * Pow10(d.exponent + 2)
  {
    var shift := d.exponent + 2;
    if shift >= 0 then d.unscaled * Pow10(shift)
    else
      var q := Pow10(-shift);
      var c := (2 * Abs(d.unscaled) + q) / (2 * q);
      if d.unscaled < 0 then -c else c
  }

  /** A value with at most two decimals is stored exactly. */
  lemma ToCentsExact(cents: int)
    ensures ToCents(Decimal(cents, -2)) == cents
  {
    assert Pow10(0) == 1;
  }

  /** A positive value is never stored negative, and one with at most two
      decimals stays positive. */
  lemma ToCentsPositive(d: Decimal)
    requires IsPositive(d)
    ensures ToCents(d) >= 0
    ensures d.exponent >= -2 ==> ToCents(d) > 0
  {
    var shift := d.exponent + 2;
    if shift >= 0 {
      var p := Pow10(shift);
      PositiveProduct(d.unscaled, p);
      assert ToCents(d) == d.unscaled * p;
    } else {
      var q := Pow10(-shift);
      var c := (2 * Abs(d.unscaled) + q) / (2 * q);
      DivBounds(2 * Abs(d.unscaled) + q, 2 * q);
      assert ToCents(d) == c;
    }
  }

  /** A value with more than two decimals is rounded to the nearest cent,
      halves away from zero: with q the weight of one cent in units of the
      last digit, the stored magnitude c satisfies
      c - 1/2 <= |unscaled| / q < c + 1/2, and the sign is kept. */
  lemma ToCentsRounds(d: Decimal)
    requires d.exponent < -2
    ensures var q := Pow10(-(d.exponent + 2));
      2 * Abs(ToCents(d)) * q <= 2 * Abs(d.unscaled) + q < 2 * (Abs(ToCents(d)) + 1) * q
    ensures d.unscaled > 0 ==> ToCents(d) >= 0
    ensures d.unscaled < 0 ==> ToCents(d) <= 0
  {
    var q := Pow10(-(d.exponent + 2));
    var n := 2 * Abs(d.unscaled) + q;
    var c := n / (2 * q);
    DivBounds(n, 2 * q);
    assert c >= 0;
    assert Abs(ToCents(d)) == c;
    assert 2 * c * q == (2 * q) * c;
    assert 2 * (c + 1) * q == (2 * q) * c + 2 * q;
  }

  /** Euclidean division by a positive divisor brackets the dividend. */
  lemma DivBounds(a: int, b: int)
    requires a >= 0 && b > 0
    ensures 0 <= a / b && b * (a / b) <= a < b * (a / b) + b
  {
  }

  /** Nonlinear sign fact, kept apart so the callers' proofs stay small. */
  lemma PositiveProduct(a: int, b: int)
    requires a > 0 && b > 0
    ensures a * b > 0
  {
  }

  /** An integral value is its own integer part. */
  lemma TruncateIntegral(n: int)
    ensures Truncate(Decimal(n, 0)) == n
    ensures InInt32(n) ==> ToInt(Decimal(n, 0)) == n
  {
    assert Pow10(0) == 1;
  }

  /** A price that passes the positivity check can still be stored as zero:
      0.001 rounds to 0.00. */
  lemma TinyPositiveStoredAsZero()
    ensures IsPositive(Decimal(1, -3)) && ToCents(Decimal(1, -3)) == 0
  {
  }

  // ---- new BigDecimal(String) ----

  predicate IsExponentIndicator(c: char) { c == 'e' || c == 'E' }

  /** The position of the first exponent indicator, or |s|. */
  function ExponentAt(s: string): (r: nat)
    ensures r <= |s|
    ensures forall i :: 0 <= i < r ==> !IsExponentIndicator(s[i])
    ensures r < |s| ==> IsExponentIndicator(s[r])
  {
    if s == [] then 0
    else if IsExponentIndicator(s[0]) then 0
    else 1 + ExponentAt(s[1..])
  }

  /** The position of the first '.', or |s|. */
  function DotAt(s: string): (r: nat)
    ensures r <= |s|
    ensures forall i :: 0 <= i < r ==> s[i] != '.'
    ensures r < |s| ==> s[r] == '.'
  {
    if s == [] then 0
    else if s[0] == '.' then 0
    else 1 + DotAt(s[1..])
  }

  /** An optionally signed, non-empty run of digits (the exponent). */
  function ParseSignedDigits(s: string): Option<int> {
    if s == [] then None
    else
      var digits := if s[0] == '-' || s[0] == '+' then s[1..] else s;
      if digits == [] || !AllDigits(digits) then None
      else Some(if s[0] == '-' then -(DigitsValue(digits) as int) else DigitsValue(digits))
  }

  /** `new BigDecimal(s)`, None for a NumberFormatException: an optional
      sign, digits with at most one '.' and at least one digit, and an
      optional exponent (`e` or `E`, an optional sign, digits). */
  function ParseDecimal(s: string): (r: Option<Decimal>)
    ensures r.Some? ==> s != [] && (r.value.unscaled < 0 ==> s[0] == '-')
  {
    if s == [] then None
    else
      var body := if s[0] == '-' || s[0] == '+' then s[1..] else s;
      var e := ExponentAt(body);
      var mantissa := body[..e];
      var exp := if e < |body| then ParseSignedDigits(body[e + 1..]) else Some(0);
      var dot := DotAt(mantissa);
      var intPart := mantissa[..dot];
      var fracPart := if dot < |mantissa| then mantissa[dot + 1..] else [];
      if |intPart| + |fracPart| == 0 || !AllDigits(intPart) || !AllDigits(fracPart) || exp.None? then None
      else
        var magnitude := DigitsValue(intPart + fracPart);
        Some(Decimal(if s[0] == '-' then -(magnitude as int) else magnitude, exp.value - |fracPart|))
  }

  /** Scientific notation with an integer mantissa: "<unscaled>E<exponent>". */
  function DecimalToString(d: Decimal): string {
    IntToString(d.unscaled) + "E" + IntToString(d.exponent)
  }

  lemma {:induction false} NoExponentIndicatorInDigits(s: string)
    requires AllDigits(s)
    ensures ExponentAt(s) == |s| && DotAt(s) == |s|
    decreases |s|
  {
    if s != [] {
      NoExponentIndicatorInDigits(s[1..]);
    }
  }

  lemma {:induction false} ExponentAtAppend(a: string, b: string)
    requires ExponentAt(a) == |a|
    ensures ExponentAt(a + b) == |a| + ExponentAt(b)
    decreases |a|
  {
    if a == [] {
      assert a + b == b;
    } else {
      assert !IsExponentIndicator(a[0]);
      assert ExponentAt(a) == 1 + ExponentAt(a[1..]);
      assert (a + b)[0] == a[0];
      assert (a + b)[1..] == a[1..] + b;
      ExponentAtAppend(a[1..], b);
      assert ExponentAt(a + b) == 1 + ExponentAt(a[1..] + b);
    }
  }

  lemma ParseSignedDigitsInt(n: int)
    ensures ParseSignedDigits(IntToString(n)) == Some(n)
  {
    if n < 0 {
      NatToStringRoundTrip(-n);
      assert IntToString(n)[1..] == NatToString(-n);
    } else {
      NatToStringRoundTrip(n);
    }
  }

  /** The parse of an unsigned run of digits followed by an exponent. */
  lemma {:induction false} ParseBody(digits: string, exponent: int)
    requires AllDigits(digits) && digits != []
    ensures var body := digits + "E" + IntToString(exponent);
            && ExponentAt(body) == |digits|
            && body[..|digits|] == digits
            && body[|digits| + 1..] == IntToString(exponent)
  {
    var rest := "E" + IntToString(exponent);
    assert digits + "E" + IntToString(exponent) == digits + rest;
    NoExponentIndicatorInDigits(digits);
    ExponentAtAppend(digits, rest);
  }

  /** Every decimal survives printing in scientific notation and parsing
      with the string constructor. */
  lemma {:induction false} DecimalRoundTrip(d: Decimal)
    ensures ParseDecimal(DecimalToString(d)) == Some(d)
  {
    var s := DecimalToString(d);
    var digits := NatToString(Abs(d.unscaled));
    var body := digits + "E" + IntToString(d.exponent);
    if d.unscaled < 0 {
      assert s == "-" + body;
      assert s[1..] == body;
    } else {
      assert s == body;
    }
    ParseBody(digits, d.exponent);
    ParseSignedDigitsInt(d.exponent);
    NoExponentIndicatorInDigits(digits);
    NatToStringRoundTrip(Abs(d.unscaled));
    assert digits[..|digits|] == digits;
    assert digits + [] == digits;
  }
}
