/**
 * Monetary strings ("35.35", "6.49", "9.00") as exact decimals.
 *
 * The service reads the receipt total and each item price with
 * strconv.ParseFloat and then applies three integer conversions to the
 * result: int(v) (round-dollar rule), int(v*100) (quarter rule) and
 * int(math.Ceil(v*0.2)) (description rule). Here the value is kept as an
 * exact decimal and each conversion is stated on it: Go's int() truncates
 * toward zero, and the ceiling rounds toward positive infinity.
 */
module Amounts {
  import opened Wrappers
  import opened Text
  import opened Arithmetic

  /** The number (-1 if negative, else 1) * (whole + fraction / 10^scale). */
  datatype Decimal = Decimal(negative: bool, whole: nat, fraction: nat, scale: nat)

  /** The fraction is written with exactly `scale` digits. */
  predicate WellFormed(d: Decimal) {
    d.fraction < Pow10(d.scale)
  }

  /** |value| * 10^scale, a whole number. */
  function Magnitude(d: Decimal): nat {
    MulNonNegative(d.whole, Pow10(d.scale));
    d.whole * Pow10(d.scale) + d.fraction
  }

  /** value * 10^scale, a whole number. */
  function Numerator(d: Decimal): int {
    if d.negative then -(Magnitude(d) as int) else Magnitude(d)
  }

  function Abs(x: int): nat {
    if x < 0 then -x else x
  }

  // ---------------------------------------------------------------------
  // strconv.ParseFloat, decimal notation without an exponent
  // ---------------------------------------------------------------------

  /** The length of the run of decimal digits that s starts with. */
  function DigitRun(s: string): (n: nat)
    ensures n <= |s| && AllDigits(s[..n])
    ensures n < |s| ==> !IsDigit(s[n])
  {
    if s != [] && IsDigit(s[0]) then 1 + DigitRun(s[1..]) else 0
  }

  /**
   * Digits, and optionally a point followed by digits; at least one digit
   * in all ("5.", ".5" are numbers, "." is not).
   */
  function ParseUnsigned(body: string, negative: bool): (r: Option<Decimal>)
    ensures r.Some? ==> WellFormed(r.value) && r.value.negative == negative
  {
    var n := DigitRun(body);
    var rest := body[n..];
    if rest == [] then
      if n == 0 then None else Some(Decimal(negative, DigitsValue(body[..n]), 0, 0))
    else if rest[0] != '.' || !AllDigits(rest[1..]) || (n == 0 && |rest| == 1) then None
    else Some(Decimal(negative, DigitsValue(body[..n]), DigitsValue(rest[1..]), |rest| - 1))
  }

  /** An optional '+' or '-' sign followed by an unsigned decimal. */
  function ParseAmount(s: string): (r: Option<Decimal>)
    ensures r.Some? ==> WellFormed(r.value)
  {
    if s != [] && (s[0] == '+' || s[0] == '-') then ParseUnsigned(s[1..], s[0] == '-')
    else ParseUnsigned(s, false)
  }

  predicate IsSign(sign: string) {
    sign == "" || sign == "+" || sign == "-"
  }

  lemma {:induction false} DigitRunOf(a: string, rest: string)
    requires AllDigits(a)
    requires rest == [] || !IsDigit(rest[0])
    ensures DigitRun(a + rest) == |a|
  {
    if a == [] {
      assert a + rest == rest;
    } else {
      assert (a + rest)[0] == a[0];
      assert (a + rest)[1..] == a[1..] + rest;
      DigitRunOf(a[1..], rest);
    }
  }

  lemma ParseSigned(sign: string, t: string)
    requires IsSign(sign) && t != [] && (IsDigit(t[0]) || t[0] == '.')
    ensures ParseAmount(sign + t) == ParseUnsigned(t, sign == "-")
  {
    var s := sign + t;
    if sign != "" {
      assert s[0] == sign[0] && s[1..] == t;
    } else {
      assert s == t;
      assert s[0] == t[0];
    }
  }

  /** Digits alone: they give the whole part. */
  lemma UnsignedWhole(a: string, negative: bool)
    requires AllDigits(a) && a != []
    ensures ParseUnsigned(a, negative) == Some(Decimal(negative, DigitsValue(a), 0, 0))
  {
    DigitRunOf(a, []);
    assert a + [] == a;
    assert a[..|a|] == a && a[|a|..] == [];
  }

  /** Digits, a point and digits: the digits after the point give the fraction and its scale. */
  lemma UnsignedFraction(a: string, b: string, negative: bool)
    requires AllDigits(a) && AllDigits(b) && a + b != []
    ensures ParseUnsigned(a + "." + b, negative) == Some(Decimal(negative, DigitsValue(a), DigitsValue(b), |b|))
  {
    var body, rest := a + "." + b, "." + b;
    assert body == a + rest;
    DigitRunOf(a, rest);
    assert body[..|a|] == a && body[|a|..] == rest;
    assert rest[0] == '.' && rest[1..] == b && |rest| == |b| + 1;
  }

  /** Numbers without a point: the digits give the whole part, the sign the sign. */
  lemma ParseWholeAmount(sign: string, a: string)
    requires IsSign(sign) && AllDigits(a) && a != []
    ensures ParseAmount(sign + a) == Some(Decimal(sign == "-", DigitsValue(a), 0, 0))
  {
    ParseSigned(sign, a);
    UnsignedWhole(a, sign == "-");
  }

  /** Numbers with a point: the digits after it give the fraction and its scale. */
  lemma ParseFractionalAmount(sign: string, a: string, b: string)
    requires IsSign(sign) && AllDigits(a) && AllDigits(b) && a + b != []
    ensures ParseAmount(sign + (a + "." + b)) == Some(Decimal(sign == "-", DigitsValue(a), DigitsValue(b), |b|))
  {
    FractionStart(a, b);
    ParseSigned(sign, a + "." + b);
    UnsignedFraction(a, b, sign == "-");
  }


  /** A point number starts with a digit or with the point. */
  lemma FractionStart(a: string, b: string)
    requires AllDigits(a)
    ensures var t := a + "." + b; t != [] && (IsDigit(t[0]) || t[0] == '.')
  {
    if a != [] {
      assert (a + "." + b)[0] == a[0];
    }
  }


  lemma UnsignedShape(body: string, negative: bool) returns (a: string, dot: bool, b: string)
    requires ParseUnsigned(body, negative).Some?
    ensures AllDigits(a) && AllDigits(b)
    ensures !dot ==> a != [] && b == [] && body == a
    ensures dot ==> a + b != [] && body == a + "." + b
  {
    var n := DigitRun(body);
    a := body[..n];
    var rest := body[n..];
    assert body == a + rest;
    if rest == [] {
      dot, b := false, [];
      assert body == a;
    } else {
      dot, b := true, rest[1..];
      assert rest == "." + b;
    }
  }

  /** Splits off the optional sign that ParseAmount reads first. */
  lemma SignShape(s: string) returns (sign: string, body: string)
    ensures IsSign(sign) && s == sign + body
    ensures ParseAmount(s) == ParseUnsigned(body, sign == "-")
  {
    if s != [] && (s[0] == '+' || s[0] == '-') {
      sign, body := [s[0]], s[1..];
    } else {
      sign, body := "", s;
    }
  }

  /** Every string that parses is a sign, digits and an optional point and digits, read as such. */
  lemma ParsedAmountShape(s: string) returns (sign: string, a: string, dot: bool, b: string)
    requires ParseAmount(s).Some?
    ensures IsSign(sign) && AllDigits(a) && AllDigits(b)
    ensures !dot ==> a != [] && b == [] && s == sign + a
    ensures dot ==> a + b != [] && s == sign + (a + "." + b)
    ensures ParseAmount(s) == Some(Decimal(sign == "-", DigitsValue(a), DigitsValue(b), |b|))
  {
    var body;
    sign, body := SignShape(s);
    a, dot, b := UnsignedShape(body, sign == "-");
    if dot {
      ParseFractionalAmount(sign, a, b);
    } else {
      ParseWholeAmount(sign, a);
    }
  }


  // ---------------------------------------------------------------------
  // The integer conversions the rules apply
  // ---------------------------------------------------------------------

  /** The quotient of x by p, rounded down. */
  function Quotient(x: nat, p: nat): (q: nat)
    requires p > 0
    ensures q * p <= x < (q + 1) * p
  {
    DivBounds(x, p);
    x / p
  }

  /** Go's int(v * 10^places): the scaled value truncated toward zero. */
  function Truncated(d: Decimal, places: nat): (t: int)
    ensures d.negative ==> t <= 0
    ensures !d.negative ==> t >= 0
    ensures Abs(t) * Pow10(d.scale) <= Magnitude(d) * Pow10(places) < (Abs(t) + 1) * Pow10(d.scale)
  {
    MulNonNegative(Magnitude(d), Pow10(places));
    var m := Quotient(Magnitude(d) * Pow10(places), Pow10(d.scale));
    if d.negative then -(m as int) else m
  }

  /** Go's float64(int(v)) == v: truncation leaves the value unchanged. */
  predicate IsIntegral(d: Decimal) {
    Truncated(d, 0) * Pow10(d.scale) == Numerator(d)
  }

  /** Go's int(v*100): the amount in cents, truncated toward zero. */
  function Cents(d: Decimal): int {
    Truncated(d, 2)
  }

  /** Go's int(math.Ceil(v * 0.2)): the least integer at or above v / 5. */
  function CeilFifth(d: Decimal): (r: int)
    ensures (r - 1) * (5 * Pow10(d.scale)) < Numerator(d) <= r * (5 * Pow10(d.scale))
  {
    -((-Numerator(d)) / (5 * Pow10(d.scale)))
  }

  // ---------------------------------------------------------------------
  // What the conversions mean for parsed amounts
  // ---------------------------------------------------------------------

  lemma DivisibleNegated(x: int, m: int)
    requires m > 0
    ensures x % m == 0 <==> (-x) % m == 0
  {
    if x % m == 0 {
      DivModUnique(-x, m, -(x / m), 0);
    }
    if (-x) % m == 0 {
      DivModUnique(x, m, -((-x) / m), 0);
    }
  }

  /** The whole part of a well-formed decimal is its magnitude divided by 10^scale. */
  lemma WholeOfMagnitude(d: Decimal)
    requires WellFormed(d)
    ensures Magnitude(d) / Pow10(d.scale) == d.whole
    ensures Magnitude(d) % Pow10(d.scale) == d.fraction
  {
    DivModUnique(Magnitude(d), Pow10(d.scale), d.whole, d.fraction);
  }

  /** The round-dollar test holds exactly when the amount has no fractional part. */
  lemma IntegralIffNoFraction(d: Decimal)
    requires WellFormed(d)
    ensures IsIntegral(d) <==> d.fraction == 0
  {
    WholeOfMagnitude(d);
    assert Magnitude(d) * Pow10(0) == Magnitude(d);
    assert Abs(Truncated(d, 0)) == d.whole;
  }

  /** With at most two decimals, int(v*100) is exact: no cents are lost. */
  lemma CentsExact(d: Decimal)
    requires WellFormed(d) && d.scale <= 2
    ensures Cents(d) * Pow10(d.scale) == Numerator(d) * 100
  {
    var m := Magnitude(d);
    assert Pow10(2) == 100;
    if d.scale == 0 {
      assert Pow10(0) == 1;
      DivModUnique(m * 100, 1, m * 100, 0);
    } else if d.scale == 1 {
      assert Pow10(1) == 10;
      DivModUnique(m * 100, 10, m * 10, 0);
    } else {
      DivModUnique(m * 100, 100, m, 0);
    }
  }

  /** With at most two decimals, the round-dollar test is "cents divisible by 100". */
  lemma IntegralIffWholeCents(d: Decimal)
    requires WellFormed(d) && d.scale <= 2
    ensures IsIntegral(d) <==> Cents(d) % 100 == 0
  {
    IntegralIffNoFraction(d);
    CentsOfParts(d);
    var c, f := Cents(d), d.fraction;
    var q := f * 100 / Pow10(d.scale);
    assert q < 100 && (q == 0 <==> f == 0) by {
      if d.scale == 0 {
        assert Pow10(0) == 1;
      } else if d.scale == 1 {
        assert Pow10(1) == 10;
        DivModUnique(f * 100, 10, f * 10, 0);
      } else {
        assert Pow10(2) == 100;
        DivModUnique(f * 100, 100, f, 0);
      }
    }
    DivModUnique(Abs(c), 100, d.whole, q);
    DivisibleNegated(Abs(c), 100);
    assert c % 100 == 0 <==> Abs(c) % 100 == 0;
  }

  /** A round-dollar amount is also a multiple of a quarter, whatever its scale. */
  lemma IntegralIsQuarter(d: Decimal)
    requires IsIntegral(d)
    ensures Cents(d) % 25 == 0
  {
    var p, m := Pow10(d.scale), Magnitude(d);
    var k := Abs(Truncated(d, 0));
    assert Pow10(0) == 1 && Pow10(2) == 100;
    assert m == k * p;
    DivModUnique(m * 100, p, k * 100, 0);
    assert Abs(Cents(d)) == k * 100;
    DivModUnique(k * 100, 25, k * 4, 0);
    DivisibleNegated(k * 100, 25);
  }

  /** int(v*100) splits into the whole dollars and the truncated cents of the fraction. */
  lemma CentsOfParts(d: Decimal)
    requires WellFormed(d)
    ensures Abs(Cents(d)) == d.whole * 100 + d.fraction * 100 / Pow10(d.scale)
  {
    var p, f := Pow10(d.scale), d.fraction;
    assert Pow10(2) == 100;
    var c := f * 100 / p;
    assert f * 100 == c * p + (f * 100) % p;
    assert Magnitude(d) * 100 == (d.whole * 100 + c) * p + (f * 100) % p;
    DivModUnique(Magnitude(d) * 100, p, d.whole * 100 + c, (f * 100) % p);
  }

  /**
   * Neither the round-dollar test nor the quarter test depends on how many
   * whole dollars the amount has: only its sign and fraction matter.
   */
  lemma TestsIgnoreWholeDollars(d: Decimal, w: nat)
    requires WellFormed(d)
    ensures IsIntegral(d) <==> IsIntegral(d.(whole := w))
    ensures Cents(d) % 25 == 0 <==> Cents(d.(whole := w)) % 25 == 0
  {
    var e := d.(whole := w);
    IntegralIffNoFraction(d);
    IntegralIffNoFraction(e);
    CentsOfParts(d);
    CentsOfParts(e);
    var c := d.fraction * 100 / Pow10(d.scale);
    DivModUnique(d.whole * 100 + c, 25, d.whole * 4 + c / 25, c % 25);
    DivModUnique(w * 100 + c, 25, w * 4 + c / 25, c % 25);
    DivisibleNegated(d.whole * 100 + c, 25);
    DivisibleNegated(w * 100 + c, 25);
  }

  /** With at most two decimals, the description bonus is the cents divided by 500, rounded up. */
  lemma CeilFifthOfCents(d: Decimal)
    requires WellFormed(d) && d.scale <= 2
    ensures (CeilFifth(d) - 1) * 500 < Cents(d) <= CeilFifth(d) * 500
  {
    CentsExact(d);
    var r, n, c := CeilFifth(d), Numerator(d), Cents(d);
    var p := Pow10(d.scale);
    var k := if d.scale == 0 then 100 else if d.scale == 1 then 10 else 1;
    assert p * k == 100 by {
      if d.scale == 0 {
        assert Pow10(0) == 1;
      } else if d.scale == 1 {
        assert Pow10(1) == 10;
      } else {
        assert Pow10(2) == 100;
      }
    }
    assert c * p == (n * k) * p;
    ScaleBounds(r, n, 5 * p, k);
    assert (5 * p) * k == 500;
  }

  /** Multiplying a bracketing by a positive factor keeps it. */
  lemma ScaleBounds(r: int, n: int, m: int, k: int)
    requires k > 0 && (r - 1) * m < n <= r * m
    ensures (r - 1) * (m * k) < n * k <= r * (m * k)
  {
    assert (r - 1) * (m * k) == ((r - 1) * m) * k;
    assert r * (m * k) == (r * m) * k;
  }

}
