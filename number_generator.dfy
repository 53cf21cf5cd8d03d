/** The random operand generator: a mantissa in [1.1, 9.9) times a power of
    ten drawn from [-magnitude, magnitude], rounded to a number of
    significant figures. Arithmetic is exact over the reals; the two draws of
    the platform's random source are parameters. */
module NumberGenerator {
  import opened Types

  /** 10^n for a natural exponent. */
  function Pow10Nat(n: nat): (r: nat)
    ensures r >= 1
    ensures n >= 1 ==> r >= 10
  {
    if n == 0 then 1 else 10 * Pow10Nat(n - 1)
  }

  /** 10^k for any integer exponent: the value Math.pow(10, k) stands for.
      The definition runs through a cycle of three functions, Pow10 ->
      Pow10Layer -> Pow10Body -> Pow10. The verifier unfolds a recursive
      function at most two calls deep on its own, so the case split of
      Pow10Body stays out of every proof that does not ask for it through
      Pow10Zero or Pow10Step; products of powers are then cheap to reason
      about. */
  function Pow10(k: int): real
    decreases if k < 0 then -k else k, 2
  {
    Pow10Layer(k)
  }

  function Pow10Layer(k: int): real
    decreases if k < 0 then -k else k, 1
  {
    Pow10Body(k)
  }

  function Pow10Body(k: int): real
    decreases if k < 0 then -k else k, 0
  {
    if k == 0 then 1.0
    else if k > 0 then 10.0 * Pow10(k - 1)
    else Pow10(k + 1) / 10.0
  }

  lemma Pow10Zero()
    ensures Pow10(0) == 1.0
  {
    assert Pow10Layer(0) == Pow10(0);
    assert Pow10Body(0) == Pow10Layer(0);
  }

  lemma Pow10Step(k: int)
    ensures Pow10(k + 1) == 10.0 * Pow10(k)
  {
    assert Pow10Layer(k + 1) == Pow10(k + 1) && Pow10Layer(k) == Pow10(k);
    assert Pow10Body(k + 1) == Pow10Layer(k + 1) && Pow10Body(k) == Pow10Layer(k);
  }

  lemma {:induction false} Pow10Positive(k: int)
    ensures Pow10(k) > 0.0
    ensures k >= 0 ==> Pow10(k) >= 1.0
    decreases if k < 0 then -k else k
  {
    if k > 0 {
      Pow10Positive(k - 1);
      Pow10Step(k - 1);
    } else if k < 0 {
      Pow10Positive(k + 1);
      Pow10Step(k);
    } else {
      Pow10Zero();
    }
  }

  lemma {:induction false} Pow10IsNatural(n: nat)
    ensures Pow10(n) == Pow10Nat(n) as real
  {
    if n > 0 {
      Pow10IsNatural(n - 1);
      Pow10Step(n - 1);
    } else {
      Pow10Zero();
    }
  }

  /** z = x * y exactly when 10z = x * (10y). */
  lemma TimesTen(x: real, y: real, z: real, y1: real, z1: real)
    requires y1 == 10.0 * y && z1 == 10.0 * z
    ensures z == x * y <==> z1 == x * y1
  {
  }

  /** 10^(a+b) = 10^a * 10^b, by induction on |b|. */
  lemma {:induction false} Pow10Add(a: int, b: int)
    ensures Pow10(a + b) == Pow10(a) * Pow10(b)
    decreases if b < 0 then -b else b
  {
    if b > 0 {
      Pow10Add(a, b - 1);
      Pow10Step(a + b - 1);
      Pow10Step(b - 1);
      TimesTen(Pow10(a), Pow10(b - 1), Pow10(a + b - 1), Pow10(b), Pow10(a + b));
    } else if b < 0 {
      Pow10Add(a, b + 1);
      Pow10Step(a + b);
      Pow10Step(b);
      TimesTen(Pow10(a), Pow10(b), Pow10(a + b), Pow10(b + 1), Pow10(a + b + 1));
    } else {
      Pow10Zero();
    }
  }

  lemma {:induction false} Pow10Monotone(a: int, b: int)
    requires a < b
    ensures Pow10(a) < Pow10(b)
    decreases b - a
  {
    Pow10Step(b - 1);
    Pow10Positive(b - 1);
    if a < b - 1 {
      Pow10Monotone(a, b - 1);
    }
  }

  lemma ReciprocalTenth(x: real)
    requires 0.0 < x < 1.0
    ensures 1.0 / (10.0 * x) == (1.0 / x) / 10.0
    ensures 1.0 / x > 1.0
  {
  }

  /** floor(log10(x)) for x > 0: the integer m with 10^m <= x < 10^(m+1),
      found by shifting the decimal point one place at a time. */
  function Log10Floor(x: real): (m: int)
    requires x > 0.0
    ensures Pow10(m) <= x < Pow10(m + 1)
    decreases if x >= 1.0 then 0 else 1, if x >= 1.0 then x.Floor else (1.0 / x).Floor
  {
    if x >= 10.0 then
      var m := Log10Floor(x / 10.0) + 1;
      Pow10Step(m - 1);
      Pow10Step(m);
      m
    else if x < 1.0 then
      ReciprocalTenth(x);
      var m := Log10Floor(10.0 * x) - 1;
      Pow10Step(m);
      Pow10Step(m + 1);
      m
    else
      assert Pow10(1) == 10.0;
      0
  }

  lemma Log10FloorUnique(x: real, m: int)
    requires x > 0.0
    requires Pow10(m) <= x < Pow10(m + 1)
    ensures Log10Floor(x) == m
  {
    var r := Log10Floor(x);
    if r < m {
      if r + 1 < m { Pow10Monotone(r + 1, m); }
    } else if r > m {
      if m + 1 < r { Pow10Monotone(m + 1, r); }
    }
  }

  /** Math.round: the nearest integer, halves rounded towards +infinity. */
  function Round(y: real): (k: int)
    ensures y - 0.5 < k as real <= y + 0.5
  {
    (y + 0.5).Floor
  }

  // Single steps of real arithmetic with a variable factor, stated once so
  // that the proofs below only need linear reasoning.

  lemma MulDivCancel(a: real, c: real)
    requires c > 0.0
    ensures (a * c) / c == a
    ensures (a / c) * c == a
  {
  }

  lemma MulAddRight(a: real, b: real, c: real)
    ensures (a + b) * c == a * c + b * c
  {
  }

  lemma MulNeg(a: real, c: real)
    ensures (-a) * c == -(a * c)
  {
  }

  lemma MulLeRight(a: real, b: real, c: real)
    requires a <= b && c > 0.0
    ensures a * c <= b * c
  {
  }

  lemma MulLtRight(a: real, b: real, c: real)
    requires a < b && c > 0.0
    ensures a * c < b * c
  {
  }

  /** r is a whole number of units of size scale. */
  predicate IsMultipleOf(r: real, scale: real)
    requires scale > 0.0
  {
    (r / scale).Floor as real == r / scale
  }

  lemma UnitsAreMultiple(k: int, scale: real)
    requires scale > 0.0
    ensures IsMultipleOf(k as real * scale, scale)
  {
    MulDivCancel(k as real, scale);
  }

  lemma NearestMultiple(num: real, scale: real, k: int)
    requires scale > 0.0
    requires num / scale - 0.5 < k as real <= num / scale + 0.5
    ensures num - scale / 2.0 < k as real * scale <= num + scale / 2.0
  {
    var y := num / scale;
    var kr := k as real;
    MulDivCancel(num, scale);
    MulAddRight(y, -0.5, scale);
    MulAddRight(y, 0.5, scale);
    MulLtRight(y - 0.5, kr, scale);
    MulLeRight(kr, y + 0.5, scale);
  }

  /** Math.round(num / scale) * scale: the multiple of scale nearest to num,
      halves rounded upwards. */
  function RoundToScale(num: real, scale: real): (r: real)
    requires scale > 0.0
    ensures IsMultipleOf(r, scale)
    ensures num - scale / 2.0 < r <= num + scale / 2.0
  {
    var k := Round(num / scale);
    NearestMultiple(num, scale, k);
    UnitsAreMultiple(k, scale);
    k as real * scale
  }

  lemma SameCell(num: real, scale: real, k: int, q: int)
    requires scale > 0.0
    requires num - scale / 2.0 < k as real * scale <= num + scale / 2.0
    requires num - scale / 2.0 < q as real * scale <= num + scale / 2.0
    ensures k == q
  {
    var a, b := k as real * scale, q as real * scale;
    MulAddRight(k as real, -(q as real), scale);
    MulNeg(q as real, scale);
    assert ((k - q) as real) * scale == a - b;
    if k - q >= 1 {
      MulLeRight(1.0, (k - q) as real, scale);
    } else if k - q <= -1 {
      MulLeRight((k - q) as real, -1.0, scale);
    }
  }

  /** The multiple of scale that RoundToScale picks is the only one in
      (num - scale/2, num + scale/2]. */
  lemma RoundToScaleUnique(num: real, scale: real, q: int)
    requires scale > 0.0
    requires num - scale / 2.0 < q as real * scale <= num + scale / 2.0
    ensures RoundToScale(num, scale) == q as real * scale
  {
    var k := Round(num / scale);
    NearestMultiple(num, scale, k);
    SameCell(num, scale, k, q);
  }

  lemma DivLeRight(a: real, b: real, c: real)
    requires a <= b && c > 0.0
    ensures a / c <= b / c
  {
  }

  lemma DivLtRight(a: real, b: real, c: real)
    requires a < b && c > 0.0
    ensures a / c < b / c
  {
  }

  lemma AbsDiv(a: real, c: real)
    requires c > 0.0
    ensures Abs(a / c) == Abs(a) / c
    ensures a > 0.0 <==> a / c > 0.0
  {
  }

  lemma IntAbove(k: int, t: int)
    requires k as real > t as real - 1.0
    ensures k >= t
  {
  }

  lemma IntBelow(k: int, t: int)
    requires k as real < t as real + 1.0
    ensures k <= t
  {
  }

  /** Rounding a y with lo <= |y| < hi (lo, hi whole, lo >= 1) to the
      nearest integer k gives lo <= |k| <= hi and keeps the sign. */
  lemma RoundedUnits(y: real, lo: nat, hi: nat, k: int)
    requires 1 <= lo && lo as real <= Abs(y) < hi as real
    requires y - 0.5 < k as real <= y + 0.5
    ensures lo as real <= Abs(k as real) <= hi as real
    ensures y > 0.0 <==> k > 0
  {
    if y > 0.0 {
      IntAbove(k, lo);
      IntBelow(k, hi);
    } else {
      IntBelow(k, -(lo as int));
      IntAbove(k, -(hi as int));
    }
  }

  /** The same with the bounds 10^(s-1) and 10^s. */
  lemma RoundedDigits(y: real, sigFigs: int, k: int)
    requires sigFigs >= 1
    requires Pow10(sigFigs - 1) <= Abs(y) < Pow10(sigFigs)
    requires y - 0.5 < k as real <= y + 0.5
    ensures Pow10(sigFigs - 1) <= Abs(k as real) <= Pow10(sigFigs)
    ensures y > 0.0 <==> k > 0
  {
    Pow10IsNatural(sigFigs - 1);
    Pow10IsNatural(sigFigs);
    RoundedUnits(y, Pow10Nat(sigFigs - 1), Pow10Nat(sigFigs), k);
  }

  /** Scaling by a positive factor: x = u * scale keeps the sign of u and
      the bounds lo <= |u| <= hi become lo*scale <= |x| <= hi*scale. */
  lemma ScaledUnits(u: real, scale: real, lo: real, hi: real, x: real)
    requires scale > 0.0 && x == u * scale
    requires lo <= Abs(u) <= hi
    ensures lo * scale <= Abs(x) <= hi * scale
    ensures u > 0.0 <==> x > 0.0
    ensures x / scale == u
  {
    MulDivCancel(u, scale);
    if u >= 0.0 {
      MulLeRight(lo, u, scale);
      MulLeRight(u, hi, scale);
      if u > 0.0 { MulLtRight(0.0, u, scale); }
    } else {
      MulNeg(u, scale);
      MulLeRight(lo, -u, scale);
      MulLeRight(-u, hi, scale);
      MulLtRight(u, 0.0, scale);
    }
  }

  /** The place value of the last significant figure kept:
      10^(floor(log10|num|) - sigFigs + 1). */
  function Scale(num: real, sigFigs: int): (scale: real)
    requires num != 0.0
    ensures scale > 0.0
  {
    Pow10Positive(Log10Floor(Abs(num)) - sigFigs + 1);
    Pow10(Log10Floor(Abs(num)) - sigFigs + 1)
  }

  /** roundToSignificantFigures: zero stays zero; otherwise the result is a
      multiple of the scale lying in (num - scale/2, num + scale/2], that
      is, the nearest multiple with halves rounded upwards. */
  function RoundToSignificantFigures(num: real, sigFigs: int): (r: real)
    ensures num == 0.0 ==> r == 0.0
    ensures num != 0.0 ==>
      var scale := Scale(num, sigFigs);
      IsMultipleOf(r, scale) && num - scale / 2.0 < r <= num + scale / 2.0
  {
    if num == 0.0 then 0.0 else RoundToScale(num, Scale(num, sigFigs))
  }

  /** The rounded value is the only multiple of the scale within half a
      scale of num (upper end included). */
  lemma RoundingUnique(num: real, sigFigs: int, scale: real, q: int)
    requires num != 0.0 && scale == Scale(num, sigFigs)
    requires num - scale / 2.0 < q as real * scale <= num + scale / 2.0
    ensures RoundToSignificantFigures(num, sigFigs) == q as real * scale
  {
    RoundToScaleUnique(num, scale, q);
  }

  /** 10^m = 10^a * scale whenever m = a + e and scale = 10^e. */
  lemma Pow10Split(m: int, a: int, e: int, scale: real)
    requires m == a + e && scale == Pow10(e)
    ensures Pow10(m) == Pow10(a) * scale
  {
    Pow10Add(a, e);
  }

  /** Dividing lo*scale <= x < hi*scale by scale. */
  lemma DivideBand(x: real, scale: real, lo: real, hi: real, xlo: real, xhi: real)
    requires scale > 0.0 && xlo == lo * scale && xhi == hi * scale
    requires xlo <= x < xhi
    ensures lo <= x / scale < hi
  {
    DivLeRight(xlo, x, scale);
    DivLtRight(x, xhi, scale);
    MulDivCancel(lo, scale);
    MulDivCancel(hi, scale);
  }

  /** num/scale, for 10^m <= |num| < 10^(m+1) and scale = 10^(m - s + 1),
      has 10^(s-1) <= |num/scale| < 10^s and the sign of num. */
  lemma UnitsInBand(num: real, sigFigs: int, m: int, scale: real, y: real)
    requires Pow10(m) <= Abs(num) < Pow10(m + 1)
    requires scale > 0.0 && scale == Pow10(m - sigFigs + 1) && y == num / scale
    ensures Pow10(sigFigs - 1) <= Abs(y) < Pow10(sigFigs)
    ensures num > 0.0 <==> y > 0.0
  {
    var e := m - sigFigs + 1;
    Pow10Positive(e);
    Pow10Split(m, sigFigs - 1, e, scale);
    Pow10Split(m + 1, sigFigs, e, scale);
    AbsDiv(num, scale);
    DivideBand(Abs(num), scale, Pow10(sigFigs - 1), Pow10(sigFigs), Pow10(m), Pow10(m + 1));
  }

  /** Rounding num with 10^m <= |num| < 10^(m+1) to a multiple of
      scale = 10^(m - s + 1) keeps the sign, leaves between 10^(s-1) and 10^s
      units, and stays between 10^m and 10^(m+1). */
  lemma RoundedBand(num: real, sigFigs: int, m: int, scale: real, r: real)
    requires sigFigs >= 1
    requires Pow10(m) <= Abs(num) < Pow10(m + 1)
    requires scale > 0.0 && scale == Pow10(m - sigFigs + 1)
    requires r == Round(num / scale) as real * scale
    ensures Pow10(sigFigs - 1) <= Abs(r / scale) <= Pow10(sigFigs)
    ensures num > 0.0 <==> r > 0.0
    ensures Pow10(m) <= Abs(r) <= Pow10(m + 1)
  {
    var e := m - sigFigs + 1;
    Pow10Positive(e);
    var y := num / scale;
    var k := Round(y);
    var u := k as real;
    UnitsInBand(num, sigFigs, m, scale, y);
    RoundedDigits(y, sigFigs, k);
    ScaledUnits(u, scale, Pow10(sigFigs - 1), Pow10(sigFigs), r);
    Pow10Split(m, sigFigs - 1, e, scale);
    Pow10Split(m + 1, sigFigs, e, scale);
  }

  /** With at least one significant figure a non-zero input keeps its sign,
      the result is k * scale for an integer k with 10^(s-1) <= |k| <= 10^s
      (so at most s significant digits), and it lies between the powers of
      ten around the input: 10^m <= |r| <= 10^(m+1) for m = floor(log10|num|). */
  lemma SignificantFiguresKept(num: real, sigFigs: int, m: int, scale: real, r: real)
    requires num != 0.0 && sigFigs >= 1
    requires m == Log10Floor(Abs(num)) && scale == Scale(num, sigFigs)
    requires r == RoundToSignificantFigures(num, sigFigs)
    ensures Pow10(sigFigs - 1) <= Abs(r / scale) <= Pow10(sigFigs)
    ensures num > 0.0 <==> r > 0.0
    ensures Pow10(m) <= Abs(r) <= Pow10(m + 1)
  {
    RoundedBand(num, sigFigs, m, scale, r);
  }

  /** Worked example: 47.3 to one significant figure is 50. */
  lemma RoundExample()
    ensures Scale(47.3, 1) == 10.0
    ensures RoundToSignificantFigures(47.3, 1) == 50.0
  {
    assert Pow10(1) == 10.0 && Pow10(2) == 100.0;
    Log10FloorUnique(47.3, 1);
    RoundToScaleUnique(47.3, 10.0, 5);
  }

  /** The mantissa drawn by generateNumber, in [1.1, 9.9). */
  function GenerateBase(draw: Draw): (base: real)
    ensures 1.1 <= base < 9.9
  {
    1.1 + draw * 8.8
  }

  /** A draw stretched over [0, n). */
  lemma DrawScaled(draw: Draw, n: real, x: real)
    requires n > 0.0 && x == draw * n
    ensures 0.0 <= x < n
  {
    MulLtRight(draw, 1.0, n);
    MulLeRight(0.0, draw, n);
    assert 1.0 * n == n && 0.0 * n == 0.0;
  }

  lemma FloorInRange(x: real, n: int)
    requires 0.0 <= x < n as real
    ensures 0 <= x.Floor < n
  {
  }

  /** The exponent drawn by generateNumber: one of the 2*magnitude+1 integers
      in [-magnitude, magnitude]. */
  function GeneratePower(magnitude: int, draw: Draw): (power: int)
    ensures magnitude >= 0 ==> -magnitude <= power <= magnitude
  {
    var x := draw * (2 * magnitude + 1) as real;
    if magnitude >= 0 then
      DrawScaled(draw, (2 * magnitude + 1) as real, x);
      FloorInRange(x, 2 * magnitude + 1);
      x.Floor - magnitude
    else
      x.Floor - magnitude
  }

  /** generateNumber: with a non-negative magnitude and at least one
      significant figure the value is positive and lies between
      10^-magnitude and 10^(magnitude+1) (the upper end is reachable, as
      RangeTopReached shows). */
  function GenerateNumber(magnitude: int, significantFigures: int, baseDraw: Draw, powerDraw: Draw): (value: real)
    ensures magnitude >= 0 && significantFigures >= 1 ==>
      Pow10(-magnitude) <= value <= Pow10(magnitude + 1)
  {
    var base := GenerateBase(baseDraw);
    var power := GeneratePower(magnitude, powerDraw);
    var raw := base * Pow10(power);
    if magnitude >= 0 && significantFigures >= 1 then
      RawNumberExponent(base, power, raw);
      SignificantFiguresKept(raw, significantFigures, power, Scale(raw, significantFigures),
        RoundToSignificantFigures(raw, significantFigures));
      PowerWithinBand(magnitude, power);
      RoundToSignificantFigures(raw, significantFigures)
    else
      RoundToSignificantFigures(raw, significantFigures)
  }

  lemma PowerWithinBand(magnitude: int, power: int)
    requires -magnitude <= power <= magnitude
    ensures Pow10(-magnitude) <= Pow10(power) && Pow10(power + 1) <= Pow10(magnitude + 1)
  {
    if -magnitude < power { Pow10Monotone(-magnitude, power); }
    if power < magnitude { Pow10Monotone(power + 1, magnitude + 1); }
  }

  /** A mantissa in [1, 10) times a positive p lies in [p, 10p). */
  lemma MantissaBand(base: real, p: real, q: real, x: real)
    requires 1.0 <= base < 10.0 && p > 0.0
    requires x == base * p && q == 10.0 * p
    ensures p <= x < q
  {
    MulLeRight(1.0, base, p);
    MulLtRight(base, 10.0, p);
    assert 1.0 * p == p;
  }

  /** A mantissa in [1.1, 9.9) times 10^power is positive with leading-digit
      exponent power. */
  lemma RawNumberExponent(base: real, power: int, raw: real)
    requires 1.1 <= base < 9.9
    requires raw == base * Pow10(power)
    ensures raw > 0.0
    ensures Log10Floor(raw) == power
  {
    Pow10Step(power);
    Pow10Positive(power);
    MantissaBand(base, Pow10(power), Pow10(power + 1), raw);
    Log10FloorUnique(raw, power);
  }

  /** The top of the range is attained: a mantissa of 9.8 at exponent 1
      rounds to 100 = 10^(1+1) at one significant figure. */
  lemma RangeTopReached()
    ensures GenerateBase(8.7 / 8.8) == 9.8
    ensures GeneratePower(1, 0.9) == 1
    ensures GenerateNumber(1, 1, 8.7 / 8.8, 0.9) == 100.0
  {
    assert Pow10(1) == 10.0 && Pow10(2) == 100.0;
    RawNumberExponent(9.8, 1, 98.0);
    assert Scale(98.0, 1) == 10.0;
    RoundToScaleUnique(98.0, 10.0, 10);
  }
}
