/** Numeric helpers of blmath/math.go. Go `int` values are unbounded
    integers here and `float64` values are reals; NaN and the infinities are
    outside the model, so a float division by zero is a precondition. */
module BlMath {
  import opened Wrappers

  // ---------------------------------------------------------------------
  // Go integer division and remainder truncate toward zero.

  function Abs(x: int): (r: nat)
    ensures r == x || r == -x
  {
    if x < 0 then -x else x
  }

  function Min(a: int, b: int): (r: int)
    ensures r <= a && r <= b && (r == a || r == b)
  {
    if a > b then b else a
  }

  function Max(a: int, b: int): (r: int)
    ensures r >= a && r >= b && (r == a || r == b)
  {
    if a < b then b else a
  }

  /** Go's `a / b`: the quotient of the magnitudes, negated when the signs
      differ (so it rounds toward zero). */
  function GoQuo(a: int, b: int): int
    requires b != 0
  {
    var m := Abs(a) / Abs(b);
    if (a < 0) != (b < 0) then -m else m
  }

  /** Go's `a % b`: the remainder of the magnitudes with the sign of `a`. */
  function GoRem(a: int, b: int): (r: int)
    requires b != 0
    ensures Abs(r) < Abs(b)
    ensures a >= 0 ==> r >= 0
    ensures a < 0 ==> r <= 0
  {
    if a < 0 then -(Abs(a) % Abs(b)) else a % Abs(b)
  }

  /** Quotient and remainder are unique once the remainder is in range. */
  lemma DivModUnique(x: int, b: int, q: int, r: int)
    requires b > 0 && x == b * q + r && 0 <= r < b
    ensures x / b == q && x % b == r
  {
    var q0, r0 := x / b, x % b;
    assert b * (q - q0) == r0 - r;
    if q > q0 {
      MulAtLeast(b, q - q0);
    } else if q < q0 {
      MulAtLeast(b, q0 - q);
    }
  }

  lemma MulAtLeast(b: int, k: int)
    requires b > 0 && k >= 1
    ensures b * k >= b
  {
  }

  /** Go's `/` and `%` together reconstruct the dividend. */
  lemma GoDivision(a: int, b: int)
    requires b != 0
    ensures a == b * GoQuo(a, b) + GoRem(a, b)
  {
    var A: int, B: int := Abs(a), Abs(b);
    var m := A / B;
    assert A == B * m + A % B;
    if a < 0 && b < 0 {
      assert b * GoQuo(a, b) == (-B) * m == -(B * m);
    } else if a < 0 {
      assert b * GoQuo(a, b) == B * (-m) == -(B * m);
    } else if b < 0 {
      assert b * GoQuo(a, b) == (-B) * (-m) == B * m;
    }
  }

  /** For a positive divisor a zero Go remainder is divisibility. */
  lemma GoRemZeroIsDivides(a: int, b: int)
    requires b > 0
    ensures GoRem(a, b) == 0 <==> a % b == 0
  {
    if a < 0 {
      if (-a) % b == 0 {
        var k := (-a) / b;
        assert a == b * -k + 0;
        DivModUnique(a, b, -k, 0);
      }
      if a % b == 0 {
        var k := a / b;
        assert -a == b * -k + 0;
        DivModUnique(-a, b, -k, 0);
      }
    }
  }

  /** Division that leaves no remainder is the same in Go and in Dafny. */
  lemma ExactQuotient(x: int, g: int)
    requires Divides(g, x)
    ensures GoQuo(x, g) == x / g && GoQuo(x, g) * g == x
  {
    var k := x / g;
    assert x == g * k;
    if x < 0 {
      assert -x == g * -k + 0;
      DivModUnique(-x, g, -k, 0);
    }
  }

  predicate Divides(d: int, x: int) {
    d > 0 && x % d == 0
  }

  lemma DividesBound(d: int, x: int)
    requires Divides(d, x) && x != 0
    ensures d <= Abs(x)
  {
    var k := x / d;
    assert x == d * k;
    if k > 0 {
      MulAtLeast(d, k);
    } else {
      assert k != 0;
      MulAtLeast(d, -k);
      assert Abs(x) == d * -k;
    }
  }

  lemma DividesMultiple(d: int, k: int)
    requires d > 0
    ensures Divides(d, d * k)
  {
    DivModUnique(d * k, d, k, 0);
  }

  // ---------------------------------------------------------------------
  // GCD, LCM and Simplify.

  /** The largest common divisor of `a` and `b` not above `k`, or 0. */
  function CommonDivisorAtMost(a: int, b: int, k: nat): (r: nat)
    ensures r <= k
  {
    if k == 0 then 0
    else if a % k == 0 && b % k == 0 then k
    else CommonDivisorAtMost(a, b, k - 1)
  }

  /** The value GCD computes: a downward search from min(|a|, |b|). */
  function Gcd(a: int, b: int): nat {
    CommonDivisorAtMost(a, b, Min(Abs(a), Abs(b)))
  }

  lemma {:induction false} CommonDivisorAtMostGreatest(a: int, b: int, k: nat)
    ensures CommonDivisorAtMost(a, b, k) > 0 ==>
      Divides(CommonDivisorAtMost(a, b, k), a) && Divides(CommonDivisorAtMost(a, b, k), b)
    ensures forall d :: 0 < d <= k && Divides(d, a) && Divides(d, b) ==> d <= CommonDivisorAtMost(a, b, k)
    ensures k >= 1 ==> CommonDivisorAtMost(a, b, k) >= 1
  {
    if k > 0 && !(a % k == 0 && b % k == 0) {
      CommonDivisorAtMostGreatest(a, b, k - 1);
      assert a % 1 == 0 && b % 1 == 0;
    }
  }

  /** GCD of two non-zero integers is positive, divides both, and every
      common divisor is at most it; with a zero argument it is 0. */
  lemma GcdIsGreatest(a: int, b: int)
    ensures (a == 0 || b == 0) <==> Gcd(a, b) == 0
    ensures a != 0 && b != 0 ==> Divides(Gcd(a, b), a) && Divides(Gcd(a, b), b)
    ensures a != 0 && b != 0 ==> forall d :: Divides(d, a) && Divides(d, b) ==> d <= Gcd(a, b)
  {
    var k := Min(Abs(a), Abs(b));
    CommonDivisorAtMostGreatest(a, b, k);
    if a != 0 && b != 0 {
      forall d | Divides(d, a) && Divides(d, b)
        ensures d <= Gcd(a, b)
      {
        DividesBound(d, a);
        DividesBound(d, b);
      }
    }
  }

  /** GCD of blmath/math.go: counts down from min(|a|, |b|) to the first
      value dividing both. */
  method GCD(a: int, b: int) returns (result: int)
    ensures result == Gcd(a, b)
  {
    result := Min(Abs(a), Abs(b));
    while result > 0
      invariant 0 <= result <= Min(Abs(a), Abs(b))
      invariant CommonDivisorAtMost(a, b, result) == Gcd(a, b)
    {
      GoRemZeroIsDivides(a, result);
      GoRemZeroIsDivides(b, result);
      if GoRem(a, result) == 0 && GoRem(b, result) == 0 {
        break;
      }
      result := result - 1;
    }
  }

  /** LCM exactly as written: |x|·|y| divided by GCD, which is zero when
      either argument is zero; Go panics on that division (None). */
  function LcmAsWritten(x: int, y: int): (r: Option<int>)
    ensures r.Some? <==> x != 0 && y != 0
  {
    GcdIsGreatest(Abs(x), Abs(y));
    var g := Gcd(Abs(x), Abs(y));
    if g == 0 then None else Some(GoQuo(Abs(x) * Abs(y), g))
  }

  /** LCM(0, 5) divides by zero, though the least common multiple is 0. */
  lemma LcmAsWrittenPanicsOnZero()
    ensures LcmAsWritten(0, 5) == None && Lcm(0, 5) == 0
  {
  }

  lemma LcmAsQuotient(ax: int, ay: int, g: int)
    requires ax > 0 && ay > 0 && Divides(g, ax) && Divides(g, ay)
    ensures GoQuo(ax * ay, g) == (ax / g) * ay == ax * (ay / g) > 0
  {
    var p, q := ax / g, ay / g;
    assert ax == g * p && ay == g * q;
    assert p > 0 && q > 0;
    assert ax * ay == g * (p * ay) by {
      assert ax * ay == (g * p) * ay;
    }
    assert p * ay == ax * q by {
      assert p * ay == p * (g * q) == (g * p) * q;
    }
    DividesMultiple(g, p * ay);
    ExactQuotient(ax * ay, g);
    DivModUnique(ax * ay, g, p * ay, 0);
  }

  /** The least common multiple as evidently intended: 0 when either
      argument is 0, and |x|·|y| / GCD otherwise. */
  function Lcm(x: int, y: int): (r: nat)
    ensures (r == 0) <==> (x == 0 || y == 0)
    ensures x != 0 && y != 0 ==> Divides(Abs(x), r) && Divides(Abs(y), r)
    ensures x != 0 && y != 0 ==> r * Gcd(Abs(x), Abs(y)) == Abs(x) * Abs(y)
  {
    var ax, ay := Abs(x), Abs(y);
    GcdIsGreatest(ax, ay);
    var g := Gcd(ax, ay);
    if g == 0 then 0
    else
      LcmAsQuotient(ax, ay, g);
      DividesMultiple(ax, ay / g);
      DividesMultiple(ay, ax / g);
      ExactQuotient(ax * ay, g);
      GoQuo(ax * ay, g)
  }

  /** Where the source computes it (both arguments non-zero), the corrected
      LCM agrees with the written one. */
  lemma LcmAgreesWhereDefined(x: int, y: int)
    requires x != 0 && y != 0
    ensures LcmAsWritten(x, y) == Some(Lcm(x, y))
  {
    GcdIsGreatest(Abs(x), Abs(y));
  }

  /** Simplify of blmath/math.go: (0, 1) for a zero numerator, otherwise both
      parts divided by their GCD. A zero denominator with a non-zero
      numerator divides by zero in Go, hence the precondition. */
  function Simplify(x: int, y: int): (r: (int, int))
    requires x == 0 || y != 0
  {
    if x == 0 then (0, 1)
    else
      GcdIsGreatest(x, y);
      var g := Gcd(x, y);
      (GoQuo(x, g), GoQuo(y, g))
  }

  /** Simplify keeps the value of the fraction and leaves it in lowest terms
      (the GCD of the two parts is 1). */
  lemma SimplifyLowestTerms(x: int, y: int)
    requires x == 0 || y != 0
    ensures Simplify(x, y).0 * y == Simplify(x, y).1 * x
    ensures x != 0 ==> Gcd(Simplify(x, y).0, Simplify(x, y).1) == 1
  {
    if x != 0 {
      GcdIsGreatest(x, y);
      var g := Gcd(x, y);
      ExactQuotient(x, g);
      ExactQuotient(y, g);
      var p, q := GoQuo(x, g), GoQuo(y, g);
      SameFraction(p, q, g);
      QuotientsCoprime(x, y, p, q, g);
    }
  }

  lemma SameFraction(p: int, q: int, g: int)
    ensures p * (q * g) == q * (p * g)
  {
  }

  lemma QuotientsCoprime(x: int, y: int, p: int, q: int, g: int)
    requires x != 0 && y != 0 && g == Gcd(x, y) && g > 0
    requires p * g == x && q * g == y
    ensures Gcd(p, q) == 1
  {
    assert p != 0 && q != 0;
    GcdIsGreatest(p, q);
    GcdIsGreatest(x, y);
    var h := Gcd(p, q);
    if h > 1 {
      CommonDivisorTimes(p, h, g);
      CommonDivisorTimes(q, h, g);
      assert g * h == g + g * (h - 1);
      MulAtLeast(g, h - 1);
      assert false;
    }
  }

  lemma CommonDivisorTimes(p: int, h: int, g: int)
    requires Divides(h, p) && g > 0
    ensures Divides(h * g, p * g)
  {
    var k := p / h;
    assert p == h * k;
    assert p * g == (h * g) * k;
    MulAtLeast(h, g);
    DividesMultiple(h * g, k);
  }

  // ---------------------------------------------------------------------
  // ModPosInt and DigRoot.

  /** ModPosInt of blmath/math.go: Go's remainder moved into the sign of the
      divisor. A zero divisor panics in Go, hence the precondition. */
  function ModPosInt(a: int, b: int): (r: int)
    requires b != 0
  {
    var v := GoRem(a, b);
    if (v < 0 && b > 0) || (v > 0 && b < 0) then v + b else v
  }

  /** ModPosInt differs from `a` by a whole number of b's: it is Go's
      remainder, or that remainder plus b. */
  lemma ModPosIntShift(a: int, b: int) returns (k: int)
    requires b != 0
    ensures ModPosInt(a, b) - a == b * k
  {
    GoDivision(a, b);
    var q, v := GoQuo(a, b), GoRem(a, b);
    if ModPosInt(a, b) == v {
      k := -q;
    } else {
      k := 1 - q;
      assert b * (1 - q) == b - b * q;
    }
  }

  /** For b > 0 the result is the Euclidean remainder, in [0, b); for b < 0
      it lies in (b, 0]. Either way it differs from `a` by a multiple of b. */
  lemma ModPosIntRange(a: int, b: int)
    requires b != 0
    ensures b > 0 ==> 0 <= ModPosInt(a, b) < b && ModPosInt(a, b) == a % b
    ensures b < 0 ==> b < ModPosInt(a, b) <= 0
    ensures Divides(Abs(b), ModPosInt(a, b) - a)
  {
    var r := ModPosInt(a, b);
    var k := ModPosIntShift(a, b);
    if b > 0 {
      assert 0 <= r < b;
      assert a == b * -k + r by {
        assert b * -k == -(b * k);
      }
      DivModUnique(a, b, -k, r);
      DividesMultiple(b, k);
    } else {
      assert r - a == (-b) * -k by {
        assert (-b) * -k == b * k;
      }
      DividesMultiple(-b, -k);
    }
  }

  /** The sum of the decimal digits of a natural number. */
  function DigitSum(v: nat): nat {
    if v == 0 then 0 else v % 10 + DigitSum(v / 10)
  }

  lemma NineShift(q: int, x: int)
    ensures (9 * q + x) % 9 == x % 9
  {
    DivModUnique(9 * q + x, 9, q + x / 9, x % 9);
  }

  lemma {:induction false} DigitSumFacts(v: nat)
    ensures DigitSum(v) % 9 == v % 9
    ensures DigitSum(v) <= v
    ensures v >= 10 ==> DigitSum(v) < v
    ensures v > 0 ==> DigitSum(v) > 0
  {
    if v > 0 {
      var q, d := v / 10, v % 10;
      DigitSumFacts(q);
      assert v == 9 * q + (q + d);
      NineShift(q, q + d);
      var s := DigitSum(q);
      assert q == 9 * (q / 9) + s % 9 && s == 9 * (s / 9) + s % 9;
      assert q + d == 9 * (q / 9 - s / 9) + (s + d);
      NineShift(q / 9 - s / 9, s + d);
    }
  }

  /** The digital root in closed form: values up to 9, negatives included,
      are their own root; above 9 it is 1 + (v - 1) mod 9. */
  function DigitalRoot(v: int): int {
    if v <= 9 then v else 1 + (v - 1) % 9
  }

  /** DigRoot of blmath/math.go: replaces the value by its digit sum while it
      has more than one digit. */
  method DigRoot(value: int) returns (r: int)
    ensures r == DigitalRoot(value)
    ensures value > 0 ==> 1 <= r <= 9 && r % 9 == value % 9
  {
    var v := value;
    while v > 9
      invariant value <= 9 ==> v == value
      invariant value > 9 ==> v >= 1 && v % 9 == value % 9
      decreases v
    {
      var total := 0;
      ghost var start: nat := v;
      DigitSumFacts(start);
      while v > 0
        invariant v >= 0 && total >= 0
        invariant total + DigitSum(v) == DigitSum(start)
        decreases v
      {
        total := total + GoRem(v, 10);
        v := GoQuo(v, 10);
      }
      v := total;
    }
    r := v;
    if value > 9 {
      assert (r - 1) % 9 == (value - 1) % 9;
    }
  }

  // ---------------------------------------------------------------------
  // Float helpers, exact over the reals.

  function RAbs(x: real): (r: real)
    ensures r >= 0.0 && (r == x || r == -x)
  {
    if x < 0.0 then -x else x
  }

  function RMin(a: real, b: real): (r: real)
    ensures r <= a && r <= b && (r == a || r == b)
  {
    if a > b then b else a
  }

  function RMax(a: real, b: real): (r: real)
    ensures r >= a && r >= b && (r == a || r == b)
  {
    if a < b then b else a
  }

  function Difference(a: real, b: real): real {
    RAbs(a - b)
  }

  lemma DifferenceSymmetric(a: real, b: real)
    ensures Difference(a, b) == Difference(b, a) >= 0.0
    ensures Difference(a, b) == 0.0 <==> a == b
  {
  }

  function Norm(value: real, min: real, max: real): real
    requires max != min
  {
    (value - min) / (max - min)
  }

  function Lerp(t: real, min: real, max: real): real {
    min + (max - min) * t
  }

  function Map(srcValue: real, srcMin: real, srcMax: real, dstMin: real, dstMax: real): real
    requires srcMax != srcMin
  {
    Lerp(Norm(srcValue, srcMin, srcMax), dstMin, dstMax)
  }

  lemma DivMul(n: real, d: real)
    requires d != 0.0
    ensures (n / d) * d == n && d * (n / d) == n && (d * n) / d == n
  {
  }

  lemma RealMulSign(a: real, b: real)
    requires a > 0.0
    ensures b > 0.0 ==> a * b > 0.0
    ensures b >= 0.0 ==> a * b >= 0.0
  {
  }

  /** A multiple m·f of a positive m with m·f <= v < m·f + m, for a v in
      [0, m), has f strictly between minus one and one. */
  lemma UnitFromBracket(m: real, f: real, v: real)
    requires m > 0.0 && m * f <= v < m * f + m && 0.0 <= v < m
    ensures -1.0 < f < 1.0
  {
    MulBounds(m, f);
  }

  /** A number whose product with a positive factor lies strictly
      between minus that factor and that factor lies strictly between
      minus one and one. */
  lemma MulBounds(m: real, f: real)
    requires m > 0.0
    ensures m * f < m ==> f < 1.0
    ensures m * f > -m ==> f > -1.0
  {
    var up, down := f - 1.0, -1.0 - f;
    RealMulSign(m, up);
    RealMulSign(m, down);
    assert m * up == m * f - m;
    assert m * down == -m - m * f;
  }

  /** A quotient of two same-signed reals, the top no larger, is in [0, 1]. */
  lemma UnitQuotient(n: real, d: real)
    requires (0.0 <= n <= d && d > 0.0) || (d <= n <= 0.0 && d < 0.0)
    ensures 0.0 <= n / d <= 1.0
  {
    DivMul(n, d);
  }

  /** A step of size t in [0, 1] along d stays between 0 and d. */
  lemma ScaledStep(d: real, t: real)
    requires 0.0 <= t <= 1.0
    ensures RMin(0.0, d) <= d * t <= RMax(0.0, d)
  {
    if d >= 0.0 {
      assert d * t <= d * 1.0 by { assert d * (1.0 - t) >= 0.0; }
    } else {
      assert d * t >= d * 1.0 by { assert d * (1.0 - t) <= 0.0; }
    }
  }

  /** Lerp hits its ends at 0 and 1; Norm is its inverse. */
  lemma LerpNormInverse(t: real, v: real, min: real, max: real)
    requires min != max
    ensures Lerp(0.0, min, max) == min && Lerp(1.0, min, max) == max
    ensures Norm(min, min, max) == 0.0 && Norm(max, min, max) == 1.0
    ensures Norm(Lerp(t, min, max), min, max) == t
    ensures Lerp(Norm(v, min, max), min, max) == v
  {
    var d := max - min;
    DivMul(1.0, d);
    assert d * 1.0 == d;
    assert Norm(max, min, max) == d / d;
    assert Norm(min, min, max) == 0.0 / d;
    DivMul(t, d);
    assert Lerp(t, min, max) - min == d * t;
    assert Norm(Lerp(t, min, max), min, max) == (d * t) / d;
    DivMul(v - min, d);
    assert d * Norm(v, min, max) == v - min;
  }

  /** Map sends the source ends to the destination ends, mapping back
      undoes it, and a value inside the source range lands inside the
      destination range. */
  lemma MapProperties(v: real, sMin: real, sMax: real, dMin: real, dMax: real)
    requires sMin != sMax
    ensures Map(sMin, sMin, sMax, dMin, dMax) == dMin
    ensures Map(sMax, sMin, sMax, dMin, dMax) == dMax
    ensures dMin != dMax ==> Map(Map(v, sMin, sMax, dMin, dMax), dMin, dMax, sMin, sMax) == v
    ensures RMin(sMin, sMax) <= v <= RMax(sMin, sMax) ==>
      RMin(dMin, dMax) <= Map(v, sMin, sMax, dMin, dMax) <= RMax(dMin, dMax)
  {
    var t := Norm(v, sMin, sMax);
    LerpNormInverse(t, v, sMin, sMax);
    if RMin(sMin, sMax) <= v <= RMax(sMin, sMax) {
      UnitQuotient(v - sMin, sMax - sMin);
      ScaledStep(dMax - dMin, t);
    }
    if dMin != dMax {
      LerpNormInverse(t, v, dMin, dMax);
      LerpNormInverse(Norm(Lerp(t, dMin, dMax), dMin, dMax), v, sMin, sMax);
    }
  }

  /** Wrap of blmath/math.go: Knuth's floored modulo shifted to `min`. */
  function Wrap(value: real, min: real, max: real): real
    requires max != min
  {
    var v := value - min;
    var m := max - min;
    min + v - m * (v / m).Floor as real
  }

  /** A value m·t with t between f and f + 1 lies between m·f and m·f + m. */
  lemma BracketByFloor(m: real, t: real, f: real, v: real)
    requires m > 0.0 && f <= t < f + 1.0 && m * t == v
    ensures m * f <= v < m * f + m
  {
    var lo, hi := t - f, f + 1.0 - t;
    assert lo >= 0.0 && hi > 0.0;
    RealMulSign(m, lo);
    RealMulSign(m, hi);
    assert m * lo == v - m * f;
    assert m * hi == m * f + m - v;
  }

  /** The floored quotient brackets the dividend between two multiples. */
  lemma FloorBracket(v: real, m: real)
    requires m > 0.0
    ensures m * ((v / m).Floor as real) <= v < m * ((v / m).Floor as real) + m
  {
    var t := v / m;
    DivMul(v, m);
    BracketByFloor(m, t, t.Floor as real, v);
  }

  /** With min < max, Wrap lands in [min, max) and differs from the input by
      a whole number of periods; inputs already in range are unchanged. */
  lemma WrapRange(value: real, min: real, max: real)
    requires min < max
    ensures min <= Wrap(value, min, max) < max
    ensures var k := (value - Wrap(value, min, max)) / (max - min); k == k.Floor as real
    ensures min <= value < max ==> Wrap(value, min, max) == value
  {
    var v, m := value - min, max - min;
    var f := (v / m).Floor;
    var fr := f as real;
    FloorBracket(v, m);
    var w := Wrap(value, min, max);
    assert w == min + v - m * fr;
    assert value - w == m * fr;
    DivMul(fr, m);
    assert (value - w) / (max - min) == fr;
    assert fr.Floor == f;
    if min <= value < max {
      UnitFromBracket(m, fr, v);
      assert f == 0;
    }
  }

  /** Clamp of blmath/math.go: the bounds are put in order first. */
  function Clamp(value: real, min: real, max: real): real {
    var lo := if min > max then max else min;
    var hi := if min > max then min else max;
    RMax(lo, RMin(value, hi))
  }

  /** Clamp lands between the two bounds in either order, keeps a value
      already inside, and otherwise returns the nearer bound. */
  lemma ClampRange(value: real, a: real, b: real)
    ensures RMin(a, b) <= Clamp(value, a, b) <= RMax(a, b)
    ensures RMin(a, b) <= value <= RMax(a, b) ==> Clamp(value, a, b) == value
    ensures value < RMin(a, b) ==> Clamp(value, a, b) == RMin(a, b)
    ensures value > RMax(a, b) ==> Clamp(value, a, b) == RMax(a, b)
    ensures Clamp(value, a, b) == Clamp(value, b, a)
  {
  }

  predicate Equalish(a: real, b: real, delta: real) {
    RAbs(a - b) <= delta
  }

  lemma EqualishMeaning(a: real, b: real, delta: real)
    ensures Equalish(a, b, delta) <==> a - delta <= b <= a + delta
    ensures Equalish(a, b, delta) == Equalish(b, a, delta)
    ensures Equalish(a, b, delta) <==> Difference(a, b) <= delta
  {
  }

  // ---------------------------------------------------------------------
  // MinMaxFloats and MapFloats.

  /** math.MaxFloat64, the largest finite float64: (2^53 - 1) · 2^971. */
  const MaxFloat64: real := (0x1F_FFFF_FFFF_FFFF as real) * Pow2(971)

  function Pow2(n: nat): (r: real)
    ensures r >= 1.0
  {
    if n == 0 then 1.0 else 2.0 * Pow2(n - 1)
  }

  /** A finite float64 value. */
  predicate Finite(x: real) {
    -MaxFloat64 <= x <= MaxFloat64
  }

  function SeqMin(s: seq<real>): real
    requires |s| > 0
  {
    if |s| == 1 then s[0] else RMin(SeqMin(s[..|s| - 1]), s[|s| - 1])
  }

  function SeqMax(s: seq<real>): real
    requires |s| > 0
  {
    if |s| == 1 then s[0] else RMax(SeqMax(s[..|s| - 1]), s[|s| - 1])
  }

  /** SeqMin and SeqMax are elements of the list and bound every element. */
  lemma {:induction false} SeqMinMaxBound(s: seq<real>)
    requires |s| > 0
    ensures SeqMin(s) in s && SeqMax(s) in s
    ensures forall i :: 0 <= i < |s| ==> SeqMin(s) <= s[i] <= SeqMax(s)
  {
    if |s| > 1 {
      var p := s[..|s| - 1];
      SeqMinMaxBound(p);
      assert s == p + [s[|s| - 1]];
      forall i | 0 <= i < |s| ensures SeqMin(s) <= s[i] <= SeqMax(s) {
        if i < |s| - 1 { assert s[i] == p[i]; }
      }
    }
  }

  /** MinMaxFloats of blmath/math.go: starts from (MaxFloat64, -MaxFloat64)
      and lowers/raises the pair over the list. */
  method MinMaxFloats(list: seq<real>) returns (min: real, max: real)
    requires forall i :: 0 <= i < |list| ==> Finite(list[i])
    ensures |list| == 0 ==> min == MaxFloat64 && max == -MaxFloat64
    ensures |list| > 0 ==> min == SeqMin(list) && max == SeqMax(list)
  {
    min, max := MaxFloat64, -MaxFloat64;
    var i := 0;
    while i < |list|
      invariant 0 <= i <= |list|
      invariant i == 0 ==> min == MaxFloat64 && max == -MaxFloat64
      invariant i > 0 ==> min == SeqMin(list[..i]) && max == SeqMax(list[..i])
    {
      var v := list[i];
      assert list[..i + 1][..i] == list[..i];
      if v < min {
        min := v;
      }
      if v > max {
        max := v;
      }
      i := i + 1;
    }
    assert list[..|list|] == list;
  }

  /** MapFloats of blmath/math.go: every entry is mapped from the list's own
      [min, max] range onto [minVal, maxVal]. A list whose entries are all
      equal gives 0/0 (NaN) in Go, hence the precondition. */
  method MapFloats(list: seq<real>, minVal: real, maxVal: real) returns (result: seq<real>)
    requires forall i :: 0 <= i < |list| ==> Finite(list[i])
    requires |list| == 0 || SeqMin(list) != SeqMax(list)
    ensures |result| == |list|
    ensures forall i :: 0 <= i < |list| ==>
      result[i] == Map(list[i], SeqMin(list), SeqMax(list), minVal, maxVal)
    ensures forall i :: 0 <= i < |list| ==> RMin(minVal, maxVal) <= result[i] <= RMax(minVal, maxVal)
  {
    var min, max := MinMaxFloats(list);
    var a := new real[|list|];
    var i := 0;
    while i < |list|
      invariant 0 <= i <= |list|
      invariant forall j :: 0 <= j < i ==> a[j] == Map(list[j], min, max, minVal, maxVal)
    {
      a[i] := Map(list[i], min, max, minVal, maxVal);
      i := i + 1;
    }
    result := a[..];
    if |list| > 0 {
      SeqMinMaxBound(list);
      forall j | 0 <= j < |list|
        ensures RMin(minVal, maxVal) <= result[j] <= RMax(minVal, maxVal)
      {
        MapProperties(list[j], min, max, minVal, maxVal);
      }
    }
  }
}
