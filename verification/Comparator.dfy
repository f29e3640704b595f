/** The comparator polynomial of pkg/ares/pool/circuit_openfhe.go: its coefficients and its shape. */
module Comparator {
  import opened Reals

  function Pow(x: real, n: nat): real { if n == 0 then 1.0 else x * Pow(x, n - 1) }

  /** The first n terms of an ascending coefficient list, as a sum of powers. */
  function PowerSum(c: seq<real>, x: real, n: nat): real
    requires n <= |c|
  {
    if n == 0 then 0.0 else PowerSum(c, x, n - 1) + Times(c[n - 1], Pow(x, n - 1))
  }

  function Poly(c: seq<real>, x: real): real { PowerSum(c, x, |c|) }

  // ---- Horner's scheme -------------------------------------------------------

  /** acc * x^i plus the terms below i: what Horner's loop keeps constant. */
  lemma {:induction false} HornerStep(c: seq<real>, x: real, i: nat, acc: real)
    requires i < |c|
    ensures acc * Pow(x, i + 1) + PowerSum(c, x, i + 1) == (acc * x + c[i]) * Pow(x, i) + PowerSum(c, x, i)
  {
    assert acc * (x * Pow(x, i)) == (acc * x) * Pow(x, i);
  }

  /** Horner evaluation agrees with the power sum the homomorphic evaluator is specified by. */
  method EvalPolyAt(coeffs: seq<real>, x: real) returns (acc: real)
    ensures acc == Poly(coeffs, x)
  {
    acc := 0.0;
    var i := |coeffs|;
    while i > 0
      invariant 0 <= i <= |coeffs|
      invariant acc * Pow(x, i) + PowerSum(coeffs, x, i) == Poly(coeffs, x)
    {
      i := i - 1;
      HornerStep(coeffs, x, i, acc);
      acc := acc * x + coeffs[i];
    }
  }

  // ---- coefficients ----------------------------------------------------------

  /** Maclaurin coefficients of tanh for z^1, z^3, ..., z^13. */
  const TanhSeries: seq<real> :=
    [1.0, -1.0 / 3.0, 2.0 / 15.0, -17.0 / 315.0, 62.0 / 2835.0, -1382.0 / 155925.0, 21844.0 / 6081075.0]

  predicate Odd(d: int) { d % 2 == 1 }

  /** The coefficient of x^d in one half plus half of an odd series in half * x. */
  function ShiftedAt(series: seq<real>, half: real, d: nat): real {
    if d == 0 then 0.5
    else if Odd(d) && d / 2 < |series| then 0.5 * Times(series[d / 2], Pow(half, d))
    else 0.0
  }

  /** The coefficient of x^d in the shifted logistic. */
  function LogisticAt(d: nat, gain: real): real { ShiftedAt(TanhSeries, gain / 2.0, d) }

  ghost predicate IsLogistic(c: seq<real>, degree: int, gain: real) {
    && |c| == (if degree < 1 then 1 else degree) + 1
    && forall d :: 0 <= d < |c| ==> c[d] == LogisticAt(d, gain)
  }

  method LogisticCoeffs(degree: int, gain: real) returns (coeffs: seq<real>)
    ensures IsLogistic(coeffs, degree, gain)
  {
    var top := degree;
    if top < 1 { top := 1; }
    coeffs := seq(top + 1, _ => 0.0);
    coeffs := coeffs[0 := 0.5];
    var half := gain / 2.0;
    var i := 0;
    while i < |TanhSeries|
      invariant 0 <= i <= |TanhSeries| && |coeffs| == top + 1
      invariant forall d :: 0 <= d <= top ==> coeffs[d] == if d < 2 * i + 1 then LogisticAt(d, gain) else 0.0
    {
      var d := 2 * i + 1;
      if d > top { break; }
      coeffs := coeffs[d := 0.5 * Times(TanhSeries[i], Pow(half, d))];
      i := i + 1;
      assert d + 1 <= top ==> LogisticAt(d + 1, gain) == 0.0;
    }
    assert forall d :: 0 <= d <= top && d >= 2 * i + 1 ==> LogisticAt(d, gain) == 0.0;
  }

  // ---- oddness ---------------------------------------------------------------

  lemma {:induction false} PowNegate(x: real, n: nat)
    ensures Pow(-x, n) == if Odd(n) then -Pow(x, n) else Pow(x, n)
  {
    if n > 0 { PowNegate(x, n - 1); }
  }

  /** Without even terms the polynomial is symmetric about its value at zero. */
  lemma {:induction false} OddTermsCancel(c: seq<real>, x: real, n: nat)
    requires 1 <= n <= |c|
    requires forall d :: 1 <= d < |c| && !Odd(d) ==> c[d] == 0.0
    ensures PowerSum(c, x, n) + PowerSum(c, -x, n) == 2.0 * c[0]
  {
    if n == 1 { return; }
    OddTermsCancel(c, x, n - 1);
    PowNegate(x, n - 1);
  }

  /** p(x) + p(-x) = 1 for every degree and gain; in particular p(0) = 1/2. */
  lemma LogisticIsOdd(c: seq<real>, degree: int, gain: real, x: real)
    requires IsLogistic(c, degree, gain)
    ensures Poly(c, x) + Poly(c, -x) == 1.0
  {
    OddTermsCancel(c, x, |c|);
  }

  // ---- the truncated series ----------------------------------------------------

  /** The first m terms of an odd series. */
  function OddSum(series: seq<real>, m: nat, z: real): real
    requires m <= |series|
  {
    if m == 0 then 0.0 else OddSum(series, m - 1, z) + Times(series[m - 1], Pow(z, 2 * m - 1))
  }

  lemma Regroup(a: real, b: real, p: real, q: real)
    ensures Times(a * p, b * q) == Times(a, b) * Times(p, q)
  {
    calc {
      (a * p) * (b * q);
      a * (p * (b * q));
      a * ((b * p) * q);
      (a * b) * (p * q);
    }
  }

  lemma {:induction false} PowProduct(a: real, b: real, ab: real, n: nat)
    requires ab == a * b
    ensures Times(Pow(a, n), Pow(b, n)) == Pow(ab, n)
  {
    if n == 0 { return; }
    PowProduct(a, b, ab, n - 1);
    Regroup(a, b, Pow(a, n - 1), Pow(b, n - 1));
  }

  function Terms(series: seq<real>, n: nat): nat { if n / 2 < |series| then n / 2 else |series| }

  lemma ScaledPower(coeff: real, t: real, half: real, x: real, z: real, d: nat)
    requires coeff == 0.5 * Times(t, Pow(half, d)) && z == half * x
    ensures Times(coeff, Pow(x, d)) == 0.5 * Times(t, Pow(z, d))
  {
    PowProduct(half, x, z, d);
    Reassociate(coeff, t, Pow(half, d), Pow(x, d));
  }

  lemma Reassociate(coeff: real, t: real, p: real, q: real)
    requires coeff == 0.5 * Times(t, p)
    ensures Times(coeff, q) == 0.5 * Times(t, Times(p, q))
  {}

  /** The polynomial with those coefficients is the truncated series, scaled and shifted. */
  lemma {:induction false} ShiftedSum(c: seq<real>, series: seq<real>, half: real, x: real, z: real, n: nat)
    requires (forall d :: 0 <= d < |c| ==> c[d] == ShiftedAt(series, half, d)) && z == half * x && 1 <= n <= |c|
    ensures PowerSum(c, x, n) == 0.5 + 0.5 * OddSum(series, Terms(series, n), z)
  {
    if n == 1 {
      FirstTerm(c, x);
      assert Terms(series, n) == 0;
    } else {
      ShiftedSum(c, series, half, x, z, n - 1);
      NextTerm(c[n - 1], series, half, x, z, n - 1);
    }
  }

  lemma FirstTerm(c: seq<real>, x: real)
    requires |c| > 0
    ensures PowerSum(c, x, 1) == c[0]
  {
    assert Pow(x, 0) == 1.0 && PowerSum(c, x, 0) == 0.0;
  }

  lemma NextTerm(coeff: real, series: seq<real>, half: real, x: real, z: real, d: nat)
    requires d > 0 && z == half * x && coeff == ShiftedAt(series, half, d)
    ensures Times(coeff, Pow(x, d)) == 0.5 * OddSum(series, Terms(series, d + 1), z) - 0.5 * OddSum(series, Terms(series, d), z)
  {
    if Odd(d) && d / 2 < |series| {
      ScaledPower(coeff, series[d / 2], half, x, z, d);
      SumGrows(series, d, z);
    } else {
      assert Terms(series, d + 1) == Terms(series, d);
    }
  }

  lemma SumGrows(series: seq<real>, d: nat, z: real)
    requires Odd(d) && d / 2 < |series|
    ensures OddSum(series, Terms(series, d + 1), z) ==
      OddSum(series, Terms(series, d), z) + Times(series[d / 2], Pow(z, d))
  {
    assert Terms(series, d + 1) == d / 2 + 1 && Terms(series, d) == d / 2 && 2 * (d / 2 + 1) - 1 == d;
  }

  // ---- the sign of the truncated series ----------------------------------------

  /** An odd series over z, as a polynomial in w = z * z. */
  function EvenSum(series: seq<real>, m: nat, w: real): real
    requires m <= |series|
  {
    if m == 0 then 0.0 else EvenSum(series, m - 1, w) + Times(series[m - 1], Pow(w, m - 1))
  }

  lemma {:induction false} PowOfSquare(z: real, n: nat)
    ensures Pow(z, 2 * n + 1) == Times(z, Pow(z * z, n))
  {
    if n == 0 { assert Pow(z, 1) == z * Pow(z, 0); return; }
    PowOfSquare(z, n - 1);
    var p := Pow(z * z, n - 1);
    assert Pow(z, 2 * n + 1) == z * (z * Pow(z, 2 * n - 1));
    assert z * (z * (z * p)) == z * ((z * z) * p);
  }

  lemma {:induction false} SeriesFactors(series: seq<real>, m: nat, z: real)
    requires m <= |series|
    ensures OddSum(series, m, z) == Times(z, EvenSum(series, m, z * z))
  {
    if m == 0 { return; }
    SeriesFactors(series, m - 1, z);
    PowOfSquare(z, m - 1);
    Distribute(z, EvenSum(series, m - 1, z * z), series[m - 1], Pow(z * z, m - 1));
  }

  lemma Distribute(z: real, f: real, t: real, p: real)
    ensures Times(z, f + Times(t, p)) == Times(z, f) + Times(t, Times(z, p))
  {}

  function Cofactor(m: nat, w: real): real
    requires m <= |TanhSeries|
  {
    EvenSum(TanhSeries, m, w)
  }

  /** The number of series terms a degree keeps. */
  function SeriesTerms(degree: int): (m: nat)
    ensures 1 <= m <= |TanhSeries|
  {
    Terms(TanhSeries, (if degree < 1 then 1 else degree) + 1)
  }

  /** The polynomial, factored: one half plus z times an even polynomial, for z half of gain times input. */
  lemma LogisticFactors(c: seq<real>, degree: int, gain: real, x: real, z: real)
    requires IsLogistic(c, degree, gain) && z == gain / 2.0 * x
    ensures Poly(c, x) == 0.5 + 0.5 * Times(z, Cofactor(SeriesTerms(degree), z * z))
  {
    ShiftedSum(c, TanhSeries, gain / 2.0, x, z, |c|);
    SeriesFactors(TanhSeries, SeriesTerms(degree), z);
  }

  lemma CofactorUpTo3(w: real)
    ensures Cofactor(1, w) == 1.0
    ensures Cofactor(2, w) == 1.0 - 1.0 / 3.0 * w
    ensures Cofactor(3, w) == Cofactor(2, w) + 2.0 / 15.0 * (w * w)
  {
    assert Pow(w, 0) == 1.0 && Pow(w, 1) == w && Pow(w, 2) == w * w;
    assert Cofactor(0, w) == 0.0;
    assert Cofactor(1, w) == Cofactor(0, w) + Times(TanhSeries[0], Pow(w, 0));
    assert Cofactor(2, w) == Cofactor(1, w) + Times(TanhSeries[1], Pow(w, 1));
    assert Cofactor(3, w) == Cofactor(2, w) + Times(TanhSeries[2], Pow(w, 2));
  }

  lemma PowersTo6(w: real)
    ensures Pow(w, 3) == w * (w * w) && Pow(w, 4) == (w * w) * (w * w)
    ensures Pow(w, 5) == (w * w) * (w * w) * w && Pow(w, 6) == (w * w) * (w * w) * (w * w)
  {
    assert Pow(w, 1) == w * Pow(w, 0) == w;
    assert Pow(w, 2) == w * w;
    assert Pow(w, 3) == w * (w * w);
    assert Pow(w, 4) == w * (w * (w * w));
    assert Pow(w, 5) == w * Pow(w, 4);
    assert Pow(w, 6) == w * Pow(w, 5);
  }

  lemma CofactorFrom4(w: real)
    ensures Cofactor(4, w) == Cofactor(3, w) - 17.0 / 315.0 * (w * (w * w))
    ensures Cofactor(5, w) == Cofactor(4, w) + 62.0 / 2835.0 * ((w * w) * (w * w))
    ensures Cofactor(6, w) == Cofactor(5, w) - 1382.0 / 155925.0 * ((w * w) * (w * w) * w)
    ensures Cofactor(7, w) == Cofactor(6, w) + 21844.0 / 6081075.0 * ((w * w) * (w * w) * (w * w))
  {
    PowersTo6(w);
    assert Cofactor(4, w) == Cofactor(3, w) + Times(TanhSeries[3], Pow(w, 3));
    assert Cofactor(5, w) == Cofactor(4, w) + Times(TanhSeries[4], Pow(w, 4));
    assert Cofactor(6, w) == Cofactor(5, w) + Times(TanhSeries[5], Pow(w, 5));
    assert Cofactor(7, w) == Cofactor(6, w) + Times(TanhSeries[6], Pow(w, 6));
  }

  /** a - b * t + c * t * t with a discriminant below zero is positive. */
  lemma QuadraticIsPositive(a: real, b: real, c: real, t: real, r: real)
    requires c > 0.0 && b == 2.0 * c * r && a > c * r * r
    ensures a - b * t + c * (t * t) > 0.0
  {
    assert (t - r) * (t - r) >= 0.0;
    assert c * ((t - r) * (t - r)) >= 0.0;
    Expand(c, t, r);
  }

  lemma Expand(c: real, t: real, r: real)
    ensures c * ((t - r) * (t - r)) == c * (t * t) - 2.0 * c * r * t + c * r * r
  {}

  lemma ScaledNonNegative(s: real, a: real, b: real, c: real, t: real)
    requires s >= 0.0 && a - b * t + c * (t * t) >= 0.0
    ensures a * s - b * (s * t) + c * (s * (t * t)) >= 0.0
  {
    var q := a - b * t + c * (t * t);
    assert s * q >= 0.0;
    assert s * q == a * s - b * (s * t) + c * (s * (t * t));
  }

  /** With an odd number of terms the last one outweighs the others everywhere. */
  lemma OddCofactorBound(m: nat, w: real)
    requires Odd(m) && m <= |TanhSeries| && w >= 0.0
    ensures Cofactor(m, w) >= 2.0 / 3.0
  {
    if m == 1 { CofactorUpTo3(w); }
    else if m == 3 { CofactorBound3(w); }
    else if m == 5 { CofactorBound5(w); }
    else { assert m == 7; CofactorBound7(w); }
  }

  lemma CofactorBound3(w: real)
    ensures Cofactor(3, w) >= 2.0 / 3.0
  {
    CofactorUpTo3(w);
    SquareSign(w);
    BottomTerm(w);
    Bound3(w, w * w);
  }

  lemma CofactorBound5(w: real)
    ensures Cofactor(5, w) >= 2.0 / 3.0
  {
    CofactorUpTo3(w);
    CofactorFrom4(w);
    BottomTerm(w);
    MiddleFor5(w);
    Bound5(w, w * w, w * (w * w), (w * w) * (w * w));
  }

  lemma CofactorBound7(w: real)
    ensures Cofactor(7, w) >= 2.0 / 3.0
  {
    CofactorUpTo3(w);
    CofactorFrom4(w);
    BottomTerm(w);
    MiddleFor7(w);
    TopFor7(w);
    Bound7(w, w * w, w * (w * w), (w * w) * (w * w), (w * w) * (w * w) * w, (w * w) * (w * w) * (w * w));
  }

  lemma BottomTerm(w: real)
    ensures 1.0 / 3.0 - 1.0 / 3.0 * w + 17.0 / 200.0 * (w * w) >= 0.0
  {
    QuadraticIsPositive(1.0 / 3.0, 1.0 / 3.0, 17.0 / 200.0, w, (1.0 / 3.0) / (17.0 / 100.0));
  }

  lemma MiddleFor5(w: real)
    ensures 29.0 / 600.0 * (w * w) - 17.0 / 315.0 * (w * (w * w)) + 62.0 / 2835.0 * ((w * w) * (w * w)) >= 0.0
  {
    QuadraticIsPositive(29.0 / 600.0, 17.0 / 315.0, 62.0 / 2835.0, w, (17.0 / 315.0) / (124.0 / 2835.0));
    ScaledNonNegative(w * w, 29.0 / 600.0, 17.0 / 315.0, 62.0 / 2835.0, w);
  }

  lemma MiddleFor7(w: real)
    ensures 29.0 / 600.0 * (w * w) - 17.0 / 315.0 * (w * (w * w)) + 2.0 / 125.0 * ((w * w) * (w * w)) >= 0.0
  {
    QuadraticIsPositive(29.0 / 600.0, 17.0 / 315.0, 2.0 / 125.0, w, (17.0 / 315.0) / (4.0 / 125.0));
    ScaledNonNegative(w * w, 29.0 / 600.0, 17.0 / 315.0, 2.0 / 125.0, w);
  }

  lemma TopFor7(w: real)
    ensures (62.0 / 2835.0 - 2.0 / 125.0) * ((w * w) * (w * w)) - 1382.0 / 155925.0 * ((w * w) * (w * w) * w)
          + 21844.0 / 6081075.0 * ((w * w) * (w * w) * (w * w)) >= 0.0
  {
    var a, b, c := 62.0 / 2835.0 - 2.0 / 125.0, 1382.0 / 155925.0, 21844.0 / 6081075.0;
    SquareSign(w * w);
    QuadraticIsPositive(a, b, c, w, b / (2.0 * c));
    ScaledNonNegative((w * w) * (w * w), a, b, c, w);
  }

  lemma SquareSign(z: real)
    ensures z * z >= 0.0
  {}

  // The same sums with the powers of w named, so that what is left is linear.
  lemma Bound3(w: real, w2: real)
    requires w2 >= 0.0 && 1.0 / 3.0 - 1.0 / 3.0 * w + 17.0 / 200.0 * w2 >= 0.0
    ensures 1.0 - 1.0 / 3.0 * w + 2.0 / 15.0 * w2 >= 2.0 / 3.0
  {}

  lemma Bound5(w: real, w2: real, w3: real, w4: real)
    requires 1.0 / 3.0 - 1.0 / 3.0 * w + 17.0 / 200.0 * w2 >= 0.0
    requires 29.0 / 600.0 * w2 - 17.0 / 315.0 * w3 + 62.0 / 2835.0 * w4 >= 0.0
    ensures 1.0 - 1.0 / 3.0 * w + 2.0 / 15.0 * w2 - 17.0 / 315.0 * w3 + 62.0 / 2835.0 * w4 >= 2.0 / 3.0
  {}

  lemma Bound7(w: real, w2: real, w3: real, w4: real, w5: real, w6: real)
    requires 1.0 / 3.0 - 1.0 / 3.0 * w + 17.0 / 200.0 * w2 >= 0.0
    requires 29.0 / 600.0 * w2 - 17.0 / 315.0 * w3 + 2.0 / 125.0 * w4 >= 0.0
    requires (62.0 / 2835.0 - 2.0 / 125.0) * w4 - 1382.0 / 155925.0 * w5 + 21844.0 / 6081075.0 * w6 >= 0.0
    ensures 1.0 - 1.0 / 3.0 * w + 2.0 / 15.0 * w2 - 17.0 / 315.0 * w3 + 62.0 / 2835.0 * w4
          - 1382.0 / 155925.0 * w5 + 21844.0 / 6081075.0 * w6 >= 2.0 / 3.0
  {}

  // A difference of powers over the difference of the bases.
  function H1(u: real, v: real): real { u + v }
  function H2(u: real, v: real): real { u * u + u * v + v * v }
  function H3(u: real, v: real): real { u * (u * u) + (u * v) * H1(u, v) + v * (v * v) }
  function H4(u: real, v: real): real { (u * u) * (u * u) + (u * v) * H2(u, v) + (v * v) * (v * v) }

  lemma PowerGaps(u: real, v: real)
    ensures v * v - u * u == Times(v - u, H1(u, v))
    ensures v * (v * v) - u * (u * u) == Times(v - u, H2(u, v))
    ensures (v * v) * (v * v) - (u * u) * (u * u) == Times(v - u, H3(u, v))
  {}

  lemma FifthGap(u: real, v: real)
    ensures (v * v) * (v * v) * v - (u * u) * (u * u) * u == Times(v - u, H4(u, v))
  {}

  lemma H2Bound(u: real, v: real)
    ensures H2(u, v) >= 0.75 * (H1(u, v) * H1(u, v))
  {
    assert (u - v) * (u - v) >= 0.0;
  }

  /** The slope of the cofactor between u and v, with four and with six terms. */
  lemma Slope4(u: real, v: real)
    ensures 1.0 / 3.0 - 2.0 / 15.0 * H1(u, v) + 17.0 / 315.0 * H2(u, v) > 0.0
  {
    H2Bound(u, v);
    QuadraticIsPositive(1.0 / 3.0, 2.0 / 15.0, 17.0 / 420.0, H1(u, v), (2.0 / 15.0) / (17.0 / 210.0));
  }

  lemma HighSlope(u: real, v: real)
    requires u >= 0.0 && v >= 0.0
    ensures 9.0 / 500.0 * H2(u, v) - 62.0 / 2835.0 * H3(u, v) + 1382.0 / 155925.0 * H4(u, v) >= 0.0
  {
    EndTerm(u);
    EndTerm(v);
    MixedTerm(u, v);
    ThreeTerms(u * u, u * v, v * v, u * (u * u), v * (v * v), (u * u) * (u * u), (v * v) * (v * v),
               (u * v) * H1(u, v), (u * v) * H2(u, v));
  }

  lemma EndTerm(u: real)
    ensures 9.0 / 500.0 * (u * u) - 62.0 / 2835.0 * (u * (u * u)) + 1382.0 / 155925.0 * ((u * u) * (u * u)) >= 0.0
  {
    var e, b, c := 9.0 / 500.0, 62.0 / 2835.0, 1382.0 / 155925.0;
    QuadraticIsPositive(e, b, c, u, b / (2.0 * c));
    ScaledNonNegative(u * u, e, b, c, u);
  }

  lemma MixedTerm(u: real, v: real)
    requires u >= 0.0 && v >= 0.0
    ensures 9.0 / 500.0 * (u * v) - 62.0 / 2835.0 * ((u * v) * H1(u, v)) + 1382.0 / 155925.0 * ((u * v) * H2(u, v)) >= 0.0
  {
    var e, b, c := 9.0 / 500.0, 62.0 / 2835.0, 1382.0 / 155925.0;
    QuadraticIsPositive(e, b, 0.75 * c, H1(u, v), b / (1.5 * c));
    H2Bound(u, v);
    MiddleTerm(u * v, e, b, c, H1(u, v), H2(u, v));
  }

  lemma ThreeTerms(uu: real, uv: real, vv: real, u3: real, v3: real, u4: real, v4: real, uv1: real, uv2: real)
    requires 9.0 / 500.0 * uu - 62.0 / 2835.0 * u3 + 1382.0 / 155925.0 * u4 >= 0.0
    requires 9.0 / 500.0 * vv - 62.0 / 2835.0 * v3 + 1382.0 / 155925.0 * v4 >= 0.0
    requires 9.0 / 500.0 * uv - 62.0 / 2835.0 * uv1 + 1382.0 / 155925.0 * uv2 >= 0.0
    ensures 9.0 / 500.0 * (uu + uv + vv) - 62.0 / 2835.0 * (u3 + uv1 + v3) + 1382.0 / 155925.0 * (u4 + uv2 + v4) >= 0.0
  {}

  lemma MiddleTerm(s: real, e: real, b: real, c: real, h1: real, h2: real)
    requires s >= 0.0 && e - b * h1 + c * h2 >= 0.0
    ensures e * s - b * (s * h1) + c * (s * h2) >= 0.0
  {
    assert s * (e - b * h1 + c * h2) >= 0.0;
  }

  lemma Slope6(u: real, v: real)
    requires u >= 0.0 && v >= 0.0
    ensures 1.0 / 3.0 - 2.0 / 15.0 * H1(u, v) + 17.0 / 315.0 * H2(u, v) - 62.0 / 2835.0 * H3(u, v)
          + 1382.0 / 155925.0 * H4(u, v) > 0.0
  {
    var a := 17.0 / 315.0 - 9.0 / 500.0;
    HighSlope(u, v);
    H2Bound(u, v);
    QuadraticIsPositive(1.0 / 3.0, 2.0 / 15.0, 0.75 * a, H1(u, v), (2.0 / 15.0) / (1.5 * a));
  }

  /** With an even number of terms the cofactor falls strictly. */
  lemma EvenCofactorFalls(m: nat, u: real, v: real)
    requires !Odd(m) && 2 <= m <= |TanhSeries| && 0.0 <= u < v
    ensures Cofactor(m, u) > Cofactor(m, v)
  {
    if m == 2 {
      CofactorUpTo3(u);
      CofactorUpTo3(v);
    } else if m == 4 {
      Falls4(u, v);
    } else {
      assert m == 6;
      Falls6(u, v);
    }
  }

  lemma Falls4(u: real, v: real)
    requires 0.0 <= u < v
    ensures Cofactor(4, u) > Cofactor(4, v)
  {
    Gap4(u, v);
    Slope4(u, v);
    FallBy4(v - u, H1(u, v), H2(u, v));
  }

  lemma Falls6(u: real, v: real)
    requires 0.0 <= u < v
    ensures Cofactor(6, u) > Cofactor(6, v)
  {
    Gap4(u, v);
    Gap6(u, v);
    Slope6(u, v);
    FallBy6(v - u, H1(u, v), H2(u, v), H3(u, v), H4(u, v));
  }

  lemma Gap4(u: real, v: real)
    ensures Cofactor(4, u) - Cofactor(4, v) ==
      1.0 / 3.0 * (v - u) - 2.0 / 15.0 * Times(v - u, H1(u, v)) + 17.0 / 315.0 * Times(v - u, H2(u, v))
  {
    CofactorUpTo3(u); CofactorFrom4(u);
    CofactorUpTo3(v); CofactorFrom4(v);
    PowerGaps(u, v);
  }

  lemma Gap6(u: real, v: real)
    ensures Cofactor(6, u) - Cofactor(6, v) == Cofactor(4, u) - Cofactor(4, v)
      - 62.0 / 2835.0 * Times(v - u, H3(u, v)) + 1382.0 / 155925.0 * Times(v - u, H4(u, v))
  {
    CofactorFrom4(u);
    CofactorFrom4(v);
    PowerGaps(u, v);
    FifthGap(u, v);
  }

  lemma FallBy4(d: real, h1: real, h2: real)
    requires d > 0.0 && 1.0 / 3.0 - 2.0 / 15.0 * h1 + 17.0 / 315.0 * h2 > 0.0
    ensures 1.0 / 3.0 * d - 2.0 / 15.0 * Times(d, h1) + 17.0 / 315.0 * Times(d, h2) > 0.0
  {
    var s := 1.0 / 3.0 - 2.0 / 15.0 * h1 + 17.0 / 315.0 * h2;
    assert d * s == 1.0 / 3.0 * d - 2.0 / 15.0 * (d * h1) + 17.0 / 315.0 * (d * h2);
    PositiveProduct(d, s);
  }

  lemma FallBy6(d: real, h1: real, h2: real, h3: real, h4: real)
    requires d > 0.0
    requires 1.0 / 3.0 - 2.0 / 15.0 * h1 + 17.0 / 315.0 * h2 - 62.0 / 2835.0 * h3 + 1382.0 / 155925.0 * h4 > 0.0
    ensures 1.0 / 3.0 * d - 2.0 / 15.0 * Times(d, h1) + 17.0 / 315.0 * Times(d, h2) - 62.0 / 2835.0 * Times(d, h3)
          + 1382.0 / 155925.0 * Times(d, h4) > 0.0
  {
    var s := 1.0 / 3.0 - 2.0 / 15.0 * h1 + 17.0 / 315.0 * h2 - 62.0 / 2835.0 * h3 + 1382.0 / 155925.0 * h4;
    assert d * s == 1.0 / 3.0 * d - 2.0 / 15.0 * (d * h1) + 17.0 / 315.0 * (d * h2) - 62.0 / 2835.0 * (d * h3)
                  + 1382.0 / 155925.0 * (d * h4);
    PositiveProduct(d, s);
  }

  lemma PositiveProduct(a: real, b: real)
    requires a > 0.0 && b > 0.0
    ensures a * b > 0.0
  {}

  /** Values of the cofactor at 1 and 4: the sign changes in between. */
  lemma EvenCofactorEnds(m: nat)
    requires !Odd(m) && 2 <= m <= |TanhSeries|
    ensures Cofactor(m, 1.0) >= 2.0 / 3.0 && Cofactor(m, 4.0) < 0.0
  {
    CofactorUpTo3(1.0); CofactorFrom4(1.0);
    CofactorUpTo3(4.0); CofactorFrom4(4.0);
  }

  // ---- where the polynomial is a comparator ----------------------------------

  /** The comparator reads x right: at least one half exactly for a non-negative input. */
  ghost predicate ReadsRight(c: seq<real>, x: real) { Poly(c, x) >= 0.5 <==> x >= 0.0 }

  /** The square of half of gain times input: what decides the reading. */
  function Spread(gain: real, x: real): real { (gain / 2.0 * x) * (gain / 2.0 * x) }

  lemma ReadingIsSign(c: seq<real>, degree: int, gain: real, x: real)
    requires IsLogistic(c, degree, gain) && gain > 0.0
    ensures x >= 0.0 ==> (ReadsRight(c, x) <==> x == 0.0 || Cofactor(SeriesTerms(degree), Spread(gain, x)) >= 0.0)
    ensures x < 0.0 ==> (ReadsRight(c, x) <==> Cofactor(SeriesTerms(degree), Spread(gain, x)) > 0.0)
  {
    ReadingAt(c, degree, gain, x, gain / 2.0 * x, Spread(gain, x));
  }

  lemma ReadingAt(c: seq<real>, degree: int, gain: real, x: real, z: real, w: real)
    requires IsLogistic(c, degree, gain) && gain > 0.0 && z == gain / 2.0 * x && w == z * z
    ensures x >= 0.0 ==> (ReadsRight(c, x) <==> x == 0.0 || Cofactor(SeriesTerms(degree), w) >= 0.0)
    ensures x < 0.0 ==> (ReadsRight(c, x) <==> Cofactor(SeriesTerms(degree), w) > 0.0)
  {
    LogisticFactors(c, degree, gain, x, z);
    SameSign(gain / 2.0, x, z);
    SignOfReading(Poly(c, x), z, Cofactor(SeriesTerms(degree), w));
  }

  lemma SignOfReading(p: real, z: real, f: real)
    requires p == 0.5 + 0.5 * Times(z, f)
    ensures z == 0.0 ==> p == 0.5
    ensures z > 0.0 ==> (p >= 0.5 <==> f >= 0.0)
    ensures z < 0.0 ==> (p >= 0.5 <==> f <= 0.0)
  {
    SignOfProduct(z, f);
  }

  lemma SameSign(half: real, x: real, z: real)
    requires half > 0.0 && z == half * x
    ensures z > 0.0 <==> x > 0.0
    ensures z < 0.0 <==> x < 0.0
  {}

  lemma SignOfProduct(z: real, f: real)
    ensures z == 0.0 ==> Times(z, f) == 0.0
    ensures z > 0.0 ==> (Times(z, f) >= 0.0 <==> f >= 0.0)
    ensures z < 0.0 ==> (Times(z, f) >= 0.0 <==> f <= 0.0)
  {}

  /** Degrees that keep an odd number of terms, 13 among them: right for every gain and every input. */
  lemma OddReadsRight(c: seq<real>, degree: int, gain: real, x: real)
    requires IsLogistic(c, degree, gain) && gain > 0.0 && Odd(SeriesTerms(degree))
    ensures ReadsRight(c, x)
  {
    ReadingIsSign(c, degree, gain, x);
    OddCofactorBound(SeriesTerms(degree), Spread(gain, x));
  }

  /** Where the cofactor of a degree changes its sign. */
  predicate IsThreshold(degree: int, t: real) { t >= 0.0 && Cofactor(SeriesTerms(degree), t) == 0.0 }

  /** The other degrees: right if and only if the input stays within the degree's threshold. */
  lemma EvenReadsRightIff(c: seq<real>, degree: int, gain: real, x: real, t: real)
    requires IsLogistic(c, degree, gain) && gain > 0.0 && !Odd(SeriesTerms(degree)) && IsThreshold(degree, t)
    ensures ReadsRight(c, x) <==> if x >= 0.0 then Spread(gain, x) <= t else Spread(gain, x) < t
  {
    EvenReadsRightWithin(c, degree, gain, x, t);
    if Spread(gain, x) == t { ReadingIsSign(c, degree, gain, x); }
    EvenCofactorEnds(SeriesTerms(degree));
  }

  /** The same without the root: every bound on either side of it decides its inputs. */
  lemma EvenReadsRightWithin(c: seq<real>, degree: int, gain: real, x: real, t: real)
    requires IsLogistic(c, degree, gain) && gain > 0.0 && !Odd(SeriesTerms(degree)) && t >= 0.0
    ensures Cofactor(SeriesTerms(degree), t) >= 0.0 && Spread(gain, x) < t ==> ReadsRight(c, x)
    ensures Cofactor(SeriesTerms(degree), t) <= 0.0 && Spread(gain, x) > t ==> !ReadsRight(c, x)
  {
    var m, w := SeriesTerms(degree), Spread(gain, x);
    ReadingIsSign(c, degree, gain, x);
    if w < t { EvenCofactorFalls(m, w, t); }
    if w > t {
      EvenCofactorFalls(m, t, w);
    }
  }

  /** There is one threshold at most, it lies between 1 and 4, and halving closes in on it without end. */
  lemma {:induction false} ThresholdWithin(degree: int, n: nat) returns (lo: real, hi: real)
    requires !Odd(SeriesTerms(degree))
    ensures 1.0 <= lo < hi <= 4.0 && Times(hi - lo, Pow(2.0, n)) == 3.0
    ensures Cofactor(SeriesTerms(degree), lo) >= 0.0 > Cofactor(SeriesTerms(degree), hi)
    ensures forall t :: IsThreshold(degree, t) ==> lo <= t < hi
  {
    var m := SeriesTerms(degree);
    if n == 0 {
      lo, hi := 1.0, 4.0;
      EvenCofactorEnds(m);
      assert Pow(2.0, n) == 1.0;
    } else {
      lo, hi := ThresholdWithin(degree, n - 1);
      var mid := (lo + hi) / 2.0;
      HalveGap(hi - lo, Pow(2.0, n - 1));
      if Cofactor(m, mid) >= 0.0 { lo := mid; } else { hi := mid; }
    }
    forall t | IsThreshold(degree, t) ensures lo <= t < hi { Between(m, lo, hi, t); }
  }

  lemma Between(m: nat, lo: real, hi: real, t: real)
    requires !Odd(m) && 2 <= m <= |TanhSeries| && 0.0 <= lo <= hi && t >= 0.0
    requires Cofactor(m, lo) >= 0.0 > Cofactor(m, hi) && Cofactor(m, t) == 0.0
    ensures lo <= t < hi
  {
    if t < lo { EvenCofactorFalls(m, t, lo); }
    if t > hi { EvenCofactorFalls(m, hi, t); }
  }

  lemma HalveGap(gap: real, p: real)
    ensures Times(gap / 2.0, 2.0 * p) == Times(gap, p)
  {}

  /** Every degree with an even number of terms misreads some positive input: gain 4, input 1. */
  lemma EvenMiss(c: seq<real>, degree: int)
    requires IsLogistic(c, degree, 4.0) && !Odd(SeriesTerms(degree))
    ensures Poly(c, 1.0) < 0.5
  {
    ReadingIsSign(c, degree, 4.0, 1.0);
    EvenCofactorEnds(SeriesTerms(degree));
    assert Spread(4.0, 1.0) == 4.0;
  }

  /** Degrees 3 and 4 have a rational threshold. */
  lemma CubicThreshold(degree: int)
    requires 3 <= degree <= 4
    ensures !Odd(SeriesTerms(degree)) && IsThreshold(degree, 3.0)
  {
    CofactorUpTo3(3.0);
  }

  /** The cofactor is at least two thirds: always with an odd number of terms, up to 1 with an even one. */
  lemma CofactorBound(m: nat, w: real)
    requires 1 <= m <= |TanhSeries| && w >= 0.0 && (Odd(m) || w <= 1.0)
    ensures Cofactor(m, w) >= 2.0 / 3.0
  {
    if Odd(m) {
      OddCofactorBound(m, w);
    } else {
      EvenCofactorEnds(m);
      if w < 1.0 { EvenCofactorFalls(m, w, 1.0); }
    }
  }

  /** Inputs on which a degree separates with a margin that grows with the input. */
  predicate Trusted(degree: int, gain: real, x: real) { Odd(SeriesTerms(degree)) || -2.0 <= gain * x <= 2.0 }

  lemma LogisticSeparates(c: seq<real>, degree: int, gain: real, x: real)
    requires IsLogistic(c, degree, gain) && Trusted(degree, gain, x)
    ensures gain * x >= 0.0 ==> Poly(c, x) >= 0.5 + gain * x / 6.0
    ensures gain * x <= 0.0 ==> Poly(c, x) <= 0.5 + gain * x / 6.0
  {
    var z := gain / 2.0 * x;
    assert z == gain * x / 2.0;
    LogisticFactors(c, degree, gain, x, z);
    SquareSign(z);
    if -1.0 <= z <= 1.0 { SquareInUnit(z); }
    CofactorBound(SeriesTerms(degree), z * z);
    MarginOf(z, Cofactor(SeriesTerms(degree), z * z));
  }

  lemma SquareInUnit(z: real)
    requires -1.0 <= z <= 1.0
    ensures z * z <= 1.0
  {
    ProductSign(1.0 - z, 1.0 + z);
    assert (1.0 - z) * (1.0 + z) == 1.0 - z * z;
  }

  lemma MarginOf(z: real, f: real)
    requires f >= 2.0 / 3.0
    ensures z >= 0.0 ==> Times(z, f) >= 2.0 / 3.0 * z
    ensures z <= 0.0 ==> Times(z, f) <= 2.0 / 3.0 * z
  {
    if z >= 0.0 { assert z * (f - 2.0 / 3.0) >= 0.0; }
    if z <= 0.0 { assert (-z) * (f - 2.0 / 3.0) >= 0.0; }
  }
}
