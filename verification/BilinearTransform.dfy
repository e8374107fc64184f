/** The algebra behind the constructor of cotave/ButterworthFilter.ipp: an analogue
    prototype, its bilinear transform and the values that decide the filter. The
    cosines of the pole angles and a = tan(pi * cutoff / sampling) are parameters. */
module BilinearTransform {
  import opened PolynomialAlgebra
  import opened PolynomialModule

  /** What the constructor's callers supply: a cutoff below half the sampling rate
      makes a positive, and the pole angles lie strictly between 0 and pi/2. */
  datatype Design = Design(order: nat, cosines: seq<real>, a: real)

  predicate WellPosed(d: Design) {
    && |d.cosines| == d.order / 2
    && d.a > 0.0
    && forall k :: 0 <= k < |d.cosines| ==> 0.0 < d.cosines[k] < 1.0
  }

  const ONE: seq<real> := [1.0]
  const Z1: seq<real> := [1.0, -1.0]

  function Z2(a: real): seq<real> {
    [a, a]
  }

  function Quadratic(c: real): seq<real> {
    [1.0, 2.0 * c, 1.0]
  }

  function Quadratics(cosines: seq<real>): (p: seq<real>)
    ensures |p| == 2 * |cosines| + 1
  {
    if |cosines| == 0 then ONE
    else Product(Quadratics(cosines[..|cosines| - 1]), Quadratic(cosines[|cosines| - 1]))
  }

  /** The denominator in s. */
  function Prototype(d: Design): (p: seq<real>)
    requires WellPosed(d)
    ensures |p| == d.order + 1
  {
    if d.order % 2 == 1 then Product(Quadratics(d.cosines), [1.0, 1.0]) else Quadratics(d.cosines)
  }

  /** p * q^m, by m in-place multiplications. */
  function TimesPower(p: seq<real>, q: seq<real>, m: nat): seq<real> {
    if m == 0 then p else Product(TimesPower(p, q, m - 1), q)
  }

  /** z1^i * z2^(n-i). */
  function Basis(a: real, n: nat, i: nat): seq<real>
    requires i <= n
  {
    TimesPower(TimesPower(ONE, Z1, i), Z2(a), n - i)
  }

  /** The first m terms of the transformed denominator. */
  function Transformed(den: seq<real>, a: real, m: nat): (r: seq<real>)
    requires m <= |den|
    ensures NoTopZero(r)
  {
    if m == 0 then []
    else Trim(Sum(Transformed(den, a, m - 1), Scaled(Basis(a, |den| - 1, m - 1), den[m - 1])))
  }

  function RetDen(d: Design): seq<real>
    requires WellPosed(d)
  {
    Transformed(Prototype(d), d.a, d.order + 1)
  }

  function RetNum(d: Design): seq<real> {
    TimesPower(ONE, Z2(d.a), d.order)
  }

  // ---------------------------------------------------------------- homogeneous sums

  /** The sum over i < m of p[i] * u^i * v^(n-i), where n is the degree of p. */
  function Homogeneous(p: seq<real>, u: real, v: real, m: nat): real
    requires m <= |p|
  {
    if m == 0 then 0.0
    else Homogeneous(p, u, v, m - 1) + Mul(p[m - 1], Mul(Power(u, m - 1), Power(v, |p| - m)))
  }

  lemma {:induction false} EvalTimesPower(p: seq<real>, q: seq<real>, m: nat, x: real)
    ensures Eval(TimesPower(p, q, m), x) == Mul(Eval(p, x), Power(Eval(q, x), m))
  {
    hide Mul;
    if m == 0 {
      MulZeroOne(Eval(p, x));
    } else {
      EvalTimesPower(p, q, m - 1, x);
      EvalProduct(TimesPower(p, q, m - 1), q, x);
      MulAssociates(Eval(p, x), Power(Eval(q, x), m - 1), Eval(q, x));
    }
  }

  lemma EvalLinear(b: real, c: real, x: real)
    ensures Eval([b, c], x) == b + Mul(x, c)
    ensures Eval([b], x) == b
  {
    hide Mul;
    MulZeroOne(x);
    assert Eval([], x) == 0.0;
    assert [b][1..] == [] && [c][1..] == [];
    assert Eval([c], x) == c;
    assert [b, c][1..] == [c];
  }

  lemma EvalZ1(x: real)
    ensures Eval(Z1, x) == 1.0 - x
  {
    EvalLinear(1.0, -1.0, x);
  }

  lemma EvalZ2(a: real, x: real)
    ensures Eval(Z2(a), x) == Mul(a, 1.0 + x)
  {
    EvalLinear(a, a, x);
  }

  lemma EvalBasis(a: real, n: nat, i: nat, x: real)
    requires i <= n
    ensures Eval(Basis(a, n, i), x) == Mul(Power(1.0 - x, i), Power(Mul(a, 1.0 + x), n - i))
  {
    hide Mul, Eval, TimesPower, Power;
    assert Basis(a, n, i) == TimesPower(TimesPower(ONE, Z1, i), Z2(a), n - i);
    EvalTimesPower(ONE, Z1, i, x);
    EvalTimesPower(TimesPower(ONE, Z1, i), Z2(a), n - i, x);
    EvalLinear(1.0, 1.0, x);
    EvalZ1(x);
    EvalZ2(a, x);
    MulZeroOne(Power(1.0 - x, i));
  }

  lemma {:induction false} EvalTransformed(den: seq<real>, a: real, m: nat, x: real)
    requires m <= |den|
    ensures Eval(Transformed(den, a, m), x) == Homogeneous(den, 1.0 - x, Mul(a, 1.0 + x), m)
  {
    hide Mul, Power, Trim, Sum, Scaled, Basis, NoTopZero;
    if m > 0 {
      hide Eval;
      EvalTransformed(den, a, m - 1, x);
      EvalTerm(Transformed(den, a, m - 1), Basis(a, |den| - 1, m - 1), den[m - 1], x);
      EvalBasis(a, |den| - 1, m - 1, x);
    }
  }

  lemma {:induction false} PowerQuotient(u: real, v: real, w: real, i: nat, n: nat)
    requires i <= n && u == Mul(v, w)
    ensures Mul(Power(u, i), Power(v, n - i)) == Mul(Power(v, n), Power(w, i))
  {
    hide Mul;
    if i == 0 {
      MulZeroOne(Power(v, n));
    } else {
      PowerQuotient(u, v, w, i - 1, n);
      Regroup(Power(u, i - 1), v, w, Power(v, n - i), Power(v, n), Power(w, i - 1));
    }
  }

  lemma Regroup(s: real, v: real, w: real, t: real, f: real, g: real)
    requires Mul(s, Mul(t, v)) == Mul(f, g)
    ensures Mul(Mul(s, Mul(v, w)), t) == Mul(f, Mul(g, w))
  {
    assert Mul(Mul(s, Mul(v, w)), t) == (s * (t * v)) * w;
    assert Mul(f, Mul(g, w)) == (f * g) * w;
  }

  /** The homogeneous sum is v^n times the value at w, when u = v * w. */
  lemma {:induction false} HomogeneousIsEval(p: seq<real>, u: real, v: real, w: real, m: nat)
    requires m <= |p| && |p| > 0 && u == Mul(v, w)
    ensures Homogeneous(p, u, v, m) == Mul(Power(v, |p| - 1), PowerSum(p, w, m))
  {
    hide Mul;
    var f := Power(v, |p| - 1);
    if m == 0 {
      MulZeroOne(f);
    } else {
      HomogeneousIsEval(p, u, v, w, m - 1);
      PowerQuotient(u, v, w, m - 1, |p| - 1);
      var g := Power(w, m - 1);
      MulDistributes(f, PowerSum(p, w, m - 1), Mul(p[m - 1], g));
      MulAssociates(p[m - 1], f, g);
      MulAssociates(f, p[m - 1], g);
      MulCommutes(f, p[m - 1]);
    }
  }

  /** The transform preserves the transfer function: with x standing for 1/z and
      s * a(1+x) = 1-x, the digital numerator over the digital denominator at x is
      1 over the prototype at s. */
  lemma TransferFunction(d: Design, x: real, s: real)
    requires WellPosed(d) && Mul(Mul(d.a, 1.0 + x), s) == 1.0 - x
    ensures Eval(RetDen(d), x) == Mul(Eval(RetNum(d), x), Eval(Prototype(d), s))
    ensures Eval(RetNum(d), x) == Power(Mul(d.a, 1.0 + x), d.order)
  {
    hide *;
    EvalNumerator(d, x);
    var p, v := Prototype(d), Mul(d.a, 1.0 + x);
    RetDenIs(d);
    EvalTransformed(p, d.a, |p|, x);
    HomogeneousIsEval(p, 1.0 - x, v, s, |p|);
    EvalIsPowerSum(p, s, |p|);
    assert p[..|p|] == p;
  }

  lemma RetDenIs(d: Design)
    requires WellPosed(d)
    ensures RetDen(d) == Transformed(Prototype(d), d.a, d.order + 1)
  {
    hide Transformed, Prototype;
  }

  lemma EvalNumerator(d: Design, x: real)
    ensures Eval(RetNum(d), x) == Power(Mul(d.a, 1.0 + x), d.order)
  {
    hide Mul;
    EvalLinear(1.0, 1.0, x);
    EvalZ2(d.a, x);
    EvalTimesPower(ONE, Z2(d.a), d.order, x);
    MulZeroOne(Power(Mul(d.a, 1.0 + x), d.order));
  }

  // ---------------------------------------------------------------- signs

  predicate Positive(p: seq<real>) {
    forall i :: 0 <= i < |p| ==> p[i] > 0.0
  }

  lemma MulPositive(x: real, y: real)
    requires x > 0.0 && y > 0.0
    ensures Mul(x, y) > 0.0
  {
  }

  lemma {:induction false} PowerPositive(x: real, n: nat)
    requires x > 0.0
    ensures Power(x, n) > 0.0
  {
    hide Mul;
    if n > 0 {
      PowerPositive(x, n - 1);
      MulPositive(Power(x, n - 1), x);
    }
  }

  lemma {:induction false} EvalPositive(p: seq<real>, x: real)
    requires Positive(p) && |p| > 0 && x > 0.0
    ensures Eval(p, x) > 0.0
  {
    hide Mul;
    if |p| > 1 {
      EvalPositive(p[1..], x);
      MulPositive(x, Eval(p[1..], x));
    } else {
      MulZeroOne(x);
    }
  }

  /** Without negative coefficients every term bounds the convolution from below. */
  lemma {:induction false} ConvolutionPositive(p: seq<real>, q: seq<real>, k: nat, n: nat, i: nat)
    requires n <= |p| && Positive(p) && Positive(q)
    ensures Convolution(p, q, k, n) >= 0.0
    ensures i < n && 0 <= k - i < |q| ==> Convolution(p, q, k, n) > 0.0
  {
    hide Mul;
    if n > 0 {
      ConvolutionPositive(p, q, k, n - 1, i);
      MulZeroOne(p[n - 1]);
      if 0 <= k - (n - 1) < |q| { MulPositive(p[n - 1], q[k - (n - 1)]); }
    }
  }

  lemma ProductPositive(p: seq<real>, q: seq<real>)
    requires Positive(p) && Positive(q)
    ensures Positive(Product(p, q))
  {
    var r := Product(p, q);
    forall k | 0 <= k < |r| ensures r[k] > 0.0 {
      ConvolutionPositive(p, q, k, |p|, if k < |p| then k else |p| - 1);
    }
  }

  lemma {:induction false} QuadraticsPositive(cosines: seq<real>)
    requires forall k :: 0 <= k < |cosines| ==> 0.0 < cosines[k] < 1.0
    ensures Positive(Quadratics(cosines)) && Quadratics(cosines)[0] == 1.0
  {
    if |cosines| > 0 {
      var n := |cosines| - 1;
      QuadraticsPositive(cosines[..n]);
      ProductPositive(Quadratics(cosines[..n]), Quadratic(cosines[n]));
      TopCoefficient(Quadratics(cosines[..n]), Quadratic(cosines[n]));
    }
  }

  lemma PrototypePositive(d: Design)
    requires WellPosed(d)
    ensures Positive(Prototype(d)) && |Prototype(d)| > 0 && Prototype(d)[0] == 1.0
  {
    QuadraticsPositive(d.cosines);
    ProductPositive(Quadratics(d.cosines), [1.0, 1.0]);
    TopCoefficient(Quadratics(d.cosines), [1.0, 1.0]);
  }

  /** A quadratic with |c| < 1 has no real root. */
  lemma QuadraticAt(c: real, x: real)
    requires 0.0 < c < 1.0
    ensures Eval(Quadratic(c), x) > 0.0
  {
    var q := Quadratic(c);
    assert q[1..] == [2.0 * c, 1.0];
    hide Mul;
    EvalLinear(2.0 * c, 1.0, x);
    MulZeroOne(x);
    SquareComplete(c, x);
    SquareNotNegative(x + c);
    SquareBelowOne(c);
  }

  /** 1 + x (2c + x) = (x + c)^2 + (1 - c^2). */
  lemma SquareComplete(c: real, x: real)
    ensures Mul(x, 2.0 * c + x) == Mul(x + c, x + c) - Mul(c, c)
  {
  }

  lemma SquareNotNegative(s: real)
    ensures Mul(s, s) >= 0.0
  {
  }

  lemma SquareBelowOne(c: real)
    requires 0.0 < c < 1.0
    ensures Mul(c, c) < 1.0
  {
  }

  lemma {:induction false} QuadraticsNonzero(cosines: seq<real>, x: real)
    requires forall k :: 0 <= k < |cosines| ==> 0.0 < cosines[k] < 1.0
    ensures Eval(Quadratics(cosines), x) > 0.0
  {
    hide Mul;
    if |cosines| == 0 {
      EvalLinear(1.0, 1.0, x);
    } else {
      var n := |cosines| - 1;
      QuadraticsNonzero(cosines[..n], x);
      QuadraticAt(cosines[n], x);
      EvalProduct(Quadratics(cosines[..n]), Quadratic(cosines[n]), x);
      MulPositive(Eval(Quadratics(cosines[..n]), x), Eval(Quadratic(cosines[n]), x));
    }
  }

  /** The prototype's only real zero is -1, for odd orders. */
  lemma PrototypeZero(d: Design, x: real)
    requires WellPosed(d)
    ensures Eval(Prototype(d), x) == 0.0 <==> d.order % 2 == 1 && x == -1.0
  {
    hide Mul;
    QuadraticsNonzero(d.cosines, x);
    if d.order % 2 == 1 {
      EvalProduct(Quadratics(d.cosines), [1.0, 1.0], x);
      EvalLinear(1.0, 1.0, x);
      MulZeroOne(x);
      MulNonzero(Eval(Quadratics(d.cosines), x), 1.0 + x);
    }
  }

  // ---------------------------------------------------------------- first and last coefficient

  lemma {:induction false} TopOfPower(p: seq<real>, q: seq<real>, m: nat)
    requires |p| > 0 && |q| == 2
    ensures |TimesPower(p, q, m)| == |p| + m
    ensures TimesPower(p, q, m)[|p| + m - 1] == Mul(p[|p| - 1], Power(q[1], m))
  {
    hide Mul;
    if m == 0 {
      MulZeroOne(p[|p| - 1]);
    } else {
      TopOfPower(p, q, m - 1);
      TopCoefficient(TimesPower(p, q, m - 1), q);
      MulAssociates(p[|p| - 1], Power(q[1], m - 1), q[1]);
    }
  }

  lemma BasisTop(a: real, n: nat, i: nat)
    requires i <= n
    ensures |Basis(a, n, i)| == n + 1
    ensures Basis(a, n, i)[n] == Mul(Power(-1.0, i), Power(a, n - i))
  {
    hide Mul;
    TopOfPower(ONE, Z1, i);
    TopOfPower(TimesPower(ONE, Z1, i), Z2(a), n - i);
    MulZeroOne(Power(-1.0, i));
  }

  lemma ScaledAt(p: seq<real>, b: real, k: int)
    ensures At(Scaled(p, b), k) == Mul(At(p, k), b)
  {
    MulZeroOne(b);
    MulZeroOne(At(p, k));
  }

  lemma TopTerm(t: seq<real>, b: seq<real>, c: real, n: nat)
    requires |t| <= n + 1 && |b| == n + 1
    ensures |Trim(Sum(t, Scaled(b, c)))| <= n + 1
    ensures At(Trim(Sum(t, Scaled(b, c))), n) == At(t, n) + Mul(c, b[n])
  {
    var s := Scaled(b, c);
    hide Mul, Scaled, Trim;
    TrimAt(Sum(t, s), n);
    SumAt(t, s, n);
    ScaledAt(b, c, n);
    MulCommutes(b[n], c);
  }

  /** The coefficient of degree n is the homogeneous sum at (-1, a). */
  lemma {:induction false} TopOfTransformed(den: seq<real>, a: real, m: nat)
    requires 0 < |den| && m <= |den|
    ensures |Transformed(den, a, m)| <= |den|
    ensures At(Transformed(den, a, m), |den| - 1) == Homogeneous(den, -1.0, a, m)
  {
    hide Mul, Power, Trim, Sum, Scaled, Basis, NoTopZero;
    if m > 0 {
      TopOfTransformed(den, a, m - 1);
      BasisTop(a, |den| - 1, m - 1);
      hide At;
      TopTerm(Transformed(den, a, m - 1), Basis(a, |den| - 1, m - 1), den[m - 1], |den| - 1);
    }
  }

  lemma Reciprocal(a: real) returns (w: real)
    requires a > 0.0
    ensures w > 0.0 && Mul(a, w) == 1.0 && Mul(a, -w) == -1.0
    ensures -w == -1.0 <==> a == 1.0
  {
    w := 1.0 / a;
  }

  /** All order + 1 coefficients that the constructor reads exist, unless the order is
      odd and a is exactly 1: then the highest one cancels and is trimmed away. */
  lemma DenominatorLength(d: Design)
    requires WellPosed(d)
    ensures |RetDen(d)| == d.order + 1 <==> !(d.order % 2 == 1 && d.a == 1.0)
  {
    hide Mul, Eval, Prototype, Power;
    var v := Reciprocal(d.a);
    var w := -v;
    TopValue(d, w);
    PowerPositive(d.a, d.order);
    MulNonzero(Power(d.a, d.order), Eval(Prototype(d), w));
    PrototypeZero(d, w);
  }

  lemma TopValue(d: Design, w: real)
    requires WellPosed(d) && Mul(d.a, w) == -1.0
    ensures |RetDen(d)| <= d.order + 1 && NoTopZero(RetDen(d))
    ensures At(RetDen(d), d.order) == Mul(Power(d.a, d.order), Eval(Prototype(d), w))
  {
    hide *;
    var p := Prototype(d);
    RetDenIs(d);
    TopOfTransformed(p, d.a, |p|);
    HomogeneousIsEval(p, -1.0, d.a, w, |p|);
    EvalIsPowerSum(p, w, |p|);
    assert p[..|p|] == p;
  }

  /** The divisor ret_den(0) exists and is positive. */
  lemma DivisorPositive(d: Design)
    requires WellPosed(d)
    ensures |RetDen(d)| > 0 && RetDen(d)[0] > 0.0
  {
    assert d.a > 0.0;
    hide *;
    var w := Reciprocal(d.a);
    PrototypePositive(d);
    EvalPositive(Prototype(d), w);
    PowerPositive(d.a, d.order);
    MulPositive(Power(d.a, d.order), Eval(Prototype(d), w));
    MulZeroOne(d.a);
    TransferFunction(d, 0.0, w);
    AtZero(RetDen(d));
  }

  lemma AtZero(p: seq<real>)
    ensures Eval(p, 0.0) == At(p, 0)
    ensures Eval(p, 0.0) != 0.0 ==> |p| > 0 && p[0] == Eval(p, 0.0)
  {
    EvalAt(p, 0.0);
    MulZeroOne(Eval(Tail(p), 0.0));
  }

  /** At z = 1 numerator and denominator agree. */
  lemma EqualAtOne(d: Design)
    requires WellPosed(d)
    ensures Eval(RetDen(d), 1.0) == Eval(RetNum(d), 1.0)
  {
    hide Mul;
    MulZeroOne(Mul(d.a, 1.0 + 1.0));
    TransferFunction(d, 1.0, 0.0);
    PrototypePositive(d);
    EvalAt(Prototype(d), 0.0);
    MulZeroOne(Eval(Tail(Prototype(d)), 0.0));
    MulZeroOne(Eval(RetNum(d), 1.0));
  }

  lemma NumeratorLength(d: Design)
    ensures |RetNum(d)| == d.order + 1
  {
    TopOfPower(ONE, Z2(d.a), d.order);
  }
}
