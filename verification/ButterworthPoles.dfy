/** Where the poles of the Butterworth prototype lie, and the magnitude response that
    follows: cotave/ButterworthFilter.ipp:29-45 over the complex numbers. */
module ButterworthPoles {
  import opened PolynomialAlgebra
  import opened BilinearTransform
  import C = ComplexNumbers

  // ---------------------------------------------------------------- real polynomials at complex numbers

  function CEval(p: seq<real>, z: C.Complex): C.Complex {
    if |p| == 0 then C.ZERO else C.Plus(C.Real(p[0]), C.Times(z, CEval(p[1..], z)))
  }

  lemma CEvalAt(p: seq<real>, z: C.Complex)
    ensures CEval(p, z) == C.Plus(C.Real(At(p, 0)), C.Times(z, CEval(Tail(p), z)))
  {
    hide C.Times, C.Plus;
    C.TimesOne(z);
    C.TimesOne(C.ZERO);
    assert C.Real(0.0) == C.ZERO;
  }

  lemma {:induction false} CEvalZeros(p: seq<real>, z: C.Complex)
    requires forall i :: 0 <= i < |p| ==> p[i] == 0.0
    ensures CEval(p, z) == C.ZERO
  {
    C.TimesOne(z);
    if |p| > 0 { CEvalZeros(p[1..], z); }
  }

  lemma {:induction false} CEvalSame(p: seq<real>, q: seq<real>, z: C.Complex)
    requires forall i :: 0 <= i ==> At(p, i) == At(q, i)
    ensures CEval(p, z) == CEval(q, z)
    decreases |p|
  {
    hide C.Times, C.Plus;
    if |p| == 0 {
      forall i | 0 <= i < |q| ensures q[i] == 0.0 { assert At(p, i) == At(q, i); }
      CEvalZeros(q, z);
    } else if |q| == 0 {
      forall i | 0 <= i < |p| ensures p[i] == 0.0 { assert At(p, i) == At(q, i); }
      CEvalZeros(p, z);
    } else {
      assert At(p, 0) == At(q, 0);
      forall i | 0 <= i ensures At(p[1..], i) == At(q[1..], i) { assert At(p, i + 1) == At(q, i + 1); }
      CEvalSame(p[1..], q[1..], z);
    }
  }

  lemma {:induction false} CEvalSum(p: seq<real>, q: seq<real>, z: C.Complex)
    ensures CEval(Sum(p, q), z) == C.Plus(CEval(p, z), CEval(q, z))
    decreases |p| + |q|
  {
    if |p| + |q| == 0 {
      C.TimesOne(C.ZERO);
    } else {
      hide C.Times, C.Plus, C.Real, Sum;
      CEvalSum(Tail(p), Tail(q), z);
      SumTail(p, q);
      SumAt(p, q, 0);
      CEvalAt(p, z);
      CEvalAt(q, z);
      CEvalAt(Sum(p, q), z);
      C.TimesPlus(z, CEval(Tail(p), z), CEval(Tail(q), z));
      Regroup(At(p, 0), At(q, 0), C.Times(z, CEval(Tail(p), z)), C.Times(z, CEval(Tail(q), z)));
    }
  }

  lemma Regroup(a: real, b: real, u: C.Complex, v: C.Complex)
    ensures C.Plus(C.Real(a + b), C.Plus(u, v)) == C.Plus(C.Plus(C.Real(a), u), C.Plus(C.Real(b), v))
  {
  }

  lemma {:induction false} CEvalScale(p: seq<real>, b: real, z: C.Complex)
    ensures CEval(ScaleBy(p, b), z) == C.Times(C.Real(b), CEval(p, z))
  {
    C.TimesOne(C.Real(b));
    if |p| > 0 {
      hide C.Times, C.Plus, C.Real, Mul, ScaleBy;
      CEvalScale(p[1..], b, z);
      ScaleTail(p, b);
      ScaleHead(p, b);
      var v := CEval(p[1..], z);
      RealTimes(p[0], b);
      C.TimesPlus(C.Real(b), C.Real(p[0]), C.Times(z, v));
      C.TimesAssociates(C.Real(b), z, v);
      C.TimesCommutes(C.Real(b), z);
      C.TimesAssociates(z, C.Real(b), v);
    }
  }

  lemma ScaleHead(p: seq<real>, b: real)
    requires |p| > 0
    ensures ScaleBy(p, b)[0] == Mul(p[0], b)
  {
  }

  lemma RealTimes(a: real, b: real)
    ensures C.Real(Mul(a, b)) == C.Times(C.Real(b), C.Real(a))
  {
  }

  lemma {:induction false} CEvalProduct(p: seq<real>, q: seq<real>, z: C.Complex)
    ensures CEval(Product(p, q), z) == C.Times(CEval(p, z), CEval(q, z))
  {
    C.TimesOne(CEval(p, z));
    C.TimesOne(CEval(q, z));
    if |p| > 0 && |q| > 0 {
      hide Product, Convolution, Sum, ScaleBy, At, C.Times, C.Plus;
      var r := Product(p[1..], q);
      var s, t := ScaleBy(q, p[0]), [0.0] + r;
      forall i | 0 <= i ensures At(Product(p, q), i) == At(Sum(s, t), i) { ProductStep(p, q, i); }
      CEvalSame(Product(p, q), Sum(s, t), z);
      CEvalSum(s, t, z);
      CEvalScale(q, p[0], z);
      CEvalProduct(p[1..], q, z);
      assert t[1..] == r;
      var u, v := CEval(p[1..], z), CEval(q, z);
      C.TimesOne(C.Times(z, C.Times(u, v)));
      C.TimesAssociates(z, u, v);
      C.TimesCommutes(C.Plus(C.Real(p[0]), C.Times(z, u)), v);
      C.TimesPlus(v, C.Real(p[0]), C.Times(z, u));
      C.TimesCommutes(v, C.Real(p[0]));
      C.TimesCommutes(v, C.Times(z, u));
    }
  }

  // ---------------------------------------------------------------- the poles

  /** There are no zero divisors. */
  lemma TimesZero(a: C.Complex, b: C.Complex)
    ensures C.Times(a, b) == C.ZERO <==> a == C.ZERO || b == C.ZERO
  {
    hide C.Times, C.Norm;
    C.NormTimes(a, b);
    NormZero(a);
    NormZero(b);
    NormZero(C.Times(a, b));
    NoDivisors(C.Norm(a), C.Norm(b));
    C.TimesOne(a);
    C.TimesOne(b);
  }

  lemma NormZero(a: C.Complex)
    ensures C.Norm(a) >= 0.0 && (C.Norm(a) == 0.0 <==> a == C.ZERO)
  {
    RealSquare(a.re);
    RealSquare(a.im);
  }

  lemma RealSquare(x: real)
    ensures x * x >= 0.0 && (x * x == 0.0 <==> x == 0.0)
  {
    SquareNotNegative(x);
    MulNonzero(x, x);
  }

  lemma NoDivisors(x: real, y: real)
    ensures x * y == 0.0 <==> x == 0.0 || y == 0.0
  {
    MulNonzero(x, y);
  }

  lemma CEvalQuadratic(c: real, z: C.Complex)
    ensures CEval(Quadratic(c), z)
         == C.Plus(C.ONE, C.Times(z, C.Plus(C.Real(2.0 * c), z)))
  {
    hide C.Times;
    var q := Quadratic(c);
    assert q[1..] == [2.0 * c, 1.0] && q[1..][1..] == [1.0] && [1.0][1..] == [];
    C.TimesOne(z);
    C.TimesOne(C.ONE);
    assert CEval([1.0], z) == C.ONE;
    assert CEval([2.0 * c, 1.0], z) == C.Plus(C.Real(2.0 * c), z);
  }

  lemma QuadraticParts(c: real, x: real, y: real)
    ensures C.Plus(C.ONE, C.Times(C.Complex(x, y), C.Plus(C.Real(2.0 * c), C.Complex(x, y))))
         == C.Complex((x + c) * (x + c) + 1.0 - c * c - y * y, 2.0 * ((x + c) * y))
  {
    Expanded(x, c);
  }

  lemma Expanded(x: real, c: real)
    ensures (x + c) * (x + c) == x * (2.0 * c + x) + c * c
  {
  }

  /** z is one of the two poles with real part -c: on the unit circle. */
  predicate PoleOf(c: real, z: C.Complex) {
    z.re == -c && C.Norm(z) == 1.0
  }

  lemma QuadraticZeros(c: real, z: C.Complex)
    requires 0.0 < c < 1.0
    ensures CEval(Quadratic(c), z) == C.ZERO <==> PoleOf(c, z)
  {
    var x, y := z.re, z.im;
    CEvalQuadratic(c, z);
    QuadraticParts(c, x, y);
    NoDivisors(x + c, y);
    SquareBelow(c);
    RealSquare(x + c);
    if x + c == 0.0 {
      assert x == -c;
      assert x * x == c * c by { NegSquare(c); }
      assert (x + c) * (x + c) == 0.0;
    } else if y == 0.0 {
      assert y * y == 0.0;
    }
  }

  lemma NegSquare(c: real)
    ensures (-c) * (-c) == c * c
  {
  }

  lemma SquareBelow(c: real)
    requires 0.0 < c < 1.0
    ensures c * c < 1.0
  {
  }

  /** One of the poles that the constructor places. */
  predicate IsPole(d: Design, z: C.Complex) {
    || (exists k :: 0 <= k < |d.cosines| && PoleOf(d.cosines[k], z))
    || (d.order % 2 == 1 && z == C.Real(-1.0))
  }

  lemma {:induction false} QuadraticsZeros(cosines: seq<real>, z: C.Complex)
    requires forall k :: 0 <= k < |cosines| ==> 0.0 < cosines[k] < 1.0
    ensures CEval(Quadratics(cosines), z) == C.ZERO <==> exists k :: 0 <= k < |cosines| && PoleOf(cosines[k], z)
  {
    hide C.Times, Product, Quadratic, PoleOf;
    if |cosines| == 0 {
      C.TimesOne(z);
      assert ONE[1..] == [];
    } else {
      var n := |cosines| - 1;
      QuadraticsZeros(cosines[..n], z);
      QuadraticZeros(cosines[n], z);
      CEvalProduct(Quadratics(cosines[..n]), Quadratic(cosines[n]), z);
      TimesZero(CEval(Quadratics(cosines[..n]), z), CEval(Quadratic(cosines[n]), z));
      if k :| 0 <= k < n && PoleOf(cosines[..n][k], z) { assert PoleOf(cosines[k], z); }
      if k :| 0 <= k < n && PoleOf(cosines[k], z) { assert PoleOf(cosines[..n][k], z); }
    }
  }

  lemma CEvalLinear(z: C.Complex)
    ensures CEval([1.0, 1.0], z) == C.Plus(C.ONE, z)
    ensures CEval(ONE, z) == C.ONE
  {
    hide C.Times;
    assert [1.0, 1.0][1..] == [1.0] && [1.0][1..] == [];
    C.TimesOne(z);
    C.TimesOne(C.ONE);
    assert CEval([1.0], z) == C.ONE;
  }

  /** The zeros of the prototype are the two points of the unit circle with real part -c
      for every cosine c, and -1 for odd orders; there are no others. */
  lemma PrototypePoles(d: Design, z: C.Complex)
    requires WellPosed(d)
    ensures CEval(Prototype(d), z) == C.ZERO <==> IsPole(d, z)
  {
    hide C.Times, Product, PoleOf, Quadratics, CEval;
    QuadraticsZeros(d.cosines, z);
    if d.order % 2 == 1 {
      CEvalProduct(Quadratics(d.cosines), [1.0, 1.0], z);
      TimesZero(CEval(Quadratics(d.cosines), z), CEval([1.0, 1.0], z));
      CEvalLinear(z);
    }
  }

  /** Every pole is on the unit circle and stable: its real part is negative. */
  lemma PolesStable(d: Design, z: C.Complex)
    requires WellPosed(d) && CEval(Prototype(d), z) == C.ZERO
    ensures C.Norm(z) == 1.0 && z.re < 0.0
  {
    hide CEval, Prototype, C.Norm;
    PrototypePoles(d, z);
    assert C.Norm(C.Real(-1.0)) == 1.0 by { MinusOneNorm(); }
  }

  lemma MinusOneNorm()
    ensures C.Norm(C.Real(-1.0)) == 1.0
  {
  }

  // ---------------------------------------------------------------- a monic polynomial and its roots

  /** The product of z - r over the roots r. */
  function Factors(roots: seq<C.Complex>, z: C.Complex): C.Complex {
    if |roots| == 0 then C.ONE else C.Times(C.Minus(z, roots[0]), Factors(roots[1..], z))
  }

  /** Synthetic division by X - r. */
  function Deflated(c: seq<C.Complex>, r: C.Complex): (q: seq<C.Complex>)
    requires |c| > 0
    ensures |q| == |c| - 1
    ensures |q| > 0 ==> q[|q| - 1] == c[|c| - 1]
  {
    if |c| == 1 then []
    else
      assert |c| == 2 ==> C.Evaluate(c[1..], r) == c[1] by { if |c| == 2 { EvaluateOne(c[1..], r); } }
      [C.Evaluate(c[1..], r)] + Deflated(c[1..], r)
  }

  lemma EvaluateOne(c: seq<C.Complex>, r: C.Complex)
    requires |c| == 1
    ensures C.Evaluate(c, r) == c[0]
  {
    assert C.Evaluate(c[1..], r) == C.ZERO;
    C.TimesOne(r);
    C.TimesOne(c[0]);
  }

  lemma {:induction false} DeflatedEval(c: seq<C.Complex>, r: C.Complex, x: C.Complex)
    requires |c| > 0
    ensures C.Evaluate(c, x)
         == C.Plus(C.Evaluate(c, r), C.Times(C.Minus(x, r), C.Evaluate(Deflated(c, r), x)))
  {
    hide C.Times, C.Plus, C.Minus;
    if |c| == 1 {
      EvaluateOne(c, x);
      EvaluateOne(c, r);
      C.TimesOne(C.Minus(x, r));
      C.TimesOne(c[0]);
    } else {
      var t := c[1..];
      DeflatedEval(t, r, x);
      var q := Deflated(t, r);
      assert Deflated(c, r)[1..] == q;
      DeflateStep(c[0], r, x, C.Evaluate(t, r), C.Evaluate(q, x));
    }
  }

  lemma DeflateStep(a: C.Complex, r: C.Complex, x: C.Complex, e: C.Complex, v: C.Complex)
    ensures C.Plus(a, C.Times(x, C.Plus(e, C.Times(C.Minus(x, r), v))))
         == C.Plus(C.Plus(a, C.Times(r, e)), C.Times(C.Minus(x, r), C.Plus(e, C.Times(x, v))))
  {
    var d := C.Minus(x, r);
    hide C.Times;
    C.TimesPlus(x, e, C.Times(d, v));
    C.TimesPlus(d, e, C.Times(x, v));
    C.TimesAssociates(x, d, v);
    C.TimesAssociates(d, x, v);
    C.TimesCommutes(x, d);
    C.TimesCommutes(d, e);
    C.TimesMinus(e, x, r);
    C.TimesCommutes(e, x);
    C.TimesCommutes(e, r);
  }

  predicate Distinct(roots: seq<C.Complex>) {
    forall i, j :: 0 <= i < j < |roots| ==> roots[i] != roots[j]
  }

  /** A monic polynomial with as many distinct roots as its degree is their product. */
  lemma {:induction false} MonicFactors(c: seq<C.Complex>, roots: seq<C.Complex>, z: C.Complex)
    requires |c| == |roots| + 1 && c[|roots|] == C.ONE && Distinct(roots)
    requires forall i :: 0 <= i < |roots| ==> C.Evaluate(c, roots[i]) == C.ZERO
    ensures C.Evaluate(c, z) == Factors(roots, z)
    decreases |roots|
  {
    hide C.Times, C.Plus, C.Minus, C.Evaluate, Deflated;
    if |roots| == 0 {
      EvaluateOne(c, z);
    } else {
      var r, q := roots[0], Deflated(c, roots[0]);
      forall i | 0 <= i < |roots| - 1 ensures C.Evaluate(q, roots[1..][i]) == C.ZERO {
        OtherRoot(c, r, roots[i + 1]);
      }
      MonicFactors(q, roots[1..], z);
      DeflatedEval(c, r, z);
      C.TimesOne(C.Times(C.Minus(z, r), C.Evaluate(q, z)));
    }
  }

  lemma OtherRoot(c: seq<C.Complex>, r: C.Complex, x: C.Complex)
    requires |c| > 0 && C.Evaluate(c, r) == C.ZERO && C.Evaluate(c, x) == C.ZERO && x != r
    ensures C.Evaluate(Deflated(c, r), x) == C.ZERO
  {
    hide *;
    MinusZero(x, r);
    DeflatedEval(c, r, x);
    C.TimesOne(C.Times(C.Minus(x, r), C.Evaluate(Deflated(c, r), x)));
    TimesZero(C.Minus(x, r), C.Evaluate(Deflated(c, r), x));
  }

  lemma MinusZero(x: C.Complex, r: C.Complex)
    ensures C.Minus(x, r) == C.ZERO <==> x == r
  {
  }

  /** X^n. */
  function Monomial(n: nat): (c: seq<C.Complex>)
    ensures |c| == n + 1 && c[n] == C.ONE
  {
    if n == 0 then [C.ONE] else [C.ZERO] + Monomial(n - 1)
  }

  lemma {:induction false} MonomialEval(n: nat, z: C.Complex)
    ensures C.Evaluate(Monomial(n), z) == C.Power(z, n)
  {
    hide C.Times, C.Plus;
    if n == 0 {
      EvaluateOne(Monomial(0), z);
    } else {
      MonomialEval(n - 1, z);
      assert Monomial(n)[1..] == Monomial(n - 1);
      C.TimesOne(C.Power(z, n));
    }
  }

  /** If y^n = e has n distinct solutions, y^n - e is their product everywhere. */
  lemma PowerFactors(n: nat, e: C.Complex, roots: seq<C.Complex>, y: C.Complex)
    requires n >= 1 && |roots| == n && Distinct(roots)
    requires forall i :: 0 <= i < n ==> C.Power(roots[i], n) == e
    ensures C.Minus(C.Power(y, n), e) == Factors(roots, y)
  {
    hide C.Times, C.Power, Factors;
    var c := [C.Neg(e)] + Monomial(n - 1);
    forall i | 0 <= i < n ensures C.Evaluate(c, roots[i]) == C.ZERO {
      PowerMinus(n, e, roots[i]);
    }
    PowerMinus(n, e, y);
    MonicFactors(c, roots, y);
  }

  lemma PowerMinus(n: nat, e: C.Complex, z: C.Complex)
    requires n >= 1
    ensures C.Evaluate([C.Neg(e)] + Monomial(n - 1), z) == C.Minus(C.Power(z, n), e)
  {
    hide C.Times;
    var c := [C.Neg(e)] + Monomial(n - 1);
    assert c[1..] == Monomial(n - 1);
    MonomialEval(n - 1, z);
  }

  // ---------------------------------------------------------------- the magnitude response

  function Conj(z: C.Complex): C.Complex {
    C.Complex(z.re, -z.im)
  }

  /** 1 or -1. */
  function SignOf(n: nat): real {
    if n % 2 == 0 then 1.0 else -1.0
  }

  /** The cosines are those of the angles (order - 2k - 1) pi / (2 order): points of the
      unit circle whose power 2 order is a half turn to the order - 1, all different. With
      the angles between 0 and pi/2 there are order / 2 of them, no more. */
  predicate Angles(d: Design, sines: seq<real>) {
    && |sines| == |d.cosines|
    && (forall k :: 0 <= k < |sines| ==>
         d.cosines[k] * d.cosines[k] + sines[k] * sines[k] == 1.0
         && C.Power(C.Complex(d.cosines[k], sines[k]), 2 * d.order) == C.Real(-SignOf(d.order)))
    && (forall j, k :: 0 <= j < k < |sines| ==> d.cosines[j] != d.cosines[k])
  }

  /** The squares of the poles other than -1. */
  function Squares(cosines: seq<real>, sines: seq<real>): (q: seq<C.Complex>)
    requires |cosines| == |sines|
    ensures |q| == 2 * |cosines|
  {
    if |cosines| == 0 then []
    else
      var n := |cosines| - 1;
      var u := C.Complex(cosines[n], sines[n]);
      Squares(cosines[..n], sines[..n]) + [C.Times(u, u), C.Times(Conj(u), Conj(u))]
  }

  lemma PowerConj(z: C.Complex, n: nat)
    ensures C.Power(Conj(z), n) == Conj(C.Power(z, n))
  {
    if n > 0 {
      PowerConj(z, n - 1);
      TimesConj(z, C.Power(z, n - 1));
    }
  }

  lemma TimesConj(a: C.Complex, b: C.Complex)
    ensures C.Times(Conj(a), Conj(b)) == Conj(C.Times(a, b))
  {
  }

  lemma {:induction false} CEvalConj(p: seq<real>, z: C.Complex)
    ensures CEval(p, Conj(z)) == Conj(CEval(p, z))
  {
    if |p| > 0 {
      CEvalConj(p[1..], z);
      hide C.Times, Conj, C.Plus, C.Real;
      TimesConj(z, CEval(p[1..], z));
      PlusConj(p[0], C.Times(z, CEval(p[1..], z)));
    }
  }

  lemma PlusConj(a: real, b: C.Complex)
    ensures Conj(C.Plus(C.Real(a), b)) == C.Plus(C.Real(a), Conj(b))
  {
  }

  /** The quadratic has the zeros -u and its conjugate. */
  lemma QuadraticFactors(c: real, s: real, z: C.Complex)
    requires c * c + s * s == 1.0
    ensures var u := C.Complex(c, s);
      CEval(Quadratic(c), z) == C.Times(C.Plus(z, u), C.Plus(z, Conj(u)))
  {
    var u := C.Complex(c, s);
    CEvalQuadratic(c, z);
    hide C.Times;
    C.TimesPlus(C.Plus(z, u), z, Conj(u));
    C.TimesCommutes(C.Plus(z, u), z);
    C.TimesCommutes(C.Plus(z, u), Conj(u));
    C.TimesPlus(z, z, u);
    C.TimesPlus(Conj(u), z, u);
    C.TimesPlus(z, C.Real(2.0 * c), z);
    C.TimesCommutes(Conj(u), z);
    C.TimesPlus(z, u, Conj(u));
    UnitTimes(c, s);
    assert C.Plus(u, Conj(u)) == C.Real(2.0 * c);
    var a, b, q := C.Times(z, u), C.Times(z, Conj(u)), C.Times(z, z);
    assert C.Plus(a, b) == C.Times(z, C.Real(2.0 * c));
    SumOfFour(q, a, b);
  }

  lemma UnitTimes(c: real, s: real)
    requires c * c + s * s == 1.0
    ensures C.Times(Conj(C.Complex(c, s)), C.Complex(c, s)) == C.ONE
  {
    assert c * s == s * c;
  }

  lemma SumOfFour(q: C.Complex, a: C.Complex, b: C.Complex)
    ensures C.Plus(C.ONE, C.Plus(C.Plus(a, b), q)) == C.Plus(C.Plus(q, a), C.Plus(b, C.ONE))
  {
  }

  lemma Opposite(u: C.Complex, z: C.Complex)
    ensures C.Times(C.Plus(z, u), C.Plus(C.Neg(z), u)) == C.Minus(C.Times(u, u), C.Times(z, z))
  {
    hide C.Times;
    C.TimesPlus(C.Plus(z, u), C.Neg(z), u);
    C.TimesCommutes(C.Plus(z, u), C.Neg(z));
    C.TimesCommutes(C.Plus(z, u), u);
    C.TimesPlus(C.Neg(z), z, u);
    C.TimesPlus(u, z, u);
    C.TimesNeg(z, z);
    C.TimesNeg(z, u);
    C.TimesCommutes(z, u);
  }

  /** The product of r - y over the roots r. */
  function Falling(roots: seq<C.Complex>, y: C.Complex): C.Complex {
    if |roots| == 0 then C.ONE else C.Times(C.Minus(roots[0], y), Falling(roots[1..], y))
  }

  lemma {:induction false} FallingConcat(a: seq<C.Complex>, b: seq<C.Complex>, y: C.Complex)
    ensures Falling(a + b, y) == C.Times(Falling(a, y), Falling(b, y))
  {
    hide C.Times, C.Minus;
    if |a| == 0 {
      assert a + b == b;
      C.TimesOne(Falling(b, y));
    } else {
      FallingConcat(a[1..], b, y);
      assert (a + b)[1..] == a[1..] + b;
      C.TimesAssociates(C.Minus(a[0], y), Falling(a[1..], y), Falling(b, y));
    }
  }

  lemma FallingTwo(a: C.Complex, b: C.Complex, y: C.Complex)
    ensures Falling([a, b], y) == C.Times(C.Minus(a, y), C.Minus(b, y))
    ensures Falling([a], y) == C.Minus(a, y)
  {
    hide C.Times, C.Minus;
    assert [a, b][1..] == [b] && [b][1..] == [] && [a][1..] == [];
    C.TimesOne(C.Minus(b, y));
    C.TimesOne(C.Minus(a, y));
    assert Falling([], y) == C.ONE;
    assert Falling([b], y) == C.Minus(b, y);
  }

  lemma {:induction false} FallingSign(roots: seq<C.Complex>, y: C.Complex)
    ensures Falling(roots, y) == C.Times(C.Real(SignOf(|roots|)), Factors(roots, y))
  {
    hide C.Times;
    if |roots| == 0 {
      C.TimesOne(C.ONE);
    } else {
      FallingSign(roots[1..], y);
      var d, f := C.Minus(y, roots[0]), Factors(roots[1..], y);
      assert C.Minus(roots[0], y) == C.Neg(d);
      assert C.Real(SignOf(|roots|)) == C.Neg(C.Real(SignOf(|roots| - 1)));
      var e := C.Real(SignOf(|roots| - 1));
      C.TimesNeg(d, C.Times(e, f));
      C.TimesNeg(e, C.Times(d, f));
      C.TimesAssociates(d, e, f);
      C.TimesCommutes(d, e);
      C.TimesAssociates(e, d, f);
    }
  }

  lemma QuadraticOpposite(c: real, s: real, z: C.Complex)
    requires c * c + s * s == 1.0
    ensures var u := C.Complex(c, s);
      C.Times(CEval(Quadratic(c), z), CEval(Quadratic(c), C.Neg(z)))
      == Falling([C.Times(u, u), C.Times(Conj(u), Conj(u))], C.Times(z, z))
  {
    hide C.Times, C.Plus, C.Minus, C.Neg, Conj, CEval, Quadratic, Falling;
    var u := C.Complex(c, s);
    QuadraticFactors(c, s, z);
    QuadraticFactors(c, s, C.Neg(z));
    C.TimesExchange(C.Plus(z, u), C.Plus(z, Conj(u)), C.Plus(C.Neg(z), u), C.Plus(C.Neg(z), Conj(u)));
    Opposite(u, z);
    Opposite(Conj(u), z);
    FallingTwo(C.Times(u, u), C.Times(Conj(u), Conj(u)), C.Times(z, z));
  }

  predicate OnCircle(cosines: seq<real>, sines: seq<real>) {
    |cosines| == |sines| && forall k :: 0 <= k < |sines| ==> cosines[k] * cosines[k] + sines[k] * sines[k] == 1.0
  }

  lemma {:induction false} QuadraticsOpposite(cosines: seq<real>, sines: seq<real>, z: C.Complex)
    requires OnCircle(cosines, sines)
    ensures C.Times(CEval(Quadratics(cosines), z), CEval(Quadratics(cosines), C.Neg(z)))
         == Falling(Squares(cosines, sines), C.Times(z, z))
  {
    hide C.Times, C.Neg, Quadratic, Falling, CEval, Conj, Product;
    if |cosines| == 0 {
      CEvalLinear(z);
      CEvalLinear(C.Neg(z));
      C.TimesOne(C.ONE);
      FallingNone(C.Times(z, z));
    } else {
      var n := |cosines| - 1;
      var c, s := cosines[n], sines[n];
      var u := C.Complex(c, s);
      QuadraticsOpposite(cosines[..n], sines[..n], z);
      QuadraticOpposite(c, s, z);
      CEvalProduct(Quadratics(cosines[..n]), Quadratic(c), z);
      CEvalProduct(Quadratics(cosines[..n]), Quadratic(c), C.Neg(z));
      C.TimesExchange(CEval(Quadratics(cosines[..n]), z), CEval(Quadratic(c), z),
                      CEval(Quadratics(cosines[..n]), C.Neg(z)), CEval(Quadratic(c), C.Neg(z)));
      FallingConcat(Squares(cosines[..n], sines[..n]), [C.Times(u, u), C.Times(Conj(u), Conj(u))], C.Times(z, z));
    }
  }

  lemma FallingNone(y: C.Complex)
    ensures Falling([], y) == C.ONE
  {
  }

  /** The squares of all poles. */
  function AllSquares(d: Design, sines: seq<real>): (q: seq<C.Complex>)
    requires |sines| == |d.cosines|
  {
    Squares(d.cosines, sines) + if d.order % 2 == 1 then [C.ONE] else []
  }

  lemma PrototypeOpposite(d: Design, sines: seq<real>, z: C.Complex)
    requires WellPosed(d) && OnCircle(d.cosines, sines)
    ensures C.Times(CEval(Prototype(d), z), CEval(Prototype(d), C.Neg(z)))
         == Falling(AllSquares(d, sines), C.Times(z, z))
  {
    hide C.Times, C.Neg, Quadratics, Falling, CEval, Product, Squares;
    QuadraticsOpposite(d.cosines, sines, z);
    if d.order % 2 == 1 {
      var q := Quadratics(d.cosines);
      CEvalProduct(q, [1.0, 1.0], z);
      CEvalProduct(q, [1.0, 1.0], C.Neg(z));
      C.TimesExchange(CEval(q, z), CEval([1.0, 1.0], z), CEval(q, C.Neg(z)), CEval([1.0, 1.0], C.Neg(z)));
      LinearOpposite(z);
      FallingConcat(Squares(d.cosines, sines), [C.ONE], C.Times(z, z));
    } else {
      assert AllSquares(d, sines) == Squares(d.cosines, sines);
    }
  }

  lemma LinearOpposite(z: C.Complex)
    ensures C.Times(CEval([1.0, 1.0], z), CEval([1.0, 1.0], C.Neg(z))) == Falling([C.ONE], C.Times(z, z))
  {
    hide C.Times, CEval, Falling;
    CEvalLinear(z);
    CEvalLinear(C.Neg(z));
    assert C.Plus(C.ONE, z) == C.Plus(z, C.ONE) && C.Plus(C.ONE, C.Neg(z)) == C.Plus(C.Neg(z), C.ONE);
    Opposite(C.ONE, z);
    C.TimesOne(C.ONE);
    FallingTwo(C.ONE, C.ONE, C.Times(z, z));
  }

  // ---------------------------------------------------------------- the squares are all roots

  lemma {:induction false} SquareAt(cosines: seq<real>, sines: seq<real>, i: nat)
    requires |cosines| == |sines| && i < 2 * |cosines|
    ensures var u := C.Complex(cosines[i / 2], sines[i / 2]);
      Squares(cosines, sines)[i] == if i % 2 == 0 then C.Times(u, u) else C.Times(Conj(u), Conj(u))
  {
    hide C.Times, Conj;
    var n := |cosines| - 1;
    if i < 2 * n { SquareAt(cosines[..n], sines[..n], i); }
  }

  lemma SquareParts(c: real, s: real)
    requires c * c + s * s == 1.0
    ensures var u := C.Complex(c, s);
      && C.Times(u, u) == C.Complex(2.0 * (c * c) - 1.0, 2.0 * (c * s))
      && C.Times(Conj(u), Conj(u)) == C.Complex(2.0 * (c * c) - 1.0, -(2.0 * (c * s)))
  {
    assert s * c == c * s;
    NegProducts(c, s);
  }

  lemma NegProducts(c: real, s: real)
    ensures (-s) * (-s) == s * s && c * (-s) == -(c * s) && (-s) * c == -(c * s)
  {
    assert s * c == c * s;
  }

  lemma SquaresGrow(a: real, b: real)
    requires 0.0 < a && 0.0 < b && a != b
    ensures a * a != b * b
  {
    MulNonzero(a - b, a + b);
    Conjugates(a, b);
  }

  lemma Conjugates(a: real, b: real)
    ensures (a - b) * (a + b) == a * a - b * b
  {
  }

  lemma SquareDiffers(c: real, s: real)
    requires 0.0 < c < 1.0 && c * c + s * s == 1.0
    ensures c * s != 0.0 && c * c < 1.0
  {
    SquareBelow(c);
    MulNonzero(c, s);
  }

  lemma AllDistinct(d: Design, sines: seq<real>)
    requires WellPosed(d) && Angles(d, sines)
    ensures Distinct(AllSquares(d, sines)) && |AllSquares(d, sines)| == d.order
  {
    hide C.Times, C.Power, Squares;
    var q := AllSquares(d, sines);
    forall i, j | 0 <= i < j < |q| ensures q[i] != q[j] {
      var c, s := d.cosines[i / 2], sines[i / 2];
      SquareAt(d.cosines, sines, i);
      SquareParts(c, s);
      SquareDiffers(c, s);
      if j < 2 * |sines| {
        SquareAt(d.cosines, sines, j);
        SquareParts(d.cosines[j / 2], sines[j / 2]);
        if i / 2 != j / 2 { SquaresGrow(c, d.cosines[j / 2]); }
      }
    }
  }

  lemma SquareIsRoot(d: Design, sines: seq<real>, i: nat)
    requires WellPosed(d) && Angles(d, sines) && i < |AllSquares(d, sines)|
    ensures C.Power(AllSquares(d, sines)[i], d.order) == C.Real(-SignOf(d.order))
  {
    hide C.Times, C.Power, Squares;
    if i < 2 * |sines| {
      var u := C.Complex(d.cosines[i / 2], sines[i / 2]);
      SquareAt(d.cosines, sines, i);
      C.PowerSquare(u, d.order);
      TimesConj(u, u);
      PowerConj(C.Times(u, u), d.order);
    } else {
      C.PowerOne(d.order);
    }
  }

  lemma CircleOf(d: Design, sines: seq<real>)
    requires Angles(d, sines)
    ensures OnCircle(d.cosines, sines)
  {
  }

  /** P(z) P(-z) = 1 + (-1)^n z^(2n): the poles are half of the roots of -(-1)^n. */
  lemma PrototypeTimesOpposite(d: Design, sines: seq<real>, z: C.Complex)
    requires WellPosed(d) && Angles(d, sines) && d.order >= 1
    ensures var e := C.Real(SignOf(d.order));
      C.Times(CEval(Prototype(d), z), CEval(Prototype(d), C.Neg(z)))
      == C.Times(e, C.Plus(C.Power(C.Times(z, z), d.order), e))
  {
    hide C.Times, C.Power, CEval, Prototype, AllSquares, Falling, Factors, Distinct;
    CircleOf(d, sines);
    PrototypeOpposite(d, sines, z);
    AllDistinct(d, sines);
    var q, y := AllSquares(d, sines), C.Times(z, z);
    FallingSign(q, y);
    forall i: nat | i < d.order ensures C.Power(q[i], d.order) == C.Real(-SignOf(d.order)) {
      SquareIsRoot(d, sines, i);
    }
    PowerFactors(d.order, C.Real(-SignOf(d.order)), q, y);
    assert C.Minus(C.Power(y, d.order), C.Real(-SignOf(d.order))) == C.Plus(C.Power(y, d.order), C.Real(SignOf(d.order)));
  }

  lemma {:induction false} PowerOfNegative(x: real, n: nat)
    ensures C.Power(C.Real(-x), n) == C.Real(SignOf(n) * Power(x, n))
  {
    if n > 0 {
      PowerOfNegative(x, n - 1);
      hide C.Power;
      RealProduct(-x, SignOf(n - 1) * Power(x, n - 1));
      NegTimes(x, Power(x, n - 1), SignOf(n - 1));
    }
  }

  lemma RealProduct(a: real, b: real)
    ensures C.Times(C.Real(a), C.Real(b)) == C.Real(a * b)
  {
  }

  lemma NegTimes(x: real, p: real, e: real)
    requires e == 1.0 || e == -1.0
    ensures (-x) * (e * p) == (-e) * Mul(p, x)
  {
  }

  lemma NormIsProduct(a: C.Complex)
    ensures C.Times(a, Conj(a)) == C.Real(C.Norm(a))
  {
  }

  /** The Butterworth response: at the frequency w the squared magnitude of the prototype
      is 1 + w^(2n), the flattest there is. */
  lemma MagnitudeResponse(d: Design, sines: seq<real>, w: real)
    requires WellPosed(d) && Angles(d, sines) && d.order >= 1
    ensures C.Norm(CEval(Prototype(d), C.Complex(0.0, w))) == 1.0 + Power(w * w, d.order)
  {
    hide C.Power, CEval, Prototype, Power, C.Norm, Angles;
    var z := C.Complex(0.0, w);
    var e, m := SignOf(d.order), Power(w * w, d.order);
    PrototypeTimesOpposite(d, sines, z);
    assert C.Neg(z) == Conj(z);
    CEvalConj(Prototype(d), z);
    NormIsProduct(CEval(Prototype(d), z));
    assert C.Times(z, z) == C.Real(-(w * w));
    PowerOfNegative(w * w, d.order);
    RealProduct(e, e * m + e);
    assert C.Plus(C.Real(e * m), C.Real(e)) == C.Real(e * m + e);
    SignSquared(e, m);
  }

  lemma SignSquared(e: real, m: real)
    requires e == 1.0 || e == -1.0
    ensures e * (e * m + e) == 1.0 + m
  {
  }
}
