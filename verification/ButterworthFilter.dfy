/** The digital Butterworth filter of cotave/ButterworthFilter.ipp over exact reals. */
module ButterworthFilterModule {
  import opened PolynomialAlgebra
  import opened PolynomialModule
  import opened BilinearTransform

  /** The guard for reading order + 1 coefficients out of ret_den. */
  predicate Designable(d: Design) {
    WellPosed(d) && !(d.order % 2 == 1 && d.a == 1.0)
  }

  function XCoeffs(d: Design): (r: seq<real>)
    requires Designable(d)
    ensures |r| == d.order + 1
  {
    NumeratorLength(d);
    DivisorPositive(d);
    ScaleBy(RetNum(d), 1.0 / RetDen(d)[0])
  }

  function YCoeffs(d: Design): (r: seq<real>)
    requires Designable(d)
    ensures |r| == d.order + 1
  {
    DenominatorLength(d);
    DivisorPositive(d);
    Negated(ScaleBy(RetDen(d), 1.0 / RetDen(d)[0]))
  }

  function Negated(p: seq<real>): (r: seq<real>)
    ensures |r| == |p|
  {
    seq(|p|, i requires 0 <= i < |p| => -p[i])
  }

  lemma NegatedAt(p: seq<real>, i: nat)
    requires i < |p|
    ensures Negated(p)[i] == -p[i]
  {
  }

  /** The sum of c[i] * v[i] for lo <= i < hi. */
  function Weighted(c: seq<real>, v: seq<real>, lo: nat, hi: nat): real
    requires lo <= hi <= |c| && hi <= |v|
  {
    if lo == hi then 0.0 else Weighted(c, v, lo, hi - 1) + Mul(c[hi - 1], v[hi - 1])
  }

  /** The delay lines, newest sample first. */
  datatype Delay = Delay(xs: seq<real>, ys: seq<real>)

  /** One sample: y[0] = sum of xc[i] x[i] (i >= 0) + sum of yc[i] y[i] (i >= 1). */
  function Next(xc: seq<real>, yc: seq<real>, s: Delay, input: real): (t: Delay)
    requires 0 < |xc| == |yc| == |s.xs| == |s.ys|
    ensures |t.xs| == |t.ys| == |xc|
  {
    var n := |xc|;
    var xs := [input] + s.xs[..n - 1];
    var ys := [s.ys[0]] + s.ys[..n - 1];
    Delay(xs, [Weighted(xc, xs, 0, n) + Weighted(yc, ys, 1, n)] + s.ys[..n - 1])
  }

  /** The outputs of a run of updates. */
  function Outputs(xc: seq<real>, yc: seq<real>, s: Delay, inputs: seq<real>): (r: seq<real>)
    requires 0 < |xc| == |yc| == |s.xs| == |s.ys|
    ensures |r| == |inputs|
    decreases |inputs|
  {
    if |inputs| == 0 then []
    else
      var t := Next(xc, yc, s, inputs[0]);
      [t.ys[0]] + Outputs(xc, yc, t, inputs[1..])
  }

  function Constant(n: nat, c: real): (r: seq<real>)
    ensures |r| == n
  {
    seq(n, _ => c)
  }

  // ---------------------------------------------------------------- unit gain

  lemma {:induction false} PowerOfOne(n: nat)
    ensures Power(1.0, n) == 1.0
  {
    hide Mul;
    if n > 0 {
      PowerOfOne(n - 1);
      MulZeroOne(1.0);
    }
  }

  lemma {:induction false} WeightedConstant(p: seq<real>, v: seq<real>, c: real, n: nat)
    requires n <= |p| && n <= |v| && (forall i :: 0 <= i < n ==> v[i] == c)
    ensures Weighted(p, v, 0, n) == Mul(PowerSum(p, 1.0, n), c)
  {
    hide Mul;
    if n == 0 {
      MulZeroOne(c);
    } else {
      WeightedConstant(p, v, c, n - 1);
      PowerOfOne(n - 1);
      MulZeroOne(p[n - 1]);
      MulDistributes(c, PowerSum(p, 1.0, n - 1), p[n - 1]);
    }
  }

  lemma {:induction false} WeightedFrom(p: seq<real>, v: seq<real>, n: nat)
    requires 1 <= n <= |p| && n <= |v|
    ensures Weighted(p, v, 0, n) == Mul(p[0], v[0]) + Weighted(p, v, 1, n)
  {
    hide Mul;
    if n > 1 { WeightedFrom(p, v, n - 1); }
  }

  lemma {:induction false} EvalNegated(p: seq<real>, x: real)
    ensures Eval(Negated(p), x) == -Eval(p, x)
  {
    hide Mul;
    if |p| > 0 {
      assert Negated(p)[1..] == Negated(p[1..]);
      EvalNegated(p[1..], x);
      MulDistributes(x, 0.0, Eval(p[1..], x));
      MulZeroOne(x);
    }
  }

  lemma TotalIsEval(p: seq<real>)
    ensures PowerSum(p, 1.0, |p|) == Eval(p, 1.0)
  {
    EvalIsPowerSum(p, 1.0, |p|);
    assert p[..|p|] == p;
  }

  lemma Quotient(a: real)
    requires a != 0.0
    ensures Mul(a, 1.0 / a) == 1.0
  {
  }

  /** Unit gain at zero frequency: the sum of all x coefficients and of the y
      coefficients from the first is 1. The coefficient y[0] is -1. */
  lemma UnitGain(d: Design)
    requires Designable(d)
    ensures Eval(XCoeffs(d), 1.0) == -Eval(YCoeffs(d), 1.0)
    ensures YCoeffs(d)[0] == -1.0
  {
    DivisorPositive(d);
    DenominatorLength(d);
    var den, w := RetDen(d), 1.0 / RetDen(d)[0];
    Quotient(den[0]);
    hide Mul, Eval, RetDen, RetNum;
    EqualAtOne(d);
    EvalScale(RetNum(d), w, 1.0);
    EvalScale(den, w, 1.0);
    EvalNegated(ScaleBy(den, w), 1.0);
  }

  /** A settled delay line answers a constant with the same constant. */
  lemma SettledStep(d: Design, c: real)
    requires Designable(d)
    ensures var s := Delay(Constant(d.order + 1, c), Constant(d.order + 1, c));
            Next(XCoeffs(d), YCoeffs(d), s, c) == s
  {
    hide Mul, Eval, Weighted, PowerSum, XCoeffs, YCoeffs;
    var k := Constant(d.order + 1, c);
    assert [c] + k[..d.order] == k && [k[0]] + k[..d.order] == k;
    ConstantSum(d, k, c);
  }

  lemma ConstantSum(d: Design, k: seq<real>, c: real)
    requires Designable(d) && |k| == d.order + 1 && (forall i :: 0 <= i < |k| ==> k[i] == c)
    ensures Weighted(XCoeffs(d), k, 0, |k|) + Weighted(YCoeffs(d), k, 1, |k|) == c
  {
    hide *;
    var xc, yc := XCoeffs(d), YCoeffs(d);
    UnitGain(d);
    TotalIsEval(xc);
    TotalIsEval(yc);
    WeightedConstant(xc, k, c, |k|);
    WeightedConstant(yc, k, c, |k|);
    WeightedFrom(yc, k, |k|);
    GainCancels(Eval(xc, 1.0), c);
  }

  lemma GainCancels(g: real, c: real)
    ensures Mul(g, c) + (Mul(-g, c) - Mul(-1.0, c)) == c
  {
  }

  /** After initialize(c), every run of update(c) puts out c. */
  lemma {:induction false} ConstantRun(d: Design, c: real, inputs: seq<real>)
    requires Designable(d)
    requires forall i :: 0 <= i < |inputs| ==> inputs[i] == c
    ensures var s := Delay(Constant(d.order + 1, c), Constant(d.order + 1, c));
            Outputs(XCoeffs(d), YCoeffs(d), s, inputs) == Constant(|inputs|, c)
  {
    hide XCoeffs, YCoeffs, Next;
    if |inputs| > 0 {
      SettledStep(d, c);
      ConstantRun(d, c, inputs[1..]);
    }
  }

  // ---------------------------------------------------------------- the filter object

  class ButterworthFilter {
    const order: nat
    const xCoeff: array<real>
    const yCoeff: array<real>
    const x: array<real>
    const y: array<real>

    ghost predicate Valid() {
      && xCoeff.Length == yCoeff.Length == x.Length == y.Length == order + 1
      && x != y && x != xCoeff && x != yCoeff && y != xCoeff && y != yCoeff
    }

    ghost function State(): Delay
      reads x, y
    {
      Delay(x[..], y[..])
    }

    constructor (d: Design)
      requires Designable(d)
      ensures Valid() && order == d.order
      ensures fresh(xCoeff) && fresh(yCoeff) && fresh(x) && fresh(y)
      ensures xCoeff[..] == XCoeffs(d) && yCoeff[..] == YCoeffs(d)
      ensures State() == Delay(Constant(order + 1, 0.0), Constant(order + 1, 0.0))
    {
      order := d.order;
      hide Mul, RetNum, RetDen, XCoeffs, YCoeffs, Prototype, Negated;
      var n := d.order + 1;
      var xc, yc, x0, y0 := new real[n], new real[n], new real[n], new real[n];
      for i := 0 to n
        invariant forall k :: 0 <= k < i ==> x0[k] == 0.0 && y0[k] == 0.0
      {
        xc[i], yc[i], x0[i], y0[i] := 0.0, 0.0, 0.0, 0.0;
      }
      var den := AnalogDenominator(d);
      var num, ret := Bilinear(d, den);
      Normalise(d, num, ret);
      for i := 0 to n
        invariant num.coeff == XCoeffs(d) && Negated(ret.coeff) == YCoeffs(d)
        invariant |ret.coeff| == n
        invariant forall k :: 0 <= k < i ==> xc[k] == XCoeffs(d)[k] && yc[k] == YCoeffs(d)[k]
        invariant forall k :: 0 <= k < n ==> x0[k] == 0.0 && y0[k] == 0.0
      {
        NegatedAt(ret.coeff, i);
        xc[i] := num.coeff[i];
        yc[i] := -ret.coeff[i];
      }
      assert xc[..] == XCoeffs(d) && yc[..] == YCoeffs(d);
      assert x0[..] == Constant(n, 0.0) == y0[..];
      xCoeff, yCoeff, x, y := xc, yc, x0, y0;
    }

    /** Both polynomials are divided by ret_den(0). */
    static method Normalise(d: Design, num: Polynomial, ret: Polynomial)
      requires Designable(d) && num != ret
      requires num.coeff == RetNum(d) && ret.coeff == RetDen(d)
      modifies num, ret
      ensures num.coeff == XCoeffs(d) && |ret.coeff| == d.order + 1
      ensures Negated(ret.coeff) == YCoeffs(d)
    {
      NumeratorLength(d);
      DenominatorLength(d);
      DivisorPositive(d);
      hide Mul, RetNum, RetDen;
      num.DivAssign(ret.coeff[0]);
      ret.DivAssign(ret.coeff[0]);
    }

    /** The prototype, multiplied up factor by factor. */
    static method AnalogDenominator(d: Design) returns (den: Polynomial)
      requires WellPosed(d)
      ensures fresh(den) && den.coeff == Prototype(d)
    {
      hide Product, Mul;
      den := new Polynomial.FromArray([1.0]);
      TrimNothing([1.0]);
      for k := 0 to d.order / 2
        invariant fresh(den) && den.coeff == Quadratics(d.cosines[..k])
      {
        var val := Quadratic(d.cosines[k]);
        var factor := new Polynomial.FromArray(val);
        TrimNothing(val);
        assert d.cosines[..k + 1][..k] == d.cosines[..k];
        den.MulAssign(factor);
      }
      assert d.cosines[..d.order / 2] == d.cosines;
      if d.order % 2 == 1 {
        var factor := new Polynomial.FromArray([1.0, 1.0]);
        TrimNothing([1.0, 1.0]);
        den.MulAssign(factor);
      }
    }

    static lemma TrimNothing(p: seq<real>)
      requires NoTopZero(p)
      ensures Trim(p) == p
    {
    }

    static method Bilinear(d: Design, den: Polynomial) returns (num: Polynomial, ret: Polynomial)
      requires WellPosed(d) && den.coeff == Prototype(d)
      ensures fresh(num) && fresh(ret) && num != ret
      ensures num.coeff == RetNum(d) && ret.coeff == RetDen(d)
    {
      var z1 := new Polynomial.FromArray(Z1);
      TrimNothing(Z1);
      var z2 := new Polynomial.FromArray(Z2(d.a));
      TrimNothing(Z2(d.a));
      hide *;
      RetDenIs(d);
      ret := SumOfTerms(d.a, den, z1, z2);
      num := NumeratorPower(d, |den.coeff| - 1, z2);
    }

    static method SumOfTerms(a: real, den: Polynomial, z1: Polynomial, z2: Polynomial)
      returns (ret: Polynomial)
      requires z1.coeff == Z1 && z2.coeff == Z2(a)
      ensures fresh(ret) && ret.coeff == Transformed(den.coeff, a, |den.coeff|)
    {
      hide Mul, Trim, Sum, Scaled, Basis, NoTopZero;
      ret := new Polynomial();
      for i := 0 to |den.coeff|
        invariant fresh(ret) && ret.coeff == Transformed(den.coeff, a, i)
      {
        var polyZ := BasisPolynomial(a, |den.coeff| - 1, i, z1, z2);
        var term := Polynomial.TimesScalar(polyZ, den.coeff[i]);
        ret.AddAssign(term);
      }
    }

    static method NumeratorPower(d: Design, n: nat, z2: Polynomial) returns (num: Polynomial)
      requires n == d.order && z2.coeff == Z2(d.a)
      ensures fresh(num) && num.coeff == RetNum(d)
    {
      hide Product, Mul;
      num := new Polynomial.FromArray(ONE);
      TrimNothing(ONE);
      for i := 0 to n
        invariant fresh(num) && num.coeff == TimesPower(ONE, Z2(d.a), i)
      {
        num.MulAssign(z2);
      }
    }

    /** The two inner loops: z1^i * z2^(n-i). */
    static method BasisPolynomial(a: real, n: nat, i: nat, z1: Polynomial, z2: Polynomial)
      returns (p: Polynomial)
      requires i <= n && z1.coeff == Z1 && z2.coeff == Z2(a)
      ensures fresh(p) && p.coeff == Basis(a, n, i)
    {
      hide Product, Mul;
      p := new Polynomial.FromArray(ONE);
      TrimNothing(ONE);
      for k := 0 to i
        invariant fresh(p) && p.coeff == TimesPower(ONE, Z1, k)
      {
        p.MulAssign(z1);
      }
      for k := i to n
        invariant fresh(p) && p.coeff == TimesPower(TimesPower(ONE, Z1, i), Z2(a), k - i)
      {
        p.MulAssign(z2);
      }
    }

    method Initialize(input: real)
      requires Valid()
      modifies x, y
      ensures State() == Delay(Constant(order + 1, input), Constant(order + 1, input))
    {
      for i := 0 to order + 1
        invariant forall k :: 0 <= k < i ==> x[k] == input && y[k] == input
      {
        x[i] := input;
        y[i] := input;
      }
    }

    method Update(input: real)
      requires Valid()
      modifies x, y
      ensures State() == Next(xCoeff[..], yCoeff[..], old(State()), input)
    {
      hide Weighted;
      Shift(input);
      var y0 := Recurrence();
      ghost var ys := y[..];
      y[0] := y0;
      assert y[..] == [y0] + ys[1..];
    }

    /** The delay lines move by one place, from the far end. */
    method Shift(input: real)
      requires Valid()
      modifies x, y
      ensures x[..] == [input] + old(x[..])[..order]
      ensures y[..] == [old(y[0])] + old(y[..])[..order]
    {
      ghost var xs, ys := x[..], y[..];
      for i := order downto 0
        invariant forall k :: 0 <= k <= i ==> x[k] == xs[k] && y[k] == ys[k]
        invariant forall k :: i < k <= order ==> x[k] == xs[k - 1]
        invariant forall k :: i < k <= order ==> y[k] == ys[k - 1]
      {
        x[i + 1] := x[i];
        y[i + 1] := y[i];
      }
      x[0] := input;
    }

    method Recurrence() returns (y0: real)
      requires Valid()
      ensures y0 == Weighted(xCoeff[..], x[..], 0, order + 1) + Weighted(yCoeff[..], y[..], 1, order + 1)
    {
      hide Mul;
      y0 := 0.0;
      for i := 0 to order + 1
        invariant y0 == Weighted(xCoeff[..], x[..], 0, i)
      {
        y0 := y0 + Mul(xCoeff[i], x[i]);
      }
      for i := 1 to order + 1
        invariant y0 == Weighted(xCoeff[..], x[..], 0, order + 1) + Weighted(yCoeff[..], y[..], 1, i)
      {
        y0 := y0 + Mul(yCoeff[i], y[i]);
      }
    }

    method GetOutput() returns (r: real)
      requires Valid()
      ensures r == State().ys[0]
    {
      r := y[0];
    }
  }
}
