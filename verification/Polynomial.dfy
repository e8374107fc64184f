/** The polynomial class of cotave/Polynomial.ipp over exact reals: a coefficient
    vector that the operators rewrite in place. */
module PolynomialModule {
  import opened PolynomialAlgebra

  /** What operator*(polynomial, scalar) returns. */
  function Scaled(p: seq<real>, b: real): (r: seq<real>)
    ensures |r| == if b == 0.0 then 0 else |p|
  {
    if b == 0.0 || |p| == 0 then [] else ScaleBy(p, b)
  }

  lemma EvalScaled(p: seq<real>, b: real, x: real)
    ensures Eval(Scaled(p, b), x) == Mul(b, Eval(p, x))
  {
    hide Mul;
    MulZeroOne(Eval(p, x));
    MulZeroOne(b);
    EvalScale(p, b, x);
  }

  /** q to the n-th power, by repeated multiplication from the right. */
  function PowerOf(q: seq<real>, n: nat): seq<real> {
    if n == 0 then [1.0] else Product(PowerOf(q, n - 1), q)
  }

  /** The sum of p[i] * q^i for i < n, as the substitution loop adds it up. */
  function Compose(p: seq<real>, q: seq<real>, n: nat): seq<real>
    requires n <= |p|
  {
    if n == 0 then [] else Trim(Sum(Compose(p, q, n - 1), Scaled(PowerOf(q, n - 1), p[n - 1])))
  }

  lemma {:induction false} EvalPowerOf(q: seq<real>, n: nat, x: real)
    ensures Eval(PowerOf(q, n), x) == Power(Eval(q, x), n)
  {
    hide Mul;
    if n == 0 {
      assert [1.0][1..] == [];
      MulZeroOne(x);
    } else {
      EvalPowerOf(q, n - 1, x);
      EvalProduct(PowerOf(q, n - 1), q, x);
    }
  }

  /** Substituting q into p composes them: the value at x is p at q(x). */
  lemma {:induction false} EvalCompose(p: seq<real>, q: seq<real>, n: nat, x: real)
    requires n <= |p|
    ensures Eval(Compose(p, q, n), x) == Eval(p[..n], Eval(q, x))
  {
    hide Mul;
    if n > 0 {
      hide Trim, Sum, Scaled, PowerOf, Eval, Power;
      EvalCompose(p, q, n - 1, x);
      EvalTerm(Compose(p, q, n - 1), PowerOf(q, n - 1), p[n - 1], x);
      EvalPowerOf(q, n - 1, x);
      hide Compose;
      EvalIsPowerSum(p, Eval(q, x), n - 1);
      EvalIsPowerSum(p, Eval(q, x), n);
    } else {
      EmptyEval(x);
      EmptyEval(Eval(q, x));
    }
  }

  lemma EmptyEval(x: real)
    ensures Eval([], x) == 0.0
  {
  }

  /** One term of a sum of scaled polynomials. */
  lemma EvalTerm(t: seq<real>, b: seq<real>, c: real, x: real)
    ensures Eval(Trim(Sum(t, Scaled(b, c))), x) == Eval(t, x) + Mul(c, Eval(b, x))
  {
    hide *;
    EvalTrim(Sum(t, Scaled(b, c)), x);
    EvalSum(t, Scaled(b, c), x);
    EvalScaled(b, c, x);
  }

  class Polynomial {
    var coeff: seq<real>

    constructor ()
      ensures coeff == []
    {
      coeff := [];
    }

    /** From a coefficient array; zero coefficients at the top are dropped. */
    constructor FromArray(opp: seq<real>)
      ensures coeff == Trim(opp)
    {
      coeff := opp;
      new;
      RemoveZero();
    }

    constructor Copy(opp: Polynomial)
      ensures coeff == opp.coeff
    {
      coeff := opp.coeff;
    }

    /** n zero coefficients. */
    constructor Zeros(n: nat)
      ensures coeff == seq(n, _ => 0.0)
    {
      coeff := seq(n, _ => 0.0);
    }

    method RemoveZero()
      modifies this
      ensures coeff == Trim(old(coeff))
    {
      while |coeff| > 0
        invariant Trim(coeff) == Trim(old(coeff))
        decreases |coeff|
      {
        if coeff[|coeff| - 1] == 0.0 {
          coeff := coeff[..|coeff| - 1];
        } else {
          break;
        }
      }
    }

    /** operator+=, for any operand, also the object itself. */
    method AddAssign(opp: Polynomial)
      modifies this
      ensures coeff == Trim(Sum(old(coeff), old(opp.coeff)))
    {
      ghost var p, q := coeff, opp.coeff;
      if |coeff| < |opp.coeff| {
        var n := |coeff|;
        for i := 0 to n
          invariant |coeff| == n && opp.coeff == q
          invariant forall k :: 0 <= k < n ==> coeff[k] == if k < i then p[k] + q[k] else p[k]
        {
          coeff := coeff[i := coeff[i] + opp.coeff[i]];
        }
        for i := n to |opp.coeff|
          invariant |coeff| == i && opp.coeff == q
          invariant forall k :: 0 <= k < i ==> coeff[k] == At(p, k) + q[k]
        {
          coeff := coeff + [opp.coeff[i]];
        }
      } else {
        var n := |opp.coeff|;
        for i := 0 to n
          invariant |coeff| == |p| && |opp.coeff| == n
          invariant forall k :: 0 <= k < |p| ==> coeff[k] == if k < i then p[k] + q[k] else p[k]
          invariant forall k :: i <= k < n ==> opp.coeff[k] == q[k]
        {
          coeff := coeff[i := coeff[i] + opp.coeff[i]];
        }
      }
      assert coeff == Sum(p, q);
      RemoveZero();
    }

    method SubAssign(opp: Polynomial)
      modifies this
      ensures coeff == Trim(Difference(old(coeff), old(opp.coeff)))
    {
      ghost var p, q := coeff, opp.coeff;
      if |coeff| < |opp.coeff| {
        var n := |coeff|;
        for i := 0 to n
          invariant |coeff| == n && opp.coeff == q
          invariant forall k :: 0 <= k < n ==> coeff[k] == if k < i then p[k] - q[k] else p[k]
        {
          coeff := coeff[i := coeff[i] - opp.coeff[i]];
        }
        for i := n to |opp.coeff|
          invariant |coeff| == i && opp.coeff == q
          invariant forall k :: 0 <= k < i ==> coeff[k] == At(p, k) - q[k]
        {
          coeff := coeff + [-opp.coeff[i]];
        }
      } else {
        var n := |opp.coeff|;
        for i := 0 to n
          invariant |coeff| == |p| && |opp.coeff| == n
          invariant forall k :: 0 <= k < |p| ==> coeff[k] == if k < i then p[k] - q[k] else p[k]
          invariant forall k :: i <= k < n ==> opp.coeff[k] == q[k]
        {
          coeff := coeff[i := coeff[i] - opp.coeff[i]];
        }
      }
      assert coeff == Difference(p, q);
      RemoveZero();
    }

    method MulAssign(opp: Polynomial)
      modifies this
      ensures coeff == Product(old(coeff), old(opp.coeff))
    {
      var r := Times(this, opp);
      coeff := r.coeff;
    }

    method ScaleAssign(b: real)
      modifies this
      ensures coeff == Scaled(old(coeff), b)
    {
      hide Mul;
      ghost var p := coeff;
      if b == 0.0 {
        coeff := [];
      } else {
        for i := 0 to |coeff|
          invariant |coeff| == |p|
          invariant forall k :: 0 <= k < |p| ==> coeff[k] == if k < i then Mul(p[k], b) else p[k]
        {
          coeff := coeff[i := Mul(coeff[i], b)];
        }
        assert coeff == ScaleBy(p, b);
      }
    }

    method DivAssign(b: real)
      requires b != 0.0
      modifies this
      ensures coeff == ScaleBy(old(coeff), 1.0 / b)
    {
      hide Mul;
      ghost var p := coeff;
      for i := 0 to |coeff|
        invariant |coeff| == |p|
        invariant forall k :: 0 <= k < |p| ==> coeff[k] == if k < i then Mul(p[k], 1.0 / b) else p[k]
      {
        DivisionIsProduct(coeff[i], b);
        coeff := coeff[i := coeff[i] / b];
      }
    }

    static lemma DivisionIsProduct(a: real, b: real)
      requires b != 0.0
      ensures a / b == Mul(a, 1.0 / b)
    {
    }

    // -------------------------------------------------------------- binary operators

    static method Plus(a: Polynomial, b: Polynomial) returns (ret: Polynomial)
      ensures fresh(ret) && ret.coeff == Trim(Sum(a.coeff, b.coeff))
    {
      if |a.coeff| < |b.coeff| {
        ret := new Polynomial.Copy(b);
        for i := 0 to |a.coeff|
          invariant fresh(ret) && |ret.coeff| == |b.coeff|
          invariant forall k :: 0 <= k < |b.coeff| ==>
            ret.coeff[k] == if k < i then a.coeff[k] + b.coeff[k] else b.coeff[k]
        {
          ret.coeff := ret.coeff[i := ret.coeff[i] + a.coeff[i]];
        }
      } else {
        ret := new Polynomial.Copy(a);
        for i := 0 to |b.coeff|
          invariant fresh(ret) && |ret.coeff| == |a.coeff|
          invariant forall k :: 0 <= k < |a.coeff| ==>
            ret.coeff[k] == if k < i then a.coeff[k] + b.coeff[k] else a.coeff[k]
        {
          ret.coeff := ret.coeff[i := ret.coeff[i] + b.coeff[i]];
        }
      }
      assert ret.coeff == Sum(a.coeff, b.coeff);
      ret.RemoveZero();
    }

    static method Minus(a: Polynomial, b: Polynomial) returns (ret: Polynomial)
      ensures fresh(ret) && ret.coeff == Trim(Difference(a.coeff, b.coeff))
    {
      var n := if |a.coeff| < |b.coeff| then |b.coeff| else |a.coeff|;
      ret := new Polynomial.Zeros(n);
      for i := 0 to |a.coeff|
        invariant fresh(ret) && |ret.coeff| == n
        invariant forall k :: 0 <= k < n ==> ret.coeff[k] == if k < i then a.coeff[k] else 0.0
      {
        ret.coeff := ret.coeff[i := a.coeff[i]];
      }
      for i := 0 to |b.coeff|
        invariant fresh(ret) && |ret.coeff| == n
        invariant forall k :: 0 <= k < n ==>
          ret.coeff[k] == if k < i then At(a.coeff, k) - b.coeff[k] else At(a.coeff, k)
      {
        ret.coeff := ret.coeff[i := ret.coeff[i] - b.coeff[i]];
      }
      assert ret.coeff == Difference(a.coeff, b.coeff);
      ret.RemoveZero();
    }

    /** The double loop accumulates every product of coefficients in place. */
    static method Times(a: Polynomial, b: Polynomial) returns (ret: Polynomial)
      ensures fresh(ret) && ret.coeff == Product(a.coeff, b.coeff)
    {
      hide Mul, Convolution;
      if |a.coeff| == 0 || |b.coeff| == 0 {
        ret := new Polynomial();
        return;
      }
      var n := |b.coeff| + |a.coeff| - 1;
      ret := new Polynomial.Zeros(n);
      RowStart(a.coeff, b.coeff, ret.coeff);
      for i := 0 to |a.coeff|
        invariant fresh(ret) && |ret.coeff| == n
        invariant Row(a.coeff, b.coeff, ret.coeff, i, 0)
      {
        for j := 0 to |b.coeff|
          invariant fresh(ret) && |ret.coeff| == n
          invariant Row(a.coeff, b.coeff, ret.coeff, i, j)
        {
          RowStep(a.coeff, b.coeff, ret.coeff, i, j);
          ret.coeff := ret.coeff[i + j := ret.coeff[i + j] + Mul(a.coeff[i], b.coeff[j])];
        }
        RowEnd(a.coeff, b.coeff, ret.coeff, i);
      }
      RowsDone(a.coeff, b.coeff, ret.coeff);
    }

    /** Rows below i are added in full, row i up to column j. */
    static ghost predicate Row(p: seq<real>, q: seq<real>, r: seq<real>, i: nat, j: nat)
      requires i <= |p|
    {
      forall k :: 0 <= k < |r| ==> RowAt(p, q, r, i, j, k)
    }

    static predicate RowAt(p: seq<real>, q: seq<real>, r: seq<real>, i: nat, j: nat, k: nat)
      requires i <= |p| && k < |r|
    {
      r[k] == Convolution(p, q, k, i) + (if i < |p| && i <= k < i + j then Mul(p[i], At(q, k - i)) else 0.0)
    }

    static lemma RowStart(p: seq<real>, q: seq<real>, r: seq<real>)
      requires forall k :: 0 <= k < |r| ==> r[k] == 0.0
      ensures Row(p, q, r, 0, 0)
    {
      hide Mul;
      forall k | 0 <= k < |r| ensures RowAt(p, q, r, 0, 0, k) {
      }
    }

    static lemma RowStep(p: seq<real>, q: seq<real>, r: seq<real>, i: nat, j: nat)
      requires i < |p| && j < |q| && |r| == |p| + |q| - 1 && Row(p, q, r, i, j)
      ensures Row(p, q, r[i + j := r[i + j] + Mul(p[i], q[j])], i, j + 1)
    {
      hide Mul, Convolution;
      var r', j' := r[i + j := r[i + j] + Mul(p[i], q[j])], j + 1;
      forall k | 0 <= k < |r| ensures RowAt(p, q, r', i, j', k) {
        assert RowAt(p, q, r, i, j, k);
      }
    }

    static lemma RowEnd(p: seq<real>, q: seq<real>, r: seq<real>, i: nat)
      requires i < |p| && |r| == |p| + |q| - 1 && Row(p, q, r, i, |q|)
      ensures Row(p, q, r, i + 1, 0)
    {
      hide Mul;
      MulZeroOne(p[i]);
      var i' := i + 1;
      forall k | 0 <= k < |r| ensures RowAt(p, q, r, i', 0, k) {
        assert RowAt(p, q, r, i, |q|, k);
      }
    }

    static lemma RowsDone(p: seq<real>, q: seq<real>, r: seq<real>)
      requires |p| > 0 && |q| > 0 && |r| == |p| + |q| - 1 && Row(p, q, r, |p|, 0)
      ensures r == Product(p, q)
    {
      hide Mul, Convolution;
      forall k | 0 <= k < |r| ensures r[k] == Product(p, q)[k] {
        assert RowAt(p, q, r, |p|, 0, k);
      }
    }

    /** operator*(polynomial, scalar). */
    static method TimesScalar(a: Polynomial, b: real) returns (ret: Polynomial)
      ensures fresh(ret) && ret.coeff == Scaled(a.coeff, b)
    {
      hide Mul;
      if b == 0.0 || |a.coeff| == 0 {
        ret := new Polynomial();
      } else {
        ret := new Polynomial.Zeros(|a.coeff|);
        for i := 0 to |a.coeff|
          invariant fresh(ret) && |ret.coeff| == |a.coeff|
          invariant forall k :: 0 <= k < i ==> ret.coeff[k] == Mul(a.coeff[k], b)
        {
          ret.coeff := ret.coeff[i := Mul(a.coeff[i], b)];
        }
        assert ret.coeff == ScaleBy(a.coeff, b);
      }
    }

    // -------------------------------------------------------------- substitution

    method Substitute(x: real) returns (ret: real)
      ensures ret == Eval(coeff, x)
    {
      hide Mul;
      ret := 0.0;
      var xn := 1.0;
      for i := 0 to |coeff|
        invariant xn == Power(x, i) && ret == PowerSum(coeff, x, i)
      {
        ret := ret + Mul(coeff[i], xn);
        xn := Mul(xn, x);
      }
      EvalIsPowerSum(coeff, x, |coeff|);
      assert coeff[..|coeff|] == coeff;
    }

    method SubstitutePolynomial(x: Polynomial) returns (ret: Polynomial)
      ensures fresh(ret) && ret.coeff == Compose(coeff, x.coeff, |coeff|)
    {
      ret := new Polynomial();
      var xn := new Polynomial();
      xn.coeff := xn.coeff + [1.0];
      assert xn.coeff == PowerOf(x.coeff, 0);
      for i := 0 to |coeff|
        invariant fresh(ret) && fresh(xn) && ret != xn
        invariant xn.coeff == PowerOf(x.coeff, i) && ret.coeff == Compose(coeff, x.coeff, i)
      {
        var term := TimesScalar(xn, coeff[i]);
        ret.AddAssign(term);
        xn.MulAssign(x);
      }
    }
  }

  /** Evaluation is a ring homomorphism on the results of the operators, and the
      results keep the form without trailing zeros. */
  lemma OperatorsEvaluate(p: seq<real>, q: seq<real>, x: real)
    ensures Eval(Trim(Sum(p, q)), x) == Eval(p, x) + Eval(q, x)
    ensures Eval(Trim(Difference(p, q)), x) == Eval(p, x) - Eval(q, x)
    ensures Eval(Product(p, q), x) == Mul(Eval(p, x), Eval(q, x))
    ensures NoTopZero(p) && NoTopZero(q) ==> NoTopZero(Product(p, q))
  {
    hide Mul;
    EvalTrim(Sum(p, q), x);
    EvalTrim(Difference(p, q), x);
    EvalSum(p, q, x);
    EvalProduct(p, q, x);
    if NoTopZero(p) && NoTopZero(q) { ProductNoTopZero(p, q); }
  }

  /** p.substitute(q) evaluated at x is p evaluated at q(x). */
  lemma SubstitutionComposes(p: seq<real>, q: seq<real>, x: real)
    ensures Eval(Compose(p, q, |p|), x) == Eval(p, Eval(q, x))
    ensures NoTopZero(Compose(p, q, |p|))
  {
    EvalCompose(p, q, |p|, x);
    assert p[..|p|] == p;
  }
}
