/** Coefficient sequences of real polynomials, lowest degree first: the algebra
    behind cotave/Polynomial.ipp. */
module PolynomialAlgebra {

  // ---------------------------------------------------------------- real products

  /** x * y, named so that proofs can use the laws below without unfolding it. */
  function Mul(x: real, y: real): real {
    x * y
  }

  lemma MulCommutes(x: real, y: real)
    ensures Mul(x, y) == Mul(y, x)
  {
  }

  lemma MulAssociates(x: real, y: real, z: real)
    ensures Mul(x, Mul(y, z)) == Mul(Mul(x, y), z)
  {
  }

  lemma MulDistributes(x: real, y: real, z: real)
    ensures Mul(x, y + z) == Mul(x, y) + Mul(x, z) && Mul(x, y - z) == Mul(x, y) - Mul(x, z)
    ensures Mul(y + z, x) == Mul(y, x) + Mul(z, x)
  {
  }

  lemma MulZeroOne(x: real)
    ensures Mul(x, 0.0) == 0.0 == Mul(0.0, x) && Mul(x, 1.0) == x == Mul(1.0, x)
  {
  }

  lemma MulNonzero(x: real, y: real)
    ensures Mul(x, y) != 0.0 <==> x != 0.0 && y != 0.0
  {
  }

  // ---------------------------------------------------------------- coefficients

  /** The coefficient of degree i, zero past the end. */
  function At(p: seq<real>, i: int): real {
    if 0 <= i < |p| then p[i] else 0.0
  }

  function Eval(p: seq<real>, x: real): real {
    if |p| == 0 then 0.0 else p[0] + Mul(x, Eval(p[1..], x))
  }

  predicate NoTopZero(p: seq<real>) {
    |p| > 0 ==> p[|p| - 1] != 0.0
  }

  /** The effect of remove_zero. */
  function Trim(p: seq<real>): (t: seq<real>)
    ensures NoTopZero(t) && |t| <= |p| && t == p[..|t|]
    ensures forall i :: |t| <= i < |p| ==> p[i] == 0.0
  {
    if |p| > 0 && p[|p| - 1] == 0.0 then Trim(p[..|p| - 1]) else p
  }

  function Sum(p: seq<real>, q: seq<real>): (r: seq<real>)
    ensures |r| == if |p| < |q| then |q| else |p|
  {
    seq(if |p| < |q| then |q| else |p|, i => At(p, i) + At(q, i))
  }

  function Difference(p: seq<real>, q: seq<real>): (r: seq<real>)
    ensures |r| == if |p| < |q| then |q| else |p|
  {
    seq(if |p| < |q| then |q| else |p|, i => At(p, i) - At(q, i))
  }

  function ScaleBy(p: seq<real>, b: real): (r: seq<real>)
    ensures |r| == |p|
  {
    seq(|p|, i requires 0 <= i < |p| => Mul(p[i], b))
  }

  /** The part of coefficient k of p*q that the first n coefficients of p give:
      the sum of p[i] * q[k-i] for i < n. */
  function Convolution(p: seq<real>, q: seq<real>, k: int, n: nat): real
    requires n <= |p|
  {
    if n == 0 then 0.0 else Convolution(p, q, k, n - 1) + Mul(p[n - 1], At(q, k - (n - 1)))
  }

  function Product(p: seq<real>, q: seq<real>): (r: seq<real>)
    ensures |r| == if |p| == 0 || |q| == 0 then 0 else |p| + |q| - 1
  {
    seq(if |p| == 0 || |q| == 0 then 0 else |p| + |q| - 1, k => Convolution(p, q, k, |p|))
  }

  // ---------------------------------------------------------------- evaluation

  lemma {:induction false} EvalZeros(p: seq<real>, x: real)
    requires forall i :: 0 <= i < |p| ==> p[i] == 0.0
    ensures Eval(p, x) == 0.0
  {
    hide Mul;
    MulZeroOne(x);
    if |p| > 0 { EvalZeros(p[1..], x); }
  }

  /** Evaluation depends on the coefficients only, not on trailing zeros. */
  lemma {:induction false} EvalSame(p: seq<real>, q: seq<real>, x: real)
    requires forall i :: 0 <= i ==> At(p, i) == At(q, i)
    ensures Eval(p, x) == Eval(q, x)
    decreases |p|
  {
    hide Mul;
    if |p| == 0 {
      forall i | 0 <= i < |q| ensures q[i] == 0.0 { assert At(p, i) == At(q, i); }
      EvalZeros(q, x);
    } else if |q| == 0 {
      forall i | 0 <= i < |p| ensures p[i] == 0.0 { assert At(p, i) == At(q, i); }
      EvalZeros(p, x);
    } else {
      assert At(p, 0) == At(q, 0);
      forall i | 0 <= i ensures At(p[1..], i) == At(q[1..], i) { assert At(p, i + 1) == At(q, i + 1); }
      EvalSame(p[1..], q[1..], x);
    }
  }

  lemma TrimAt(p: seq<real>, i: int)
    ensures At(Trim(p), i) == At(p, i)
  {
    var t := Trim(p);
    if 0 <= i < |t| { assert t[i] == p[..|t|][i]; }
  }

  lemma EvalTrim(p: seq<real>, x: real)
    ensures Eval(Trim(p), x) == Eval(p, x)
  {
    forall i | 0 <= i ensures At(Trim(p), i) == At(p, i) { TrimAt(p, i); }
    EvalSame(Trim(p), p, x);
  }

  function Tail(p: seq<real>): seq<real> {
    if |p| > 0 then p[1..] else []
  }

  lemma EvalAt(p: seq<real>, x: real)
    ensures Eval(p, x) == At(p, 0) + Mul(x, Eval(Tail(p), x))
  {
    MulZeroOne(x);
  }

  lemma SumAt(p: seq<real>, q: seq<real>, i: int)
    ensures At(Sum(p, q), i) == At(p, i) + At(q, i)
    ensures At(Difference(p, q), i) == At(p, i) - At(q, i)
  {
  }

  lemma SumTail(p: seq<real>, q: seq<real>)
    ensures Tail(Sum(p, q)) == Sum(Tail(p), Tail(q))
    ensures Tail(Difference(p, q)) == Difference(Tail(p), Tail(q))
  {
  }

  lemma {:induction false} EvalSum(p: seq<real>, q: seq<real>, x: real)
    ensures Eval(Sum(p, q), x) == Eval(p, x) + Eval(q, x)
    ensures Eval(Difference(p, q), x) == Eval(p, x) - Eval(q, x)
    decreases |p| + |q|
  {
    hide Mul;
    if |p| + |q| > 0 {
      EvalSum(Tail(p), Tail(q), x);
      SumTail(p, q);
      SumAt(p, q, 0);
      EvalAt(p, x);
      EvalAt(q, x);
      EvalAt(Sum(p, q), x);
      EvalAt(Difference(p, q), x);
      MulDistributes(x, Eval(Tail(p), x), Eval(Tail(q), x));
    }
  }

  lemma {:induction false} EvalScale(p: seq<real>, b: real, x: real)
    ensures Eval(ScaleBy(p, b), x) == Mul(b, Eval(p, x))
  {
    hide Mul;
    MulZeroOne(b);
    if |p| > 0 {
      EvalScale(p[1..], b, x);
      ScaleTail(p, b);
      var v := Eval(p[1..], x);
      MulCommutes(p[0], b);
      MulDistributes(b, p[0], Mul(x, v));
      MulAssociates(b, x, v);
      MulCommutes(b, x);
      MulAssociates(x, b, v);
    }
  }

  lemma ScaleTail(p: seq<real>, b: real)
    requires |p| > 0
    ensures ScaleBy(p, b)[1..] == ScaleBy(p[1..], b)
  {
    hide Mul;
    var r := ScaleBy(p[1..], b);
    forall i | 0 <= i < |r| ensures ScaleBy(p, b)[i + 1] == r[i] {
      assert p[1..][i] == p[i + 1];
    }
  }

  /** Peeling the first coefficient of p off the convolution. */
  lemma {:induction false} ConvolutionStep(p: seq<real>, q: seq<real>, k: int, n: nat)
    requires 1 <= n <= |p|
    ensures Convolution(p, q, k, n) == Mul(p[0], At(q, k)) + Convolution(p[1..], q, k - 1, n - 1)
  {
    hide Mul;
    if n > 1 { ConvolutionStep(p, q, k, n - 1); }
  }

  lemma {:induction false} ConvolutionOutside(p: seq<real>, q: seq<real>, k: int, n: nat)
    requires n <= |p| && (k < 0 || k >= n + |q| - 1 || n == 0)
    ensures Convolution(p, q, k, n) == 0.0
  {
    hide Mul;
    if n > 0 {
      ConvolutionOutside(p, q, k, n - 1);
      MulZeroOne(p[n - 1]);
    }
  }

  /** p*q = p[0]*q + X * (tail p * q). */
  lemma ProductStep(p: seq<real>, q: seq<real>, i: int)
    requires |p| > 0 && |q| > 0 && 0 <= i
    ensures At(Product(p, q), i) == At(Sum(ScaleBy(q, p[0]), [0.0] + Product(p[1..], q)), i)
  {
    hide Mul;
    var r := Product(p[1..], q);
    SumAt(ScaleBy(q, p[0]), [0.0] + r, i);
    if i < |p| + |q| - 1 {
      ConvolutionStep(p, q, i, |p|);
      if i == 0 {
        ConvolutionOutside(p[1..], q, -1, |p| - 1);
      } else if i - 1 >= |r| {
        ConvolutionOutside(p[1..], q, i - 1, |p| - 1);
      }
      MulZeroOne(p[0]);
      MulCommutes(p[0], At(q, i));
    }
  }

  /** Evaluation turns the convolution into a product. */
  lemma {:induction false} EvalProduct(p: seq<real>, q: seq<real>, x: real)
    ensures Eval(Product(p, q), x) == Mul(Eval(p, x), Eval(q, x))
  {
    hide Mul;
    MulZeroOne(Eval(p, x));
    MulZeroOne(Eval(q, x));
    if |p| > 0 && |q| > 0 {
      hide Product, Convolution, Sum, ScaleBy, At;
      var r := Product(p[1..], q);
      var s, t := ScaleBy(q, p[0]), [0.0] + r;
      forall i | 0 <= i ensures At(Product(p, q), i) == At(Sum(s, t), i) { ProductStep(p, q, i); }
      EvalSame(Product(p, q), Sum(s, t), x);
      EvalSum(s, t, x);
      EvalScale(q, p[0], x);
      EvalProduct(p[1..], q, x);
      assert t[1..] == r;
      var u, v := Eval(p[1..], x), Eval(q, x);
      MulAssociates(x, u, v);
      MulDistributes(v, p[0], Mul(x, u));
    }
  }

  /** Products have no trailing zero if their factors have none. */
  lemma ProductNoTopZero(p: seq<real>, q: seq<real>)
    requires NoTopZero(p) && NoTopZero(q)
    ensures NoTopZero(Product(p, q))
    ensures |p| > 0 && |q| > 0 ==> Product(p, q)[|p| + |q| - 2] == Mul(p[|p| - 1], q[|q| - 1])
  {
    hide Mul;
    if |p| > 0 && |q| > 0 {
      TopCoefficient(p, q);
      MulNonzero(p[|p| - 1], q[|q| - 1]);
    }
  }

  lemma TopCoefficient(p: seq<real>, q: seq<real>)
    requires |p| > 0 && |q| > 0
    ensures Product(p, q)[|p| + |q| - 2] == Mul(p[|p| - 1], q[|q| - 1])
    ensures Product(p, q)[0] == Mul(p[0], q[0])
  {
    hide Mul;
    ConvolutionOutside(p, q, |p| + |q| - 2, |p| - 1);
    ConvolutionStep(p, q, 0, |p|);
    ConvolutionOutside(p[1..], q, -1, |p| - 1);
  }

  // ---------------------------------------------------------------- powers

  function Power(x: real, n: nat): real {
    if n == 0 then 1.0 else Mul(Power(x, n - 1), x)
  }

  /** The sum of p[i] * x^i for i < n, as the substitution loop adds it up. */
  function PowerSum(p: seq<real>, x: real, n: nat): real
    requires n <= |p|
  {
    if n == 0 then 0.0 else PowerSum(p, x, n - 1) + Mul(p[n - 1], Power(x, n - 1))
  }

  lemma {:induction false} EvalIsPowerSum(p: seq<real>, x: real, n: nat)
    requires n <= |p|
    ensures Eval(p[..n], x) == PowerSum(p, x, n)
  {
    hide Mul;
    if n > 0 {
      EvalIsPowerSum(p, x, n - 1);
      EvalAppend(p[..n - 1], p[n - 1], x);
      assert p[..n] == p[..n - 1] + [p[n - 1]];
    }
  }

  lemma {:induction false} EvalAppend(p: seq<real>, c: real, x: real)
    ensures Eval(p + [c], x) == Eval(p, x) + Mul(c, Power(x, |p|))
  {
    hide Mul;
    if |p| == 0 {
      assert (p + [c])[1..] == [];
      MulZeroOne(x);
      MulZeroOne(c);
    } else {
      EvalAppend(p[1..], c, x);
      assert (p + [c])[1..] == p[1..] + [c];
      var w := Power(x, |p| - 1);
      MulDistributes(x, Eval(p[1..], x), Mul(c, w));
      MulAssociates(x, c, w);
      MulCommutes(x, c);
      MulAssociates(c, x, w);
      MulCommutes(x, w);
    }
  }
}
