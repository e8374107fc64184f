/** Exact complex numbers and polynomial evaluation over them. */
module ComplexNumbers {

  datatype Complex = Complex(re: real, im: real)

  const ZERO := Complex(0.0, 0.0)
  const ONE := Complex(1.0, 0.0)

  function Plus(a: Complex, b: Complex): Complex {
    Complex(a.re + b.re, a.im + b.im)
  }

  function Minus(a: Complex, b: Complex): Complex {
    Complex(a.re - b.re, a.im - b.im)
  }

  function Times(a: Complex, b: Complex): Complex {
    Complex(a.re * b.re - a.im * b.im, a.re * b.im + a.im * b.re)
  }

  function Neg(a: Complex): Complex {
    Minus(ZERO, a)
  }

  function Real(x: real): Complex {
    Complex(x, 0.0)
  }

  function Norm(a: Complex): real {
    a.re * a.re + a.im * a.im
  }

  /** 1 / a, for a other than zero. */
  function Inverse(a: Complex): Complex {
    if Norm(a) == 0.0 then ZERO else Complex(a.re / Norm(a), -a.im / Norm(a))
  }

  // ---------------------------------------------------------------- ring laws

  lemma PlusAssociates(a: Complex, b: Complex, c: Complex)
    ensures Plus(a, Plus(b, c)) == Plus(Plus(a, b), c)
  {
  }

  lemma TimesCommutes(a: Complex, b: Complex)
    ensures Times(a, b) == Times(b, a)
  {
  }

  lemma TimesOne(a: Complex)
    ensures Times(ONE, a) == a && Times(a, ONE) == a
    ensures Times(ZERO, a) == ZERO && Times(a, ZERO) == ZERO
    ensures Plus(ZERO, a) == a && Plus(a, ZERO) == a && Minus(a, ZERO) == a
  {
  }

  lemma Triple(x: real, y: real, z: real)
    ensures x * (y * z) == (x * y) * z
  {
  }

  lemma Spread(x: real, y: real, z: real)
    ensures x * (y + z) == x * y + x * z && x * (y - z) == x * y - x * z
    ensures (y + z) * x == x * y + x * z && (y - z) * x == x * y - x * z
  {
  }

  lemma TimesAssociates(a: Complex, b: Complex, c: Complex)
    ensures Times(a, Times(b, c)) == Times(Times(a, b), c)
  {
    RealPart(a.re, a.im, b.re, b.im, c.re, c.im);
    ImagPart(a.re, a.im, b.re, b.im, c.re, c.im);
  }

  lemma RealPart(p: real, q: real, r: real, s: real, u: real, v: real)
    ensures p * (r * u - s * v) - q * (r * v + s * u) == (p * r - q * s) * u - (p * s + q * r) * v
  {
    Spread(p, r * u, s * v);
    Spread(q, r * v, s * u);
    Spread(u, p * r, q * s);
    Spread(v, p * s, q * r);
    Triple(p, r, u); Triple(p, s, v); Triple(q, r, v); Triple(q, s, u);
  }

  lemma ImagPart(p: real, q: real, r: real, s: real, u: real, v: real)
    ensures p * (r * v + s * u) + q * (r * u - s * v) == (p * r - q * s) * v + (p * s + q * r) * u
  {
    Spread(p, r * v, s * u);
    Spread(q, r * u, s * v);
    Spread(v, p * r, q * s);
    Spread(u, p * s, q * r);
    Triple(p, r, v); Triple(p, s, u); Triple(q, r, u); Triple(q, s, v);
  }

  lemma TimesDistributes(a: Complex, b: Complex, c: Complex)
    ensures Times(a, Plus(b, c)) == Plus(Times(a, b), Times(a, c))
    ensures Times(a, Minus(b, c)) == Minus(Times(a, b), Times(a, c))
  {
    TimesPlus(a, b, c);
    TimesMinus(a, b, c);
  }

  lemma TimesPlus(a: Complex, b: Complex, c: Complex)
    ensures Times(a, Plus(b, c)) == Plus(Times(a, b), Times(a, c))
  {
    Spread(a.re, b.re, c.re);
    Spread(a.im, b.im, c.im);
    Spread(a.re, b.im, c.im);
    Spread(a.im, b.re, c.re);
  }

  lemma TimesMinus(a: Complex, b: Complex, c: Complex)
    ensures Times(a, Minus(b, c)) == Minus(Times(a, b), Times(a, c))
  {
    Spread(a.re, b.re, c.re);
    Spread(a.im, b.im, c.im);
    Spread(a.re, b.im, c.im);
    Spread(a.im, b.re, c.re);
  }

  lemma TimesNeg(a: Complex, b: Complex)
    ensures Times(Neg(a), b) == Neg(Times(a, b)) == Times(a, Neg(b))
    ensures Neg(Neg(a)) == a && Plus(a, Neg(b)) == Minus(a, b)
  {
  }

  /** (a b)(c d) = (a c)(b d). */
  lemma TimesExchange(a: Complex, b: Complex, c: Complex, d: Complex)
    ensures Times(Times(a, b), Times(c, d)) == Times(Times(a, c), Times(b, d))
  {
    hide *;
    TimesAssociates(a, b, Times(c, d));
    TimesAssociates(b, c, d);
    TimesCommutes(b, c);
    TimesAssociates(c, b, d);
    TimesAssociates(a, c, Times(b, d));
  }

  lemma InverseTimes(a: Complex)
    requires Norm(a) != 0.0
    ensures Times(a, Inverse(a)) == ONE
  {
    var n := Norm(a);
    assert a.re * (a.re / n) == a.re * a.re / n;
    assert a.im * (-a.im / n) == -(a.im * a.im / n);
    assert a.re * a.re / n + a.im * a.im / n == n / n == 1.0;
    assert a.re * (-a.im / n) == -(a.re * a.im / n);
    assert a.im * (a.re / n) == a.re * a.im / n;
  }

  lemma NormTimes(a: Complex, b: Complex)
    ensures Norm(Times(a, b)) == Norm(a) * Norm(b)
  {
    var p, q, r, s := a.re * b.re, a.im * b.im, a.re * b.im, a.im * b.re;
    assert p * q == r * s by {
      Triple(a.re, b.re, q); Triple(b.re, a.im, b.im); Triple(a.re, b.im, s); Triple(b.im, a.im, b.re);
      assert b.re * q == b.im * s;
    }
    assert p * p == (a.re * a.re) * (b.re * b.re);
    assert q * q == (a.im * a.im) * (b.im * b.im);
    assert r * r == (a.re * a.re) * (b.im * b.im);
    assert s * s == (a.im * a.im) * (b.re * b.re);
    SquareOfDifference(p, q);
    SquareOfSum(r, s);
    Spread(a.re * a.re, b.re * b.re, b.im * b.im);
    Spread(a.im * a.im, b.re * b.re, b.im * b.im);
    Spread(Norm(b), a.re * a.re, a.im * a.im);
  }

  lemma SquareOfDifference(p: real, q: real)
    ensures (p - q) * (p - q) == p * p - 2.0 * (p * q) + q * q
  {
  }

  lemma SquareOfSum(p: real, q: real)
    ensures (p + q) * (p + q) == p * p + 2.0 * (p * q) + q * q
  {
  }

  // ---------------------------------------------------------------- powers

  function Power(w: Complex, k: nat): Complex {
    if k == 0 then ONE else Times(w, Power(w, k - 1))
  }

  lemma {:induction false} PowerAdd(w: Complex, j: nat, k: nat)
    ensures Power(w, j + k) == Times(Power(w, j), Power(w, k))
  {
    hide Times;
    TimesOne(Power(w, k));
    if j > 0 {
      PowerAdd(w, j - 1, k);
      TimesAssociates(w, Power(w, j - 1), Power(w, k));
    }
  }

  lemma {:induction false} PowerTimes(a: Complex, b: Complex, k: nat)
    ensures Power(Times(a, b), k) == Times(Power(a, k), Power(b, k))
  {
    hide Times;
    TimesOne(ONE);
    if k > 0 {
      PowerTimes(a, b, k - 1);
      TimesExchange(a, b, Power(a, k - 1), Power(b, k - 1));
    }
  }

  lemma {:induction false} PowerOne(k: nat)
    ensures Power(ONE, k) == ONE
  {
    hide Times;
    TimesOne(ONE);
    if k > 0 { PowerOne(k - 1); }
  }

  lemma PowerSquare(w: Complex, k: nat)
    ensures Power(Times(w, w), k) == Times(Power(w, k), Power(w, k)) == Power(w, 2 * k)
  {
    PowerTimes(w, w, k);
    PowerAdd(w, k, k);
  }

  lemma {:induction false} PowerMultiply(w: Complex, j: nat, k: nat)
    ensures Power(w, j * k) == Power(Power(w, j), k)
  {
    hide Times;
    if k > 0 {
      PowerMultiply(w, j, k - 1);
      assert j * k == j + j * (k - 1);
      PowerAdd(w, j, j * (k - 1));
    }
  }

  // ---------------------------------------------------------------- evaluation

  /** The polynomial with coefficients xs, lowest first, at r. */
  function Evaluate(xs: seq<Complex>, r: Complex): Complex {
    if |xs| == 0 then ZERO else Plus(xs[0], Times(r, Evaluate(xs[1..], r)))
  }

  /** The sum of xs[j] * r^j for j < n. */
  function PowerSum(xs: seq<Complex>, r: Complex, n: nat): Complex
    requires n <= |xs|
  {
    if n == 0 then ZERO else Plus(PowerSum(xs, r, n - 1), Times(xs[n - 1], Power(r, n - 1)))
  }

  lemma {:induction false} EvaluateConcat(a: seq<Complex>, b: seq<Complex>, r: Complex)
    ensures Evaluate(a + b, r) == Plus(Evaluate(a, r), Times(Power(r, |a|), Evaluate(b, r)))
  {
    hide Times, Plus;
    var eb := Evaluate(b, r);
    if |a| == 0 {
      assert a + b == b;
      TimesOne(eb);
    } else {
      EvaluateConcat(a[1..], b, r);
      assert (a + b)[1..] == a[1..] + b;
      var p := Power(r, |a| - 1);
      TimesDistributes(r, Evaluate(a[1..], r), Times(p, eb));
      TimesAssociates(r, p, eb);
      PlusAssociates(a[0], Times(r, Evaluate(a[1..], r)), Times(Power(r, |a|), eb));
    }
  }

  /** Horner's rule agrees with the sum of powers. */
  lemma {:induction false} EvaluateIsPowerSum(xs: seq<Complex>, r: Complex, n: nat)
    requires n <= |xs|
    ensures Evaluate(xs[..n], r) == PowerSum(xs, r, n)
  {
    hide Times, Plus;
    if n > 0 {
      EvaluateIsPowerSum(xs, r, n - 1);
      assert xs[..n] == xs[..n - 1] + [xs[n - 1]];
      EvaluateConcat(xs[..n - 1], [xs[n - 1]], r);
      assert [xs[n - 1]][1..] == [];
      TimesOne(r);
      TimesOne(xs[n - 1]);
      TimesCommutes(Power(r, n - 1), xs[n - 1]);
    }
  }
}
