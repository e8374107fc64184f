/** Elementary number theory over the mathematical integers: powers, residues,
    Euclid's algorithm, primes, Fermat's little theorem, the Chinese remainder
    step and the bound on the number of roots of a polynomial modulo a prime. */
module NumberTheory {

  // ---------------------------------------------------------------- powers

  function Pow(b: int, e: nat): int {
    if e == 0 then 1 else b * Pow(b, e - 1)
  }

  lemma {:induction false} PowAdd(b: int, m: nat, n: nat)
    ensures Pow(b, m + n) == Pow(b, m) * Pow(b, n)
  {
    if m == 0 {
    } else {
      PowAdd(b, m - 1, n);
      assert b * (Pow(b, m - 1) * Pow(b, n)) == b * Pow(b, m - 1) * Pow(b, n);
    }
  }

  lemma {:induction false} PowMul(b: int, m: nat, n: nat)
    ensures Pow(Pow(b, m), n) == Pow(b, m * n)
  {
    if n == 0 {
    } else {
      PowMul(b, m, n - 1);
      PowAdd(b, m, m * (n - 1));
      assert m + m * (n - 1) == m * n;
    }
  }

  lemma {:induction false} PowOne(n: nat)
    ensures Pow(1, n) == 1
  {
    if n > 0 { PowOne(n - 1); }
  }

  lemma {:induction false} PowPositive(b: nat, n: nat)
    requires b > 0
    ensures Pow(b, n) > 0
  {
    if n > 0 { PowPositive(b, n - 1); }
  }

  lemma {:induction false} PowNat(b: nat, n: nat)
    ensures Pow(b, n) >= 0
  {
    if n > 0 { PowNat(b, n - 1); }
  }

  // ---------------------------------------------------------------- residues

  lemma DivModUnique(a: int, m: int, q: int, r: int)
    requires m > 0 && 0 <= r < m && a == m * q + r
    ensures a / m == q && a % m == r
  {
    var q', r' := a / m, a % m;
    MulDistributes(m, q, -q');
    if q > q' {
      MulAtLeast(m, q - q');
    } else if q < q' {
      MulDistributes(m, q', -q);
      MulAtLeast(m, q' - q);
    }
  }

  lemma MulDistributes(a: int, b: int, c: int)
    ensures a * (b + c) == a * b + a * c
  {
  }

  lemma MulAssociates(a: int, b: int, c: int)
    ensures a * (b * c) == (a * b) * c
  {
  }

  lemma MulAtLeast(m: int, d: int)
    requires m >= 0 && d >= 1
    ensures m * d >= m
  {
  }

  lemma ModShift(a: int, k: int, m: int)
    requires m > 0
    ensures (a + m * k) % m == a % m
  {
    var q, r := a / m, a % m;
    assert a + m * k == m * (q + k) + r;
    DivModUnique(a + m * k, m, q + k, r);
  }

  lemma ModMultiple(k: int, m: int)
    requires m > 0
    ensures (m * k) % m == 0 && (k * m) % m == 0
  {
    DivModUnique(m * k, m, k, 0);
  }

  lemma ModMulLeft(a: int, b: int, m: int)
    requires m > 0
    ensures (a * b) % m == ((a % m) * b) % m
  {
    var q, r := a / m, a % m;
    assert a * b == (m * q + r) * b == r * b + m * (q * b);
    ModShift(r * b, q * b, m);
  }

  lemma ModMul(a: int, b: int, m: int)
    requires m > 0
    ensures (a * b) % m == ((a % m) * (b % m)) % m
  {
    var x := a % m;
    ModMulLeft(a, b, m);
    MulCommutes(x, b);
    ModMulLeft(b, x, m);
    MulCommutes(b % m, x);
  }

  lemma MulCommutes(a: int, b: int)
    ensures a * b == b * a
  {
  }

  lemma ModAdd(a: int, b: int, m: int)
    requires m > 0
    ensures (a + b) % m == (a % m + b % m) % m
  {
    var q, q' := a / m, b / m;
    assert a + b == a % m + b % m + m * (q + q');
    ModShift(a % m + b % m, q + q', m);
  }

  lemma {:induction false} ModPow(a: int, e: nat, m: int)
    requires m > 0
    ensures Pow(a, e) % m == Pow(a % m, e) % m
  {
    if e > 0 {
      ModPow(a, e - 1, m);
      ModMul(a, Pow(a, e - 1), m);
      ModMul(a % m, Pow(a % m, e - 1), m);
      ModIdempotent(a, m);
    }
  }

  lemma ModIdempotent(a: int, m: int)
    requires m > 0
    ensures (a % m) % m == a % m
  {
    DivModUnique(a % m, m, 0, a % m);
  }

  /** Equal residues are the same as a difference that is a multiple. */
  lemma ModEqual(a: int, b: int, m: int)
    requires m > 0
    ensures a % m == b % m <==> (a - b) % m == 0
  {
    var q, q' := a / m, b / m;
    var r, r' := a % m, b % m;
    assert a - b == m * (q - q') + (r - r');
    if r == r' {
      ModMultiple(q - q', m);
    }
    if (a - b) % m == 0 {
      var t := (a - b) / m;
      assert a - b == m * t;
      assert a == m * (q' + t) + r';
      DivModUnique(a, m, q' + t, r');
    }
  }

  lemma ModAddEqual(a: int, b: int, c: int, d: int, m: int)
    requires m > 0 && a % m == c % m && b % m == d % m
    ensures (a + b) % m == (c + d) % m
  {
    ModAdd(a, b, m);
    ModAdd(c, d, m);
  }

  lemma ModMulEqual(a: int, b: int, c: int, d: int, m: int)
    requires m > 0 && a % m == c % m && b % m == d % m
    ensures (a * b) % m == (c * d) % m
  {
    ModMul(a, b, m);
    ModMul(c, d, m);
  }

  // ---------------------------------------------------------------- divisors

  predicate Divides(d: int, a: int)
    requires d > 0
  {
    a % d == 0
  }

  lemma DividesSelf(d: int)
    requires d > 0
    ensures Divides(d, d) && Divides(d, 0)
  {
    ModMultiple(1, d);
    ModMultiple(0, d);
  }

  lemma DividesMultiple(d: int, a: int, k: int)
    requires d > 0 && Divides(d, a)
    ensures Divides(d, a * k) && Divides(d, k * a)
  {
    assert a == d * (a / d);
    assert a * k == d * (a / d * k);
    ModMultiple(a / d * k, d);
  }

  lemma DividesSum(d: int, a: int, b: int)
    requires d > 0 && Divides(d, a) && Divides(d, b)
    ensures Divides(d, a + b) && Divides(d, a - b)
  {
    assert a == d * (a / d) && b == d * (b / d);
    assert a + b == d * (a / d + b / d);
    assert a - b == d * (a / d - b / d);
    ModMultiple(a / d + b / d, d);
    ModMultiple(a / d - b / d, d);
  }

  lemma DividesTransitive(c: int, d: int, a: int)
    requires c > 0 && d > 0 && Divides(c, d) && Divides(d, a)
    ensures Divides(c, a)
  {
    assert a == d * (a / d);
    DividesMultiple(c, d, a / d);
  }

  lemma DividesBound(d: int, a: int)
    requires d > 0 && a > 0 && Divides(d, a)
    ensures d <= a
  {
    var k := a / d;
    assert a == d * k;
    if k >= 1 { MulAtLeast(d, k); } else { MulAtLeast(d, 1 - k); MulDistributes(d, 1, -k); }
  }

  // ---------------------------------------------------------------- Euclid

  function Gcd(a: nat, b: nat): nat
    decreases b
  {
    if b == 0 then a else Gcd(b, a % b)
  }

  lemma {:induction false} GcdPositive(a: nat, b: nat)
    requires a > 0 || b > 0
    ensures Gcd(a, b) > 0
    decreases b
  {
    if b > 0 { GcdPositive(b, a % b); }
  }

  lemma DivisorOfDividend(g: int, a: int, b: int, q: int, r: int)
    requires g > 0 && Divides(g, b) && Divides(g, r) && a == b * q + r
    ensures Divides(g, a)
  {
    DividesMultiple(g, b, q);
    DividesSum(g, b * q, r);
  }

  /** The result of Euclid's algorithm is a common divisor. */
  lemma {:induction false} GcdDivides(a: nat, b: nat)
    requires a > 0 || b > 0
    ensures Gcd(a, b) > 0 && Divides(Gcd(a, b), a) && Divides(Gcd(a, b), b)
    decreases b
  {
    if b == 0 {
      DividesSelf(a);
    } else {
      var q, r := a / b, a % b;
      GcdDivides(b, r);
      DivisorOfDividend(Gcd(b, r), a, b, q, r);
    }
  }

  /** Bezout's identity. */
  lemma {:induction false} Bezout(a: nat, b: nat) returns (x: int, y: int)
    ensures x * a + y * b == Gcd(a, b)
    decreases b
  {
    if b == 0 {
      x, y := 1, 0;
    } else {
      var u, v := Bezout(b, a % b);
      x, y := v, u - v * (a / b);
      assert a % b == a - b * (a / b);
      assert x * a + y * b == u * b + v * (a - b * (a / b));
    }
  }

  /** Every common divisor divides the result of Euclid's algorithm. */
  lemma GcdGreatest(a: nat, b: nat, d: int)
    requires d > 0 && (a > 0 || b > 0) && Divides(d, a) && Divides(d, b)
    ensures Divides(d, Gcd(a, b))
  {
    var x, y := Bezout(a, b);
    DividesMultiple(d, a, x);
    DividesMultiple(d, b, y);
    DividesSum(d, x * a, y * b);
  }

  /** If c divides a*b and is coprime to a, it divides b. */
  lemma CoprimeDivides(c: nat, a: nat, b: int)
    requires c > 0 && Gcd(c, a) == 1 && Divides(c, a * b)
    ensures Divides(c, b)
  {
    var x, y := Bezout(c, a);
    ModMultiple(x * b, c);
    DividesMultiple(c, a * b, y);
    DividesSum(c, c * (x * b), y * (a * b));
    assert c * (x * b) + y * (a * b) == (x * c + y * a) * b == b;
  }

  // ---------------------------------------------------------------- primes

  predicate IsPrime(p: int) {
    2 <= p && forall d | 2 <= d < p :: !Divides(d, p)
  }

  lemma PrimeGcd(p: nat, a: nat)
    requires IsPrime(p) && !Divides(p, a)
    ensures Gcd(p, a) == 1
  {
    GcdDivides(p, a);
    var g := Gcd(p, a);
    DividesBound(g, p);
  }

  /** Euclid's lemma, for any integers. */
  lemma EuclidLemma(p: nat, a: int, b: int)
    requires IsPrime(p) && Divides(p, a * b)
    ensures Divides(p, a) || Divides(p, b)
  {
    if !Divides(p, a) {
      var r := a % p;
      ModIdempotent(a, p);
      ModMulLeft(a, b, p);
      PrimeGcd(p, r);
      CoprimeDivides(p, r, b);
    }
  }

  /** A prime that divides a prime is that prime. */
  lemma PrimeDividesPrime(p: nat, q: nat)
    requires IsPrime(p) && IsPrime(q) && Divides(p, q)
    ensures p == q
  {
    DividesBound(p, q);
  }

  /** The Chinese remainder step: two distinct primes that divide x have a
      product that divides x. */
  lemma ProductDivides(p: nat, q: nat, x: int)
    requires IsPrime(p) && IsPrime(q) && p != q && Divides(p, x) && Divides(q, x)
    ensures p * q > 0 && Divides(p * q, x)
  {
    if Divides(p, q) { PrimeDividesPrime(p, q); assert false; }
    MulAtLeast(p, q);
    var y := x / q;
    assert x == q * y;
    EuclidLemma(p, q, y);
    var k := y / p;
    assert y == p * k;
    ProductWitness(p, q, k);
  }

  lemma ProductWitness(p: int, q: int, k: int)
    requires p * q > 0
    ensures Divides(p * q, q * (p * k))
  {
    MulAssociates(q, p, k);
    var n := p * q;
    ModMultiple(k, n);
  }

  lemma DividesOfProduct(p: nat, q: nat, x: int)
    requires p > 0 && q > 0 && p * q > 0 && Divides(p * q, x)
    ensures Divides(p, x) && Divides(q, x)
  {
    ModMultiple(q, p);
    ModMultiple(p, q);
    DividesTransitive(p, p * q, x);
    DividesTransitive(q, p * q, x);
  }

  // ---------------------------------------------------------------- binomials

  function Binom(n: nat, k: nat): nat {
    if k == 0 then 1 else if n == 0 then 0 else Binom(n - 1, k - 1) + Binom(n - 1, k)
  }

  lemma {:induction false} BinomAbove(n: nat, k: nat)
    requires k > n
    ensures Binom(n, k) == 0
  {
    if n > 0 {
      BinomAbove(n - 1, k - 1);
      BinomAbove(n - 1, k);
    }
  }

  lemma {:induction false} BinomAbsorption(n: nat, k: nat)
    ensures (k + 1) * Binom(n + 1, k + 1) == (n + 1) * Binom(n, k)
  {
    if n == 0 {
      if k > 0 { BinomAbove(1, k + 1); BinomAbove(0, k); }
      else { assert Binom(1, 1) == Binom(0, 0) + Binom(0, 1) == 1; }
    } else if k == 0 {
      BinomAbsorption(n - 1, 0);
      assert Binom(n + 1, 1) == Binom(n, 0) + Binom(n, 1);
    } else {
      BinomAbsorption(n - 1, k - 1);
      BinomAbsorption(n - 1, k);
      AbsorptionStep(n, k, Binom(n - 1, k - 1), Binom(n - 1, k), Binom(n, k + 1));
    }
  }

  lemma AbsorptionStep(n: int, k: int, x: int, y: int, z: int)
    requires k * (x + y) == n * x && (k + 1) * z == n * y
    ensures (k + 1) * (x + y + z) == (n + 1) * (x + y)
  {
    MulDistributes(k + 1, x + y, z);
    MulDistributes(n, x, y);
  }

  lemma PrimeDividesBinom(p: nat, k: nat)
    requires IsPrime(p) && 0 < k < p
    ensures Divides(p, Binom(p, k))
  {
    BinomAbsorption(p - 1, k - 1);
    assert k * Binom(p, k) == p * Binom(p - 1, k - 1);
    ModMultiple(Binom(p - 1, k - 1), p);
    EuclidLemma(p, k, Binom(p, k));
    if Divides(p, k) { DividesBound(p, k); assert false; }
  }

  /** The first m terms of the binomial expansion of (a + 1)^n. */
  function BinomSum(n: nat, a: int, m: nat): int {
    if m == 0 then 0 else BinomSum(n, a, m - 1) + Binom(n, m - 1) * Pow(a, m - 1)
  }

  lemma {:induction false} BinomSumStep(n: nat, a: int, m: nat)
    ensures BinomSum(n + 1, a, m + 1) == BinomSum(n, a, m + 1) + a * BinomSum(n, a, m)
  {
    if m == 0 {
      assert BinomSum(n + 1, a, 1) == BinomSum(n + 1, a, 0) + Binom(n + 1, 0) * Pow(a, 0);
      assert BinomSum(n, a, 1) == BinomSum(n, a, 0) + Binom(n, 0) * Pow(a, 0);
    } else {
      BinomSumStep(n, a, m - 1);
      SumStep(a, Binom(n, m - 1), Binom(n, m), Pow(a, m - 1), BinomSum(n, a, m - 1));
    }
  }

  lemma SumStep(a: int, b: int, c: int, pm: int, t: int)
    ensures (b + c) * (a * pm) == b * (a * pm) + c * (a * pm)
    ensures a * t + b * (a * pm) == a * (t + b * pm)
  {
    MulDistributes(a, t, b * pm);
    MulAssociates(a, b, pm);
    MulAssociates(b, a, pm);
  }

  lemma LastFactor(a: int, p: int, b: int, c: int)
    requires b == p && c == 0
    ensures b + c + a * b == (a + 1) * p
  {
  }

  lemma {:induction false} BinomialTheorem(n: nat, a: int)
    ensures BinomSum(n, a, n + 1) == Pow(a + 1, n)
  {
    if n == 0 {
      assert BinomSum(0, a, 1) == BinomSum(0, a, 0) + Binom(0, 0) * Pow(a, 0);
    } else {
      BinomialTheorem(n - 1, a);
      BinomSumStep(n - 1, a, n);
      BinomAbove(n - 1, n);
      LastTerm(n - 1, a);
      LastFactor(a, Pow(a + 1, n - 1), BinomSum(n - 1, a, n), 0);
    }
  }

  lemma LastTerm(n: nat, a: int)
    ensures BinomSum(n, a, n + 2) == BinomSum(n, a, n + 1)
  {
    BinomAbove(n, n + 1);
    ZeroTimes(Binom(n, n + 1), Pow(a, n + 1));
  }

  lemma ZeroTimes(x: int, y: int)
    requires x == 0
    ensures x * y == 0
  {
  }

  lemma {:induction false} BinomSumPrime(p: nat, a: int, m: nat)
    requires IsPrime(p) && 1 <= m <= p
    ensures BinomSum(p, a, m) % p == 1
  {
    if m == 1 {
      assert BinomSum(p, a, 1) == BinomSum(p, a, 0) + Binom(p, 0) * Pow(a, 0) == 1;
      DivModUnique(1, p, 0, 1);
    } else {
      BinomSumPrime(p, a, m - 1);
      PrimeDividesBinom(p, m - 1);
      DividesMultiple(p, Binom(p, m - 1), Pow(a, m - 1));
      ModAdd(BinomSum(p, a, m - 1), Binom(p, m - 1) * Pow(a, m - 1), p);
      DivModUnique(1, p, 0, 1);
    }
  }

  // ---------------------------------------------------------------- Fermat

  lemma FreshmansDream(p: nat, a: int)
    requires IsPrime(p)
    ensures Pow(a + 1, p) % p == (Pow(a, p) + 1) % p
  {
    BinomialTheorem(p, a);
    BinomSumPrime(p, a, p);
    BinomAbsorption(p - 1, p - 1);
    BinomTop(p);
    assert BinomSum(p, a, p + 1) == BinomSum(p, a, p) + Binom(p, p) * Pow(a, p);
    DivModUnique(1, p, 0, 1);
    ModAddEqual(BinomSum(p, a, p), Pow(a, p), 1, Pow(a, p), p);
  }

  lemma {:induction false} BinomTop(n: nat)
    ensures Binom(n, n) == 1
  {
    if n > 0 {
      BinomTop(n - 1);
      BinomAbove(n - 1, n);
    }
  }

  lemma {:induction false} FermatNat(p: nat, a: nat)
    requires IsPrime(p)
    ensures Pow(a, p) % p == a % p
  {
    if a > 0 {
      FermatNat(p, a - 1);
      FreshmansDream(p, a - 1);
      ModAddEqual(Pow(a - 1, p), 1, a - 1, 1, p);
    }
  }

  /** Fermat's little theorem: a^(p-1) = 1 modulo p unless p divides a. */
  lemma FermatLittle(p: nat, a: nat)
    requires IsPrime(p) && !Divides(p, a)
    ensures Pow(a, p - 1) % p == 1
  {
    FermatNat(p, a);
    ModEqual(Pow(a, p), a, p);
    assert Pow(a, p) - a == a * (Pow(a, p - 1) - 1);
    EuclidLemma(p, a, Pow(a, p - 1) - 1);
    ModEqual(Pow(a, p - 1), 1, p);
    DivModUnique(1, p, 0, 1);
  }

  /** a^(1 + k(p-1)) = a modulo p, for every a, also those p divides. */
  lemma FermatExponent(p: nat, a: nat, k: nat)
    requires IsPrime(p)
    ensures Pow(a, 1 + (p - 1) * k) % p == a % p
  {
    var t := (p - 1) * k;
    assert Pow(a, 1 + t) == a * Pow(a, t);
    if Divides(p, a) {
      DividesMultiple(p, a, Pow(a, t));
    } else {
      FermatLittle(p, a);
      PowMul(a, p - 1, k);
      ModPow(Pow(a, p - 1), k, p);
      PowOne(k);
      DivModUnique(1, p, 0, 1);
      ModMulEqual(a, Pow(a, t), a, 1, p);
    }
  }

  // ---------------------------------------------------------------- roots modulo a prime

  /** The polynomial with coefficients c, lowest degree first, at x. */
  function Eval(c: seq<int>, x: int): int {
    if |c| == 0 then 0 else c[0] + x * Eval(c[1..], x)
  }

  /** Synthetic division of c by (X - r): the quotient. */
  function Quotient(c: seq<int>, r: int): (q: seq<int>)
    requires |c| > 0
    ensures |q| == |c| - 1
    ensures |q| > 0 ==> q[|q| - 1] == c[|c| - 1]
  {
    if |c| == 1 then []
    else
      assert |c| == 2 ==> c[1..][1..] == [] && r * Eval([], r) == 0;
      [Eval(c[1..], r)] + Quotient(c[1..], r)
  }

  lemma {:induction false} QuotientEval(c: seq<int>, r: int, x: int)
    requires |c| > 0
    ensures Eval(c, x) == Eval(c, r) + (x - r) * Eval(Quotient(c, r), x)
  {
    if |c| == 1 {
      assert Eval(c[1..], x) == 0 && Eval(c[1..], r) == 0;
    } else {
      var t := c[1..];
      QuotientEval(t, r, x);
      var q := Quotient(t, r);
      assert Quotient(c, r)[1..] == q;
      var e := Eval(t, r);
      QuotientStep(c[0], r, x, e, Eval(q, x));
    }
  }

  lemma QuotientStep(c0: int, r: int, x: int, e: int, v: int)
    ensures c0 + x * (e + (x - r) * v) == c0 + r * e + (x - r) * (e + x * v)
  {
    MulDistributes(x, e, (x - r) * v);
    MulDistributes(x - r, e, x * v);
    MulAssociates(x, x - r, v);
    MulAssociates(x - r, x, v);
  }

  /** Lagrange: a monic polynomial of degree k has at most k roots modulo a
      prime, so it cannot vanish on k + 1 consecutive residues. */
  lemma {:induction false} RootBound(p: nat, c: seq<int>)
    requires IsPrime(p) && 0 < |c| < p && c[|c| - 1] == 1
    ensures exists x :: 1 <= x <= |c| && !Divides(p, Eval(c, x))
    decreases |c|
  {
    if |c| == 1 {
      assert c[1..] == [];
      assert Eval(c, 1) == 1;
      DivModUnique(1, p, 0, 1);
    } else {
      var r := |c|;
      var q := Quotient(c, r);
      RootBound(p, q);
      var x :| 1 <= x <= |q| && !Divides(p, Eval(q, x));
      if Divides(p, Eval(c, x)) && Divides(p, Eval(c, r)) {
        QuotientEval(c, r, x);
        DividesSum(p, Eval(c, x), Eval(c, r));
        EuclidLemma(p, x - r, Eval(q, x));
        assert Divides(p, x - r);
        DividesMultiple(p, x - r, -1);
        DividesBound(p, r - x);
        assert false;
      }
    }
  }

  /** X^k - 1. */
  function PowerMinusOne(k: nat): (c: seq<int>)
    requires k > 0
    ensures |c| == k + 1 && c[k] == 1
  {
    [-1] + Monomial(k - 1)
  }

  function Monomial(k: nat): (c: seq<int>)
    ensures |c| == k + 1 && c[k] == 1
  {
    if k == 0 then [1] else [0] + Monomial(k - 1)
  }

  lemma {:induction false} MonomialEval(k: nat, x: int)
    ensures Eval(Monomial(k), x) == Pow(x, k)
  {
    if k == 0 {
      assert Monomial(0)[1..] == [];
    } else {
      MonomialEval(k - 1, x);
      assert Monomial(k)[1..] == Monomial(k - 1);
    }
  }

  /** For a proper divisor r of p - 1 there is a residue b other than 1 with
      b^r = 1 modulo p (r > 1): the r-th power map is not injective. */
  lemma RootOfUnity(p: nat, r: nat) returns (b: nat)
    requires IsPrime(p) && 1 < r && Divides(r, p - 1)
    ensures 1 < b < p && Pow(b, r) % p == 1
  {
    var k := (p - 1) / r;
    assert p - 1 == k * r;
    ProperQuotient(p - 1, r, k);
    var x := NonRoot(p, k);
    b := Pow(x, k) % p;
    PowMul(x, k, r);
    FermatLittle(p, x);
    ModPow(Pow(x, k), r, p);
    if b == 0 { PowOfZero(r); assert false; }
  }

  lemma ProperQuotient(n: int, r: int, k: int)
    requires n > 0 && r > 1 && n == k * r
    ensures 0 < k < n
  {
    if k >= 1 { MulAtLeast(k, r - 1); MulDistributes(k, r - 1, 1); }
    else { MulAtLeast(r, 1 - k); MulDistributes(r, 1, -k); }
  }

  lemma PowOfZero(n: nat)
    requires n > 0
    ensures Pow(0, n) == 0
  {
    assert Pow(0, n) == 0 * Pow(0, n - 1);
  }

  lemma NonRoot(p: nat, k: nat) returns (x: nat)
    requires IsPrime(p) && 0 < k < p - 1
    ensures 0 < x < p && !Divides(p, x) && Pow(x, k) % p != 1
  {
    var c := PowerMinusOne(k);
    RootBound(p, c);
    x :| 1 <= x <= |c| && !Divides(p, Eval(c, x));
    assert c[1..] == Monomial(k - 1);
    MonomialEval(k - 1, x);
    ModEqual(Pow(x, k), 1, p);
    DivModUnique(1, p, 0, 1);
    DivModUnique(x, p, 0, x);
  }
}
