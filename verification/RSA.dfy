/** RSA key generation and the cipher of misc/RSACipher.ipp, over exact integers.
    The random search for primes is a parameter: Generate receives p and q. */
module RSA {
  import opened NumberTheory

  // ---------------------------------------------------------------- POWMOD

  /** What the square-and-multiply loop returns: the power for an exponent of at
      least 1; below that the loop never runs and the base itself is reduced. */
  function PowModOf(a: nat, b: int, m: nat): nat
    requires m > 0
  {
    PowNat(a, if b >= 1 then b else 0);
    (if b >= 1 then Pow(a, b) else a) % m
  }

  lemma SquareStep(l: int, i: int, t: nat, m: int)
    requires m > 0
    ensures ((l % m) * Pow((i * i) % m, t)) % m == (l * Pow(i, t + t)) % m
  {
    ModPow(i * i, t, m);
    ModIdempotent(l, m);
    ModMulEqual(l % m, Pow((i * i) % m, t), l, Pow(i * i, t), m);
    assert Pow(i, 2) == i * i by { assert Pow(i, 2) == i * Pow(i, 1) && Pow(i, 1) == i * Pow(i, 0); }
    PowMul(i, 2, t);
  }

  /** Taking one factor out for an odd exponent. */
  lemma OddStep(l: int, i: int, j: nat, t: nat)
    requires t == j / 2
    ensures j - t * 2 == 0 || j - t * 2 == 1
    ensures j - t * 2 == 1 ==> l * Pow(i, j) == (l * i) * Pow(i, t + t)
    ensures j - t * 2 == 0 ==> j == t + t
  {
    if j - t * 2 == 1 {
      assert Pow(i, j) == i * Pow(i, t + t);
      MulAssociates(l, i, Pow(i, t + t));
    }
  }

  method PowMod(a: nat, b: int, m: nat) returns (r: nat)
    requires m > 0
    ensures r == PowModOf(a, b, m)
  {
    var l: int, i: int, j: int := 1, a, b;
    if b >= 1 { OneTimes(Pow(a, b)); }
    while j > 1
      invariant i >= 0 && l >= 0
      invariant b < 1 ==> l == 1 && i == a && j == b
      invariant b >= 1 ==> Remains(l, i, j, Pow(a, b), m)
      decreases j
    {
      hide Remains, Pow;
      var tmp := j / 2;
      HalvingStep(l, i, j, Pow(a, b), m);
      if j - tmp * 2 == 1 {
        l := NatTimes(l, i);
      }
      j := tmp;
      i := NatTimes(i, i) % m;
      l := l % m;
    }
    r := NatTimes(i, l) % m;
    if b >= 1 { LastFactor(l, i, Pow(a, b), m); } else { OneTimes(a); }
  }

  function NatTimes(x: nat, y: nat): nat {
    NatProduct(x, y);
    x * y
  }

  lemma OneTimes(x: int)
    ensures 1 * x == x && x * 1 == x
  {
  }

  lemma NatProduct(x: nat, y: nat)
    ensures x * y >= 0
  {
  }

  /** l * i^j still has to be worked out. */
  ghost predicate Remains(l: int, i: int, j: int, p: int, m: nat)
    requires m > 0
  {
    j >= 1 && (l * Pow(i, j)) % m == p % m
  }

  /** One round: a factor for an odd exponent, then the square. */
  lemma HalvingStep(l: nat, i: nat, j: int, p: int, m: nat)
    requires m > 0 && j > 1
    ensures j - j / 2 * 2 == 0 || j - j / 2 * 2 == 1
    ensures Remains(l, i, j, p, m) ==>
      Remains((if j - j / 2 * 2 == 1 then NatTimes(l, i) else l) % m, NatTimes(i, i) % m, j / 2, p, m)
  {
    OddStep(l, i, j, j / 2);
    hide Pow;
    SquareStep(l, i, j / 2, m);
    SquareStep(l * i, i, j / 2, m);
  }

  lemma LastFactor(l: nat, i: nat, p: int, m: nat)
    requires m > 0 && Remains(l, i, 1, p, m)
    ensures NatTimes(i, l) % m == p % m
  {
    assert Pow(i, 1) == i * Pow(i, 0) == i;
    MulCommutes(i, l);
  }

  /** The loop computes a^b mod m exactly when b is at least 1 (or when a^0 and
      a happen to agree modulo m). */
  lemma PowModIffPower(a: nat, b: nat, m: nat)
    requires m > 0
    ensures PowModOf(a, b, m) == Pow(a, b) % m <==> b >= 1 || a % m == 1 % m
  {
  }

  // ---------------------------------------------------------------- FERMATCHECK

  predicate FermatAccepts(x: nat) {
    && x % 3 != 0 && x % 5 != 0 && x % 7 != 0 && x % 11 != 0 && x % 13 != 0 && x % 17 != 0
    && PowModOf(2, x - 1, x) == 1
  }

  method FermatCheck(x: nat) returns (accepted: bool)
    ensures accepted == FermatAccepts(x)
  {
    if x % 3 == 0 || x % 5 == 0 || x % 7 == 0 || x % 11 == 0 || x % 13 == 0 || x % 17 == 0 {
      return false;
    }
    var r := PowMod(2, x - 1, x);
    return r == 1;
  }

  /** Among the primes the check accepts exactly those above 17. */
  lemma FermatAcceptsPrimes(p: nat)
    requires IsPrime(p)
    ensures FermatAccepts(p) <==> p > 17
  {
    if p > 17 {
      assert !Divides(3, p) && !Divides(5, p) && !Divides(7, p) && !Divides(11, p) && !Divides(13, p) && !Divides(17, p);
      if Divides(p, 2) { DividesBound(p, 2); assert false; }
      FermatLittle(p, 2);
    } else if p == 2 {
      assert Pow(2, 1) == 2;
    } else {
      assert !Divides(2, p);
      assert p == 3 || p == 5 || p == 7 || p == 9 || p == 11 || p == 13 || p == 15 || p == 17;
    }
  }

  /** It is a probable-prime check only: 1387 = 19 * 73 passes. */
  lemma FermatAcceptsComposite()
    ensures FermatAccepts(1387) && !IsPrime(1387)
  {
    assert Divides(19, 1387);
    TwoToThe1386();
  }

  lemma TwoToThe1386()
    ensures Pow(2, 1386) % 1387 == 1
  {
    hide Pow;
    PowersOfTwo();
    PowAdd(2, 8, 10);
    PowMul(2, 18, 77);
    ModPow(262144, 77, 1387);
    PowOne(77);
  }

  lemma PowTwoOne()
    ensures Pow(2, 1) == 2
  {
    assert Pow(2, 1) == 2 * Pow(2, 0);
  }

  lemma PowersOfTwo()
    ensures Pow(2, 3) == 8 && Pow(2, 5) == 32 && Pow(2, 8) == 256 && Pow(2, 10) == 1024
  {
    assert Pow(2, 3) == 8;
    assert Pow(2, 5) == 32;
    PowAdd(2, 3, 5);
    PowAdd(2, 5, 5);
  }

  // ---------------------------------------------------------------- extended Euclid

  /** z is the combination x*a + y*b. */
  predicate Combines(x: int, y: int, a: int, b: int, z: int) {
    x * a + y * b == z
  }

  /** The loop that LCM and key generation share. */
  method ExtendedEuclid(a: nat, b: nat) returns (x1: int, y1: int, z1: nat)
    ensures z1 == Gcd(a, b) && Combines(x1, y1, a, b, z1)
    ensures y1 == EuclidY(a, b, 0, 1)
  {
    x1, y1, z1 := 1, 0, a;
    var x2, y2, z2: nat := 0, 1, b;
    assert Combines(1, 0, a, b, a) && Combines(0, 1, a, b, b);
    hide Combines, Gcd;
    while z2 != 0
      invariant Combines(x1, y1, a, b, z1) && Combines(x2, y2, a, b, z2)
      invariant Gcd(z1, z2) == Gcd(a, b)
      invariant EuclidY(z1, z2, y1, y2) == EuclidY(a, b, 0, 1)
      decreases z2
    {
      var tmp := z1 / z2;
      var x3, y3, z3 := x1 - tmp * x2, y1 - tmp * y2, z1 - tmp * z2;
      EuclidStep(x1, y1, z1, x2, y2, z2, tmp, a, b);
      GcdStep(z1, z2);
      x1, y1, z1 := x2, y2, z2;
      x2, y2, z2 := x3, y3, z3;
    }
    GcdZero(z1);
  }

  lemma GcdZero(a: nat)
    ensures Gcd(a, 0) == a
  {
  }

  lemma GcdStep(a: nat, b: nat)
    requires b != 0
    ensures 0 <= a - a / b * b == a % b < b && Gcd(b, a - a / b * b) == Gcd(a, b)
  {
    assert a - a / b * b == a % b;
  }

  lemma EuclidStep(x1: int, y1: int, z1: int, x2: int, y2: int, z2: int, t: int, a: int, b: int)
    requires Combines(x1, y1, a, b, z1) && Combines(x2, y2, a, b, z2)
    ensures Combines(x1 - t * x2, y1 - t * y2, a, b, z1 - t * z2)
  {
    MulDistributes(t, x2 * a, y2 * b);
    MulAssociates(t, x2, a);
    MulAssociates(t, y2, b);
    MulDistributes(a, x1, -(t * x2));
    MulDistributes(b, y1, -(t * y2));
  }

  function Lcm(a: nat, b: nat): nat
    requires a > 0 || b > 0
  {
    GcdPositive(a, b);
    a * b / Gcd(a, b)
  }

  method LCM(a: nat, b: nat) returns (r: nat)
    requires a > 0 || b > 0
    ensures r == Lcm(a, b)
  {
    hide Combines;
    var x1, y1, z1 := ExtendedEuclid(a, b);
    GcdPositive(a, b);
    ghost var l := Lcm(a, b);
    r := (a * b) / z1;
  }

  lemma LcmProduct(a: nat, b: nat)
    requires a > 0 && b > 0
    ensures Gcd(a, b) > 0 && Lcm(a, b) > 0
    ensures Lcm(a, b) * Gcd(a, b) == a * b
    ensures Lcm(a, b) == a * (b / Gcd(a, b)) == b * (a / Gcd(a, b))
  {
    GcdDivides(a, b);
    var g := Gcd(a, b);
    LcmFactor(a, b, g);
    LcmFactor(b, a, g);
  }

  lemma LcmFactor(a: nat, b: nat, g: nat)
    requires a > 0 && b > 0 && g > 0 && Divides(g, b)
    ensures a * b / g == a * (b / g) > 0 && a * (b / g) * g == a * b
  {
    var v := b / g;
    assert b == g * v;
    if v <= 0 { MulAtLeast(g, 1 - v); MulDistributes(g, 1, -v); }
    MulAssociates(a, v, g);
    DivModUnique(a * b, g, a * v, 0);
    MulAtLeast(a, v);
  }

  /** LCM returns the least common multiple: it is a common multiple, and it
      divides every other one. */
  lemma LcmIsLeast(a: nat, b: nat, c: int)
    requires a > 0 && b > 0
    ensures Lcm(a, b) > 0 && Divides(a, Lcm(a, b)) && Divides(b, Lcm(a, b))
    ensures Divides(a, c) && Divides(b, c) ==> Divides(Lcm(a, b), c)
  {
    LcmProduct(a, b);
    var g := Gcd(a, b);
    ModMultiple(b / g, a);
    ModMultiple(a / g, b);
    if Divides(a, c) && Divides(b, c) {
      var x, y := Bezout(a, b);
      CommonMultiple(a, b, g, Lcm(a, b), c, c / a, c / b, x, y);
    }
  }

  lemma CommonMultiple(a: int, b: int, g: int, l: int, c: int, s: int, t: int, x: int, y: int)
    requires l > 0 && g > 0 && l * g == a * b && x * a + y * b == g && c == a * s == b * t
    ensures Divides(l, c)
  {
    var w := x * t + y * s;
    ScaledMultiple(a, b, g, c, s, t, x, y);
    MulCommutes(g, c);
    MulAssociates(g, l, w);
    MulCommutes(g, l);
    MulAssociates(g, l, w);
    DivModUnique(g * c, g, c, 0);
    DivModUnique(g * c, g, l * w, 0);
    ModMultiple(w, l);
  }

  lemma ScaledMultiple(a: int, b: int, g: int, c: int, s: int, t: int, x: int, y: int)
    requires x * a + y * b == g && c == a * s == b * t
    ensures g * c == (a * b) * (x * t + y * s)
  {
    Regroup(x, a, b, t);
    Regroup(y, b, a, s);
    MulCommutes(a, b);
    MulDistributes(c, x * a, y * b);
    MulDistributes(a * b, x * t, y * s);
  }

  lemma Regroup(x: int, a: int, b: int, t: int)
    ensures (x * a) * (b * t) == (a * b) * (x * t)
  {
  }

  // ---------------------------------------------------------------- keys and cipher

  /** A key: the modulus with the public or the private exponent. */
  datatype Key = Key(n: nat, ed: int)

  function CipherOf(x: nat, k: Key): nat
    requires k.n > 0
  {
    PowModOf(x, k.ed, k.n)
  }

  method Cipher(x: nat, k: Key) returns (r: nat)
    requires k.n > 0
    ensures r == CipherOf(x, k)
  {
    r := PowMod(x, k.ed, k.n);
  }

  /** Every message below the modulus comes back from the private key. */
  ghost predicate RoundTrips(n: nat, e: int, d: int) {
    n > 0 && forall m: nat :: m < n ==> CipherOf(CipherOf(m, Key(n, e)), Key(n, d)) == m
  }

  /** The public exponent chosen for L. */
  function PublicExponent(L: nat): nat {
    if L % 11 == 0 then 13 else 11
  }

  // ---------------------------------------------------------------- the sign of d

  /** The coefficient of the second operand that the Euclid loop ends with. */
  function EuclidY(z1: nat, z2: nat, y1: int, y2: int): int
    decreases z2
  {
    if z2 == 0 then y1 else EuclidY(z2, z1 % z2, y2, y1 - z1 / z2 * y2)
  }

  /** d as key generation computes it for L. */
  function Coefficient(L: nat): int {
    EuclidY(L, PublicExponent(L), 0, 1)
  }

  /** The residues of L for which the loop ends with a positive d. */
  predicate PositiveCoefficient(L: nat) {
    if L % 11 != 0 then Positive11(L % 11) else Positive13(L % 13)
  }

  predicate Positive11(r: nat) {
    r == 0 || r == 2 || r == 5 || r == 7 || r == 8 || r == 10
  }

  predicate Positive13(r: nat) {
    r == 0 || r == 2 || r == 3 || r == 4 || r == 5 || r == 6 || r == 12
  }

  /** One round of the loop. */
  lemma Turn(z1: nat, z2: nat, q: int, r: nat, y1: int, y2: int)
    requires r < z2 && z1 == q * z2 + r
    ensures EuclidY(z1, z2, y1, y2) == EuclidY(z2, r, y2, y1 - q * y2)
  {
    MulCommutes(q, z2);
    DivModUnique(z1, z2, q, r);
  }

  lemma LoopEnds(z: nat, y1: int, y2: int)
    ensures EuclidY(z, 0, y1, y2) == y1
  {
  }

  lemma LoopFromElevenLow(r: nat, s: int)
    requires r < 6 && s <= 0
    ensures EuclidY(11, r, 1, s) >= 1 <==> Positive11(r)
  {
    hide EuclidY;
    if r == 0 {
      LoopEnds(11, 1, s);
    } else if r == 1 {
      Turn(11, 1, 11, 0, 1, s);
      LoopEnds(1, s, 1 - 11 * s);
    } else if r == 2 {
      Turn(11, 2, 5, 1, 1, s);
      Turn(2, 1, 2, 0, s, 1 - 5 * s);
      LoopEnds(1, 1 - 5 * s, -2 + 11 * s);
    } else if r == 3 {
      Turn(11, 3, 3, 2, 1, s);
      Turn(3, 2, 1, 1, s, 1 - 3 * s);
      Turn(2, 1, 2, 0, 1 - 3 * s, -1 + 4 * s);
      LoopEnds(1, -1 + 4 * s, 3 - 11 * s);
    } else if r == 4 {
      Turn(11, 4, 2, 3, 1, s);
      Turn(4, 3, 1, 1, s, 1 - 2 * s);
      Turn(3, 1, 3, 0, 1 - 2 * s, -1 + 3 * s);
      LoopEnds(1, -1 + 3 * s, 4 - 11 * s);
    } else {
      Turn(11, 5, 2, 1, 1, s);
      Turn(5, 1, 5, 0, s, 1 - 2 * s);
      LoopEnds(1, 1 - 2 * s, -5 + 11 * s);
    }
  }

  lemma LoopFromElevenHigh(r: nat, s: int)
    requires 6 <= r < 11 && s <= 0
    ensures EuclidY(11, r, 1, s) >= 1 <==> Positive11(r)
  {
    hide EuclidY;
    if r == 6 {
      Turn(11, 6, 1, 5, 1, s);
      Turn(6, 5, 1, 1, s, 1 - s);
      Turn(5, 1, 5, 0, 1 - s, -1 + 2 * s);
      LoopEnds(1, -1 + 2 * s, 6 - 11 * s);
    } else if r == 7 {
      Turn(11, 7, 1, 4, 1, s);
      Turn(7, 4, 1, 3, s, 1 - s);
      Turn(4, 3, 1, 1, 1 - s, -1 + 2 * s);
      Turn(3, 1, 3, 0, -1 + 2 * s, 2 - 3 * s);
      LoopEnds(1, 2 - 3 * s, -7 + 11 * s);
    } else if r == 8 {
      Turn(11, 8, 1, 3, 1, s);
      Turn(8, 3, 2, 2, s, 1 - s);
      Turn(3, 2, 1, 1, 1 - s, -2 + 3 * s);
      Turn(2, 1, 2, 0, -2 + 3 * s, 3 - 4 * s);
      LoopEnds(1, 3 - 4 * s, -8 + 11 * s);
    } else if r == 9 {
      Turn(11, 9, 1, 2, 1, s);
      Turn(9, 2, 4, 1, s, 1 - s);
      Turn(2, 1, 2, 0, 1 - s, -4 + 5 * s);
      LoopEnds(1, -4 + 5 * s, 9 - 11 * s);
    } else {
      Turn(11, 10, 1, 1, 1, s);
      Turn(10, 1, 10, 0, s, 1 - s);
      LoopEnds(1, 1 - s, -10 + 11 * s);
    }
  }

  /** The rest of the loop for e = 11, after its first round with quotient -s. */
  lemma LoopFromEleven(r: nat, s: int)
    requires r < 11 && s <= 0
    ensures EuclidY(11, r, 1, s) >= 1 <==> Positive11(r)
  {
    hide EuclidY;
    if r < 6 { LoopFromElevenLow(r, s); } else { LoopFromElevenHigh(r, s); }
  }

  lemma LoopFromThirteenLow(r: nat, s: int)
    requires r < 7 && s <= 0
    ensures EuclidY(13, r, 1, s) >= 1 <==> Positive13(r)
  {
    hide EuclidY;
    if r == 0 {
      LoopEnds(13, 1, s);
    } else if r == 1 {
      Turn(13, 1, 13, 0, 1, s);
      LoopEnds(1, s, 1 - 13 * s);
    } else if r == 2 {
      Turn(13, 2, 6, 1, 1, s);
      Turn(2, 1, 2, 0, s, 1 - 6 * s);
      LoopEnds(1, 1 - 6 * s, -2 + 13 * s);
    } else if r == 3 {
      Turn(13, 3, 4, 1, 1, s);
      Turn(3, 1, 3, 0, s, 1 - 4 * s);
      LoopEnds(1, 1 - 4 * s, -3 + 13 * s);
    } else if r == 4 {
      Turn(13, 4, 3, 1, 1, s);
      Turn(4, 1, 4, 0, s, 1 - 3 * s);
      LoopEnds(1, 1 - 3 * s, -4 + 13 * s);
    } else if r == 5 {
      Turn(13, 5, 2, 3, 1, s);
      Turn(5, 3, 1, 2, s, 1 - 2 * s);
      Turn(3, 2, 1, 1, 1 - 2 * s, -1 + 3 * s);
      Turn(2, 1, 2, 0, -1 + 3 * s, 2 - 5 * s);
      LoopEnds(1, 2 - 5 * s, -5 + 13 * s);
    } else {
      Turn(13, 6, 2, 1, 1, s);
      Turn(6, 1, 6, 0, s, 1 - 2 * s);
      LoopEnds(1, 1 - 2 * s, -6 + 13 * s);
    }
  }

  lemma LoopFromThirteenHigh(r: nat, s: int)
    requires 7 <= r < 13 && s <= 0
    ensures EuclidY(13, r, 1, s) >= 1 <==> Positive13(r)
  {
    hide EuclidY;
    if r == 7 {
      Turn(13, 7, 1, 6, 1, s);
      Turn(7, 6, 1, 1, s, 1 - s);
      Turn(6, 1, 6, 0, 1 - s, -1 + 2 * s);
      LoopEnds(1, -1 + 2 * s, 7 - 13 * s);
    } else if r == 8 {
      Turn(13, 8, 1, 5, 1, s);
      Turn(8, 5, 1, 3, s, 1 - s);
      Turn(5, 3, 1, 2, 1 - s, -1 + 2 * s);
      Turn(3, 2, 1, 1, -1 + 2 * s, 2 - 3 * s);
      Turn(2, 1, 2, 0, 2 - 3 * s, -3 + 5 * s);
      LoopEnds(1, -3 + 5 * s, 8 - 13 * s);
    } else if r == 9 {
      Turn(13, 9, 1, 4, 1, s);
      Turn(9, 4, 2, 1, s, 1 - s);
      Turn(4, 1, 4, 0, 1 - s, -2 + 3 * s);
      LoopEnds(1, -2 + 3 * s, 9 - 13 * s);
    } else if r == 10 {
      Turn(13, 10, 1, 3, 1, s);
      Turn(10, 3, 3, 1, s, 1 - s);
      Turn(3, 1, 3, 0, 1 - s, -3 + 4 * s);
      LoopEnds(1, -3 + 4 * s, 10 - 13 * s);
    } else if r == 11 {
      Turn(13, 11, 1, 2, 1, s);
      Turn(11, 2, 5, 1, s, 1 - s);
      Turn(2, 1, 2, 0, 1 - s, -5 + 6 * s);
      LoopEnds(1, -5 + 6 * s, 11 - 13 * s);
    } else {
      Turn(13, 12, 1, 1, 1, s);
      Turn(12, 1, 12, 0, s, 1 - s);
      LoopEnds(1, 1 - s, -12 + 13 * s);
    }
  }

  /** The rest of the loop for e = 13, after its first round with quotient -s. */
  lemma LoopFromThirteen(r: nat, s: int)
    requires r < 13 && s <= 0
    ensures EuclidY(13, r, 1, s) >= 1 <==> Positive13(r)
  {
    hide EuclidY;
    if r < 7 { LoopFromThirteenLow(r, s); } else { LoopFromThirteenHigh(r, s); }
  }

  /** The sign of d can be read off L. */
  lemma CoefficientSign(L: nat)
    ensures Coefficient(L) >= 1 <==> PositiveCoefficient(L)
  {
    var e := PublicExponent(L);
    assert EuclidY(L, e, 0, 1) == EuclidY(e, L % e, 1, 0 - L / e * 1);
    if e == 11 { LoopFromEleven(L % 11, 0 - L / 11); } else { LoopFromThirteen(L % 13, 0 - L / 13); }
  }

  /** Generation from the two primes found. The loop meant to make d nonnegative
      tests the pointer, never the number, so d is the raw Bezout coefficient. */
  method Generate(p: nat, q: nat) returns (n: nat, e: nat, d: int)
    requires IsPrime(p) && IsPrime(q) && FermatAccepts(p) && FermatAccepts(q)
    ensures n == p * q
    ensures e == PublicExponent(Lcm(p - 1, q - 1))
    ensures Lcm(p - 1, q - 1) > 0
    ensures e * d % Lcm(p - 1, q - 1) == Gcd(Lcm(p - 1, q - 1), e) % Lcm(p - 1, q - 1)
    ensures d == Coefficient(Lcm(p - 1, q - 1))
    ensures RoundTrips(n, e, d)
        <==> p != q && PositiveCoefficient(Lcm(p - 1, q - 1)) && Lcm(p - 1, q - 1) % 143 != 0
  {
    hide *;
    n := p * q;
    AcceptedAreLarge(p, q);
    var L := LCM(p - 1, q - 1);
    LcmProduct(p - 1, q - 1);
    e := if L % 11 == 0 then 13 else 11;
    PublicExponentIs(L, e);
    var x1, y1, z1 := ExtendedEuclid(L, e);
    d := y1;
    CoefficientIs(L, e);
    KeyHoldsFor(L, e, x1, d, z1);
    KeyOutcome(p, q, n, e, d);
  }

  lemma AcceptedAreLarge(p: nat, q: nat)
    requires IsPrime(p) && IsPrime(q) && FermatAccepts(p) && FermatAccepts(q)
    ensures p > 17 && q > 17
  {
    FermatAcceptsPrimes(p);
    FermatAcceptsPrimes(q);
  }

  lemma KeyOutcome(p: nat, q: nat, n: nat, e: nat, d: int)
    requires IsPrime(p) && IsPrime(q) && p > 17 && q > 17 && n == p * q
    requires KeyHolds(Lcm(p - 1, q - 1), e, d) && d == Coefficient(Lcm(p - 1, q - 1))
    ensures RoundTrips(n, e, d)
        <==> p != q && PositiveCoefficient(Lcm(p - 1, q - 1)) && Lcm(p - 1, q - 1) % 143 != 0
  {
    hide Lcm, RoundTrips, IsPrime, Coefficient, PositiveCoefficient, PublicExponent;
    RoundTripIff(p, q, d);
    CoefficientSign(Lcm(p - 1, q - 1));
  }

  /** The key equation modulo L. */
  predicate KeyHolds(L: nat, e: nat, d: int) {
    L > 0 && e == PublicExponent(L) && e * d % L == Gcd(L, e) % L
  }

  lemma KeyHoldsFor(L: nat, e: nat, x: int, d: int, z: nat)
    requires L > 0 && e == PublicExponent(L) && z == Gcd(L, e) && Combines(x, d, L, e, z)
    ensures KeyHolds(L, e, d) && e * d % L == Gcd(L, e) % L
  {
    KeyEquation(x, d, L, e, z);
  }

  lemma CoefficientIs(L: nat, e: nat)
    requires e == PublicExponent(L)
    ensures Coefficient(L) == EuclidY(L, e, 0, 1)
  {
  }

  lemma PublicExponentIs(L: nat, e: nat)
    requires e == if L % 11 == 0 then 13 else 11
    ensures e == PublicExponent(L)
  {
  }

  lemma KeyEquation(x: int, d: int, L: int, e: int, z: int)
    requires L > 0 && Combines(x, d, L, e, z)
    ensures e * d % L == z % L
  {
    ModShift(e * d, x, L);
  }

  // ---------------------------------------------------------------- the round trip

  lemma CipherTwice(m: nat, n: nat, e: nat, d: nat)
    requires n > 0 && e >= 1 && d >= 1
    ensures CipherOf(CipherOf(m, Key(n, e)), Key(n, d)) == Pow(m, e * d) % n
  {
    PowNat(m, e);
    ModPow(Pow(m, e), d, n);
    PowMul(m, e, d);
  }

  lemma ExponentModPrime(p: nat, L: nat, m: nat, t: nat)
    requires IsPrime(p) && L > 0 && Divides(p - 1, L) && t >= 1 && Divides(L, t - 1)
    ensures Divides(p, Pow(m, t) - m)
  {
    DividesTransitive(p - 1, L, t - 1);
    var k := (t - 1) / (p - 1);
    assert t == 1 + (p - 1) * k;
    assert k >= 0;
    FermatExponent(p, m, k);
    ModEqual(Pow(m, t), m, p);
  }

  /** RSA: for distinct primes and exponents with e*d = 1 modulo L, decryption
      inverts encryption on every message, also those not coprime to n. */
  lemma RsaRoundTrip(p: nat, q: nat, e: nat, d: nat)
    requires IsPrime(p) && IsPrime(q) && p != q && e >= 1 && d >= 1
    requires Lcm(p - 1, q - 1) > 0 && Divides(Lcm(p - 1, q - 1), e * d - 1)
    ensures RoundTrips(p * q, e, d)
  {
    MulAtLeast(p, q);
    MulAtLeast(e, d);
    var n, L := p * q, Lcm(p - 1, q - 1);
    LcmIsLeast(p - 1, q - 1, 0);
    forall m: nat | m < n
      ensures CipherOf(CipherOf(m, Key(n, e)), Key(n, d)) == m
    {
      CipherTwice(m, n, e, d);
      ExponentModPrime(p, L, m, e * d);
      ExponentModPrime(q, L, m, e * d);
      ProductDivides(p, q, Pow(m, e * d) - m);
      ModEqual(Pow(m, e * d), m, n);
      DivModUnique(m, n, 0, m);
    }
  }

  // ---------------------------------------------------------------- when it fails

  lemma GcdSymmetric(a: nat, b: nat)
    ensures Gcd(a, b) == Gcd(b, a)
  {
    if a < b { DivModUnique(a, b, 0, a); }
    if b < a { DivModUnique(b, a, 0, b); }
  }

  lemma SmallPrimes()
    ensures IsPrime(11) && IsPrime(13)
  {
    assert 11 % 2 == 1 && 11 % 3 == 2 && 11 % 4 == 3 && 11 % 5 == 1 && 11 % 6 == 5 && 11 % 7 == 4 && 11 % 8 == 3 && 11 % 9 == 2 && 11 % 10 == 1;
    assert 13 % 2 == 1 && 13 % 3 == 1 && 13 % 4 == 1 && 13 % 5 == 3 && 13 % 6 == 1 && 13 % 7 == 6 && 13 % 8 == 5 && 13 % 9 == 4 && 13 % 10 == 3 && 13 % 11 == 2 && 13 % 12 == 1;
  }

  /** The public exponent is coprime to L exactly when 143 does not divide L. */
  lemma PublicExponentCoprime(L: nat)
    requires L > 0
    ensures Gcd(L, PublicExponent(L)) == 1 <==> L % 143 != 0
    ensures L % 143 == 0 ==> PublicExponent(L) == 13 && Divides(13, L)
  {
    var e := PublicExponent(L);
    SmallPrimes();
    GcdSymmetric(L, e);
    Multiple143(L);
    if L % 143 == 0 {
      GcdGreatest(L, 13, 13);
    } else {
      PrimeGcd(e, L);
    }
  }

  lemma Multiple143(L: nat)
    ensures Divides(143, L) <==> Divides(11, L) && Divides(13, L)
  {
    SmallPrimes();
    if L % 143 == 0 {
      DividesOfProduct(11, 13, L);
    } else if L % 11 == 0 && L % 13 == 0 {
      ProductDivides(11, 13, L);
    }
  }

  /** With two equal primes the message p is lost. */
  lemma EqualPrimesFail(p: nat, e: nat, d: int)
    requires p >= 2 && e >= 2
    ensures !RoundTrips(p * p, e, d)
  {
    var n := p * p;
    MulAtLeast(p, p);
    MulAtLeast(p, p - 1);
    MulDistributes(p, p - 1, 1);
    assert Pow(p, e) == p * Pow(p, e - 1) == p * (p * Pow(p, e - 2));
    MulAssociates(p, p, Pow(p, e - 2));
    ModMultiple(Pow(p, e - 2), n);
    assert CipherOf(p, Key(n, e)) == 0;
    DivModUnique(0, n, 0, 0);
    if d >= 1 { assert Pow(0, d) == 0 * Pow(0, d - 1) == 0; }
    assert CipherOf(0, Key(n, d)) == 0;
    assert CipherOf(CipherOf(p, Key(n, e)), Key(n, d)) != p;
  }

  lemma LargePrimeDivides2046(p: nat)
    requires IsPrime(p) && p > 17 && Divides(p, 2046)
    ensures p == 31
  {
    EuclidLemma(p, 66, 31);
    if Divides(p, 66) {
      EuclidLemma(p, 6, 11);
      if Divides(p, 6) { DividesBound(p, 6); } else { DividesBound(p, 11); }
      assert false;
    }
    DividesBound(p, 31);
    if p < 31 { DivModUnique(31, p, 1, 31 - p); }
  }

  lemma LargePrimeDivides8190(p: nat)
    requires IsPrime(p) && p > 17
    ensures !Divides(p, 8190)
  {
    if Divides(p, 8190) {
      EuclidLemma(p, 90, 91);
      if Divides(p, 90) {
        EuclidLemma(p, 9, 10);
        if Divides(p, 9) { DividesBound(p, 9); } else { DividesBound(p, 10); }
      } else {
        EuclidLemma(p, 7, 13);
        if Divides(p, 7) { DividesBound(p, 7); } else { DividesBound(p, 13); }
      }
      assert false;
    }
  }

  /** With an exponent below 1 decryption returns its input, and 2 is never a
      fixed point of encryption. */
  lemma NonPositiveExponentFails(p: nat, q: nat, e: nat, d: int)
    requires IsPrime(p) && IsPrime(q) && p != q && p > 17 && q > 17
    requires (e == 11 || e == 13) && d < 1
    ensures !RoundTrips(p * q, e, d)
  {
    var n := p * q;
    MulAtLeast(p, q);
    var c := CipherOf(2, Key(n, e));
    DivModUnique(c, n, 0, c);
    assert CipherOf(c, Key(n, d)) == c;
    if c == 2 {
      DivModUnique(2, n, 0, 2);
      ModEqual(Pow(2, e), 2, n);
      DividesOfProduct(p, q, Pow(2, e) - 2);
      PowersOfTwo();
      PowTwoOne();
      PowAdd(2, 10, 1);
      PowAdd(2, 10, 3);
      if e == 11 {
        LargePrimeDivides2046(p);
        LargePrimeDivides2046(q);
      } else {
        LargePrimeDivides8190(p);
      }
      assert false;
    }
  }

  /** A residue that is b modulo p and 1 modulo q. */
  lemma ChineseRemainder(p: nat, q: nat, b: nat) returns (m: nat)
    requires IsPrime(p) && IsPrime(q) && p != q && b < p
    ensures p * q > 0 && m < p * q && m % p == b && m % q == 1
  {
    MulAtLeast(p, q);
    if Divides(p, q) { PrimeDividesPrime(p, q); assert false; }
    PrimeGcd(p, q);
    var x, y := Bezout(p, q);
    var w := 1 + q * (y * (b - 1));
    m := w % (p * q);
    ResidueOfResidue(w, p, q);
    SolveForP(p, q, b, x, y);
    DivModUnique(b, p, 0, b);
    ModShift(b, x * (1 - b), p);
    ModShift(1, y * (b - 1), q);
    DivModUnique(1, q, 0, 1);
  }

  lemma SolveForP(p: int, q: int, b: int, x: int, y: int)
    requires x * p + y * q == 1
    ensures 1 + q * (y * (b - 1)) == b + p * (x * (1 - b))
  {
    MulAssociates(q, y, b - 1);
    MulAssociates(p, x, 1 - b);
    MulDistributes(b - 1, q * y, p * x);
  }

  lemma ResidueOfResidue(w: int, p: nat, q: nat)
    requires p > 0 && q > 0 && p * q > 0
    ensures w % (p * q) % p == w % p && w % (p * q) % q == w % q
  {
    var k := w / (p * q);
    var m := w % (p * q);
    MulAssociates(p, q, -k);
    MulAssociates(q, p, -k);
    assert m == w + p * (q * -k);
    ModShift(w, q * -k, p);
    assert m == w + q * (p * -k);
    ModShift(w, p * -k, q);
  }

  /** If 13 divides p - 1, the 13th power modulo p*q is not injective. */
  lemma ThirteenthPowerFails(p: nat, q: nat, d: int)
    requires IsPrime(p) && IsPrime(q) && p != q && Divides(13, p - 1)
    ensures !RoundTrips(p * q, 13, d)
  {
    var b := RootOfUnity(p, 13);
    var m := ChineseRemainder(p, q, b);
    var n := p * q;
    MulAtLeast(p, q);
    ModPow(m, 13, p);
    ModPow(m, 13, q);
    PowOne(13);
    DivModUnique(1, p, 0, 1);
    DivModUnique(1, q, 0, 1);
    DivModUnique(1, n, 0, 1);
    ModEqual(Pow(m, 13), 1, p);
    ModEqual(Pow(m, 13), 1, q);
    ProductDivides(p, q, Pow(m, 13) - 1);
    ModEqual(Pow(m, 13), 1, n);
    assert CipherOf(m, Key(n, 13)) == 1 == CipherOf(1, Key(n, 13));
    assert m != 1;
  }

  lemma ThirteenDividesOne(p: nat, q: nat)
    requires p > 1 && q > 1 && Divides(13, Lcm(p - 1, q - 1))
    ensures Divides(13, p - 1) || Divides(13, q - 1)
  {
    LcmProduct(p - 1, q - 1);
    SmallPrimes();
    DividesMultiple(13, Lcm(p - 1, q - 1), Gcd(p - 1, q - 1));
    EuclidLemma(13, p - 1, q - 1);
  }

  lemma RoundTripsSymmetric(p: nat, q: nat, e: int, d: int)
    ensures RoundTrips(p * q, e, d) == RoundTrips(q * p, e, d)
  {
    assert p * q == q * p;
  }

  /** The generated key pair works on every message if and only if the primes
      differ, the raw coefficient d is positive and 143 does not divide L. */
  lemma RoundTripIff(p: nat, q: nat, d: int)
    requires IsPrime(p) && IsPrime(q) && p > 17 && q > 17
    requires Lcm(p - 1, q - 1) > 0
    requires PublicExponent(Lcm(p - 1, q - 1)) * d % Lcm(p - 1, q - 1)
          == Gcd(Lcm(p - 1, q - 1), PublicExponent(Lcm(p - 1, q - 1))) % Lcm(p - 1, q - 1)
    ensures RoundTrips(p * q, PublicExponent(Lcm(p - 1, q - 1)), d)
        <==> p != q && d >= 1 && Lcm(p - 1, q - 1) % 143 != 0
  {
    var L := Lcm(p - 1, q - 1);
    var e := PublicExponent(L);
    PublicExponentCoprime(L);
    if p == q {
      EqualPrimesFail(p, e, d);
    } else if d < 1 {
      NonPositiveExponentFails(p, q, e, d);
    } else if L % 143 == 0 {
      ThirteenDividesOne(p, q);
      if Divides(13, p - 1) {
        ThirteenthPowerFails(p, q, d);
      } else {
        ThirteenthPowerFails(q, p, d);
        RoundTripsSymmetric(p, q, 13, d);
      }
    } else {
      ModEqual(e * d, 1, L);
      RsaRoundTrip(p, q, e, d);
    }
  }

  /** The exponent as meant: L is added while it is negative. */
  function Normalised(d: int, L: nat): int
    requires L > 0
  {
    if d < 0 then d % L else d
  }

  /** With d normalised as meant, the pair works exactly when the primes differ
      and 143 does not divide L. */
  lemma NormalisedKeyIff(p: nat, q: nat, d: int)
    requires IsPrime(p) && IsPrime(q) && p > 17 && q > 17
    requires Lcm(p - 1, q - 1) > 0
    requires PublicExponent(Lcm(p - 1, q - 1)) * d % Lcm(p - 1, q - 1)
          == Gcd(Lcm(p - 1, q - 1), PublicExponent(Lcm(p - 1, q - 1))) % Lcm(p - 1, q - 1)
    ensures RoundTrips(p * q, PublicExponent(Lcm(p - 1, q - 1)), Normalised(d, Lcm(p - 1, q - 1)))
        <==> p != q && Lcm(p - 1, q - 1) % 143 != 0
  {
    var L := Lcm(p - 1, q - 1);
    var e := PublicExponent(L);
    ModMulLeft(d, e, L);
    RoundTripIff(p, q, Normalised(d, L));
    PublicExponentCoprime(L);
    if Normalised(d, L) == 0 && L % 143 != 0 {
      LcmIsLeast(p - 1, q - 1, 0);
      DividesBound(p - 1, L);
      DivModUnique(1, L, 0, 1);
      DivModUnique(0, L, 0, 0);
      assert false;
    }
  }

  // ---------------------------------------------------------------- keys that fail

  lemma MorePrimes()
    ensures IsPrime(19) && IsPrime(23) && IsPrime(37) && IsPrime(53)
  {
    forall d | 2 <= d < 19 ensures !Divides(d, 19) { NoDivisor(19, d); }
    forall d | 2 <= d < 23 ensures !Divides(d, 23) { NoDivisor(23, d); }
    forall d | 2 <= d < 37 ensures !Divides(d, 37) { NoDivisor(37, d); }
    forall d | 2 <= d < 53 ensures !Divides(d, 53) { NoDivisor(53, d); }
  }

  /** A proper divisor d of p has a cofactor, and one of the two is below 8 for p < 64. */
  lemma NoDivisor(p: nat, d: nat)
    requires 2 <= d < p < 64 && (forall k :: 2 <= k < 8 ==> p % k != 0)
    ensures !Divides(d, p)
  {
    if p % d == 0 {
      var k := p / d;
      assert p == d * k;
      if d >= 8 && k >= 8 {
        MulAtLeast(d, k);
        assert d * k >= 8 * k by { SmallFactor(d, k); }
      }
      if k < 8 {
        if k < 2 { SmallFactor(d, k); }
        DivModUnique(p, k, d, 0);
      }
    }
  }

  lemma SmallFactor(d: int, k: int)
    requires d >= 8 || k <= 1
    ensures k >= 0 && d >= 8 ==> d * k >= 8 * k
    ensures k <= 1 && d >= 0 ==> d * k <= d
  {
  }

  /** p = 19, q = 37: L is 36, the loop ends with d = -13, and the key does not decrypt. */
  lemma NegativeKey()
    ensures IsPrime(19) && IsPrime(37) && FermatAccepts(19) && FermatAccepts(37)
    ensures Lcm(18, 36) == 36 && PublicExponent(36) == 11 && Coefficient(36) == -13
    ensures !RoundTrips(19 * 37, 11, -13)
  {
    MorePrimes();
    FermatAcceptsPrimes(19);
    FermatAcceptsPrimes(37);
    assert Gcd(18, 36) == Gcd(36, 18) == Gcd(18, 0) == 18;
    LoopFor36();
    NonPositiveExponentFails(19, 37, 11, -13);
  }

  lemma LoopFor36()
    ensures Coefficient(36) == -13
  {
    assert EuclidY(36, 11, 0, 1) == EuclidY(11, 3, 1, -3);
    assert EuclidY(11, 3, 1, -3) == EuclidY(3, 2, -3, 10);
    assert EuclidY(3, 2, -3, 10) == EuclidY(2, 1, 10, -13);
    assert EuclidY(2, 1, 10, -13) == EuclidY(1, 0, -13, 36);
  }

  /** p = 23, q = 53: L is 572, a multiple of 143, and with e = 13 no d decrypts. */
  lemma UnusableExponent(d: int)
    ensures IsPrime(23) && IsPrime(53) && FermatAccepts(23) && FermatAccepts(53)
    ensures Lcm(22, 52) == 572 && 572 % 143 == 0 && PublicExponent(572) == 13
    ensures !RoundTrips(23 * 53, 13, d)
  {
    MorePrimes();
    FermatAcceptsPrimes(23);
    FermatAcceptsPrimes(53);
    assert Gcd(22, 52) == Gcd(52, 22) == Gcd(22, 8) == Gcd(8, 6) == Gcd(6, 2) == Gcd(2, 0) == 2;
    ThirteenthPowerFails(53, 23, d);
    RoundTripsSymmetric(53, 23, 13, d);
  }
}
