/** Where the constants of SHA-256 come from (sections 4.2.2 and 5.3.3 of FIPS 180-4):
    the first 32 bits of the fractional parts of the cube roots and the square roots of
    the first primes. */
module SHA256Constants {
  import opened NumberTheory
  import opened SHA256Spec

  function Primes(): (p: seq<nat>)
    ensures |p| == 64
  {
    [2, 3, 5, 7, 11, 13, 17, 19, 23, 29, 31, 37, 41, 43, 47, 53]
    + [59, 61, 67, 71, 73, 79, 83, 89, 97, 101, 103, 107, 109, 113, 127, 131]
    + [137, 139, 149, 151, 157, 163, 167, 173, 179, 181, 191, 193, 197, 199, 211, 223]
    + [227, 229, 233, 239, 241, 251, 257, 263, 269, 271, 277, 281, 283, 293, 307, 311]
  }

  // ---------------------------------------------------------------- the first 64 primes

  /** No prime up to 17 divides q, unless it is q. */
  predicate Sieved(q: nat) {
    && (q == 2 || q % 2 != 0) && (q == 3 || q % 3 != 0) && (q == 5 || q % 5 != 0) && (q == 7 || q % 7 != 0)
    && (q == 11 || q % 11 != 0) && (q == 13 || q % 13 != 0) && (q == 17 || q % 17 != 0)
  }

  lemma PrimeIsSieved(q: nat)
    requires IsPrime(q)
    ensures Sieved(q)
  {
    NotDivided(q, 2);
    NotDivided(q, 3);
    NotDivided(q, 5);
    NotDivided(q, 7);
    NotDivided(q, 11);
    NotDivided(q, 13);
    NotDivided(q, 17);
  }

  lemma NotDivided(q: nat, d: nat)
    requires IsPrime(q) && d >= 2
    ensures q == d || q % d != 0
  {
    if q < d {
      DivModUnique(q, d, 0, q);
    } else if q > d {
      assert !Divides(d, q);
    }
  }

  /** Below 18 * 18 the sieve is exact. */
  lemma SievedIsPrime(q: nat)
    requires 2 <= q < 324 && Sieved(q)
    ensures IsPrime(q)
  {
    forall d | 2 <= d < q ensures !Divides(d, q) {
      if Divides(d, q) {
        var k := q / d;
        Cofactor(q, d, k);
        if d < 18 { SmallDivisor(q, d); } else { SmallDivisor(q, k); }
        assert false;
      }
    }
  }

  lemma Cofactor(q: int, d: int, k: int)
    requires 2 <= d < q < 324 && q % d == 0 && k == q / d
    ensures q % k == 0 && 2 <= k < q && (d < 18 || k < 18)
  {
    assert q == d * k;
    if k <= 1 { NotLess(d, k); }
    DivModUnique(q, k, d, 0);
    if k >= q { MulAtLeast(k, d - 1); MulDistributes(k, d - 1, 1); }
    if d >= 18 && k >= 18 { MulAtLeast(d, k - 17); MulDistributes(d, k - 17, 17); }
  }

  lemma NotLess(d: int, k: int)
    requires d >= 2 && k <= 1
    ensures d * k <= d
  {
    MulDistributes(d, 1, -k);
    MulDistributes(d, k, 1 - k);
    if k <= 0 { MulAtLeast(d, 1 - k); }
  }

  /** A divisor below 18 has a prime divisor up to 17. */
  lemma SmallDivisor(q: nat, d: nat)
    requires 2 <= d < 18 && d < q && q % d == 0
    ensures !Sieved(q)
  {
    assert q == d * (q / d);
    if d % 2 == 0 { Factor(q, 2, d / 2, q / d); }
    else if d % 3 == 0 { Factor(q, 3, d / 3, q / d); }
    else if d % 5 == 0 { Factor(q, 5, d / 5, q / d); }
  }

  lemma Factor(q: int, r: int, a: int, b: int)
    requires r > 0 && q == (r * a) * b
    ensures q % r == 0
  {
    MulAssociates(r, a, b);
    ModMultiple(a * b, r);
  }

  lemma Sieve0(q: nat) returns (i: nat)
    requires 2 <= q < 5 && Sieved(q)
    ensures i < 64 && Primes()[i] == q
  {
    if q < 3 { assert q == 2; i := 0; } else { assert q == 3; i := 1; }
  }

  lemma Sieve1(q: nat) returns (i: nat)
    requires 5 <= q < 11 && Sieved(q)
    ensures i < 64 && Primes()[i] == q
  {
    if q < 7 { assert q == 5; i := 2; } else { assert q == 7; i := 3; }
  }

  lemma Sieve2(q: nat) returns (i: nat)
    requires 11 <= q < 17 && Sieved(q)
    ensures i < 64 && Primes()[i] == q
  {
    if q < 13 { assert q == 11; i := 4; } else { assert q == 13; i := 5; }
  }

  lemma Sieve3(q: nat) returns (i: nat)
    requires 17 <= q < 23 && Sieved(q)
    ensures i < 64 && Primes()[i] == q
  {
    if q < 19 { assert q == 17; i := 6; } else { assert q == 19; i := 7; }
  }

  lemma Sieve4(q: nat) returns (i: nat)
    requires 23 <= q < 31 && Sieved(q)
    ensures i < 64 && Primes()[i] == q
  {
    if q < 29 { assert q == 23; i := 8; } else { assert q == 29; i := 9; }
  }

  lemma Sieve5(q: nat) returns (i: nat)
    requires 31 <= q < 41 && Sieved(q)
    ensures i < 64 && Primes()[i] == q
  {
    if q < 37 { assert q == 31; i := 10; } else { assert q == 37; i := 11; }
  }

  lemma Sieve6(q: nat) returns (i: nat)
    requires 41 <= q < 47 && Sieved(q)
    ensures i < 64 && Primes()[i] == q
  {
    if q < 43 { assert q == 41; i := 12; } else { assert q == 43; i := 13; }
  }

  lemma Sieve7(q: nat) returns (i: nat)
    requires 47 <= q < 59 && Sieved(q)
    ensures i < 64 && Primes()[i] == q
  {
    if q < 53 { assert q == 47; i := 14; } else { assert q == 53; i := 15; }
  }

  lemma Sieve8(q: nat) returns (i: nat)
    requires 59 <= q < 67 && Sieved(q)
    ensures i < 64 && Primes()[i] == q
  {
    if q < 61 { assert q == 59; i := 16; } else { assert q == 61; i := 17; }
  }

  lemma Sieve9(q: nat) returns (i: nat)
    requires 67 <= q < 73 && Sieved(q)
    ensures i < 64 && Primes()[i] == q
  {
    if q < 71 { assert q == 67; i := 18; } else { assert q == 71; i := 19; }
  }

  lemma Sieve10(q: nat) returns (i: nat)
    requires 73 <= q < 83 && Sieved(q)
    ensures i < 64 && Primes()[i] == q
  {
    if q < 79 { assert q == 73; i := 20; } else { assert q == 79; i := 21; }
  }

  lemma Sieve11(q: nat) returns (i: nat)
    requires 83 <= q < 97 && Sieved(q)
    ensures i < 64 && Primes()[i] == q
  {
    if q < 89 { assert q == 83; i := 22; } else { assert q == 89; i := 23; }
  }

  lemma Sieve12(q: nat) returns (i: nat)
    requires 97 <= q < 103 && Sieved(q)
    ensures i < 64 && Primes()[i] == q
  {
    if q < 101 { assert q == 97; i := 24; } else { assert q == 101; i := 25; }
  }

  lemma Sieve13(q: nat) returns (i: nat)
    requires 103 <= q < 109 && Sieved(q)
    ensures i < 64 && Primes()[i] == q
  {
    if q < 107 { assert q == 103; i := 26; } else { assert q == 107; i := 27; }
  }

  lemma Sieve14(q: nat) returns (i: nat)
    requires 109 <= q < 127 && Sieved(q)
    ensures i < 64 && Primes()[i] == q
  {
    if q < 113 { assert q == 109; i := 28; } else { assert q == 113; i := 29; }
  }

  lemma Sieve15(q: nat) returns (i: nat)
    requires 127 <= q < 137 && Sieved(q)
    ensures i < 64 && Primes()[i] == q
  {
    if q < 131 { assert q == 127; i := 30; } else { assert q == 131; i := 31; }
  }

  lemma Sieve16(q: nat) returns (i: nat)
    requires 137 <= q < 149 && Sieved(q)
    ensures i < 64 && Primes()[i] == q
  {
    if q < 139 { assert q == 137; i := 32; } else { assert q == 139; i := 33; }
  }

  lemma Sieve17(q: nat) returns (i: nat)
    requires 149 <= q < 157 && Sieved(q)
    ensures i < 64 && Primes()[i] == q
  {
    if q < 151 { assert q == 149; i := 34; } else { assert q == 151; i := 35; }
  }

  lemma Sieve18(q: nat) returns (i: nat)
    requires 157 <= q < 167 && Sieved(q)
    ensures i < 64 && Primes()[i] == q
  {
    if q < 163 { assert q == 157; i := 36; } else { assert q == 163; i := 37; }
  }

  lemma Sieve19(q: nat) returns (i: nat)
    requires 167 <= q < 179 && Sieved(q)
    ensures i < 64 && Primes()[i] == q
  {
    if q < 173 { assert q == 167; i := 38; } else { assert q == 173; i := 39; }
  }

  lemma Sieve20(q: nat) returns (i: nat)
    requires 179 <= q < 191 && Sieved(q)
    ensures i < 64 && Primes()[i] == q
  {
    if q < 181 { assert q == 179; i := 40; } else { assert q == 181; i := 41; }
  }

  lemma Sieve21(q: nat) returns (i: nat)
    requires 191 <= q < 197 && Sieved(q)
    ensures i < 64 && Primes()[i] == q
  {
    if q < 193 { assert q == 191; i := 42; } else { assert q == 193; i := 43; }
  }

  lemma Sieve22(q: nat) returns (i: nat)
    requires 197 <= q < 211 && Sieved(q)
    ensures i < 64 && Primes()[i] == q
  {
    if q < 199 { assert q == 197; i := 44; } else { assert q == 199; i := 45; }
  }

  lemma Sieve23(q: nat) returns (i: nat)
    requires 211 <= q < 227 && Sieved(q)
    ensures i < 64 && Primes()[i] == q
  {
    if q < 223 { assert q == 211; i := 46; } else { assert q == 223; i := 47; }
  }

  lemma Sieve24(q: nat) returns (i: nat)
    requires 227 <= q < 233 && Sieved(q)
    ensures i < 64 && Primes()[i] == q
  {
    if q < 229 { assert q == 227; i := 48; } else { assert q == 229; i := 49; }
  }

  lemma Sieve25(q: nat) returns (i: nat)
    requires 233 <= q < 241 && Sieved(q)
    ensures i < 64 && Primes()[i] == q
  {
    if q < 239 { assert q == 233; i := 50; } else { assert q == 239; i := 51; }
  }

  lemma Sieve26(q: nat) returns (i: nat)
    requires 241 <= q < 257 && Sieved(q)
    ensures i < 64 && Primes()[i] == q
  {
    if q < 251 { assert q == 241; i := 52; } else { assert q == 251; i := 53; }
  }

  lemma Sieve27(q: nat) returns (i: nat)
    requires 257 <= q < 269 && Sieved(q)
    ensures i < 64 && Primes()[i] == q
  {
    if q < 263 { assert q == 257; i := 54; } else { assert q == 263; i := 55; }
  }

  lemma Sieve28(q: nat) returns (i: nat)
    requires 269 <= q < 277 && Sieved(q)
    ensures i < 64 && Primes()[i] == q
  {
    if q < 271 { assert q == 269; i := 56; } else { assert q == 271; i := 57; }
  }

  lemma Sieve29(q: nat) returns (i: nat)
    requires 277 <= q < 283 && Sieved(q)
    ensures i < 64 && Primes()[i] == q
  {
    if q < 281 { assert q == 277; i := 58; } else { assert q == 281; i := 59; }
  }

  lemma Sieve30(q: nat) returns (i: nat)
    requires 283 <= q < 307 && Sieved(q)
    ensures i < 64 && Primes()[i] == q
  {
    if q < 293 { assert q == 283; i := 60; } else { assert q == 293; i := 61; }
  }

  lemma Sieve31(q: nat) returns (i: nat)
    requires 307 <= q < 312 && Sieved(q)
    ensures i < 64 && Primes()[i] == q
  {
    if q < 311 { assert q == 307; i := 62; } else { assert q == 311; i := 63; }
  }

  /** Every prime up to 311 is listed. */
  lemma PrimesComplete(q: nat) returns (i: nat)
    requires IsPrime(q) && q <= 311
    ensures i < 64 && Primes()[i] == q
  {
    PrimeIsSieved(q);
    hide Sieved, IsPrime, Primes;
    if q < 5 { i := Sieve0(q); } else if q < 11 { i := Sieve1(q); } else if q < 17 { i := Sieve2(q); } else if q < 23 { i := Sieve3(q); }
    else if q < 31 { i := Sieve4(q); } else if q < 41 { i := Sieve5(q); } else if q < 47 { i := Sieve6(q); } else if q < 59 { i := Sieve7(q); }
    else if q < 67 { i := Sieve8(q); } else if q < 73 { i := Sieve9(q); } else if q < 83 { i := Sieve10(q); } else if q < 97 { i := Sieve11(q); }
    else if q < 103 { i := Sieve12(q); } else if q < 109 { i := Sieve13(q); } else if q < 127 { i := Sieve14(q); } else if q < 137 { i := Sieve15(q); }
    else if q < 149 { i := Sieve16(q); } else if q < 157 { i := Sieve17(q); } else if q < 167 { i := Sieve18(q); } else if q < 179 { i := Sieve19(q); }
    else if q < 191 { i := Sieve20(q); } else if q < 197 { i := Sieve21(q); } else if q < 211 { i := Sieve22(q); } else if q < 227 { i := Sieve23(q); }
    else if q < 233 { i := Sieve24(q); } else if q < 241 { i := Sieve25(q); } else if q < 257 { i := Sieve26(q); } else if q < 269 { i := Sieve27(q); }
    else if q < 277 { i := Sieve28(q); } else if q < 283 { i := Sieve29(q); } else if q < 307 { i := Sieve30(q); } else { i := Sieve31(q); }
  }

  /** What is listed is prime and greater than what is listed before: with the above, these
      are the first 64 primes. */
  lemma PrimesSound(i: nat)
    requires i < 64
    ensures IsPrime(Primes()[i]) && Primes()[i] <= 311 && (i > 0 ==> Primes()[i - 1] < Primes()[i])
  {
    hide IsPrime;
    var q := Primes()[i];
    assert 2 <= q <= 311 && Sieved(q) by { hide *; ListedSieved(i); }
    SievedIsPrime(q);
    if i > 0 { assert Primes()[i - 1] < q by { hide *; ListedSieved(i); } }
  }

  lemma ListedSieved(i: nat)
    requires i < 64
    ensures 2 <= Primes()[i] <= 311 && Sieved(Primes()[i]) && (i > 0 ==> Primes()[i - 1] < Primes()[i])
  {
    hide Primes, Sieved;
    if i < 16 { Listed0(i); } else if i < 32 { Listed1(i); } else if i < 48 { Listed2(i); } else { Listed3(i); }
  }

  lemma Listed0(i: nat)
    requires 0 <= i < 16
    ensures 2 <= Primes()[i] <= 311 && Sieved(Primes()[i]) && (i > 0 ==> Primes()[i - 1] < Primes()[i])
  {
    if i == 0 { assert Primes()[0] == 2; }
    else if i == 1 { assert Primes()[1] == 3 && Primes()[0] == 2; }
    else if i == 2 { assert Primes()[2] == 5 && Primes()[1] == 3; }
    else if i == 3 { assert Primes()[3] == 7 && Primes()[2] == 5; }
    else if i == 4 { assert Primes()[4] == 11 && Primes()[3] == 7; }
    else if i == 5 { assert Primes()[5] == 13 && Primes()[4] == 11; }
    else if i == 6 { assert Primes()[6] == 17 && Primes()[5] == 13; }
    else if i == 7 { assert Primes()[7] == 19 && Primes()[6] == 17; }
    else if i == 8 { assert Primes()[8] == 23 && Primes()[7] == 19; }
    else if i == 9 { assert Primes()[9] == 29 && Primes()[8] == 23; }
    else if i == 10 { assert Primes()[10] == 31 && Primes()[9] == 29; }
    else if i == 11 { assert Primes()[11] == 37 && Primes()[10] == 31; }
    else if i == 12 { assert Primes()[12] == 41 && Primes()[11] == 37; }
    else if i == 13 { assert Primes()[13] == 43 && Primes()[12] == 41; }
    else if i == 14 { assert Primes()[14] == 47 && Primes()[13] == 43; }
    else if i == 15 { assert Primes()[15] == 53 && Primes()[14] == 47; }
  }

  lemma Listed1(i: nat)
    requires 16 <= i < 32
    ensures 2 <= Primes()[i] <= 311 && Sieved(Primes()[i]) && (i > 0 ==> Primes()[i - 1] < Primes()[i])
  {
    if i == 16 { assert Primes()[16] == 59 && Primes()[15] == 53; }
    else if i == 17 { assert Primes()[17] == 61 && Primes()[16] == 59; }
    else if i == 18 { assert Primes()[18] == 67 && Primes()[17] == 61; }
    else if i == 19 { assert Primes()[19] == 71 && Primes()[18] == 67; }
    else if i == 20 { assert Primes()[20] == 73 && Primes()[19] == 71; }
    else if i == 21 { assert Primes()[21] == 79 && Primes()[20] == 73; }
    else if i == 22 { assert Primes()[22] == 83 && Primes()[21] == 79; }
    else if i == 23 { assert Primes()[23] == 89 && Primes()[22] == 83; }
    else if i == 24 { assert Primes()[24] == 97 && Primes()[23] == 89; }
    else if i == 25 { assert Primes()[25] == 101 && Primes()[24] == 97; }
    else if i == 26 { assert Primes()[26] == 103 && Primes()[25] == 101; }
    else if i == 27 { assert Primes()[27] == 107 && Primes()[26] == 103; }
    else if i == 28 { assert Primes()[28] == 109 && Primes()[27] == 107; }
    else if i == 29 { assert Primes()[29] == 113 && Primes()[28] == 109; }
    else if i == 30 { assert Primes()[30] == 127 && Primes()[29] == 113; }
    else if i == 31 { assert Primes()[31] == 131 && Primes()[30] == 127; }
  }

  lemma Listed2(i: nat)
    requires 32 <= i < 48
    ensures 2 <= Primes()[i] <= 311 && Sieved(Primes()[i]) && (i > 0 ==> Primes()[i - 1] < Primes()[i])
  {
    if i == 32 { assert Primes()[32] == 137 && Primes()[31] == 131; }
    else if i == 33 { assert Primes()[33] == 139 && Primes()[32] == 137; }
    else if i == 34 { assert Primes()[34] == 149 && Primes()[33] == 139; }
    else if i == 35 { assert Primes()[35] == 151 && Primes()[34] == 149; }
    else if i == 36 { assert Primes()[36] == 157 && Primes()[35] == 151; }
    else if i == 37 { assert Primes()[37] == 163 && Primes()[36] == 157; }
    else if i == 38 { assert Primes()[38] == 167 && Primes()[37] == 163; }
    else if i == 39 { assert Primes()[39] == 173 && Primes()[38] == 167; }
    else if i == 40 { assert Primes()[40] == 179 && Primes()[39] == 173; }
    else if i == 41 { assert Primes()[41] == 181 && Primes()[40] == 179; }
    else if i == 42 { assert Primes()[42] == 191 && Primes()[41] == 181; }
    else if i == 43 { assert Primes()[43] == 193 && Primes()[42] == 191; }
    else if i == 44 { assert Primes()[44] == 197 && Primes()[43] == 193; }
    else if i == 45 { assert Primes()[45] == 199 && Primes()[44] == 197; }
    else if i == 46 { assert Primes()[46] == 211 && Primes()[45] == 199; }
    else if i == 47 { assert Primes()[47] == 223 && Primes()[46] == 211; }
  }

  lemma Listed3(i: nat)
    requires 48 <= i < 64
    ensures 2 <= Primes()[i] <= 311 && Sieved(Primes()[i]) && (i > 0 ==> Primes()[i - 1] < Primes()[i])
  {
    if i == 48 { assert Primes()[48] == 227 && Primes()[47] == 223; }
    else if i == 49 { assert Primes()[49] == 229 && Primes()[48] == 227; }
    else if i == 50 { assert Primes()[50] == 233 && Primes()[49] == 229; }
    else if i == 51 { assert Primes()[51] == 239 && Primes()[50] == 233; }
    else if i == 52 { assert Primes()[52] == 241 && Primes()[51] == 239; }
    else if i == 53 { assert Primes()[53] == 251 && Primes()[52] == 241; }
    else if i == 54 { assert Primes()[54] == 257 && Primes()[53] == 251; }
    else if i == 55 { assert Primes()[55] == 263 && Primes()[54] == 257; }
    else if i == 56 { assert Primes()[56] == 269 && Primes()[55] == 263; }
    else if i == 57 { assert Primes()[57] == 271 && Primes()[56] == 269; }
    else if i == 58 { assert Primes()[58] == 277 && Primes()[57] == 271; }
    else if i == 59 { assert Primes()[59] == 281 && Primes()[58] == 277; }
    else if i == 60 { assert Primes()[60] == 283 && Primes()[59] == 281; }
    else if i == 61 { assert Primes()[61] == 293 && Primes()[60] == 283; }
    else if i == 62 { assert Primes()[62] == 307 && Primes()[61] == 293; }
    else if i == 63 { assert Primes()[63] == 311 && Primes()[62] == 307; }
  }

  // ---------------------------------------------------------------- roots

  /** n is the whole part of the cube root of x. */
  predicate CubeRoot(n: nat, x: nat) {
    n * n * n <= x < (n + 1) * (n + 1) * (n + 1)
  }

  predicate SquareRoot(n: nat, x: nat) {
    n * n <= x < (n + 1) * (n + 1)
  }

  /** k is the first 32 fractional bits of the cube root of p: the root of p * 2^96 is
      2^32 times that of p. */
  ghost predicate CubeBits(k: bv32, p: nat) {
    exists n: nat :: CubeRoot(n, p * 0x1_0000_0000_0000_0000_0000_0000) && n % 0x1_0000_0000 == k as int
  }

  ghost predicate SquareBits(k: bv32, p: nat) {
    exists n: nat :: SquareRoot(n, p * 0x1_0000_0000_0000_0000) && n % 0x1_0000_0000 == k as int
  }

  /** There is only one such k. */
  lemma CubeBitsUnique(j: bv32, k: bv32, p: nat)
    requires CubeBits(j, p) && CubeBits(k, p)
    ensures j as int == k as int
  {
    hide CubeRoot;
    var x := p * 0x1_0000_0000_0000_0000_0000_0000;
    var m: nat :| CubeRoot(m, x) && m % 0x1_0000_0000 == j as int;
    var n: nat :| CubeRoot(n, x) && n % 0x1_0000_0000 == k as int;
    if m < n { CubeRootsMeet(m, n, x); } else if n < m { CubeRootsMeet(n, m, x); }
  }

  lemma CubeRootsMeet(m: nat, n: nat, x: nat)
    requires m < n && CubeRoot(m, x)
    ensures !CubeRoot(n, x)
  {
    var a := m + 1;
    NatOrder(a, a, n);
    NatOrder(n, a, n);
    NatOrder(a, a * a, n * n);
    NatOrder(n * n, a, n);
    MulCommutes(a * a, a);
    MulCommutes(n, a);
  }

  lemma NatOrder(c: int, a: int, b: int)
    requires 0 <= c && a <= b
    ensures c * a <= c * b
  {
    MulDistributes(c, b, -a);
    if b - a >= 1 { MulAtLeast(c, b - a); }
  }

  lemma SquareBitsUnique(j: bv32, k: bv32, p: nat)
    requires SquareBits(j, p) && SquareBits(k, p)
    ensures j as int == k as int
  {
    hide SquareRoot;
    var x := p * 0x1_0000_0000_0000_0000;
    var m: nat :| SquareRoot(m, x) && m % 0x1_0000_0000 == j as int;
    var n: nat :| SquareRoot(n, x) && n % 0x1_0000_0000 == k as int;
    if m < n { SquareRootsMeet(m, n, x); } else if n < m { SquareRootsMeet(n, m, x); }
  }

  lemma SquareRootsMeet(m: nat, n: nat, x: nat)
    requires m < n && SquareRoot(m, x)
    ensures !SquareRoot(n, x)
  {
    var a := m + 1;
    NatOrder(a, a, n);
    NatOrder(n, a, n);
    MulCommutes(n, a);
  }

  lemma CubeWitness(n: nat, k: bv32, p: nat)
    requires CubeRoot(n, p * 0x1_0000_0000_0000_0000_0000_0000) && n % 0x1_0000_0000 == k as int
    ensures CubeBits(k, p)
  {
    hide CubeRoot;
  }

  lemma SquareWitness(n: nat, k: bv32, p: nat)
    requires SquareRoot(n, p * 0x1_0000_0000_0000_0000) && n % 0x1_0000_0000 == k as int
    ensures SquareBits(k, p)
  {
    hide SquareRoot;
  }

  /** The constant of round i comes from the cube root of the i-th prime. */
  lemma KAreCubeRoots(i: nat)
    requires i < 64
    ensures CubeBits(K()[i], Primes()[i])
  {
    hide CubeBits, K, Primes;
    if i < 32 {
      if i < 16 { if i < 8 { Cubes0(i); } else { Cubes1(i); } } else { if i < 24 { Cubes2(i); } else { Cubes3(i); } }
    } else {
      if i < 48 { if i < 40 { Cubes4(i); } else { Cubes5(i); } } else { if i < 56 { Cubes6(i); } else { Cubes7(i); } }
    }
  }

  lemma Cubes0(i: nat)
    requires 0 <= i < 8
    ensures CubeBits(K()[i], Primes()[i])
  {
    hide CubeBits;
    if i == 0 { CubeWitness(0x1_428a2f98, 0x428a2f98, 2); }
    else if i == 1 { CubeWitness(0x1_71374491, 0x71374491, 3); }
    else if i == 2 { CubeWitness(0x1_b5c0fbcf, 0xb5c0fbcf, 5); }
    else if i == 3 { CubeWitness(0x1_e9b5dba5, 0xe9b5dba5, 7); }
    else if i == 4 { CubeWitness(0x2_3956c25b, 0x3956c25b, 11); }
    else if i == 5 { CubeWitness(0x2_59f111f1, 0x59f111f1, 13); }
    else if i == 6 { CubeWitness(0x2_923f82a4, 0x923f82a4, 17); }
    else if i == 7 { CubeWitness(0x2_ab1c5ed5, 0xab1c5ed5, 19); }
  }

  lemma Cubes1(i: nat)
    requires 8 <= i < 16
    ensures CubeBits(K()[i], Primes()[i])
  {
    hide CubeBits;
    if i == 8 { CubeWitness(0x2_d807aa98, 0xd807aa98, 23); }
    else if i == 9 { CubeWitness(0x3_12835b01, 0x12835b01, 29); }
    else if i == 10 { CubeWitness(0x3_243185be, 0x243185be, 31); }
    else if i == 11 { CubeWitness(0x3_550c7dc3, 0x550c7dc3, 37); }
    else if i == 12 { CubeWitness(0x3_72be5d74, 0x72be5d74, 41); }
    else if i == 13 { CubeWitness(0x3_80deb1fe, 0x80deb1fe, 43); }
    else if i == 14 { CubeWitness(0x3_9bdc06a7, 0x9bdc06a7, 47); }
    else if i == 15 { CubeWitness(0x3_c19bf174, 0xc19bf174, 53); }
  }

  lemma Cubes2(i: nat)
    requires 16 <= i < 24
    ensures CubeBits(K()[i], Primes()[i])
  {
    hide CubeBits;
    if i == 16 { CubeWitness(0x3_e49b69c1, 0xe49b69c1, 59); }
    else if i == 17 { CubeWitness(0x3_efbe4786, 0xefbe4786, 61); }
    else if i == 18 { CubeWitness(0x4_0fc19dc6, 0x0fc19dc6, 67); }
    else if i == 19 { CubeWitness(0x4_240ca1cc, 0x240ca1cc, 71); }
    else if i == 20 { CubeWitness(0x4_2de92c6f, 0x2de92c6f, 73); }
    else if i == 21 { CubeWitness(0x4_4a7484aa, 0x4a7484aa, 79); }
    else if i == 22 { CubeWitness(0x4_5cb0a9dc, 0x5cb0a9dc, 83); }
    else if i == 23 { CubeWitness(0x4_76f988da, 0x76f988da, 89); }
  }

  lemma Cubes3(i: nat)
    requires 24 <= i < 32
    ensures CubeBits(K()[i], Primes()[i])
  {
    hide CubeBits;
    if i == 24 { CubeWitness(0x4_983e5152, 0x983e5152, 97); }
    else if i == 25 { CubeWitness(0x4_a831c66d, 0xa831c66d, 101); }
    else if i == 26 { CubeWitness(0x4_b00327c8, 0xb00327c8, 103); }
    else if i == 27 { CubeWitness(0x4_bf597fc7, 0xbf597fc7, 107); }
    else if i == 28 { CubeWitness(0x4_c6e00bf3, 0xc6e00bf3, 109); }
    else if i == 29 { CubeWitness(0x4_d5a79147, 0xd5a79147, 113); }
    else if i == 30 { CubeWitness(0x5_06ca6351, 0x06ca6351, 127); }
    else if i == 31 { CubeWitness(0x5_14292967, 0x14292967, 131); }
  }

  lemma Cubes4(i: nat)
    requires 32 <= i < 40
    ensures CubeBits(K()[i], Primes()[i])
  {
    hide CubeBits;
    if i == 32 { CubeWitness(0x5_27b70a85, 0x27b70a85, 137); }
    else if i == 33 { CubeWitness(0x5_2e1b2138, 0x2e1b2138, 139); }
    else if i == 34 { CubeWitness(0x5_4d2c6dfc, 0x4d2c6dfc, 149); }
    else if i == 35 { CubeWitness(0x5_53380d13, 0x53380d13, 151); }
    else if i == 36 { CubeWitness(0x5_650a7354, 0x650a7354, 157); }
    else if i == 37 { CubeWitness(0x5_766a0abb, 0x766a0abb, 163); }
    else if i == 38 { CubeWitness(0x5_81c2c92e, 0x81c2c92e, 167); }
    else if i == 39 { CubeWitness(0x5_92722c85, 0x92722c85, 173); }
  }

  lemma Cubes5(i: nat)
    requires 40 <= i < 48
    ensures CubeBits(K()[i], Primes()[i])
  {
    hide CubeBits;
    if i == 40 { CubeWitness(0x5_a2bfe8a1, 0xa2bfe8a1, 179); }
    else if i == 41 { CubeWitness(0x5_a81a664b, 0xa81a664b, 181); }
    else if i == 42 { CubeWitness(0x5_c24b8b70, 0xc24b8b70, 191); }
    else if i == 43 { CubeWitness(0x5_c76c51a3, 0xc76c51a3, 193); }
    else if i == 44 { CubeWitness(0x5_d192e819, 0xd192e819, 197); }
    else if i == 45 { CubeWitness(0x5_d6990624, 0xd6990624, 199); }
    else if i == 46 { CubeWitness(0x5_f40e3585, 0xf40e3585, 211); }
    else if i == 47 { CubeWitness(0x6_106aa070, 0x106aa070, 223); }
  }

  lemma Cubes6(i: nat)
    requires 48 <= i < 56
    ensures CubeBits(K()[i], Primes()[i])
  {
    hide CubeBits;
    if i == 48 { CubeWitness(0x6_19a4c116, 0x19a4c116, 227); }
    else if i == 49 { CubeWitness(0x6_1e376c08, 0x1e376c08, 229); }
    else if i == 50 { CubeWitness(0x6_2748774c, 0x2748774c, 233); }
    else if i == 51 { CubeWitness(0x6_34b0bcb5, 0x34b0bcb5, 239); }
    else if i == 52 { CubeWitness(0x6_391c0cb3, 0x391c0cb3, 241); }
    else if i == 53 { CubeWitness(0x6_4ed8aa4a, 0x4ed8aa4a, 251); }
    else if i == 54 { CubeWitness(0x6_5b9cca4f, 0x5b9cca4f, 257); }
    else if i == 55 { CubeWitness(0x6_682e6ff3, 0x682e6ff3, 263); }
  }

  lemma Cubes7(i: nat)
    requires 56 <= i < 64
    ensures CubeBits(K()[i], Primes()[i])
  {
    hide CubeBits;
    if i == 56 { CubeWitness(0x6_748f82ee, 0x748f82ee, 269); }
    else if i == 57 { CubeWitness(0x6_78a5636f, 0x78a5636f, 271); }
    else if i == 58 { CubeWitness(0x6_84c87814, 0x84c87814, 277); }
    else if i == 59 { CubeWitness(0x6_8cc70208, 0x8cc70208, 281); }
    else if i == 60 { CubeWitness(0x6_90befffa, 0x90befffa, 283); }
    else if i == 61 { CubeWitness(0x6_a4506ceb, 0xa4506ceb, 293); }
    else if i == 62 { CubeWitness(0x6_bef9a3f7, 0xbef9a3f7, 307); }
    else if i == 63 { CubeWitness(0x6_c67178f2, 0xc67178f2, 311); }
  }

  /** The initial hash value comes from the square roots of the first eight. */
  lemma InitialAreSquareRoots(i: nat)
    requires i < 8
    ensures SquareBits(Initial()[i], Primes()[i])
  {
    hide SquareBits;
    if i == 0 { SquareWitness(0x1_6a09e667, 0x6a09e667, 2); }
    else if i == 1 { SquareWitness(0x1_bb67ae85, 0xbb67ae85, 3); }
    else if i == 2 { SquareWitness(0x2_3c6ef372, 0x3c6ef372, 5); }
    else if i == 3 { SquareWitness(0x2_a54ff53a, 0xa54ff53a, 7); }
    else if i == 4 { SquareWitness(0x3_510e527f, 0x510e527f, 11); }
    else if i == 5 { SquareWitness(0x3_9b05688c, 0x9b05688c, 13); }
    else if i == 6 { SquareWitness(0x4_1f83d9ab, 0x1f83d9ab, 17); }
    else if i == 7 { SquareWitness(0x4_5be0cd19, 0x5be0cd19, 19); }
  }
}
