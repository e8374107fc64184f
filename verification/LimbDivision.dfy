/** The division of misc/intX_t.ipp on limbs: shift, compare and subtract, with
    the column subtraction as it is. What the loop leaves when a column borrows
    twice is followed exactly, limb by limb. */
module LimbDivision {
  import opened NumberTheory
  import opened Limbs

  // ---------------------------------------------------------------- powers of two

  /** d * 2^k. */
  function Scaled(d: int, k: nat): (r: int)
    ensures d >= 0 ==> r >= 0
  {
    PowPositive(2, k);
    if d >= 0 then NotNegative(d, Pow(2, k)); d * Pow(2, k) else d * Pow(2, k)
  }

  lemma ScaledStep(d: int, k: nat)
    ensures Scaled(d, k + 1) == 2 * Scaled(d, k) && Scaled(d, 0) == d && Scaled(d, 1) == 2 * d
  {
    PowTwo();
    MulAssociates(d, 2, Pow(2, k));
  }

  lemma ScaledPositive(d: int, k: nat)
    requires d > 0
    ensures Scaled(d, k) > 0
  {
    PowPositive(2, k);
  }

  lemma PowTwo()
    ensures Pow(2, 1) == 2
  {
    assert Pow(2, 1) == 2 * Pow(2, 0);
  }

  lemma PowZero(b: int)
    ensures Pow(b, 0) == 1
  {
  }

  // ---------------------------------------------------------------- order of limb vectors

  /** l is no less than s: more limbs, or as many and a topmost differing limb
      that is greater. This is what absNoless computes, whatever the limbs are. */
  predicate Noless(l: seq<int>, s: seq<int>) {
    |l| > |s| || (|l| == |s| && LexNoless(l, s))
  }

  predicate LexNoless(l: seq<int>, s: seq<int>)
    requires |l| == |s|
  {
    |l| == 0 || (if l[1..] == s[1..] then l[0] >= s[0] else LexNoless(l[1..], s[1..]))
  }

  /** The topmost differing limb, found from the top. */
  lemma {:induction false} LexAt(l: seq<int>, s: seq<int>, i: nat)
    requires |l| == |s| && i < |l| && l[i + 1..] == s[i + 1..] && l[i] != s[i]
    ensures LexNoless(l, s) <==> l[i] > s[i]
  {
    if i > 0 {
      assert l[1..][i - 1] == l[i] && s[1..][i - 1] == s[i];
      LexAt(l[1..], s[1..], i - 1);
    }
  }

  lemma {:induction false} LexRefl(l: seq<int>)
    ensures LexNoless(l, l)
  {
  }

  lemma {:induction false} LexIsOrder(l: seq<int>, s: seq<int>)
    requires |l| == |s| && LimbsOk(l) && LimbsOk(s) && l != s
    ensures LexNoless(l, s) <==> Val(l) > Val(s)
    ensures Val(l) != Val(s)
  {
    if |l| > 0 {
      assert l == [l[0]] + l[1..] && s == [s[0]] + s[1..];
      if l[1..] != s[1..] { LexIsOrder(l[1..], s[1..]); }
    }
  }

  /** On limbs in range without a top zero the order of the limbs is that of the values. */
  lemma NolessIff(l: seq<int>, s: seq<int>)
    requires LimbsOk(l) && NoTopZero(l) && LimbsOk(s) && NoTopZero(s)
    ensures Noless(l, s) <==> Val(l) >= Val(s)
  {
    if |l| > |s| { LongerIsGreater(l, s); }
    else if |l| < |s| { LongerIsGreater(s, l); }
    else if l == s { LexRefl(l); }
    else { LexIsOrder(l, s); }
  }

  // ---------------------------------------------------------------- what the subtraction adds

  /** The borrow that a negative column owes. */
  function Owed(borrow: int): int {
    if borrow > 0 then 1 else 0
  }

  /** The errors of a column subtraction, by power of BASE: -1 where a borrow of 2
      came in, and the borrow that nobody takes on top. */
  function Extras(l: seq<int>, s: seq<int>, borrow: int): (e: seq<int>)
    requires |s| <= |l|
    ensures |e| == |l| + 1
  {
    if |l| == 0 then [Owed(borrow)]
    else [Owed(borrow) - borrow] + Extras(l[1..], Rest(s), NextBorrow(l[0] - First(s) - borrow))
  }

  /** The subtraction loop on any limbs: the difference and its errors. */
  lemma {:induction false} ExtrasVal(l: seq<int>, s: seq<int>, borrow: int)
    requires |s| <= |l| && borrow >= 0
    ensures Val(SubLimbs(l, s, borrow)) == Val(l) - Val(s) - Owed(borrow) + Val(Extras(l, s, borrow))
  {
    var e, r := Extras(l, s, borrow), SubLimbs(l, s, borrow);
    if |l| == 0 {
      assert e[1..] == [];
    } else {
      var t := l[0] - First(s) - borrow;
      NextBorrowOwed(t);
      ExtrasVal(l[1..], Rest(s), NextBorrow(t));
      assert r[1..] == SubLimbs(l[1..], Rest(s), NextBorrow(t));
      assert e[1..] == Extras(l[1..], Rest(s), NextBorrow(t));
      assert Val(s) == First(s) + BASE * Val(Rest(s));
    }
  }

  lemma NextBorrowOwed(t: int)
    ensures NextBorrow(t) >= 0 && Column(t) == t + BASE * Owed(NextBorrow(t))
    ensures -2 * BASE < t ==> NextBorrow(t) <= 2
    ensures -BASE < t ==> NextBorrow(t) <= 1
  {
  }

  /** Limbs from -slack on. */
  ghost predicate LimbsFrom(b: seq<int>, slack: int) {
    forall i :: 0 <= i < |b| ==> -slack <= b[i] < BASE
  }

  /** Below the top power the errors are -1 or 0, on it 0 or 1. */
  ghost predicate ErrorsOk(e: seq<int>) {
    |e| > 0 && 0 <= e[|e| - 1] <= 1 && forall j :: 0 <= j < |e| - 1 ==> -1 <= e[j] <= 0
  }

  lemma ColumnRange(l0: int, s0: int, borrow: int, slack: int)
    requires -slack <= l0 < BASE && 0 <= s0 < BASE && 0 <= borrow <= 2 && 0 <= slack <= BASE - 2
    ensures var t := l0 - s0 - borrow;
            0 <= NextBorrow(t) <= 2 && -slack - 1 <= Column(t) < BASE
  {
    NextBorrowOwed(l0 - s0 - borrow);
  }

  lemma {:induction false} ExtrasRange(l: seq<int>, s: seq<int>, borrow: int, slack: int)
    requires |s| <= |l| && 0 <= borrow <= 2 && LimbsFrom(l, slack) && LimbsOk(s) && 0 <= slack <= BASE - 2
    ensures ErrorsOk(Extras(l, s, borrow))
    decreases |l|
  {
    if |l| > 0 {
      var t := l[0] - First(s) - borrow;
      ColumnRange(l[0], First(s), borrow, slack);
      ExtrasRange(l[1..], Rest(s), NextBorrow(t), slack);
      var e' := Extras(l[1..], Rest(s), NextBorrow(t));
      assert Extras(l, s, borrow) == [Owed(borrow) - borrow] + e';
    }
  }

  lemma {:induction false} DifferenceRange(l: seq<int>, s: seq<int>, borrow: int, slack: int)
    requires |s| <= |l| && 0 <= borrow <= 2 && LimbsFrom(l, slack) && LimbsOk(s) && 0 <= slack <= BASE - 2
    ensures LimbsFrom(SubLimbs(l, s, borrow), slack + 1)
    decreases |l|
  {
    if |l| > 0 {
      var t := l[0] - First(s) - borrow;
      ColumnRange(l[0], First(s), borrow, slack);
      DifferenceRange(l[1..], Rest(s), NextBorrow(t), slack);
      var r' := SubLimbs(l[1..], Rest(s), NextBorrow(t));
      assert SubLimbs(l, s, borrow) == [Column(t)] + r';
    }
  }

  /** When no column errs and l is lexicographically no less, no borrow is left on top. */
  lemma {:induction false} NoTopBorrow(l: seq<int>, s: seq<int>, borrow: int)
    requires |s| == |l| && 0 <= borrow <= 1
    requires LexNoless(l, s) && (borrow == 1 ==> l != s)
    requires forall j :: 0 <= j < |l| ==> Extras(l, s, borrow)[j] == 0
    ensures Extras(l, s, borrow)[|l|] == 0
  {
    if |l| > 0 {
      var t := l[0] - s[0] - borrow;
      var u := NextBorrow(t);
      var e, e' := Extras(l, s, borrow), Extras(l[1..], s[1..], u);
      assert e[1..] == e';
      NextBorrowOwed(t);
      if |l| > 1 { LowestError(l[1..], s[1..], u); }
      hide Extras, NextBorrow;
      assert l == [l[0]] + l[1..] && s == [s[0]] + s[1..];
      if l[1..] == s[1..] { LexRefl(l[1..]); }
      if |l| > 1 { assert e'[0] == e[1] == 0; }
      forall j | 0 <= j < |l| - 1 ensures e'[j] == 0 {
        assert e'[j] == e[j + 1];
      }
      if |l| == 1 { assert l[1..] == s[1..]; }
      NoTopBorrow(l[1..], s[1..], u);
    }
  }

  lemma LowestError(l: seq<int>, s: seq<int>, borrow: int)
    requires |s| <= |l| && |l| > 0
    ensures Extras(l, s, borrow)[0] == Owed(borrow) - borrow
  {
  }

  // ---------------------------------------------------------------- coefficients

  function AddCoefficients(c: seq<int>, e: seq<int>): (r: seq<int>)
    requires |e| <= |c|
    ensures |r| == |c|
    ensures forall j :: 0 <= j < |c| ==> r[j] == c[j] + (if j < |e| then e[j] else 0)
  {
    if |e| == 0 then c else [c[0] + e[0]] + AddCoefficients(c[1..], e[1..])
  }

  lemma {:induction false} AddCoefficientsVal(c: seq<int>, e: seq<int>)
    requires |e| <= |c|
    ensures Val(AddCoefficients(c, e)) == Val(c) + Val(e)
  {
    if |e| > 0 {
      AddCoefficientsVal(c[1..], e[1..]);
      assert AddCoefficients(c, e)[1..] == AddCoefficients(c[1..], e[1..]);
    }
  }

  ghost predicate AllZero(c: seq<int>) {
    forall j :: 0 <= j < |c| ==> c[j] == 0
  }

  ghost predicate Within(c: seq<int>, bound: int) {
    forall j :: 0 <= j < |c| ==> -bound <= c[j] <= bound
  }

  /** Small coefficients with the value zero are all zero. */
  lemma {:induction false} Balanced(c: seq<int>)
    requires Within(c, BASE - 1)
    ensures Val(c) == 0 <==> AllZero(c)
  {
    if |c| > 0 {
      Balanced(c[1..]);
      LowDigit(c[0], Val(c[1..]));
      if AllZero(c[1..]) && c[0] == 0 {
        forall j | 0 <= j < |c| ensures c[j] == 0 {
          if j > 0 { assert c[j] == c[1..][j - 1]; }
        }
      }
    }
  }

  lemma LowDigit(c0: int, v: int)
    requires -BASE < c0 < BASE
    ensures c0 + BASE * v == 0 <==> c0 == 0 && v == 0
  {
  }

  /** BASE^m. */
  function Unit(m: nat): (u: int)
    ensures u > 0
  {
    if m == 0 then 1 else BASE * Unit(m - 1)
  }

  lemma {:induction false} ValBelow(b: seq<int>)
    requires LimbsOk(b)
    ensures Val(b) < Unit(|b|)
  {
    if |b| > 0 { ValBelow(b[1..]); }
  }

  lemma {:induction false} ValAbove(b: seq<int>, slack: int)
    requires |b| > 0 && LimbsFrom(b, slack) && slack >= 0
    ensures Val(b) >= slack - 2 * (slack * Unit(|b| - 1))
  {
    if |b| == 1 {
      assert Val(b[1..]) == 0;
      assert Unit(0) == 1;
    } else {
      ValAbove(b[1..], slack);
      AboveStep(slack, Unit(|b| - 2), b[0], Val(b[1..]));
    }
  }

  lemma AboveStep(slack: int, u: int, b0: int, v: int)
    requires slack >= 0 && b0 >= -slack && v >= slack - 2 * (slack * u)
    ensures b0 + BASE * v >= slack - 2 * (slack * (BASE * u))
  {
    MulAssociates(slack, BASE, u);
  }

  lemma {:induction false} ValOfTop(e: seq<int>)
    requires |e| > 0 && forall j :: 0 <= j < |e| - 1 ==> e[j] == 0
    ensures Val(e) == e[|e| - 1] * Unit(|e| - 1)
  {
    if |e| == 1 {
      assert Val(e[1..]) == 0;
    } else {
      ValOfTop(e[1..]);
      MulAssociates(e[|e| - 1], BASE, Unit(|e| - 2));
    }
  }

  lemma {:induction false} UnitGrows(a: nat, b: nat)
    requires a <= b
    ensures Unit(a) <= Unit(b)
  {
    if a < b { UnitGrows(a, b - 1); }
  }

  // ---------------------------------------------------------------- safe subtractions

  /** A subtraction of magnitudes hits the column the code gets wrong. */
  ghost predicate BadSubtraction(a: seq<int>, b: seq<int>) {
    if Val(a) >= Val(b)
    then |b| <= |a| && DoubleBorrow(a, b)
    else |a| <= |b| && DoubleBorrow(b, a)
  }

  /** What absSub leaves is the difference of the magnitudes exactly when the
      subtraction is not bad. */
  lemma MagnitudeDifference(a: seq<int>, b: seq<int>)
    requires LimbsOk(a) && NoTopZero(a) && LimbsOk(b) && NoTopZero(b)
    ensures Val(a) >= Val(b) ==> |b| <= |a| && DifferenceIff(a, b, BadSubtraction(a, b))
    ensures Val(a) <= Val(b) && a != b ==> |a| <= |b| && DifferenceIff(b, a, BadSubtraction(a, b))
  {
    hide Val, NoTopZero, LimbsOk, DifferenceIff, DoubleBorrow;
    if |a| < |b| { LongerIsGreater(b, a); } else if |b| < |a| { LongerIsGreater(a, b); }
    if Val(a) == Val(b) { ValUnique(a); ValUnique(b); }
    if Val(a) >= Val(b) { DifferenceOf(a, b); } else { DifferenceOf(b, a); }
  }

  lemma DifferenceOf(l: seq<int>, s: seq<int>)
    requires LimbsOk(l) && LimbsOk(s) && |s| <= |l| && Val(l) >= Val(s)
    ensures DifferenceIff(l, s, DoubleBorrow(l, s))
  {
    hide Val, LimbsOk, SubLimbs, Trim, DoubleBorrowFrom;
    SubLimbsExactIff(l, s, 0);
    TrimVal(SubLimbs(l, s, 0));
    if LimbsOk(SubLimbs(l, s, 0)) { TrimOk(SubLimbs(l, s, 0)); }
  }

  lemma TrimOk(b: seq<int>)
    requires LimbsOk(b)
    ensures LimbsOk(Trim(b))
  {
    hide Trim;
  }

  ghost predicate DifferenceIff(l: seq<int>, s: seq<int>, bad: bool)
    requires |s| <= |l|
  {
    var r := Trim(SubLimbs(l, s, 0));
    && NoTopZero(r)
    && (Val(r) == Val(l) - Val(s) <==> !bad)
    && (!bad ==> LimbsOk(r))
  }

  /** Subtracting den * 2^k from num modulo den * 2^(k+1), the step the division
      takes when it sets quotient bit k, meets no bad column. */
  ghost predicate SafeAt(n: nat, d: nat, k: nat)
    requires d > 0
  {
    PowPositive(2, k);
    var D := Scaled(d, k);
    D > 0 && (D <= n % (2 * D) ==> !BadSubtraction(ToLimbs(n % (2 * D)), ToLimbs(D)))
  }

  ghost predicate SafeDivision(n: nat, d: nat)
    requires d > 0
  {
    forall k: nat :: SafeAt(n, d, k)
  }

  ghost predicate SafeBelow(n: nat, d: nat, k: nat)
    requires d > 0
  {
    forall j: nat :: j < k ==> SafeAt(n, d, j)
  }

  /** At and above the number of quotient bits nothing is subtracted. */
  lemma SafeAbove(n: nat, d: nat, k: nat)
    requires d > 0 && n < Scaled(d, k)
    ensures SafeAt(n, d, k)
  {
    PowPositive(2, k);
    var D := Scaled(d, k);
    DivModUnique(n, 2 * D, 0, n);
  }

  // ---------------------------------------------------------------- the division

  /** The number of quotient bits: how often d is doubled until it exceeds n. */
  function Bits(n: int, d: int): nat
    decreases n - d
  {
    if d <= 0 || n < d then 0 else 1 + Bits(n, 2 * d)
  }

  lemma {:induction false} BitsBound(n: int, d: int)
    requires d > 0
    ensures n < Scaled(d, Bits(n, d))
    decreases n - d
  {
    ScaledStep(d, 0);
    if n >= d {
      BitsBound(n, 2 * d);
      ScaledTwice(d, Bits(n, 2 * d));
    }
  }

  lemma ScaledTwice(d: int, k: nat)
    ensures Scaled(2 * d, k) == Scaled(d, k + 1)
  {
    MulAssociates(d, 2, Pow(2, k));
  }

  /** The loop that scales the divisor ends with this number. */
  lemma {:induction false} BitsUnique(n: int, d: int, k: nat)
    requires d > 0 && n < Scaled(d, k) && (k > 0 ==> Scaled(d, k - 1) <= n)
    ensures k == Bits(n, d)
    decreases k
  {
    ScaledStep(d, 0);
    if k > 0 {
      ScaledMonotone(d, k - 1);
      if k > 1 { ScaledTwice(d, k - 2); }
      ScaledTwice(d, k - 1);
      ScaledStep(2 * d, 0);
      BitsUnique(n, 2 * d, k - 1);
    }
  }

  lemma {:induction false} ScaledMonotone(d: int, k: nat)
    requires d > 0
    ensures Scaled(d, k) >= d
  {
    PowPositive(2, k);
    MulAtLeast(d, Pow(2, k));
  }

  lemma {:induction false} BitsAbove(n: int, d: int, j: nat)
    requires d > 0 && j >= Bits(n, d)
    ensures n < Scaled(d, j)
  {
    BitsBound(n, d);
    if j > Bits(n, d) {
      BitsAbove(n, d, j - 1);
      ScaledStep(d, j - 1);
      ScaledPositive(d, j - 1);
    }
  }

  /** The divisor as it stands when quotient bit k is decided. */
  function Divisor(d: nat, k: nat): (b: seq<int>)
    ensures LimbsOk(b) && NoTopZero(b) && Val(b) == Scaled(d, k) && Val(b) >= 0
  {
    PowPositive(2, k);
    ToLimbsVal(Scaled(d, k));
    ToLimbs(Scaled(d, k))
  }

  /** One quotient bit. */
  predicate Fits(nb: seq<int>, d: nat, k: nat)
    ensures Fits(nb, d, k) ==> |Divisor(d, k)| <= |nb|
  {
    Noless(nb, Divisor(d, k))
  }

  /** The errors of the subtraction for quotient bit k. */
  function Errors(nb: seq<int>, d: nat, k: nat): (e: seq<int>)
    requires Fits(nb, d, k)
    ensures |e| == |nb| + 1
  {
    Extras(nb, Divisor(d, k), 0)
  }

  function Subtracted(nb: seq<int>, d: nat, k: nat): (r: seq<int>)
    ensures NoTopZero(nb) ==> NoTopZero(r)
    ensures |r| <= |nb|
  {
    if Fits(nb, d, k) then Trim(SubLimbs(nb, Divisor(d, k), 0)) else nb
  }

  function Appended(q: nat, bit: bool): nat {
    if bit then 2 * q + 1 else 2 * q
  }

  /** k more quotient bits from the running remainder nb: the quotient and the
      limbs of the remainder. */
  function DivBits(nb: seq<int>, d: nat, q: nat, k: nat): (nat, seq<int>)
    decreases k
  {
    if k == 0 then (q, nb)
    else DivBits(Subtracted(nb, d, k - 1), d, Appended(q, Fits(nb, d, k - 1)), k - 1)
  }

  /** Dividing the number with limbs nb by d. */
  function DivOf(nb: seq<int>, d: nat): (nat, seq<int>) {
    DivBits(nb, d, 0, Bits(Val(nb), d))
  }

  // ---------------------------------------------------------------- safe divisions are exact

  /** n divided by D leaves q and r. */
  predicate Partial(n: int, D: int, q: int, r: int) {
    0 <= r < D && q * D + r == n
  }

  lemma PartialStart(n: int, D: int)
    requires 0 <= n < D
    ensures Partial(n, D, 0, n)
  {
  }

  lemma PartialEnd(n: int, d: int, q: int, r: int)
    requires Partial(n, Scaled(d, 0), q, r)
    ensures d > 0 && n == q * d + r && 0 <= r < d
    ensures q == n / d && r == n % d
  {
    PowZero(2);
    DivModUnique(n, d, q, r);
  }

  lemma PartialStep(n: int, D: int, q: int, r: int)
    requires Partial(n, 2 * D, q, r)
    ensures D > 0 && n % (2 * D) == r
    ensures if D <= r then Partial(n, D, q * 2 + 1, r - D) else Partial(n, D, q * 2, r)
  {
    MulAssociates(q, 2, D);
    MulDistributes(D, q * 2, 1);
    DivModUnique(n, 2 * D, q, r);
  }

  /** The running remainder is right so far. */
  ghost predicate OnTrack(n: nat, d: nat, q: nat, nb: seq<int>, k: nat) {
    LimbsOk(nb) && NoTopZero(nb) && Partial(n, Scaled(d, k), q, Val(nb))
  }

  /** One more bit keeps the remainder right exactly when bit k is safe. */
  lemma TrackStep(n: nat, d: nat, q: nat, nb: seq<int>, k: nat)
    requires d > 0 && OnTrack(n, d, q, nb, k + 1)
    ensures Fits(nb, d, k) <==> Scaled(d, k) <= Val(nb)
    ensures SafeAt(n, d, k) ==> OnTrack(n, d, Appended(q, Fits(nb, d, k)), Subtracted(nb, d, k), k)
    ensures !SafeAt(n, d, k) ==> Fits(nb, d, k) && Val(Subtracted(nb, d, k)) != Val(nb) - Scaled(d, k)
  {
    hide BadSubtraction, Partial, Scaled, ToLimbs, Noless, SubLimbs, Trim;
    var db := Divisor(d, k);
    ScaledStep(d, k);
    PartialStep(n, Val(db), q, Val(nb));
    NolessIff(nb, db);
    ValNat(nb);
    ValUnique(nb);
    ValUnique(db);
    if Val(db) <= Val(nb) { MagnitudeDifference(nb, db); }
  }

  /** If the bits below k are safe, the rest of the division is right. */
  lemma {:induction false} SafeBitsExact(n: nat, d: nat, q: nat, nb: seq<int>, k: nat)
    requires d > 0 && OnTrack(n, d, q, nb, k) && SafeBelow(n, d, k)
    ensures DivBits(nb, d, q, k).0 == n / d
    ensures LimbsOk(DivBits(nb, d, q, k).1) && NoTopZero(DivBits(nb, d, q, k).1)
    ensures Val(DivBits(nb, d, q, k).1) == n % d
    decreases k
  {
    hide SafeAt;
    if k == 0 {
      PartialEnd(n, d, q, Val(nb));
    } else {
      assert SafeAt(n, d, k - 1);
      TrackStep(n, d, q, nb, k - 1);
      SafeBitsExact(n, d, Appended(q, Fits(nb, d, k - 1)), Subtracted(nb, d, k - 1), k - 1);
    }
  }

  lemma OnTrackStart(nb: seq<int>, d: nat)
    requires d > 0 && LimbsOk(nb) && NoTopZero(nb)
    ensures Val(nb) >= 0 && OnTrack(Val(nb), d, 0, nb, Bits(Val(nb), d))
  {
    ValNat(nb);
    BitsBound(Val(nb), d);
    PartialStart(Val(nb), Scaled(d, Bits(Val(nb), d)));
  }

  /** A safe division is exact, however large the operands are. */
  lemma SafeIsExact(nb: seq<int>, d: nat)
    requires d > 0 && LimbsOk(nb) && NoTopZero(nb) && Val(nb) >= 0 && SafeDivision(Val(nb), d)
    ensures DivOf(nb, d) == (Val(nb) / d, ToLimbs(Val(nb) % d))
  {
    hide SafeAt, DivBits;
    OnTrackStart(nb, d);
    var n, k := Val(nb), Bits(Val(nb), d);
    assert SafeBelow(n, d, k);
    SafeBitsExact(n, d, 0, nb, k);
    ValUnique(DivOf(nb, d).1);
  }

  // ---------------------------------------------------------------- a lost division stays lost

  /** Up to this many quotient bits the running remainder fits its limbs. */
  const MAXBITS: int := BASE / 4

  /** The running remainder nb stands for r plus the errors c. */
  ghost predicate Drifted(nb: seq<int>, c: seq<int>, r: int, steps: int) {
    && 0 <= steps <= MAXBITS
    && LimbsFrom(nb, steps) && NoTopZero(nb) && |nb| < |c|
    && Within(c, steps) && (forall j :: 0 <= j < |nb| ==> c[j] <= 0)
    && Val(nb) == r + Val(c)
  }

  /** One subtraction adds its errors to those before. */
  lemma DriftStep(nb: seq<int>, c: seq<int>, r: int, steps: int, d: nat, k: nat)
    requires Drifted(nb, c, r, steps) && steps < MAXBITS && Fits(nb, d, k)
    ensures Drifted(Subtracted(nb, d, k), AddCoefficients(c, Errors(nb, d, k)), r - Scaled(d, k), steps + 1)
  {
    hide Trim, SubLimbs, Extras, Val, NoTopZero, Noless;
    var db := Divisor(d, k);
    var b, e := SubLimbs(nb, db, 0), Extras(nb, db, 0);
    ExtrasVal(nb, db, 0);
    ExtrasRange(nb, db, 0, steps);
    DifferenceRange(nb, db, 0, steps);
    AddCoefficientsVal(c, e);
    TrimVal(b);
    ErrorsAdd(c, e, |nb|, steps);
  }

  lemma ErrorsAdd(c: seq<int>, e: seq<int>, m: nat, steps: int)
    requires m + 1 == |e| <= |c| && ErrorsOk(e) && Within(c, steps)
    requires forall j :: 0 <= j < m ==> c[j] <= 0
    ensures Within(AddCoefficients(c, e), steps + 1)
    ensures forall j :: 0 <= j < m ==> AddCoefficients(c, e)[j] <= 0
  {
    hide AddCoefficients;
  }

  /** Errors do not cancel while the quotient is still right. */
  lemma DriftPersists(nb: seq<int>, c: seq<int>, r: int, steps: int, d: nat, k: nat)
    requires d > 0 && Drifted(nb, c, r, steps) && steps < MAXBITS && Fits(nb, d, k)
    requires 0 <= r < 2 * Scaled(d, k) && !AllZero(c)
    ensures !AllZero(AddCoefficients(c, Errors(nb, d, k)))
  {
    hide Extras, SubLimbs, Val, Scaled, ErrorsOk, AllZero, AddCoefficients;
    var db := Divisor(d, k);
    var e := Extras(nb, db, 0);
    if AllZero(AddCoefficients(c, e)) {
      ExtrasRange(nb, db, 0, steps);
      NoNegative(c, e);
      OnlyTop(c, e);
      ScaledPositive(d, k);
      if |db| == |nb| {
        NoTopBorrow(nb, db, 0);
      } else {
        LongerDividend(nb, db, c, r, steps);
      }
      assert false;
    }
  }

  lemma NoNegative(c: seq<int>, e: seq<int>)
    requires 0 < |e| <= |c| && ErrorsOk(e) && AllZero(AddCoefficients(c, e))
    requires forall j :: 0 <= j < |e| - 1 ==> c[j] <= 0
    ensures forall j :: 0 <= j < |e| - 1 ==> e[j] == 0
  {
    var sum := AddCoefficients(c, e);
    forall j | 0 <= j < |e| - 1 ensures e[j] == 0 {
      assert sum[j] == c[j] + e[j];
    }
  }

  /** Errors that cancel are one missing unit on top of the remainder. */
  lemma OnlyTop(c: seq<int>, e: seq<int>)
    requires 0 < |e| <= |c| && ErrorsOk(e) && AllZero(AddCoefficients(c, e)) && !AllZero(c)
    requires forall j :: 0 <= j < |e| - 1 ==> e[j] == 0
    ensures e[|e| - 1] == 1 && Val(c) == -Unit(|e| - 1)
  {
    hide *;
    var top := e[|e| - 1];
    if top == 0 {
      ZeroErrors(c, e);
      assert false;
    }
    TopIsOne(e);
    AddCoefficientsVal(c, e);
    ZeroValue(AddCoefficients(c, e));
    ValOfTop(e);
  }

  lemma TopIsOne(e: seq<int>)
    requires ErrorsOk(e) && e[|e| - 1] != 0
    ensures e[|e| - 1] == 1
  {
  }

  lemma ZeroValue(c: seq<int>)
    requires AllZero(c)
    ensures Val(c) == 0
  {
    assert Within(c, BASE - 1);
    Balanced(c);
  }

  lemma ZeroErrors(c: seq<int>, e: seq<int>)
    requires 0 < |e| <= |c| && e[|e| - 1] == 0 && forall j :: 0 <= j < |e| - 1 ==> e[j] == 0
    ensures AddCoefficients(c, e) == c
  {
  }

  /** A remainder with more limbs than the divisor has no room for a missing unit. */
  lemma LongerDividend(nb: seq<int>, db: seq<int>, c: seq<int>, r: int, steps: int)
    requires Drifted(nb, c, r, steps) && LimbsOk(db) && |db| < |nb| && r < 2 * Val(db)
    ensures Val(c) != -Unit(|nb|)
  {
    hide Val;
    ValBelow(db);
    UnitGrows(|db|, |nb| - 1);
    ValAbove(nb, steps);
    NoRoom(Unit(|nb| - 1), steps);
  }

  lemma NoRoom(u: int, steps: int)
    requires u > 0 && 0 <= steps <= MAXBITS
    ensures 2 * u - BASE * u < steps - 2 * (steps * u)
  {
    var w := BASE - 2 - 2 * steps;
    assert w > 0;
    MulPositive(w, u);
    MulDistributes(u, BASE - 2, -2 * steps);
    MulCommutes(u, w);
    MulAssociates(2, steps, u);
    MulAssociates(-2, steps, u);
  }

  lemma MulPositive(a: int, b: int)
    requires a > 0 && b > 0
    ensures a * b > 0
  {
  }

  /** The bits still to come only extend the quotient. */
  lemma {:induction false} QuotientPrefix(nb: seq<int>, d: nat, q: nat, k: nat)
    ensures Scaled(q, k) <= DivBits(nb, d, q, k).0 < Scaled(q + 1, k)
    decreases k
  {
    hide Fits, Subtracted, Scaled;
    ScaledStep(q, 0);
    ScaledStep(q + 1, 0);
    if k > 0 {
      var bit := Fits(nb, d, k - 1);
      QuotientPrefix(Subtracted(nb, d, k - 1), d, Appended(q, bit), k - 1);
      ScaledTwice(q, k - 1);
      ScaledTwice(q + 1, k - 1);
      ScaledOrder(2 * q, Appended(q, bit), k - 1);
      ScaledOrder(Appended(q, bit) + 1, 2 * (q + 1), k - 1);
    }
  }

  lemma ScaledOrder(a: int, b: int, k: nat)
    requires a <= b
    ensures Scaled(a, k) <= Scaled(b, k)
  {
    PowPositive(2, k);
    var p := Pow(2, k);
    MulDistributes(p, b, -a);
    if a < b { MulAtLeast(p, b - a); }
  }

  /** A quotient that ends right was right all along. */
  lemma PrefixInRange(n: nat, d: nat, q: nat, k: nat, Q: nat)
    requires d > 0 && Scaled(q, k) <= Q < Scaled(q + 1, k) && Q == n / d
    ensures 0 <= n - q * Scaled(d, k) < Scaled(d, k)
  {
    var p := Pow(2, k);
    MulOrder(d, q * p, Q);
    MulOrder(d, Q + 1, (q + 1) * p);
    MulDistributes(d, Q, 1);
    MulDistributes(p, q, 1);
    MulDistributes(d, q * p, p);
    Swapped(q, d, p);
    Between(n, d * Q, d * (q * p), d * p, n % d, d);
  }

  lemma MulOrder(d: int, a: int, b: int)
    requires d >= 0 && a <= b
    ensures d * a <= d * b
  {
    NotNegative(d, b - a);
    MulDistributes(d, b, -a);
  }

  lemma Swapped(q: int, d: int, p: int)
    ensures q * (d * p) == d * (q * p)
  {
    MulAssociates(q, d, p);
    MulCommutes(q, d);
    MulAssociates(d, q, p);
  }

  lemma Between(n: int, x: int, y: int, z: int, r: int, d: int)
    requires n == x + r && 0 <= r < d && y <= x && x + d <= y + z
    ensures 0 <= n - y < z
  {
  }

  lemma NotNegative(a: int, b: int)
    requires a >= 0 && b >= 0
    ensures a * b >= 0
  {
  }

  /** One more bit: the remainder stays wrong while the quotient is right. */
  lemma LostStep(nb: seq<int>, c: seq<int>, r: int, steps: int, d: nat, k: nat) returns (c': seq<int>)
    requires d > 0 && Drifted(nb, c, r, steps) && steps < MAXBITS
    requires 0 <= r < 2 * Scaled(d, k) && !AllZero(c)
    ensures !AllZero(c')
    ensures Drifted(Subtracted(nb, d, k), c', if Fits(nb, d, k) then r - Scaled(d, k) else r, steps + 1)
  {
    hide Errors, Val, AllZero, Scaled, Noless, Trim, SubLimbs;
    if Fits(nb, d, k) {
      hide Drifted, Subtracted, Fits;
      DriftStep(nb, c, r, steps, d, k);
      DriftPersists(nb, c, r, steps, d, k);
      c' := AddCoefficients(c, Errors(nb, d, k));
    } else {
      c' := c;
    }
  }

  /** Once the remainder is wrong, the quotient or the remainder ends wrong. */
  lemma {:induction false} LostStaysLost(n: nat, d: nat, q: nat, nb: seq<int>, c: seq<int>, steps: nat, k: nat)
    requires d > 0 && steps + k <= MAXBITS && !AllZero(c)
    requires Drifted(nb, c, n - q * Scaled(d, k), steps)
    ensures DivBits(nb, d, q, k).0 == n / d ==> Val(DivBits(nb, d, q, k).1) != n % d
    decreases k
  {
    hide Fits, Subtracted, Val, Drifted, AllZero, Scaled;
    if DivBits(nb, d, q, k).0 == n / d {
      QuotientPrefix(nb, d, q, k);
      PrefixInRange(n, d, q, k, n / d);
      if k == 0 {
        DriftShows(nb, c, n - q * Scaled(d, 0), steps);
        ScaledStep(d, 0);
        DivModUnique(n, d, q, n - q * d);
      } else {
        var D, bit := Scaled(d, k - 1), Fits(nb, d, k - 1);
        ScaledStep(d, k - 1);
        NextRemainder(n, q, D);
        var c' := LostStep(nb, c, n - q * Scaled(d, k), steps, d, k - 1);
        LostStaysLost(n, d, Appended(q, bit), Subtracted(nb, d, k - 1), c', steps + 1, k - 1);
      }
    }
  }

  lemma NextRemainder(n: int, q: int, D: int)
    ensures n - q * (2 * D) - D == n - (2 * q + 1) * D
    ensures n - q * (2 * D) == n - (2 * q) * D
  {
    MulAssociates(q, 2, D);
    MulDistributes(D, 2 * q, 1);
  }

  lemma DriftShows(nb: seq<int>, c: seq<int>, r: int, steps: int)
    requires Drifted(nb, c, r, steps) && !AllZero(c)
    ensures Val(nb) != r
  {
    assert Within(c, BASE - 1);
    Balanced(c);
  }

  // ---------------------------------------------------------------- exactness

  lemma DriftStart(nb: seq<int>, d: nat, k: nat)
    requires LimbsOk(nb) && NoTopZero(nb) && Fits(nb, d, k)
    requires Val(Subtracted(nb, d, k)) != Val(nb) - Scaled(d, k)
    ensures var c := Errors(nb, d, k);
            Drifted(Subtracted(nb, d, k), c, Val(nb) - Scaled(d, k), 1) && !AllZero(c)
  {
    hide Trim, SubLimbs, Extras, Val, NoTopZero, Noless;
    var db := Divisor(d, k);
    var b, c := SubLimbs(nb, db, 0), Extras(nb, db, 0);
    ExtrasVal(nb, db, 0);
    ExtrasRange(nb, db, 0, 0);
    DifferenceRange(nb, db, 0, 0);
    TrimVal(b);
    assert Within(c, BASE - 1);
    Balanced(c);
  }

  /** What the remaining bits leave is right exactly when all of them are safe. */
  lemma {:induction false} BitsExactIff(n: nat, d: nat, q: nat, nb: seq<int>, k: nat)
    requires d > 0 && k <= MAXBITS && OnTrack(n, d, q, nb, k)
    ensures DivBits(nb, d, q, k).0 == n / d && Val(DivBits(nb, d, q, k).1) == n % d <==> SafeBelow(n, d, k)
    decreases k
  {
    hide SafeAt, Fits, Subtracted, Errors, Val, Drifted, AllZero, Scaled;
    if SafeBelow(n, d, k) {
      SafeBitsExact(n, d, q, nb, k);
    } else {
      assert k > 0;
      TrackStep(n, d, q, nb, k - 1);
      if SafeAt(n, d, k - 1) {
        BitsExactIff(n, d, Appended(q, Fits(nb, d, k - 1)), Subtracted(nb, d, k - 1), k - 1);
        if SafeBelow(n, d, k - 1) {
          assert false;
        }
      } else {
        DriftStart(nb, d, k - 1);
        LostAt(n, d, q, Val(nb), k - 1);
        LostStaysLost(n, d, 2 * q + 1, Subtracted(nb, d, k - 1), Errors(nb, d, k - 1), 1, k - 1);
      }
    }
  }

  lemma LostAt(n: int, d: int, q: int, r: int, k: nat)
    requires Partial(n, Scaled(d, k + 1), q, r)
    ensures r - Scaled(d, k) == n - (2 * q + 1) * Scaled(d, k)
  {
    ScaledStep(d, k);
    NextRemainder(n, q, Scaled(d, k));
  }

  /** The division is exact if and only if every subtraction it makes is safe. */
  lemma ExactIff(nb: seq<int>, d: nat)
    requires d > 0 && LimbsOk(nb) && NoTopZero(nb) && Val(nb) >= 0 && Bits(Val(nb), d) <= MAXBITS
    ensures DivOf(nb, d) == (Val(nb) / d, ToLimbs(Val(nb) % d)) <==> SafeDivision(Val(nb), d)
  {
    hide SafeAt, DivBits;
    var n, k := Val(nb), Bits(Val(nb), d);
    if SafeDivision(n, d) {
      SafeIsExact(nb, d);
    } else {
      OnTrackStart(nb, d);
      BitsExactIff(n, d, 0, nb, k);
      forall j: nat | j >= k ensures SafeAt(n, d, j) {
        BitsAbove(n, d, j);
        SafeAbove(n, d, j);
      }
      assert !SafeBelow(n, d, k);
      ToLimbsVal(n % d);
    }
  }

  // ---------------------------------------------------------------- divisions that are safe

  /** A bad column needs a limb BASE - 1 above the lowest one in the subtrahend
      and three limbs in the minuend. */
  lemma BadNeeds(a: seq<int>, b: seq<int>) returns (i: nat)
    requires LimbsOk(a) && NoTopZero(a) && Val(a) >= Val(b) && BadSubtraction(a, b)
    ensures 1 <= i < |b| && b[i] == BASE - 1 && |a| >= 3
  {
    i :| i < |b| && DoubleBorrowAt(a, b, 0, i);
    assert a[..0] == [] && b[..0] == [];
  }

  lemma SmallIsSafeAt(n: nat, d: nat, k: nat)
    requires d > 0 && n < BASE * BASE
    ensures SafeAt(n, d, k)
  {
    hide BadSubtraction, Scaled;
    ScaledPositive(d, k);
    var D := Scaled(d, k);
    var m := n % (2 * D);
    ModAtMost(n, 2 * D);
    if D <= m && BadSubtraction(ToLimbs(m), ToLimbs(D)) {
      ToLimbsVal(m);
      ToLimbsVal(D);
      var i := BadNeeds(ToLimbs(m), ToLimbs(D));
      ThreeLimbs(ToLimbs(m));
      assert false;
    }
  }

  lemma ModAtMost(n: nat, m: nat)
    requires m > 0
    ensures 0 <= n % m <= n
  {
    if n < m { DivModUnique(n, m, 0, n); }
  }

  lemma {:induction false} ThreeLimbs(b: seq<int>)
    requires LimbsOk(b) && NoTopZero(b) && |b| >= 3
    ensures Val(b) >= BASE * BASE
  {
    ValPositive(b[2..]);
    assert b[1..][1..] == b[2..];
    assert Val(b[1..]) == b[1] + BASE * Val(b[2..]);
  }

  /** Every division of a number of two limbs is safe. */
  lemma SmallIsSafe(n: nat, d: nat)
    requires d > 0 && n < BASE * BASE
    ensures SafeDivision(n, d)
  {
    forall k: nat ensures SafeAt(n, d, k) {
      SmallIsSafeAt(n, d, k);
    }
  }

  predicate CleanLimbs(b: seq<int>) {
    forall i :: 1 <= i < |b| ==> b[i] != BASE - 1
  }

  /** A test before the division: no multiple d * 2^k up to n has a limb BASE - 1
      above its lowest one. */
  predicate CleanScales(n: int, d: int)
    decreases n - d
  {
    d <= 0 || n < d || (CleanLimbs(ToLimbs(d)) && CleanScales(n, 2 * d))
  }

  lemma {:induction false} CleanAt(n: nat, d: nat, k: nat)
    requires d > 0 && CleanScales(n, d) && Scaled(d, k) <= n
    ensures CleanLimbs(ToLimbs(Scaled(d, k)))
    decreases k
  {
    ScaledStep(d, 0);
    if k > 0 {
      ScaledMonotone(d, k);
      ScaledTwice(d, k - 1);
      CleanAt(n, 2 * d, k - 1);
    }
  }

  /** A division whose divisor passes the test is safe. */
  lemma CleanIsSafe(n: nat, d: nat)
    requires d > 0 && CleanScales(n, d)
    ensures SafeDivision(n, d)
  {
    forall k: nat ensures SafeAt(n, d, k) {
      CleanIsSafeAt(n, d, k);
    }
  }

  lemma CleanIsSafeAt(n: nat, d: nat, k: nat)
    requires d > 0 && CleanScales(n, d)
    ensures SafeAt(n, d, k)
  {
    hide BadSubtraction, Scaled, CleanScales;
    ScaledPositive(d, k);
    var D := Scaled(d, k);
    var m := n % (2 * D);
    ModAtMost(n, 2 * D);
    if D <= m && BadSubtraction(ToLimbs(m), ToLimbs(D)) {
      ToLimbsVal(m);
      ToLimbsVal(D);
      CleanAt(n, d, k);
      var i := BadNeeds(ToLimbs(m), ToLimbs(D));
      assert false;
    }
  }

  /** What passes the test for n passes it for every smaller number. */
  lemma {:induction false} CleanBelow(n: int, m: int, d: int)
    requires m <= n && CleanScales(n, d)
    ensures CleanScales(m, d)
    decreases n - d
  {
    if d > 0 && m >= d { CleanBelow(n, m, 2 * d); }
  }

  // ---------------------------------------------------------------- a division that is not

  /** 10^36 by 10^36 - 10^18 + 1: the quotient 1 is right, and the remainder comes out
      as three limbs, greater than the dividend, where 10^18 - 1 is right. */
  lemma WrongRemainder()
    ensures var n, d := BASE * BASE, BASE * BASE - BASE + 1;
            && ToLimbs(n) == [0, 0, 1] && !SafeDivision(n, d)
            && n / d == 1 && n % d == BASE - 1
            && DivOf(ToLimbs(n), d) == (1, [BASE - 1, 0, BASE - 1])
            && Val([BASE - 1, 0, BASE - 1]) > n
  {
    var n, d := BASE * BASE, BASE * BASE - BASE + 1;
    var a, b, r := [0, 0, 1], [1, BASE - 1], [BASE - 1, 0, BASE - 1];
    DoubleBorrowWitness();
    WitnessValues();
    ValUnique(a);
    ValUnique(b);
    DivModUnique(n, d, 1, BASE - 1);
    ScaledStep(d, 0);
    BitsUnique(n, d, 1);
    assert Divisor(d, 0) == b;
    assert Subtracted(a, d, 0) == r;
    assert DivBits(a, d, 0, 1) == DivBits(r, d, 1, 0);
    ExactIff(a, d);
  }

  lemma WitnessValues()
    ensures Val([0, 0, 1]) == BASE * BASE && Val([1, BASE - 1]) == BASE * BASE - BASE + 1
    ensures Val([BASE - 1, 0, BASE - 1]) == BASE - 1 + BASE * (BASE * (BASE - 1))
  {
    assert [0, 0, 1][1..] == [0, 1] && [0, 1][1..] == [1] && [1][1..] == [];
    assert [1, BASE - 1][1..] == [BASE - 1] && [BASE - 1][1..] == [];
    assert [BASE - 1, 0, BASE - 1][1..] == [0, BASE - 1] && [0, BASE - 1][1..] == [BASE - 1];
    assert Val([1]) == 1 + BASE * Val([]) == 1;
    assert Val([0, 1]) == BASE;
    assert Val([BASE - 1]) == BASE - 1;
    assert Val([0, BASE - 1]) == BASE * (BASE - 1);
  }

  // ---------------------------------------------------------------- limbs in range

  /** Limbs that the in-place loops can still subtract from. */
  ghost predicate Loose(b: seq<int>) {
    LimbsFrom(b, BASE / 2)
  }

  /** The running remainder fits its limbs down to the last bit. */
  ghost predicate DivFits(nb: seq<int>, d: nat, k: nat)
    decreases k
  {
    Loose(nb) && (k > 0 ==> DivFits(Subtracted(nb, d, k - 1), d, k - 1))
  }

  lemma {:induction false} BoundedFits(nb: seq<int>, d: nat, k: nat, steps: nat)
    requires LimbsFrom(nb, steps) && steps + k <= MAXBITS
    ensures DivFits(nb, d, k)
    decreases k
  {
    hide Noless, Trim, SubLimbs;
    if k > 0 {
      if Fits(nb, d, k - 1) {
        DifferenceRange(nb, Divisor(d, k - 1), 0, steps);
      }
      BoundedFits(Subtracted(nb, d, k - 1), d, k - 1, steps + 1);
    }
  }

  lemma {:induction false} SafeFits(n: nat, d: nat, q: nat, nb: seq<int>, k: nat)
    requires d > 0 && OnTrack(n, d, q, nb, k) && SafeBelow(n, d, k)
    ensures DivFits(nb, d, k)
    decreases k
  {
    hide SafeAt, Fits, Subtracted;
    if k > 0 {
      assert SafeAt(n, d, k - 1);
      TrackStep(n, d, q, nb, k - 1);
      SafeFits(n, d, Appended(q, Fits(nb, d, k - 1)), Subtracted(nb, d, k - 1), k - 1);
    }
  }

  /** A division the code can carry out: safe, or of at most MAXBITS quotient bits. */
  ghost predicate Bounded(n: nat, d: nat)
    requires d > 0
  {
    SafeDivision(n, d) || Bits(n, d) <= MAXBITS
  }

  lemma BoundedDivision(nb: seq<int>, d: nat)
    requires d > 0 && LimbsOk(nb) && NoTopZero(nb) && Val(nb) >= 0 && Bounded(Val(nb), d)
    ensures DivFits(nb, d, Bits(Val(nb), d))
  {
    hide SafeAt, DivFits;
    var n, k := Val(nb), Bits(Val(nb), d);
    if k <= MAXBITS {
      BoundedFits(nb, d, k, 0);
    } else {
      OnTrackStart(nb, d);
      assert SafeBelow(n, d, k);
      SafeFits(n, d, 0, nb, k);
    }
  }

  lemma {:induction false} BitsMonotone(n: int, m: int, d: int)
    requires m <= n
    ensures Bits(m, d) <= Bits(n, d)
    decreases n - d
  {
    if d > 0 && d <= m { BitsMonotone(n, m, 2 * d); }
  }

  /** However wrong, the quotient by a divisor of at least 2 is less than the dividend. */
  lemma QuotientShrinks(nb: seq<int>, d: nat)
    requires d >= 2 && Val(nb) > 0
    ensures DivOf(nb, d).0 < Val(nb)
  {
    hide DivBits;
    var k := Bits(Val(nb), d);
    QuotientPrefix(nb, d, 0, k);
    ScaledStep(1, 0);
    if k > 0 {
      ScaledStep(1, k - 1);
      BitsReached(Val(nb), d);
      ScaledOfTwo(d, k - 1);
    }
  }

  lemma {:induction false} BitsReached(n: int, d: int)
    requires d > 0 && Bits(n, d) > 0
    ensures Scaled(d, Bits(n, d) - 1) <= n
    decreases n - d
  {
    ScaledStep(d, 0);
    if Bits(n, 2 * d) > 0 {
      BitsReached(n, 2 * d);
      ScaledTwice(d, Bits(n, 2 * d) - 1);
    }
  }

  lemma ScaledOfTwo(d: int, k: nat)
    requires d >= 2
    ensures 2 * Scaled(1, k) <= Scaled(d, k)
  {
    ScaledOrder(2, d, k);
  }

  // ---------------------------------------------------------------- both operands negative

  /** The magnitudes are divided as above until the remainder is zero, which is
      positive. From then on the negative divisor is less than the remainder, and
      subtracting it adds its magnitude: every bit to come is 1. */
  function Refill(r: nat, d: nat, q: nat, k: nat): (nat, nat)
    decreases k
  {
    if k == 0 then (q, r) else Refill(r + Scaled(d, k - 1), d, 2 * q + 1, k - 1)
  }

  function NegBits(nb: seq<int>, d: nat, q: nat, k: nat): (nat, seq<int>)
    decreases k
  {
    if k == 0 then (q, nb)
    else if nb == [] then var t := Refill(0, d, q, k); (t.0, ToLimbs(t.1))
    else NegBits(Subtracted(nb, d, k - 1), d, Appended(q, Fits(nb, d, k - 1)), k - 1)
  }

  /** Dividing the negative number with magnitude nb by -d. */
  function NegDivOf(nb: seq<int>, d: nat): (nat, seq<int>) {
    NegBits(nb, d, 0, Bits(Val(nb), d))
  }

  lemma {:induction false} RefillIs(r: nat, d: nat, q: nat, k: nat)
    ensures Refill(r, d, q, k).0 == Scaled(q + 1, k) - 1
    ensures Refill(r, d, q, k).1 == r + Scaled(d, k) - d
    decreases k
  {
    ScaledStep(q + 1, 0);
    ScaledStep(d, 0);
    if k > 0 {
      RefillIs(r + Scaled(d, k - 1), d, 2 * q + 1, k - 1);
      ScaledStep(d, k - 1);
      ScaledTwice(q + 1, k - 1);
    }
  }

  /** Quotient and remainder of the division of -n by -d: right unless d divides
      n an even number of times. */
  ghost predicate NegOutcome(n: nat, d: nat, Q: nat, R: int)
    requires d > 0
  {
    if n % d != 0 then Q == n / d && R == n % d
    else Q * d - R == n && 0 <= R && (R < d <==> R == 0) && (R == 0 <==> n / d % 2 == 1)
  }

  lemma {:induction false} NegBitsOutcome(n: nat, d: nat, q: nat, nb: seq<int>, k: nat)
    requires d > 0 && OnTrack(n, d, q, nb, k) && SafeBelow(n, d, k)
    requires nb != []
    ensures NegOutcome(n, d, NegBits(nb, d, q, k).0, Val(NegBits(nb, d, q, k).1))
    decreases k
  {
    hide SafeAt, Fits, NegOutcome;
    if k == 0 {
      PartialEnd(n, d, q, Val(nb));
      ValPositive(nb);
      Inexact(n, d, q, Val(nb));
    } else {
      assert SafeAt(n, d, k - 1);
      TrackStep(n, d, q, nb, k - 1);
      var nb', q' := Subtracted(nb, d, k - 1), Appended(q, Fits(nb, d, k - 1));
      if nb' != [] {
        NegBitsOutcome(n, d, q', nb', k - 1);
      } else {
        assert Fits(nb, d, k - 1) by { assert nb' != nb; }
        Refilled(n, d, q', k - 1);
        RefillStart(d, q', k - 1);
      }
    }
  }

  lemma RefillStart(d: nat, q: nat, k: nat)
    requires d > 0
    ensures NegBits([], d, q, k) == (Refill(0, d, q, k).0, ToLimbs(Refill(0, d, q, k).1))
    ensures Val(ToLimbs(Refill(0, d, q, k).1)) == Refill(0, d, q, k).1
  {
    ToLimbsVal(Refill(0, d, q, k).1);
  }

  lemma Inexact(n: nat, d: nat, q: nat, r: int)
    requires d > 0 && q == n / d && r == n % d && r > 0
    ensures NegOutcome(n, d, q, r)
  {
  }

  /** The remainder has become zero with k bits to come. */
  lemma Refilled(n: nat, d: nat, q: nat, k: nat)
    requires d > 0 && Partial(n, Scaled(d, k), q, 0) && q % 2 == 1
    ensures NegOutcome(n, d, Refill(0, d, q, k).0, Refill(0, d, q, k).1)
  {
    RefillIs(0, d, q, k);
    var p := Pow(2, k);
    PowPositive(2, k);
    QuotientOfMultiple(n, d, q, p);
    RefilledProduct(n, d, q, p);
    if k == 0 {
      PowZero(2);
    } else {
      EvenPower(q, Pow(2, k - 1));
      PowPositive(2, k - 1);
      RemainderLarge(d, p);
    }
  }

  lemma QuotientOfMultiple(n: int, d: int, q: int, p: int)
    requires d > 0 && q * (d * p) == n
    ensures n / d == q * p && n % d == 0
  {
    MulAssociates(d, q, p);
    MulAssociates(q, d, p);
    MulCommutes(d, q);
    DivModUnique(n, d, q * p, 0);
  }

  lemma RefilledProduct(n: int, d: int, q: int, p: int)
    requires q * (d * p) == n
    ensures ((q + 1) * p - 1) * d - (d * p - d) == n
  {
    MulDistributes(p, q, 1);
    MulDistributes(d, (q + 1) * p, -1);
    MulDistributes(d, q * p, p);
    MulAssociates(q, d, p);
    MulAssociates(d, q, p);
    MulCommutes(d, q);
    MulCommutes(d, p);
  }

  lemma EvenPower(q: int, h: int)
    ensures q * (2 * h) % 2 == 0
  {
    MulAssociates(q, 2, h);
    MulAssociates(2, q, h);
    ModMultiple(q * h, 2);
  }

  lemma RemainderLarge(d: int, p: int)
    requires d > 0 && p >= 2
    ensures d * p - d >= d
  {
    MulDistributes(d, p - 1, 1);
    MulAtLeast(d, p - 1);
  }

  /** A safe division of two negative numbers. */
  lemma NegDivision(nb: seq<int>, d: nat)
    requires d > 0 && LimbsOk(nb) && NoTopZero(nb) && nb != [] && Val(nb) >= 0 && SafeDivision(Val(nb), d)
    ensures NegOutcome(Val(nb), d, NegDivOf(nb, d).0, Val(NegDivOf(nb, d).1))
  {
    hide SafeAt, NegBits, NegOutcome;
    OnTrackStart(nb, d);
    var n, k := Val(nb), Bits(Val(nb), d);
    assert SafeBelow(n, d, k);
    NegBitsOutcome(n, d, 0, nb, k);
  }
}
