/** The arbitrary-precision integer of misc/intX_t.ipp: a sign and a vector of
    limbs, with the loops that rewrite the vector in place. Methods that take a
    result object accept any aliasing between it and the operands. */
module IntXModule {
  import opened NumberTheory
  import opened Limbs
  import opened LimbDivision

  datatype Sign = POSITIVE | NEGATIVE

  predicate InInt64(x: int) {
    -0x8000_0000_0000_0000 <= x < 0x8000_0000_0000_0000
  }

  /** An intermediate result that must fit the limb type. */
  function I64(x: int): int
    requires InInt64(x)
  {
    x
  }

  function Flip(s: Sign): Sign {
    if s == POSITIVE then NEGATIVE else POSITIVE
  }

  function Signed(s: Sign, n: int): int {
    if s == POSITIVE then n else -n
  }

  /** std::vector::resize. */
  function Resize(b: seq<int>, n: nat): (r: seq<int>)
    ensures |r| == n
    ensures forall k :: 0 <= k < n ==> r[k] == if k < |b| then b[k] else 0
  {
    if n <= |b| then b[..n] else b + seq(n - |b|, _ => 0)
  }

  /** What is left of b from column i on, empty past the end. */
  function From(b: seq<int>, i: nat): seq<int> {
    if i <= |b| then b[i..] else []
  }

  /** The limb that stays in a column when the carry has left it. */
  function Carried(t: int): int {
    t - t / BASE * BASE
  }

  /** The columns of now from i on are those of b, and zero past its end. */
  ghost predicate Unread(now: seq<int>, b: seq<int>, i: nat) {
    forall k :: i <= k < |now| ==> now[k] == if k < |b| then b[k] else 0
  }

  /** Reading column i, and storing there through an alias or elsewhere. */
  lemma UnreadStep(now: seq<int>, b: seq<int>, i: nat, d: int)
    requires i < |now| && Unread(now, b, i)
    ensures now[i] == if i < |b| then b[i] else 0
    ensures Unread(now, b, i + 1) && Unread(now[i := d], b, i + 1)
  {
  }

  lemma UnreadStart(b: seq<int>, n: nat)
    ensures Unread(b, b, 0) && Unread(Resize(b, n), b, 0)
  {
  }

  /** The first i columns of r hold the sum of l and s so far. */
  ghost predicate AddDone(l: seq<int>, s: seq<int>, r: seq<int>, i: nat, carry: int)
    requires |s| <= |l| == |r| && i <= |l|
  {
    r[..i] + AddLimbs(l[i..], From(s, i), carry) == AddLimbs(l, s, 0)
  }

  lemma AddStart(l: seq<int>, s: seq<int>, r: seq<int>)
    requires |s| <= |l| == |r|
    ensures AddDone(l, s, r, 0, 0)
  {
    assert l[0..] == l && s[0..] == s;
  }

  lemma AddStep(l: seq<int>, s: seq<int>, r: seq<int>, i: nat, carry: int, t: int)
    requires |s| <= |l| == |r| && i < |l| && AddDone(l, s, r, i, carry)
    requires t == l[i] + (if i < |s| then s[i] else 0) + carry
    ensures AddDone(l, s, r[i := Carried(t)], i + 1, t / BASE)
  {
    hide AddLimbs, From, Carried;
    FromStep(l, i);
    FromStep(s, i);
    AddLimbsStep(From(l, i), From(s, i), carry);
    FromOf(l, i);
    FromOf(l, i + 1);
    StoreColumn(r, i, Carried(t), AddLimbs(l[i + 1..], From(s, i + 1), t / BASE));
  }

  lemma AddLimbsStep(l: seq<int>, s: seq<int>, carry: int)
    requires |s| <= |l| && |l| > 0
    ensures var t := l[0] + First(s) + carry;
            AddLimbs(l, s, carry) == [Carried(t)] + AddLimbs(l[1..], Rest(s), t / BASE)
  {
  }

  lemma SubLimbsStep(l: seq<int>, s: seq<int>, borrow: int)
    requires |s| <= |l| && |l| > 0
    ensures var t := l[0] - First(s) - borrow;
            SubLimbs(l, s, borrow) == [Column(t)] + SubLimbs(l[1..], Rest(s), NextBorrow(t))
  {
  }

  lemma FromOf(b: seq<int>, i: nat)
    requires i <= |b|
    ensures From(b, i) == b[i..]
  {
  }

  lemma FromStep(b: seq<int>, i: nat)
    ensures Rest(From(b, i)) == From(b, i + 1)
    ensures First(From(b, i)) == if i < |b| then b[i] else 0
    ensures |From(b, i)| == if i <= |b| then |b| - i else 0
  {
  }

  lemma StoreColumn(r: seq<int>, i: nat, d: int, rest: seq<int>)
    requires i < |r|
    ensures r[i := d][..i + 1] + rest == r[..i] + ([d] + rest)
  {
    assert r[i := d][..i + 1] == r[..i] + [d];
  }

  lemma AddFinish(l: seq<int>, s: seq<int>, r: seq<int>, carry: int)
    requires |s| <= |l| == |r| && AddDone(l, s, r, |l|, carry)
    ensures (if carry > 0 then r + [carry] else r) == AddLimbs(l, s, 0)
  {
    assert r[..|l|] == r;
  }

  ghost predicate SubDone(l: seq<int>, s: seq<int>, r: seq<int>, i: nat, borrow: int)
    requires |s| <= |l| == |r| && i <= |l|
  {
    r[..i] + SubLimbs(l[i..], From(s, i), borrow) == SubLimbs(l, s, 0)
  }

  lemma SubStart(l: seq<int>, s: seq<int>, r: seq<int>)
    requires |s| <= |l| == |r|
    ensures SubDone(l, s, r, 0, 0)
  {
    assert l[0..] == l && s[0..] == s;
  }

  lemma SubStep(l: seq<int>, s: seq<int>, r: seq<int>, i: nat, borrow: int, t: int)
    requires |s| <= |l| == |r| && i < |l| && SubDone(l, s, r, i, borrow)
    requires t == l[i] - (if i < |s| then s[i] else 0) - borrow
    ensures SubDone(l, s, r[i := Column(t)], i + 1, NextBorrow(t))
  {
    hide SubLimbs, From, Column, NextBorrow;
    FromStep(l, i);
    FromStep(s, i);
    SubLimbsStep(From(l, i), From(s, i), borrow);
    FromOf(l, i);
    FromOf(l, i + 1);
    StoreColumn(r, i, Column(t), SubLimbs(l[i + 1..], From(s, i + 1), NextBorrow(t)));
  }

  lemma SubFinish(l: seq<int>, s: seq<int>, r: seq<int>, borrow: int)
    requires |s| <= |l| == |r| && SubDone(l, s, r, |l|, borrow)
    ensures r == SubLimbs(l, s, 0)
  {
    assert r[..|l|] == r;
  }

  ghost predicate DoubleDone(b: seq<int>, r: seq<int>, i: nat, carry: int)
    requires |b| == |r| && i <= |b|
  {
    r[..i] + Double(b[i..], carry) == Double(b, 0)
  }

  lemma DoubleStart(b: seq<int>)
    ensures DoubleDone(b, b, 0, 0)
  {
    assert b[0..] == b;
  }

  lemma DoubleStep(b: seq<int>, r: seq<int>, i: nat, carry: int, t: int)
    requires |b| == |r| && i < |b| && DoubleDone(b, r, i, carry) && t == b[i] * 2 + carry
    ensures DoubleDone(b, r[i := t - t / BASE * BASE], i + 1, t / BASE)
  {
    var d := t - t / BASE * BASE;
    assert b[i..][1..] == b[i + 1..];
    assert Double(b[i..], carry) == [d] + Double(b[i + 1..], t / BASE);
    assert r[i := d][..i + 1] == r[..i] + [d];
  }

  lemma DoubleFinish(b: seq<int>, r: seq<int>, carry: int)
    requires |b| == |r| && DoubleDone(b, r, |b|, carry)
    ensures (if carry > 0 then r + [carry] else r) == Double(b, 0)
  {
    assert r[..|b|] == r;
  }

  lemma DoublePower(b: seq<int>, x: nat)
    requires LimbsOk(b) && NoTopZero(b) && x > 0
    ensures LimbsOk(Double(b, 0)) && NoTopZero(Double(b, 0))
    ensures Scaled(Val(Double(b, 0)), x - 1) == Scaled(Val(b), x)
  {
    DoubleVal(b, 0);
    MulAssociates(Val(b), 2, Pow(2, x - 1));
  }

  /** The floor of d / 2^k. */
  function Unscaled(d: int, k: nat): int {
    PowPositive(2, k);
    d / Pow(2, k)
  }

  lemma UnscaledStep(d: int, k: nat)
    ensures Unscaled(d, k + 1) == Unscaled(d, k) / 2 && Unscaled(d, 0) == d && Unscaled(d, 1) == d / 2
  {
    PowTwo();
    PowPositive(2, k);
    QuotientOfQuotient(d, Pow(2, k));
  }

  lemma QuotientOfQuotient(n: int, p: int)
    requires p > 0
    ensures n / p / 2 == n / (2 * p)
  {
    var q, r := n / p, n % p;
    MulAssociates(p, 2, q / 2);
    MulDistributes(p, 2 * (q / 2), q % 2);
    DivModUnique(n, 2 * p, q / 2, p * (q % 2) + r);
  }

  /** r plus what is left of the product a*b makes the whole product A*B. */
  predicate Accumulated(r: int, a: int, b: int, A: int, B: int) {
    r + a * b == A * B
  }

  lemma AccumulatedStart(A: int, B: int)
    ensures Accumulated(0, A, B, A, B)
  {
  }

  lemma AccumulatedEnd(r: int, a: int, A: int, B: int)
    requires Accumulated(r, a, 0, A, B)
    ensures r == A * B
  {
  }

  lemma AccumulatedStep(r: int, a: int, b: int, A: int, B: int)
    requires Accumulated(r, a, b, A, B)
    ensures Accumulated(if b % 2 != 0 then r + a else r, 2 * a, b / 2, A, B)
  {
    var h := b / 2;
    assert b == 2 * h + b % 2;
    MulDistributes(a, 2 * h, b % 2);
    MulAssociates(a, 2, h);
  }

  // ---------------------------------------------------------------- signed division

  /** The divisions that return: the dividend is zero, or the divisor is not and is
      positive if the dividend is. A negative divisor stays less than a positive
      dividend however often it is doubled. */
  predicate Divisible(ns: Sign, nb: seq<int>, ds: Sign, db: seq<int>) {
    (nb == [] && ns == POSITIVE) || (db != [] && !(ns == POSITIVE && ds == NEGATIVE))
  }

  /** The quotient that absDiv stores and the limbs of the remainder it returns,
      for any signs of the operands. */
  function Division(ns: Sign, nb: seq<int>, ds: Sign, d: nat): (nat, seq<int>) {
    if nb == [] && ns == POSITIVE then (0, [])
    else if ns != ds then (0, nb)
    else if ns == POSITIVE then DivOf(nb, d)
    else NegDivOf(nb, d)
  }

  /** k bits are to come from the quotient q and the remainder with sign ns and
      limbs nb, and then final is reached. */
  ghost predicate Ahead(ds: Sign, ns: Sign, nb: seq<int>, d: nat, q: int, k: int, final: (nat, seq<int>)) {
    && NoTopZero(nb) && q >= 0 && k >= 0
    && if k == 0 then final == (q, nb)
       else if ds == POSITIVE then ns == POSITIVE && DivFits(nb, d, k) && final == DivBits(nb, d, q, k)
       else if ns == NEGATIVE then nb != [] && DivFits(nb, d, k) && final == NegBits(nb, d, q, k)
       else LimbsOk(nb) && Val(nb) >= 0 && Refilling(nb, d, q, k, final)
  }

  ghost predicate Refilling(nb: seq<int>, d: nat, q: nat, k: nat, final: (nat, seq<int>))
    requires Val(nb) >= 0
  {
    var t := Refill(Val(nb), d, q, k);
    final == (t.0, ToLimbs(t.1))
  }

  /** A subtraction of magnitudes with k bits to come after it. */
  lemma AheadSubtract(ds: Sign, nb: seq<int>, d: nat, q: nat, k: nat, final: (nat, seq<int>), ns: Sign)
    requires d > 0 && Ahead(ds, ds, nb, d, q, k + 1, final) && Fits(nb, d, k)
    requires var r := Subtracted(nb, d, k); ns == if r == [] then POSITIVE else ds
    ensures Loose(nb)
    ensures Ahead(ds, ns, Subtracted(nb, d, k), d, 2 * q + 1, k, final)
  {
    hide Fits, Subtracted, Refill;
    var r := Subtracted(nb, d, k);
    assert DivFits(r, d, k);
    if r == [] && ds == NEGATIVE {
      RefillAtOnce(d, 2 * q + 1, k, final);
    }
  }

  lemma RefillAtOnce(d: nat, q: nat, k: nat, final: (nat, seq<int>))
    requires final == NegBits([], d, q, k)
    ensures Ahead(NEGATIVE, POSITIVE, [], d, q, k, final)
  {
  }

  lemma AheadKeep(ds: Sign, nb: seq<int>, d: nat, q: nat, k: nat, final: (nat, seq<int>))
    requires d > 0 && Ahead(ds, ds, nb, d, q, k + 1, final) && !Fits(nb, d, k)
    ensures Ahead(ds, ds, nb, d, 2 * q, k, final)
  {
    hide Fits, Refill, Divisor;
    assert Subtracted(nb, d, k) == nb && Appended(q, Fits(nb, d, k)) == 2 * q;
    assert DivFits(nb, d, k);
    if ds == POSITIVE {
      assert final == DivBits(nb, d, 2 * q, k);
    } else {
      assert final == NegBits(nb, d, 2 * q, k);
    }
  }

  /** The remainder has changed its sign: the divisor is added. */
  lemma AheadAdd(nb: seq<int>, d: nat, q: nat, k: nat, final: (nat, seq<int>), r: seq<int>)
    requires Ahead(NEGATIVE, POSITIVE, nb, d, q, k + 1, final)
    requires LimbsOk(r) && NoTopZero(r) && Val(r) == Val(nb) + Scaled(d, k)
    ensures Ahead(NEGATIVE, POSITIVE, r, d, 2 * q + 1, k, final)
  {
    ValUnique(r);
  }

  /** What operator/ and operator% make of safe operands, -7 / 2 and -4 / -2 included:
      the dividend is quotient times divisor plus remainder exactly when the dividend is
      not negative or both are negative and the division leaves nothing. */
  lemma DivisionLawIff(ns: Sign, nb: seq<int>, ds: Sign, d: nat)
    requires LimbsOk(nb) && NoTopZero(nb) && nb != [] && d > 0 && !(ns == POSITIVE && ds == NEGATIVE)
    requires Val(nb) >= 0 && (ns == ds ==> SafeDivision(Val(nb), d))
    ensures var (q, r) := Division(ns, nb, ds, d);
            Signed(ns, Val(nb)) == Signed(if ns == ds then POSITIVE else NEGATIVE, q) * Signed(ds, d) + Val(r)
            <==> ns == POSITIVE || (ds == NEGATIVE && Val(nb) % d == 0)
  {
    hide SafeDivision, DivOf, NegDivOf;
    ValPositive(nb);
    var n := Val(nb);
    var (q, r) := Division(ns, nb, ds, d);
    SignedProduct(if ns == ds then POSITIVE else NEGATIVE, ds, q, d);
    if ns == POSITIVE {
      SafeIsExact(nb, d);
      ToLimbsVal(n % d);
      QuotientProduct(n, d);
    } else if ds == NEGATIVE {
      NegDivision(nb, d);
      QuotientProduct(n, d);
    }
  }

  lemma QuotientProduct(n: int, d: int)
    requires d > 0
    ensures n == n / d * d + n % d && 0 <= n % d < d
  {
    MulCommutes(n / d, d);
  }

  /** Quotient and remainder are those of the magnitudes unless a negative dividend that
      is no less than the divisor in magnitude meets a positive divisor, or two negative
      numbers divide evenly with an even quotient. */
  lemma DivisionMagnitudesIff(ns: Sign, nb: seq<int>, ds: Sign, d: nat)
    requires LimbsOk(nb) && NoTopZero(nb) && nb != [] && d > 0 && !(ns == POSITIVE && ds == NEGATIVE)
    requires Val(nb) >= 0 && (ns == ds ==> SafeDivision(Val(nb), d))
    ensures var (q, r) := Division(ns, nb, ds, d);
            q == Val(nb) / d && Val(r) == Val(nb) % d
            <==> if ns != ds then Val(nb) < d
                 else ns == POSITIVE || Val(nb) % d != 0 || Val(nb) / d % 2 == 1
  {
    hide SafeDivision, DivOf, NegDivOf;
    var n := Val(nb);
    QuotientProduct(n, d);
    if ns != ds {
      if n < d { DivModUnique(n, d, 0, n); }
    } else if ns == POSITIVE {
      SafeIsExact(nb, d);
      ToLimbsVal(n % d);
    } else {
      NegDivision(nb, d);
      var (q, r) := Division(ns, nb, ds, d);
      if n % d == 0 && q == n / d && Val(r) == 0 {
        assert n / d % 2 == 1;
      }
      if n % d == 0 && Val(r) == 0 {
        SameQuotient(n, d, q);
      }
    }
  }

  lemma SameQuotient(n: int, d: int, q: int)
    requires d > 0 && q * d - 0 == n
    ensures n / d == q
  {
    MulCommutes(q, d);
    DivModUnique(n, d, q, 0);
  }

  lemma SignedProduct(s: Sign, t: Sign, a: int, b: int)
    ensures Signed(s, a) * Signed(t, b) == Signed(if s == t then POSITIVE else NEGATIVE, a * b)
  {
  }

  lemma EqualValues(s: Sign, a: seq<int>, t: Sign, b: seq<int>)
    requires LimbsOk(a) && NoTopZero(a) && LimbsOk(b) && NoTopZero(b)
    ensures Signed(s, Val(a)) == Signed(t, Val(b)) <==> a == b && (s == t || a == [])
  {
    ValUnique(a);
    ValUnique(b);
    if a != [] { ValPositive(a); }
    if b != [] { ValPositive(b); }
  }

  class IntX {
    var sign: Sign
    var body: seq<int>

    /** Limbs in range and no zero limb on top. A zero may carry either sign. */
    ghost predicate Wf()
      reads this
    {
      LimbsOk(body) && NoTopZero(body)
    }

    /** Wf, and zero is positive. */
    ghost predicate Canonical()
      reads this
    {
      Wf() && (body == [] ==> sign == POSITIVE)
    }

    ghost function Abs(): (n: int)
      reads this
      ensures LimbsOk(body) ==> n >= 0
      ensures Wf() && body != [] ==> n > 0
    {
      if LimbsOk(body) then
        ValNat(body);
        if NoTopZero(body) && body != [] then ValPositive(body); Val(body) else Val(body)
      else Val(body)
    }

    ghost function Value(): int
      reads this
    {
      Signed(sign, Val(body))
    }

    constructor ()
      ensures Canonical() && Value() == 0 && body == []
    {
      sign := POSITIVE;
      body := [];
    }

    constructor Copy(x: IntX)
      ensures sign == x.sign && body == x.body
    {
      sign := x.sign;
      body := x.body;
    }

    /** From any signed or unsigned integer of up to 64 bits. */
    constructor FromInteger(x: int)
      requires -0x8000_0000_0000_0000 <= x < 0x1_0000_0000_0000_0000
      ensures Canonical() && Value() == x
      ensures sign == if x >= 0 then POSITIVE else NEGATIVE
    {
      sign := if x >= 0 then POSITIVE else NEGATIVE;
      var xx := if x > 0 then x else -x;
      var b: seq<int> := [];
      if x != 0 {
        if BASE <= xx {
          var div := xx / BASE;
          b := [xx - div * BASE, div];
          assert b[1..] == [div] && [div][1..] == [];
          assert Val([div]) == div;
        } else {
          b := [xx];
          assert b[1..] == [];
        }
      }
      assert Val(b) == xx;
      body := b;
    }

    // -------------------------------------------------------------- magnitudes

    static method EraseTopZero(result: IntX)
      modifies result
      ensures result.body == Trim(old(result.body))
      ensures result.sign == if result.body == [] then POSITIVE else old(result.sign)
    {
      while |result.body| > 0
        invariant Trim(result.body) == Trim(old(result.body))
        invariant result.sign == old(result.sign)
        decreases |result.body|
      {
        if result.body[|result.body| - 1] == 0 {
          result.body := result.body[..|result.body| - 1];
        } else {
          break;
        }
      }
      if |result.body| == 0 {
        result.sign := POSITIVE;
      }
    }

    /** The magnitude of l is no less than the magnitude of s: the limb vectors
        compared from the top, whatever the limbs are. */
    static method AbsNoless(l: IntX, s: IntX) returns (r: bool)
      ensures r <==> Noless(l.body, s.body)
      ensures l.Wf() && s.Wf() ==> (r <==> l.Abs() >= s.Abs())
      ensures r ==> |s.body| <= |l.body|
      ensures !r ==> |l.body| <= |s.body|
    {
      NolessOfWf(l, s);
      if |l.body| < |s.body| {
        return false;
      } else if |l.body| > |s.body| {
        return true;
      }
      var i := |l.body|;
      while i > 0
        invariant 0 <= i <= |l.body|
        invariant l.body[i..] == s.body[i..]
      {
        i := i - 1;
        if l.body[i] < s.body[i] {
          LexAt(l.body, s.body, i);
          return false;
        } else if l.body[i] > s.body[i] {
          LexAt(l.body, s.body, i);
          return true;
        }
      }
      assert l.body == l.body[0..] == s.body[0..] == s.body;
      LexRefl(l.body);
      return true;
    }

    static lemma NolessOfWf(l: IntX, s: IntX)
      ensures l.Wf() && s.Wf() ==> (Noless(l.body, s.body) <==> l.Abs() >= s.Abs())
    {
      if l.Wf() && s.Wf() { NolessIff(l.body, s.body); }
    }

    /** The body that both loops of AbsAdd share. */
    static method StoreSum(result: IntX, i: nat, t: int) returns (overflow: int)
      requires i < |result.body| && 0 <= t < 2 * BASE
      modifies result`body
      ensures result.body == old(result.body)[i := Carried(t)]
      ensures overflow == t / BASE && 0 <= overflow <= 1
    {
      overflow := t / BASE;
      result.body := result.body[i := I64(t - overflow * BASE)];
    }

    static method AbsAdd(result: IntX, larger: IntX, smaller: IntX)
      requires larger.Wf() && smaller.Wf() && |smaller.body| <= |larger.body|
      modifies result`body
      ensures result.body == AddLimbs(old(larger.body), old(smaller.body), 0)
    {
      hide AddDone, AddLimbs, Unread, Carried, Val;
      ghost var l, s := larger.body, smaller.body;
      result.body := Resize(result.body, |larger.body|);
      var overflow := 0;
      var i := 0;
      AddStart(l, s, result.body);
      UnreadStart(l, |l|);
      UnreadStart(s, |l|);
      while i < |smaller.body|
        invariant |result.body| == |larger.body| == |l| && 0 <= i <= |smaller.body| <= |l|
        invariant |smaller.body| == |s| || smaller == result
        invariant Unread(larger.body, l, i) && Unread(smaller.body, s, i)
        invariant 0 <= overflow <= 1 && AddDone(l, s, result.body, i, overflow)
      {
        UnreadStep(larger.body, l, i, Carried(larger.body[i] + smaller.body[i] + overflow));
        UnreadStep(smaller.body, s, i, Carried(larger.body[i] + smaller.body[i] + overflow));
        var t := I64(larger.body[i] + smaller.body[i] + overflow);
        AddStep(l, s, result.body, i, overflow, t);
        overflow := StoreSum(result, i, t);
        i := i + 1;
      }
      while i < |larger.body|
        invariant |result.body| == |larger.body| == |l| && |s| <= i <= |l|
        invariant Unread(larger.body, l, i)
        invariant 0 <= overflow <= 1 && AddDone(l, s, result.body, i, overflow)
      {
        UnreadStep(larger.body, l, i, Carried(larger.body[i] + overflow));
        var t := I64(larger.body[i] + overflow);
        AddStep(l, s, result.body, i, overflow, t);
        overflow := StoreSum(result, i, t);
        i := i + 1;
      }
      AddFinish(l, s, result.body, overflow);
      if overflow > 0 {
        result.body := result.body + [overflow];
      }
    }

    /** The body that both loops of AbsSub share. */
    static method StoreDifference(result: IntX, i: nat, t: int) returns (underflow: int)
      requires i < |result.body| && -2 * BASE < t < 2 * BASE
      modifies result`body
      ensures result.body == old(result.body)[i := Column(t)]
      ensures underflow == NextBorrow(t) && 0 <= underflow <= 2
    {
      ghost var b := result.body;
      result.body := result.body[i := t];
      if t < 0 {
        underflow := 1 + -t / BASE;
        result.body := result.body[i := I64(result.body[i] + BASE)];
      } else {
        underflow := 0;
      }
      assert result.body == b[i := Column(t)];
    }

    /** Column by column, also when earlier subtractions left limbs below zero. */
    static method AbsSub(result: IntX, larger: IntX, smaller: IntX)
      requires Loose(larger.body) && Loose(smaller.body) && |smaller.body| <= |larger.body|
      modifies result
      ensures result.body == Trim(SubLimbs(old(larger.body), old(smaller.body), 0))
      ensures result.sign == if result.body == [] then POSITIVE else old(result.sign)
    {
      hide SubDone, SubLimbs, Trim, Unread, Column, NextBorrow, Val;
      ghost var l, s := larger.body, smaller.body;
      result.body := Resize(result.body, |larger.body|);
      var underflow := 0;
      var i := 0;
      SubStart(l, s, result.body);
      UnreadStart(l, |l|);
      UnreadStart(s, |l|);
      while i < |smaller.body|
        invariant |result.body| == |larger.body| == |l| && 0 <= i <= |smaller.body| <= |l|
        invariant |smaller.body| == |s| || smaller == result
        invariant result.sign == old(result.sign)
        invariant Unread(larger.body, l, i) && Unread(smaller.body, s, i)
        invariant 0 <= underflow <= 2 && SubDone(l, s, result.body, i, underflow)
      {
        UnreadStep(larger.body, l, i, Column(larger.body[i] - smaller.body[i] - underflow));
        UnreadStep(smaller.body, s, i, Column(larger.body[i] - smaller.body[i] - underflow));
        var t := I64(larger.body[i] - smaller.body[i] - underflow);
        SubStep(l, s, result.body, i, underflow, t);
        underflow := StoreDifference(result, i, t);
        i := i + 1;
      }
      while i < |larger.body|
        invariant |result.body| == |larger.body| == |l| && |s| <= i <= |l|
        invariant result.sign == old(result.sign)
        invariant Unread(larger.body, l, i)
        invariant 0 <= underflow <= 2 && SubDone(l, s, result.body, i, underflow)
      {
        UnreadStep(larger.body, l, i, Column(larger.body[i] - underflow));
        var t := I64(larger.body[i] - underflow);
        SubStep(l, s, result.body, i, underflow, t);
        underflow := StoreDifference(result, i, t);
        i := i + 1;
      }
      SubFinish(l, s, result.body, underflow);
      EraseTopZero(result);
    }

    // -------------------------------------------------------------- shifts

    static method ShiftLeft(result: IntX, x: nat)
      requires result.Wf()
      modifies result`body
      ensures result.Wf() && result.Abs() == Scaled(old(result.Abs()), x)
    {
      hide Scaled;
      ghost var n := result.Abs();
      var xx := x;
      while xx > 0
        invariant 0 <= xx <= x
        invariant result.Wf() && Scaled(result.Abs(), xx) == Scaled(n, x)
      {
        ghost var b := result.body;
        DoublePower(b, xx);
        DoubleInPlace(result);
        xx := xx - 1;
      }
      ScaledStep(result.Abs(), 0);
    }

    /** One pass over the limbs. */
    static method DoubleInPlace(result: IntX)
      requires result.Wf()
      modifies result`body
      ensures result.body == Double(old(result.body), 0)
    {
      hide DoubleDone, Double;
      ghost var b := result.body;
      var overflow := 0;
      var i := 0;
      DoubleStart(b);
      while i < |result.body|
        invariant 0 <= i <= |result.body| == |b|
        invariant Unread(result.body, b, i)
        invariant 0 <= overflow <= 1 && DoubleDone(b, result.body, i, overflow)
      {
        var t := I64(I64(result.body[i] * 2) + overflow);
        DoubleStep(b, result.body, i, overflow, t);
        overflow := t / BASE;
        result.body := result.body[i := I64(t - overflow * BASE)];
        i := i + 1;
      }
      DoubleFinish(b, result.body, overflow);
      if overflow > 0 {
        result.body := result.body + [overflow];
      }
    }

    static method ShiftRight(result: IntX, x: nat)
      requires result.Wf()
      modifies result
      ensures result.Wf() && result.Abs() == Unscaled(old(result.Abs()), x)
      ensures result.sign == if result.body == [] then POSITIVE else old(result.sign)
    {
      hide Unscaled;
      ghost var n := result.Abs();
      UnscaledStep(n, 0);
      var xx := x;
      while xx > 0
        invariant 0 <= xx <= x
        invariant result.sign == old(result.sign)
        invariant LimbsOk(result.body) && Val(result.body) == Unscaled(n, x - xx)
      {
        UnscaledStep(n, x - xx);
        HalfVal(result.body);
        HalveInPlace(result);
        xx := xx - 1;
      }
      TrimVal(result.body);
      EraseTopZero(result);
    }

    /** One pass over the limbs from the top. */
    static method HalveInPlace(result: IntX)
      requires LimbsOk(result.body)
      modifies result`body
      ensures result.body == Half(old(result.body))
    {
      ghost var b := result.body;
      var underflow := 0;
      var i := |result.body|;
      while i > 0
        invariant 0 <= i <= |result.body| == |b|
        invariant underflow == if i < |b| && b[i] % 2 == 1 then BASE else 0
        invariant forall j :: 0 <= j < i ==> result.body[j] == b[j]
        invariant forall j :: i <= j < |b| ==> result.body[j] == HalfLimb(b, j)
      {
        i := i - 1;
        var t := I64(result.body[i] + underflow);
        underflow := if t % 2 == 1 then BASE else 0;
        result.body := result.body[i := t / 2];
      }
    }

    // -------------------------------------------------------------- addition and subtraction

    method AddAssign(x: IntX)
      requires Wf() && x.Wf()
      modifies this
      ensures Value() == old(Value() + x.Value())
        <==> (old(sign == x.sign) || !old(BadSubtraction(body, x.body)))
      ensures old(sign == x.sign) || !old(BadSubtraction(body, x.body)) ==> Wf()
      ensures old(sign == x.sign) ==> sign == old(sign)
      ensures old(sign != x.sign) && body == [] ==> sign == POSITIVE
      ensures old(sign == x.sign) ==> |body| >= old(|body|)
    {
      hide BadSubtraction, SubLimbs, AddLimbs, Trim;
      MagnitudeDifference(body, x.body);
      var largerFlag := AbsNoless(this, x);
      var larger, smaller := if largerFlag then this else x, if largerFlag then x else this;
      ghost var l, s := larger.body, smaller.body;
      if sign == x.sign {
        AddLimbsVal(l, s, 0);
        AddLimbsTop(l, s, 0);
        AbsAdd(this, larger, smaller);
      } else {
        sign := larger.sign;
        AbsSub(this, larger, smaller);
      }
    }

    /** Operands of the same sign may have limbs below zero. */
    method SubAssign(x: IntX)
      requires (Wf() && x.Wf()) || (sign == x.sign && Loose(body) && Loose(x.body))
      modifies this
      ensures old(Wf() && x.Wf()) ==> (Value() == old(Value() - x.Value())
        <==> (old(sign != x.sign) || !old(BadSubtraction(body, x.body))))
      ensures old(Wf() && x.Wf()) && (old(sign != x.sign) || !old(BadSubtraction(body, x.body))) ==> Wf()
      ensures old(sign != x.sign) ==> sign == old(sign)
      ensures old(sign == x.sign) && body == [] ==> sign == POSITIVE
      ensures x != this && old(sign == x.sign && Noless(body, x.body)) ==>
        && body == Trim(SubLimbs(old(body), old(x.body), 0))
        && (body != [] ==> sign == old(sign))
    {
      hide BadSubtraction, SubLimbs, AddLimbs, Trim, Noless;
      if Wf() && x.Wf() { MagnitudeDifference(body, x.body); }
      var largerFlag := AbsNoless(this, x);
      var larger, smaller := if largerFlag then this else x, if largerFlag then x else this;
      ghost var l, s := larger.body, smaller.body;
      if sign == Flip(x.sign) {
        AddLimbsVal(l, s, 0);
        AddLimbsTop(l, s, 0);
        AbsAdd(this, larger, smaller);
      } else {
        sign := larger.sign;
        if larger == x {
          sign := Flip(sign);
        }
        AbsSub(this, larger, smaller);
      }
    }

    method Add(x: IntX) returns (ret: IntX)
      requires Wf() && x.Wf()
      ensures fresh(ret)
      ensures ret.Value() == Value() + x.Value() <==> (sign == x.sign || !BadSubtraction(body, x.body))
      ensures sign == x.sign || !BadSubtraction(body, x.body) ==> ret.Wf()
      ensures Canonical() && x.Canonical() && (sign == x.sign || !BadSubtraction(body, x.body)) ==> ret.Canonical()
    {
      ret := new IntX();
      hide BadSubtraction, SubLimbs, AddLimbs, Trim;
      MagnitudeDifference(body, x.body);
      var largerFlag := AbsNoless(this, x);
      var larger, smaller := if largerFlag then this else x, if largerFlag then x else this;
      if sign == x.sign {
        ret.sign := sign;
        AddLimbsVal(larger.body, smaller.body, 0);
        AddLimbsTop(larger.body, smaller.body, 0);
        AbsAdd(ret, larger, smaller);
      } else {
        ret.sign := larger.sign;
        AbsSub(ret, larger, smaller);
      }
    }

    method Subtract(x: IntX) returns (ret: IntX)
      requires Wf() && x.Wf()
      ensures fresh(ret)
      ensures ret.Value() == Value() - x.Value() <==> (sign != x.sign || !BadSubtraction(body, x.body))
      ensures sign != x.sign || !BadSubtraction(body, x.body) ==> ret.Wf()
      ensures Canonical() && x.Canonical() && (sign != x.sign || !BadSubtraction(body, x.body)) ==> ret.Canonical()
    {
      ret := new IntX();
      hide BadSubtraction, SubLimbs, AddLimbs, Trim;
      MagnitudeDifference(body, x.body);
      var largerFlag := AbsNoless(this, x);
      var larger, smaller := if largerFlag then this else x, if largerFlag then x else this;
      if sign == Flip(x.sign) {
        ret.sign := sign;
        AddLimbsVal(larger.body, smaller.body, 0);
        AddLimbsTop(larger.body, smaller.body, 0);
        AbsAdd(ret, larger, smaller);
      } else {
        ret.sign := larger.sign;
        if larger == x {
          ret.sign := Flip(ret.sign);
        }
        AbsSub(ret, larger, smaller);
      }
    }

    method Increment()
      requires Canonical() && sign == POSITIVE
      modifies this
      ensures Canonical() && sign == POSITIVE && Abs() == old(Abs()) + 1
    {
      var one := new IntX.FromInteger(1);
      ValNat(one.body);
      AddAssign(one);
    }

    /** Negation flips the sign also of zero. */
    method Negate() returns (ret: IntX)
      requires Wf()
      ensures fresh(ret) && ret.Wf() && ret.Value() == -Value()
      ensures ret.Canonical() <==> body != [] || sign == NEGATIVE
    {
      ret := new IntX.Copy(this);
      ret.sign := Flip(sign);
    }

    // -------------------------------------------------------------- comparison

    /** Equality of values, except that a negative zero differs from zero. */
    method Equals(x: IntX) returns (r: bool)
      ensures r <==> sign == x.sign && body == x.body
      ensures Wf() && x.Wf() ==>
        ((r <==> Value() == x.Value()) <==> !(body == [] && x.body == [] && sign != x.sign))
    {
      if Wf() && x.Wf() { EqualValues(sign, body, x.sign, x.body); }
      if sign != x.sign {
        return false;
      }
      if |body| != |x.body| {
        return false;
      }
      var i := |body|;
      while i > 0
        invariant 0 <= i <= |body|
        invariant body[i..] == x.body[i..]
      {
        i := i - 1;
        if body[i] != x.body[i] {
          return false;
        }
      }
      return true;
    }

    /** For canonical operands the answer is right unless both are negative and
        different: then the magnitudes are compared the wrong way round. */
    method LessEqual(x: IntX) returns (r: bool)
      ensures r <==> if sign != x.sign then sign == NEGATIVE else Noless(x.body, body)
      ensures Wf() && x.Wf() ==> (r <==> if sign != x.sign then sign == NEGATIVE else Abs() <= x.Abs())
      ensures Canonical() && x.Canonical() ==>
        ((r <==> Value() <= x.Value()) <==> !(Value() < 0 && x.Value() < 0 && Value() != x.Value()))
    {
      hide Noless;
      if Wf() && x.Wf() {
        OrderOfMagnitudes(this);
        OrderOfMagnitudes(x);
      }
      if sign == NEGATIVE && x.sign == POSITIVE {
        return true;
      } else if sign == POSITIVE && x.sign == NEGATIVE {
        return false;
      }
      r := AbsNoless(x, this);
    }

    method GreaterEqual(x: IntX) returns (r: bool)
      ensures r <==> if sign != x.sign then sign == POSITIVE else Noless(body, x.body)
      ensures Wf() && x.Wf() ==> (r <==> if sign != x.sign then sign == POSITIVE else Abs() >= x.Abs())
      ensures Canonical() && x.Canonical() ==>
        ((r <==> Value() >= x.Value()) <==> !(Value() < 0 && x.Value() < 0 && Value() != x.Value()))
    {
      hide Noless;
      if Wf() && x.Wf() {
        OrderOfMagnitudes(this);
        OrderOfMagnitudes(x);
      }
      if sign == POSITIVE && x.sign == NEGATIVE {
        return true;
      } else if sign == NEGATIVE && x.sign == POSITIVE {
        return false;
      }
      r := AbsNoless(this, x);
    }

    static lemma OrderOfMagnitudes(x: IntX)
      requires x.Wf()
      ensures x.Abs() >= 0 && (x.body != [] <==> x.Abs() > 0)
    {
      ValNat(x.body);
      if x.body != [] { ValPositive(x.body); }
    }

    // -------------------------------------------------------------- multiplication

    /** A negative zero is no zero to the loop of AbsMul, which then reads its lowest limb. */
    static ghost predicate ReadsNoEmpty(a: IntX, b: IntX)
      reads a, b
    {
      (a.body == [] && a.sign == POSITIVE) || b.body != [] || b.sign == POSITIVE
    }

    /** Double and add. The result holds the product of the magnitudes. */
    static method AbsMul(result: IntX, a: IntX, b: IntX)
      requires a.Wf() && b.Wf() && ReadsNoEmpty(a, b)
      modifies result
      ensures result.Wf() && result.Abs() == old(a.Abs() * b.Abs())
    {
      hide Scaled, Unscaled, BadSubtraction, Accumulated;
      var zero := new IntX();
      var aIsZero := a.Equals(zero);
      var bIsZero := b.Equals(zero);
      if aIsZero || bIsZero {
        result.sign, result.body := zero.sign, zero.body;
        return;
      }
      ghost var A, B := a.Abs(), b.Abs();
      var atmp := new IntX.Copy(a);
      var btmp := new IntX.Copy(b);
      result.sign, result.body := zero.sign, zero.body;
      ghost var s := atmp.sign;
      AccumulatedStart(A, B);
      var done := btmp.Equals(zero);
      while !done
        invariant atmp.Wf() && btmp.Canonical() && result.Wf() && zero.sign == POSITIVE && zero.body == []
        invariant atmp.sign == s && result.Value() == Signed(s, result.Abs())
        invariant Accumulated(result.Abs(), atmp.Abs(), btmp.Abs(), A, B)
        invariant done <==> btmp.body == []
        decreases btmp.Abs()
      {
        MulRound(result, atmp, btmp, A, B);
        done := btmp.Equals(zero);
      }
      assert Accumulated(result.Abs(), atmp.Abs(), 0, A, B);
      AccumulatedEnd(result.Abs(), atmp.Abs(), A, B);
    }

    /** One round of the loop of AbsMul. */
    static method MulRound(result: IntX, atmp: IntX, btmp: IntX, ghost A: int, ghost B: int)
      requires result != atmp && result != btmp && atmp != btmp
      requires atmp.Wf() && btmp.Canonical() && result.Wf() && btmp.body != []
      requires result.Value() == Signed(atmp.sign, result.Abs())
      requires Accumulated(result.Abs(), atmp.Abs(), btmp.Abs(), A, B)
      modifies result, atmp, btmp
      ensures atmp.Wf() && btmp.Canonical() && result.Wf() && atmp.sign == old(atmp.sign)
      ensures result.Value() == Signed(atmp.sign, result.Abs())
      ensures Accumulated(result.Abs(), atmp.Abs(), btmp.Abs(), A, B)
      ensures btmp.Abs() < old(btmp.Abs())
    {
      hide Scaled, Unscaled, BadSubtraction, Accumulated;
      HalfVal(btmp.body);
      AccumulatedStep(result.Abs(), atmp.Abs(), btmp.Abs(), A, B);
      UnscaledStep(btmp.Abs(), 0);
      ScaledStep(atmp.Abs(), 0);
      if btmp.body[0] % 2 != 0 {
        ghost var r := result.Abs() + atmp.Abs();
        AccumulateIsSafe(result, atmp);
        result.AddAssign(atmp);
        assert result.Value() == Signed(atmp.sign, r);
      }
      ShiftRight(btmp, 1);
      ShiftLeft(atmp, 1);
    }

    /** Adding to zero, or to a number of the same sign, meets no bad column. */
    static lemma AccumulateIsSafe(r: IntX, a: IntX)
      requires r.Wf() && a.Wf() && r.Value() == Signed(a.sign, r.Abs())
      ensures r.Abs() >= 0 && a.Abs() >= 0
      ensures r.sign == a.sign || !BadSubtraction(r.body, a.body)
    {
      OrderOfMagnitudes(r);
      OrderOfMagnitudes(a);
    }

    /** The exact signed product; it is a negative zero when one operand is zero
        and the signs differ. */
    method Multiply(x: IntX) returns (ret: IntX)
      requires Wf() && x.Wf() && ReadsNoEmpty(this, x)
      ensures fresh(ret) && ret.Wf() && ret.Value() == Value() * x.Value()
      ensures ret.Canonical() <==> !(Value() * x.Value() == 0 && sign != x.sign)
    {
      ret := new IntX();
      AbsMul(ret, this, x);
      ret.sign := if sign == x.sign then POSITIVE else NEGATIVE;
      SignedProduct(sign, x.sign, Abs(), x.Abs());
      OrderOfMagnitudes(ret);
    }

    method MulAssign(x: IntX)
      requires Wf() && x.Wf() && ReadsNoEmpty(this, x)
      modifies this
      ensures Wf() && Value() == old(Value() * x.Value())
      ensures sign == if old(sign == x.sign) then POSITIVE else NEGATIVE
    {
      SignedProduct(sign, x.sign, Abs(), x.Abs());
      var s := if sign == x.sign then POSITIVE else NEGATIVE;
      AbsMul(this, this, x);
      sign := s;
    }

    // -------------------------------------------------------------- division

    /** Shift and subtract. The result holds the quotient of Division, limb for limb
        as the loop leaves it, and the remainder is returned. */
    static method AbsDiv(result: IntX, num: IntX, den: IntX) returns (rem: IntX)
      requires num.Wf() && den.Wf() && Divisible(num.sign, num.body, den.sign, den.body)
      requires num.Abs() >= 0 && den.Abs() >= 0
      requires num.sign == den.sign && den.Abs() > 0 ==> Bounded(num.Abs(), den.Abs())
      modifies result
      ensures fresh(rem) && rem.sign == POSITIVE && NoTopZero(rem.body)
      ensures result.Canonical() && result.sign == POSITIVE && result.Abs() >= 0
      ensures (result.Abs(), rem.body) == old(Division(num.sign, num.body, den.sign, den.Abs()))
    {
      hide Bounded, Bits, DivBits, NegBits, DivFits, Ahead, Scaled, Val;
      ghost var final := Division(num.sign, num.body, den.sign, den.Abs());
      ghost var d: nat, ds := den.Abs(), den.sign;
      var zero := new IntX();
      var numIsZero := num.Equals(zero);
      if numIsZero {
        result.sign, result.body := zero.sign, zero.body;
        assert result.Abs() == 0;
        return zero;
      }
      OrderOfMagnitudes(den);
      if num.sign == den.sign { BoundedDivision(num.body, d); }
      var ntmp := new IntX.Copy(num);
      var dtmp := new IntX.Copy(den);
      result.sign, result.body := zero.sign, zero.body;
      var shift := ScaleUp(dtmp, ntmp);
      DivisionStarts(ds, d, shift + 1, final, ntmp);
      var i := 0;
      while i <= shift
        invariant 0 <= i <= shift + 1
        invariant result.Canonical() && result.sign == POSITIVE && result.Abs() >= 0
        invariant Ahead(ds, ntmp.sign, ntmp.body, d, result.Abs(), shift + 1 - i, final)
        invariant i <= shift ==> DivisorAt(dtmp, ds, d, shift - i)
      {
        QuotientBit(result, ntmp, dtmp, ds, d, shift - i, final);
        i := i + 1;
      }
      AheadEnd(ds, ntmp.sign, ntmp.body, d, result.Abs(), final);
      ntmp.sign := POSITIVE;
      return ntmp;
    }

    ghost predicate Holds(s: Sign, n: int)
      reads this
    {
      Wf() && sign == s && Abs() == n
    }

    /** The divisor when quotient bit k is decided. */
    static ghost predicate DivisorAt(dtmp: IntX, ds: Sign, d: nat, k: int)
      reads dtmp
    {
      k >= 0 && dtmp.Holds(ds, Scaled(d, k))
    }

    static lemma DivisionStarts(ds: Sign, d: nat, k: int, final: (nat, seq<int>), ntmp: IntX)
      requires ntmp.Wf() && ntmp.Abs() >= 0 && d > 0 && !(ntmp.body == [] && ntmp.sign == POSITIVE)
      requires ntmp.sign == POSITIVE ==> ds == POSITIVE
      requires k == if ntmp.sign == ds then Bits(ntmp.Abs(), d) else 0
      requires ntmp.sign == ds ==> DivFits(ntmp.body, d, k)
      requires final == Division(ntmp.sign, ntmp.body, ds, d)
      ensures Ahead(ds, ntmp.sign, ntmp.body, d, 0, k, final)
    {
      hide DivFits, Refill;
      if ntmp.sign == ds && k > 0 && ntmp.body == [] {
        assert false;
      }
    }

    /** One round of the loop of AbsDiv: it appends a bit to the quotient. */
    static method QuotientBit(result: IntX, ntmp: IntX, dtmp: IntX, ghost ds: Sign, ghost d: nat, ghost k: nat,
                              ghost final: (nat, seq<int>))
      requires result != ntmp && result != dtmp && ntmp != dtmp && d > 0
      requires result.Canonical() && result.sign == POSITIVE && result.Abs() >= 0
      requires Ahead(ds, ntmp.sign, ntmp.body, d, result.Abs(), k + 1, final) && DivisorAt(dtmp, ds, d, k)
      modifies result, ntmp, dtmp
      ensures result.Canonical() && result.sign == POSITIVE && result.Abs() >= 0
      ensures Ahead(ds, ntmp.sign, ntmp.body, d, result.Abs(), k, final)
      ensures k > 0 ==> DivisorAt(dtmp, ds, d, k - 1)
    {
      hide BadSubtraction, Scaled, Unscaled, Ahead, Noless, SubLimbs, Trim, Val;
      ghost var q: nat, nb := result.Abs(), ntmp.body;
      ScaledStep(q, 0);
      AheadFacts(ds, ntmp.sign, nb, d, q, k + 1, final);
      ValUnique(dtmp.body);
      var fits := dtmp.LessEqual(ntmp);
      if fits {
        ghost var ns := ntmp.sign;
        ntmp.SubAssign(dtmp);
        if ns == ds {
          AheadSubtract(ds, nb, d, q, k, final, ntmp.sign);
        } else {
          AheadAdd(nb, d, q, k, final, ntmp.body);
        }
        HalveDivisor(dtmp, ds, d, k);
        ShiftLeft(result, 1);
        result.Increment();
      } else {
        AheadKeep(ds, nb, d, q, k, final);
        HalveDivisor(dtmp, ds, d, k);
        ShiftLeft(result, 1);
      }
    }

    static lemma AheadEnd(ds: Sign, ns: Sign, nb: seq<int>, d: nat, q: int, final: (nat, seq<int>))
      requires Ahead(ds, ns, nb, d, q, 0, final)
      ensures q >= 0 && NoTopZero(nb) && final == (q, nb)
    {
    }

    static lemma AheadFacts(ds: Sign, ns: Sign, nb: seq<int>, d: nat, q: int, k: int, final: (nat, seq<int>))
      requires Ahead(ds, ns, nb, d, q, k, final) && k > 0
      ensures NoTopZero(nb) && Loose(nb) && (ns != ds ==> ds == NEGATIVE && LimbsOk(nb) && Val(nb) >= 0)
    {
      hide Refill, DivBits, NegBits;
    }

    static method HalveDivisor(dtmp: IntX, ghost ds: Sign, ghost d: nat, ghost k: nat)
      requires DivisorAt(dtmp, ds, d, k) && d > 0
      modifies dtmp
      ensures dtmp.Wf() && (k > 0 ==> DivisorAt(dtmp, ds, d, k - 1))
    {
      hide Scaled, Unscaled;
      UnscaledStep(dtmp.Abs(), 0);
      ShiftRight(dtmp, 1);
      if k > 0 {
        ScaledStep(d, k - 1);
        ScaledPositive(d, k - 1);
      }
    }

    /** The divisor is doubled until it reaches the dividend and taken back one
        step if it went past it. */
    static method ScaleUp(dtmp: IntX, ntmp: IntX) returns (shift: int)
      requires dtmp != ntmp && ntmp.Wf() && dtmp.Wf() && dtmp.body != []
      requires ntmp.Abs() >= 0 && dtmp.Abs() > 0 && (ntmp.sign == POSITIVE ==> dtmp.sign == POSITIVE)
      modifies dtmp
      ensures shift + 1 == if ntmp.sign == old(dtmp.sign) then Bits(ntmp.Abs(), old(dtmp.Abs())) else 0
      ensures shift >= 0 ==> DivisorAt(dtmp, old(dtmp.sign), old(dtmp.Abs()), shift)
    {
      hide Scaled, Unscaled, Bits;
      ghost var n: nat, d: nat, ds := ntmp.Abs(), dtmp.Abs(), dtmp.sign;
      ScaledStep(d, 0);
      shift := 0;
      var noLess := dtmp.GreaterEqual(ntmp);
      while !noLess
        invariant shift >= 0 && DivisorAt(dtmp, ds, d, shift) && dtmp.Abs() > 0
        invariant noLess <==> ds != ntmp.sign || dtmp.Abs() >= n
        invariant shift > 0 ==> ds == ntmp.sign && Scaled(d, shift - 1) < n
        decreases n - dtmp.Abs()
      {
        ScaledStep(dtmp.Abs(), 0);
        ShiftLeft(dtmp, 1);
        ScaledStep(d, shift);
        shift := shift + 1;
        noLess := dtmp.GreaterEqual(ntmp);
      }
      ghost var top := shift;
      ScaledStep(d, top);
      var noMore := dtmp.LessEqual(ntmp);
      if !noMore {
        HalveDivisor(dtmp, ds, d, shift);
        shift := shift - 1;
      }
      if ntmp.sign == ds {
        BitsUnique(n, d, shift + 1);
      }
    }

    /** operator/ and operator%. For a nonnegative dividend and a positive divisor the
        results are exact if every subtraction is safe, and only then as long as the
        quotient has at most MAXBITS bits. */
    method DivMod(x: IntX) returns (q: IntX, r: IntX)
      requires Wf() && x.Wf() && Divisible(sign, body, x.sign, x.body) && Abs() >= 0 && x.Abs() >= 0
      requires sign == x.sign && x.Abs() > 0 ==> Bounded(Abs(), x.Abs())
      ensures fresh(q) && fresh(r) && q != r
      ensures q.Wf() && q.sign == (if sign == x.sign then POSITIVE else NEGATIVE) && r.sign == POSITIVE
      ensures q.Abs() >= 0 && (q.Abs(), r.body) == Division(sign, body, x.sign, x.Abs())
      ensures sign == POSITIVE && x.Value() > 0 && SafeDivision(Abs(), x.Abs()) ==>
        r.Canonical() && q.Value() == Value() / x.Value() && r.Value() == Value() % x.Value()
      ensures sign == POSITIVE && x.Value() > 0 && Bits(Abs(), x.Abs()) <= MAXBITS ==>
        (q.Value() == Value() / x.Value() && r.Canonical() && r.Value() == Value() % x.Value()
         <==> SafeDivision(Abs(), x.Abs()))
    {
      hide SafeDivision, DivOf, NegDivOf, Bits;
      q := new IntX();
      r := AbsDiv(q, this, x);
      q.sign := if sign == x.sign then POSITIVE else NEGATIVE;
      if sign == POSITIVE && x.Value() > 0 {
        ExactQuotient(body, x.Abs(), q.Abs(), r.body);
      }
    }

    static lemma ExactQuotient(nb: seq<int>, d: nat, q: nat, r: seq<int>)
      requires d > 0 && LimbsOk(nb) && NoTopZero(nb) && Val(nb) >= 0 && NoTopZero(r)
      requires (q, r) == Division(POSITIVE, nb, POSITIVE, d)
      ensures SafeDivision(Val(nb), d) ==> q == Val(nb) / d && LimbsOk(r) && Val(r) == Val(nb) % d
      ensures Bits(Val(nb), d) <= MAXBITS ==>
        (q == Val(nb) / d && LimbsOk(r) && Val(r) == Val(nb) % d <==> SafeDivision(Val(nb), d))
    {
      hide SafeAt, DivBits;
      var n := Val(nb);
      if nb == [] {
        SmallIsSafe(0, d);
        DivModUnique(0, d, 0, 0);
        assert (q, r) == (0, []);
      } else {
        if SafeDivision(n, d) { SafeIsExact(nb, d); }
        if Bits(n, d) <= MAXBITS { ExactIff(nb, d); }
        ToLimbsVal(n % d);
        if LimbsOk(r) { ValUnique(r); }
      }
    }
  }
}
