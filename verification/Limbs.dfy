/** Sequences of base-10^18 limbs, least significant first, as misc/intX_t.ipp
    keeps them in its body vector, and the column arithmetic of its loops. */
module Limbs {
  import opened NumberTheory

  const BASE: int := 1_000_000_000_000_000_000

  /** The number a limb sequence stands for. */
  function Val(b: seq<int>): int {
    if |b| == 0 then 0 else b[0] + BASE * Val(b[1..])
  }

  ghost predicate LimbsOk(b: seq<int>) {
    forall i :: 0 <= i < |b| ==> 0 <= b[i] < BASE
  }

  predicate NoTopZero(b: seq<int>) {
    |b| > 0 ==> b[|b| - 1] != 0
  }

  lemma {:induction false} ValNat(b: seq<int>)
    requires LimbsOk(b)
    ensures Val(b) >= 0
  {
    if |b| > 0 { ValNat(b[1..]); }
  }

  lemma {:induction false} ValPositive(b: seq<int>)
    requires LimbsOk(b) && NoTopZero(b) && |b| > 0
    ensures Val(b) > 0
  {
    if |b| > 1 { ValPositive(b[1..]); }
  }

  // ---------------------------------------------------------------- canonical form

  /** The limbs of a natural number, without top zeros. */
  function ToLimbs(n: nat): (b: seq<int>) {
    if n == 0 then [] else [n % BASE] + ToLimbs(n / BASE)
  }

  lemma {:induction false} ToLimbsVal(n: nat)
    ensures LimbsOk(ToLimbs(n)) && NoTopZero(ToLimbs(n)) && Val(ToLimbs(n)) == n
  {
    if n > 0 {
      ToLimbsVal(n / BASE);
      assert ToLimbs(n)[1..] == ToLimbs(n / BASE);
    }
  }

  /** Limbs in range without a top zero are determined by their value. */
  lemma {:induction false} ValUnique(b: seq<int>)
    requires LimbsOk(b) && NoTopZero(b)
    ensures Val(b) >= 0 && b == ToLimbs(Val(b))
  {
    ValNat(b);
    if |b| > 0 {
      ValPositive(b);
      ValUnique(b[1..]);
      ValNat(b[1..]);
      assert Val(b) % BASE == b[0] && Val(b) / BASE == Val(b[1..]);
      assert b == [b[0]] + b[1..];
    }
  }

  /** The effect of erasing zero limbs from the top. */
  function Trim(b: seq<int>): (t: seq<int>)
    ensures NoTopZero(t)
    ensures |t| <= |b| && t == b[..|t|]
  {
    if |b| > 0 && b[|b| - 1] == 0 then Trim(b[..|b| - 1]) else b
  }

  lemma {:induction false} TrimVal(b: seq<int>)
    ensures Val(Trim(b)) == Val(b)
    decreases |b|
  {
    if |b| > 0 && b[|b| - 1] == 0 {
      TrimVal(b[..|b| - 1]);
      ZeroOnTop(b[..|b| - 1]);
      assert b == b[..|b| - 1] + [0];
    }
  }

  lemma {:induction false} ZeroOnTop(b: seq<int>)
    ensures Val(b + [0]) == Val(b)
  {
    if |b| == 0 {
      assert (b + [0])[1..] == [];
    } else {
      ZeroOnTop(b[1..]);
      assert (b + [0])[1..] == b[1..] + [0];
    }
  }

  // ---------------------------------------------------------------- comparison

  lemma {:induction false} LongerIsGreater(l: seq<int>, s: seq<int>)
    requires LimbsOk(l) && LimbsOk(s) && NoTopZero(l) && |l| > |s|
    ensures Val(l) > Val(s)
  {
    if |s| == 0 { ValPositive(l); } else { LongerIsGreater(l[1..], s[1..]); }
  }

  // ---------------------------------------------------------------- addition

  function Rest(b: seq<int>): seq<int> {
    if |b| > 0 then b[1..] else []
  }

  function First(b: seq<int>): int {
    if |b| > 0 then b[0] else 0
  }

  /** Column addition of a shorter number s to l, with a carry. */
  function AddLimbs(l: seq<int>, s: seq<int>, carry: int): seq<int>
    requires |s| <= |l|
  {
    if |l| == 0 then (if carry > 0 then [carry] else [])
    else
      var t := l[0] + First(s) + carry;
      [t - t / BASE * BASE] + AddLimbs(l[1..], Rest(s), t / BASE)
  }

  lemma {:induction false} AddLimbsVal(l: seq<int>, s: seq<int>, carry: int)
    requires LimbsOk(l) && LimbsOk(s) && |s| <= |l| && 0 <= carry <= 1
    ensures Val(AddLimbs(l, s, carry)) == Val(l) + Val(s) + carry
    ensures LimbsOk(AddLimbs(l, s, carry)) && |AddLimbs(l, s, carry)| >= |l|
  {
    var r := AddLimbs(l, s, carry);
    if |l| == 0 {
      if carry > 0 { assert r[1..] == []; }
    } else {
      var t := l[0] + First(s) + carry;
      var r' := AddLimbs(l[1..], Rest(s), t / BASE);
      AddLimbsVal(l[1..], Rest(s), t / BASE);
      hide AddLimbs;
      assert r == [t - t / BASE * BASE] + r' by { AddLimbsUnfold(l, s, carry); }
      assert r[1..] == r';
      CarryStep(l[0], First(s), carry, Val(l[1..]), Val(Rest(s)), Val(r'));
    }
  }

  lemma AddLimbsUnfold(l: seq<int>, s: seq<int>, carry: int)
    requires |s| <= |l| && |l| > 0
    ensures var t := l[0] + First(s) + carry;
            AddLimbs(l, s, carry) == [t - t / BASE * BASE] + AddLimbs(l[1..], Rest(s), t / BASE)
  {
  }

  lemma CarryStep(l0: int, s0: int, carry: int, lv: int, sv: int, rv: int)
    requires 0 <= l0 < BASE && 0 <= s0 < BASE && 0 <= carry <= 1
    requires rv == lv + sv + (l0 + s0 + carry) / BASE
    ensures var t := l0 + s0 + carry;
      0 <= t - t / BASE * BASE < BASE
      && t - t / BASE * BASE + BASE * rv == (l0 + BASE * lv) + (s0 + BASE * sv) + carry
  {
  }

  lemma {:induction false} AddLimbsTop(l: seq<int>, s: seq<int>, carry: int)
    requires LimbsOk(l) && LimbsOk(s) && |s| <= |l| && NoTopZero(l) && 0 <= carry <= 1
    ensures NoTopZero(AddLimbs(l, s, carry))
  {
    if |l| > 0 {
      var t := l[0] + First(s) + carry;
      AddLimbsTop(l[1..], Rest(s), t / BASE);
      AddLimbsVal(l[1..], Rest(s), t / BASE);
      assert AddLimbs(l, s, carry)[1..] == AddLimbs(l[1..], Rest(s), t / BASE);
    }
  }

  // ---------------------------------------------------------------- subtraction

  /** The borrow as the code computes it. It is 2, not 1, in a column whose
      difference is exactly -BASE. */
  function NextBorrow(t: int): int {
    if t < 0 then 1 + -t / BASE else 0
  }

  function Column(t: int): int {
    if t < 0 then t + BASE else t
  }

  /** Column subtraction as the code does it, before top zeros are erased. */
  function SubLimbs(l: seq<int>, s: seq<int>, borrow: int): (r: seq<int>)
    requires |s| <= |l|
    ensures |r| == |l|
  {
    if |l| == 0 then []
    else
      var t := l[0] - First(s) - borrow;
      [Column(t)] + SubLimbs(l[1..], Rest(s), NextBorrow(t))
  }

  /** Some column difference is exactly -BASE: the limb above is 0, the limb
      below is BASE - 1, and the columns under them borrow. */
  ghost predicate DoubleBorrow(l: seq<int>, s: seq<int>)
    requires |s| <= |l|
  {
    DoubleBorrowFrom(l, s, 0)
  }

  ghost predicate DoubleBorrowFrom(l: seq<int>, s: seq<int>, borrow: int)
    requires |s| <= |l|
  {
    exists i :: 0 <= i < |s| && DoubleBorrowAt(l, s, borrow, i)
  }

  predicate DoubleBorrowAt(l: seq<int>, s: seq<int>, borrow: int, i: nat)
    requires i < |s| <= |l|
  {
    l[i] == 0 && s[i] == BASE - 1 && Val(l[..i]) < Val(s[..i]) + borrow
  }

  lemma DoubleBorrowShift(l: seq<int>, s: seq<int>, borrow: int, i: nat)
    requires LimbsOk(l) && LimbsOk(s) && i + 1 < |s| <= |l| && 0 <= borrow <= 1
    requires l[0] - s[0] - borrow > -BASE
    ensures DoubleBorrowAt(l, s, borrow, i + 1)
        <==> DoubleBorrowAt(l[1..], s[1..], NextBorrow(l[0] - s[0] - borrow), i)
  {
    assert l[..i + 1][1..] == l[1..][..i];
    assert s[..i + 1][1..] == s[1..][..i];
  }

  lemma SubLimbsUnfold(l: seq<int>, s: seq<int>, borrow: int)
    requires |s| <= |l| && |l| > 0
    ensures var t := l[0] - First(s) - borrow;
            SubLimbs(l, s, borrow) == [Column(t)] + SubLimbs(l[1..], Rest(s), NextBorrow(t))
  {
    hide Column, NextBorrow;
  }

  lemma ValUnfold(b: seq<int>)
    ensures Val(b) == First(b) + BASE * Val(Rest(b))
  {
  }

  /** A borrow of 2 always gives a wrong difference. */
  lemma BorrowTwoIsWrong(l: seq<int>, s: seq<int>)
    requires |s| <= |l|
    ensures Val(SubLimbs(l, s, 2)) != Val(l) - Val(s) - 1
  {
    if |l| > 0 {
      hide SubLimbs, Val, NextBorrow;
      var t := l[0] - First(s) - 2;
      var r := SubLimbs(l, s, 2);
      SubLimbsUnfold(l, s, 2);
      assert r[1..] == SubLimbs(l[1..], Rest(s), NextBorrow(t));
      ValUnfold(l);
      ValUnfold(s);
      ValUnfold(r);
      WrongByOne(Val(r), Val(l) - Val(s) - 1, Column(t), t,
                 Val(r[1..]), Val(l[1..]) - Val(Rest(s)));
    }
  }

  lemma WrongByOne(x: int, y: int, c: int, t: int, a: int, b: int)
    requires x == c + BASE * a && y == t + 1 + BASE * b && (c == t || c == t + BASE)
    ensures x != y
  {
  }

  lemma FirstColumnBad(l: seq<int>, s: seq<int>, borrow: int)
    requires LimbsOk(l) && LimbsOk(s) && |s| <= |l| && |l| > 0 && 0 <= borrow <= 1
    requires l[0] - First(s) - borrow == -BASE
    ensures DoubleBorrowFrom(l, s, borrow)
    ensures Column(-BASE) == 0 && NextBorrow(-BASE) == 2
  {
    assert l[..0] == [] && s[..0] == [];
    assert DoubleBorrowAt(l, s, borrow, 0);
  }

  /** The subtraction loop is exact if and only if no column borrows twice. */
  lemma {:induction false} SubLimbsExactIff(l: seq<int>, s: seq<int>, borrow: int)
    requires LimbsOk(l) && LimbsOk(s) && |s| <= |l| && 0 <= borrow <= 1
    requires Val(l) >= Val(s) + borrow
    ensures Val(SubLimbs(l, s, borrow)) == Val(l) - Val(s) - borrow
        <==> !DoubleBorrowFrom(l, s, borrow)
    ensures !DoubleBorrowFrom(l, s, borrow) ==> LimbsOk(SubLimbs(l, s, borrow))
  {
    if |l| > 0 {
      hide SubLimbs, Val, NextBorrow, Column, DoubleBorrowFrom;
      var t := l[0] - First(s) - borrow;
      var l', s', r := l[1..], Rest(s), SubLimbs(l, s, borrow);
      SubLimbsUnfold(l, s, borrow);
      assert r[1..] == SubLimbs(l', s', NextBorrow(t));
      ValUnfold(l);
      ValUnfold(s);
      ValUnfold(r);
      if t == -BASE {
        FirstColumnBad(l, s, borrow);
        BorrowTwoIsWrong(l', s');
      } else {
        GoodColumn(l[0], First(s), borrow, Val(l'), Val(s'), Val(r[1..]));
        SubLimbsExactIff(l', s', NextBorrow(t));
        ShiftExists(l, s, borrow);
      }
    }
  }

  /** A column that does not borrow twice: what is left to do above it, and that
      it is exact exactly when the columns above are. */
  lemma GoodColumn(l0: int, s0: int, borrow: int, lv: int, sv: int, rv: int)
    requires 0 <= l0 < BASE && 0 <= s0 < BASE && 0 <= borrow <= 1
    requires l0 - s0 - borrow > -BASE
    requires l0 + BASE * lv >= s0 + BASE * sv + borrow
    ensures var t := l0 - s0 - borrow;
      && 0 <= NextBorrow(t) <= 1 && 0 <= Column(t) < BASE
      && lv >= sv + NextBorrow(t)
      && (Column(t) + BASE * rv == l0 + BASE * lv - (s0 + BASE * sv) - borrow <==> rv == lv - sv - NextBorrow(t))
  {
  }

  lemma ShiftExists(l: seq<int>, s: seq<int>, borrow: int)
    requires LimbsOk(l) && LimbsOk(s) && |s| <= |l| && |l| > 0 && 0 <= borrow <= 1
    requires l[0] - First(s) - borrow > -BASE
    ensures DoubleBorrowFrom(l, s, borrow)
       <==> DoubleBorrowFrom(l[1..], Rest(s), NextBorrow(l[0] - First(s) - borrow))
  {
    var l', s', u := l[1..], Rest(s), NextBorrow(l[0] - First(s) - borrow);
    if i :| 0 <= i < |s| && DoubleBorrowAt(l, s, borrow, i) {
      assert i > 0;
      DoubleBorrowShift(l, s, borrow, i - 1);
      assert DoubleBorrowAt(l', s', u, i - 1);
    }
    if i :| 0 <= i < |s'| && DoubleBorrowAt(l', s', u, i) {
      DoubleBorrowShift(l, s, borrow, i);
      assert DoubleBorrowAt(l, s, borrow, i + 1);
    }
  }

  /** The defect shows already on three limbs: 10^36 - (10^36 - 10^18 + 1). */
  lemma DoubleBorrowWitness()
    ensures Val([0, 0, 1]) - Val([1, BASE - 1]) == BASE - 1
    ensures DoubleBorrow([0, 0, 1], [1, BASE - 1])
    ensures SubLimbs([0, 0, 1], [1, BASE - 1], 0) == [BASE - 1, 0, BASE - 1]
  {
    var l, s := [0, 0, 1], [1, BASE - 1];
    assert l[1..] == [0, 1] && [0, 1][1..] == [1] && [1][1..] == [];
    assert s[1..] == [BASE - 1] && [BASE - 1][1..] == [];
    assert Val([1]) == 1 + BASE * Val([]) == 1;
    assert Val([0, 1]) == 0 + BASE * Val([1]) == BASE;
    assert Val(s[1..]) == BASE - 1;
    assert Val(l[..1]) == 0 by { assert l[..1] == [0]; }
    assert Val(s[..1]) == 1 by { assert s[..1] == [1]; }
    assert DoubleBorrowAt(l, s, 0, 1);
    assert SubLimbs([1], [], 2) == [BASE - 1] + SubLimbs([], [], 1);
    assert SubLimbs([0, 1], [BASE - 1], 1) == [0] + SubLimbs([1], [], 2);
    assert SubLimbs(l, s, 0) == [BASE - 1] + SubLimbs([0, 1], [BASE - 1], 1);
  }

  // ---------------------------------------------------------------- shifts by one bit

  /** One pass of the left shift. */
  function Double(b: seq<int>, carry: int): seq<int> {
    if |b| == 0 then (if carry > 0 then [carry] else [])
    else
      var t := b[0] * 2 + carry;
      [t - t / BASE * BASE] + Double(b[1..], t / BASE)
  }

  lemma {:induction false} DoubleVal(b: seq<int>, carry: int)
    requires LimbsOk(b) && 0 <= carry <= 1
    ensures Val(Double(b, carry)) == 2 * Val(b) + carry
    ensures LimbsOk(Double(b, carry)) && |Double(b, carry)| >= |b|
    ensures NoTopZero(b) ==> NoTopZero(Double(b, carry))
  {
    var r := Double(b, carry);
    if |b| == 0 {
      if carry > 0 { assert r[1..] == []; }
    } else {
      var t := b[0] * 2 + carry;
      DoubleVal(b[1..], t / BASE);
      assert r[1..] == Double(b[1..], t / BASE);
    }
  }

  /** One pass of the right shift, before top zeros are erased: a limb takes half
      a BASE from an odd limb above it. */
  function HalfLimb(b: seq<int>, i: nat): int
    requires i < |b|
  {
    (b[i] + (if i + 1 < |b| && b[i + 1] % 2 == 1 then BASE else 0)) / 2
  }

  function Half(b: seq<int>): (h: seq<int>)
    ensures |h| == |b|
  {
    seq(|b|, i requires 0 <= i < |b| => HalfLimb(b, i))
  }

  lemma {:induction false} HalfVal(b: seq<int>)
    requires LimbsOk(b)
    ensures Val(Half(b)) == Val(b) / 2 && Val(b) % 2 == First(b) % 2
    ensures LimbsOk(Half(b))
  {
    if |b| > 0 {
      var b' := b[1..];
      HalfVal(b');
      assert Half(b)[1..] == Half(b') by {
        forall i | 0 <= i < |b'| ensures Half(b)[i + 1] == Half(b')[i] {
          assert b'[i] == b[i + 1];
        }
      }
      HalfStep(b[0], Val(b'), First(b'), Val(Half(b')));
    }
  }

  lemma HalfStep(b0: int, v: int, f: int, h: int)
    requires h == v / 2 && v % 2 == f % 2
    ensures (b0 + (if f % 2 == 1 then BASE else 0)) / 2 + BASE * h == (b0 + BASE * v) / 2
    ensures (b0 + BASE * v) % 2 == b0 % 2
  {
  }
}
