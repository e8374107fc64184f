/** The index permutation of cotave/FFT.ipp: reversing the low e bits. */
module BitReversal {
  import opened NumberTheory
  import opened ComplexNumbers
  import opened Transform

  /** x * 2^n. */
  function Shl(x: nat, n: nat): nat {
    if n == 0 then x else 2 * Shl(x, n - 1)
  }

  function Bit(b: bool, p: nat): nat {
    if b then p else 0
  }

  /** The low e bits of i in the opposite order. */
  function Rev(i: nat, e: nat): nat {
    if e == 0 then 0 else Bit(i % 2 == 1, Pow2(e - 1)) + Rev(i / 2, e - 1)
  }

  lemma {:induction false} ShlAdd(x: nat, y: nat, n: nat)
    ensures Shl(x + y, n) == Shl(x, n) + Shl(y, n)
  {
    if n > 0 { ShlAdd(x, y, n - 1); }
  }

  lemma {:induction false} ShlPow2(t: nat, n: nat)
    ensures Shl(Pow2(t), n) == Pow2(t + n) && Shl(0, n) == 0
  {
    if n > 0 { ShlPow2(t, n - 1); }
  }

  lemma {:induction false} ShlTimes(x: nat, n: nat)
    ensures Shl(x, n) == Pow2(n) * x
  {
    if n > 0 {
      ShlTimes(x, n - 1);
      MulAssociates(2, Pow2(n - 1), x);
    }
  }

  lemma {:induction false} RevBound(i: nat, e: nat)
    ensures Rev(i, e) < Pow2(e)
  {
    if e > 0 { RevBound(i / 2, e - 1); }
  }

  lemma {:induction false} Pow2Monotone(t: nat, u: nat)
    requires t < u
    ensures 2 * Pow2(t) <= Pow2(u)
    decreases u
  {
    if t + 1 < u { Pow2Monotone(t, u - 1); }
  }

  /** Reversing t low bits l followed by u more bits r. */
  lemma {:induction false} RevConcat(l: nat, t: nat, r: nat, u: nat)
    requires l < Pow2(t)
    ensures Rev(l + Shl(r, t), t + u) == Shl(Rev(l, t), u) + Rev(r, u)
  {
    if t == 0 {
      ShlPow2(0, u);
    } else {
      RevConcat(l / 2, t - 1, r, u);
      var x := Shl(r, t - 1);
      assert (l + 2 * x) / 2 == l / 2 + x && (l + 2 * x) % 2 == l % 2;
      ShlAdd(Bit(l % 2 == 1, Pow2(t - 1)), Rev(l / 2, t - 1), u);
      ShlPow2(t - 1, u);
    }
  }

  lemma RevBit(l: nat, t: nat, b: bool)
    requires l < Pow2(t)
    ensures Rev(l + Bit(b, Pow2(t)), t + 1) == 2 * Rev(l, t) + Bit(b, 1)
  {
    ShlPow2(0, t);
    RevConcat(l, t, Bit(b, 1), 1);
    assert Shl(Rev(l, t), 1) == 2 * Shl(Rev(l, t), 0);
    assert Rev(Bit(b, 1), 1) == Bit(b, Pow2(0)) + Rev(Bit(b, 1) / 2, 0);
  }

  /** Reversing twice gives the index back. */
  lemma {:induction false} RevInvolution(i: nat, e: nat)
    requires i < Pow2(e)
    ensures Rev(Rev(i, e), e) == i
  {
    if e > 0 {
      RevInvolution(i / 2, e - 1);
      RevBound(i / 2, e - 1);
      RevBit(Rev(i / 2, e - 1), e - 1, i % 2 == 1);
    }
  }

  /** The recursive order is the bit-reversed order. */
  lemma {:induction false} ShuffledAt(xs: seq<Complex>, e: nat, i: nat)
    requires |xs| == Pow2(e) && i < Pow2(e)
    ensures Rev(i, e) < |xs| && Shuffled(xs, e)[i] == xs[Rev(i, e)]
    decreases e
  {
    RevBound(i, e);
    if e > 0 {
      hide Rev;
      var h := Pow2(e - 1);
      ShuffledStep(xs, e, i);
      if i < h {
        ShuffledAt(Even(xs), e - 1, i);
        RevBit(i, e - 1, false);
        assert Rev(i, e) == 2 * Rev(i, e - 1);
      } else {
        ShuffledAt(Odd(xs), e - 1, i - h);
        RevBit(i - h, e - 1, true);
        assert Rev(i, e) == 2 * Rev(i - h, e - 1) + 1;
      }
    }
  }

  lemma ShuffledStep(xs: seq<Complex>, e: nat, i: nat)
    requires e > 0 && |xs| == Pow2(e) && i < Pow2(e)
    ensures var h := Pow2(e - 1);
      && |Even(xs)| == |Odd(xs)| == h
      && Shuffled(xs, e)[i] == if i < h then Shuffled(Even(xs), e - 1)[i] else Shuffled(Odd(xs), e - 1)[i - h]
  {
    hide Even, Odd;
  }

  // ---------------------------------------------------------------- the two-pointer loop

  /** The bits of x from the single bit p on. */
  function High(x: nat, p: nat): nat
    requires p > 0
  {
    NatQuotient(x, p);
    x / p
  }

  lemma NatQuotient(x: int, p: int)
    requires x >= 0 && p > 0
    ensures x / p >= 0
  {
    var q := x / p;
    if q < 0 {
      MulAtLeast(p, -q);
      MulDistributes(p, q, -q);
      assert false;
    }
  }

  /** The bits of x below the single bit p. */
  function Low(x: nat, p: nat): (r: nat)
    requires p > 0
    ensures r < p
  {
    x % p
  }

  /** x & p, for a single-bit p. */
  predicate HasBit(x: nat, p: nat)
    requires p > 0
  {
    High(x, p) % 2 == 1
  }

  /** x | p, for a single-bit p. */
  function SetBit(x: nat, p: nat): nat
    requires p > 0
  {
    if HasBit(x, p) then x else x + p
  }

  /** After t rounds the t outer bits on each side are in place. */
  function OuterBits(i: nat, e: nat, t: nat): nat
    requires t <= e
  {
    Shl(Rev(Low(i, Pow2(t)), t), e - t) + Rev(High(i, Pow2(e - t)), t)
  }

  /** The low t bits and the rest. */
  lemma SplitAt(i: nat, t: nat)
    ensures i == Low(i, Pow2(t)) + Shl(High(i, Pow2(t)), t)
  {
    ShlTimes(High(i, Pow2(t)), t);
    QuotientRemainder(i, Pow2(t));
  }

  lemma QuotientRemainder(i: nat, p: nat)
    requires p > 0
    ensures i == Low(i, p) + p * High(i, p)
  {
  }

  lemma OuterBitsDone(i: nat, t: nat)
    requires i < Pow2(2 * t)
    ensures OuterBits(i, 2 * t, t) == Rev(i, 2 * t)
  {
    hide Low, High;
    SplitAt(i, t);
    RevConcat(Low(i, Pow2(t)), t, High(i, Pow2(t)), t);
  }

  /** One round: the bits read and set by the loop body. */
  function Round(i: nat, k: nat, a: nat, b: nat): nat
    requires a > 0 && b > 0
  {
    var k1 := if HasBit(i, b) then SetBit(k, a) else k;
    if HasBit(i, a) then SetBit(k1, b) else k1
  }

  lemma LowBits(i: nat, a: nat)
    requires a > 0
    ensures Low(i, 2 * a) == Low(i, a) + Bit(HasBit(i, a), a)
    ensures High(i, a) == 2 * High(i, 2 * a) + Bit(HasBit(i, a), 1)
  {
    var p := i / a;
    var q, r := p / 2, i % a;
    MulDistributes(a, 2 * q, p % 2);
    MulAssociates(a, 2, q);
    MulAssociates(2, a, q);
    DivModUnique(i, 2 * a, q, r + Bit(p % 2 == 1, a));
  }

  lemma NextOuterBits(i: nat, e: nat, t: nat)
    requires t < e
    ensures OuterBits(i, e, t + 1) == OuterBits(i, e, t)
      + Bit(HasBit(i, Pow2(e - 1 - t)), Pow2(t)) + Bit(HasBit(i, Pow2(t)), Pow2(e - 1 - t))
  {
    hide HasBit, Low, High;
    var u := e - 1 - t;
    var a, b := Pow2(t), Pow2(u);
    LowBits(i, a);
    RevBit(Low(i, a), t, HasBit(i, a));
    var l := Rev(Low(i, a), t);
    ShlAdd(l, l, u);
    ShlAdd(l + l, Bit(HasBit(i, a), 1), u);
    ShlPow2(0, u);
    assert Shl(l, e - t) == 2 * Shl(l, u);
    NextHigh(i, b, t);
  }

  lemma NextHigh(i: nat, b: nat, t: nat)
    requires b > 0
    ensures Rev(High(i, b), t + 1) == Bit(HasBit(i, b), Pow2(t)) + Rev(High(i, 2 * b), t)
  {
    hide High, HasBit;
    LowBits(i, b);
  }

  lemma ClearBit(k: int, p: int, m: int, h: int)
    requires p > 0 && 0 <= h < p && k == p * (2 * m) + h && k >= 0
    ensures !HasBit(k, p) && HasBit(k + p, p)
  {
    NatQuotient(k, p);
    DivModUnique(k, p, 2 * m, h);
    MulDistributes(p, 2 * m, 1);
    DivModUnique(k + p, p, 2 * m + 1, h);
  }

  lemma OuterBitsClear(i: nat, e: nat, t: nat)
    requires 2 * t + 1 < e
    ensures !HasBit(OuterBits(i, e, t), Pow2(t))
    ensures !HasBit(OuterBits(i, e, t), Pow2(e - 1 - t))
    ensures !HasBit(OuterBits(i, e, t) + Pow2(t), Pow2(e - 1 - t))
  {
    hide HasBit, Low, High;
    var u := e - 1 - t;
    var a, b := Pow2(t), Pow2(u);
    var l, h := Rev(Low(i, a), t), Rev(High(i, Pow2(e - t)), t);
    RevBound(High(i, Pow2(e - t)), t);
    Pow2Monotone(t, u);
    ShlTimes(l, e - t);
    MulAssociates(b, 2, l);
    MulAssociates(2, b, l);
    ClearBit(OuterBits(i, e, t), b, l, h);
    ClearBit(OuterBits(i, e, t) + a, b, l, h + a);
    var m := Shl(l, e - 1 - 2 * t);
    ShlTwice(l, e - 1 - 2 * t, t + 1);
    ShlTimes(m, t + 1);
    MulAssociates(a, 2, m);
    MulAssociates(2, a, m);
    ClearBit(OuterBits(i, e, t), a, m, h);
  }

  lemma {:induction false} ShlTwice(x: nat, m: nat, n: nat)
    ensures Shl(Shl(x, m), n) == Shl(x, m + n)
  {
    if n > 0 { ShlTwice(x, m, n - 1); }
  }

  lemma RoundStep(i: nat, e: nat, t: nat)
    requires 2 * t + 1 < e && i < Pow2(e)
    ensures Round(i, OuterBits(i, e, t), Pow2(t), Pow2(e - 1 - t)) == OuterBits(i, e, t + 1)
  {
    hide OuterBits, Rev, HasBit;
    NextOuterBits(i, e, t);
    OuterBitsClear(i, e, t);
  }

  /** In the last round of an odd number of bits both pointers meet. */
  lemma MiddleRound(i: nat, t: nat)
    requires i < Pow2(2 * t + 1)
    ensures Round(i, OuterBits(i, 2 * t + 1, t), Pow2(t), Pow2(t)) == Rev(i, 2 * t + 1)
  {
    hide HasBit, Low, High;
    var a := Pow2(t);
    var l, h := Rev(Low(i, a), t), Rev(High(i, Pow2(t + 1)), t);
    SplitAt(i, t);
    RevConcat(Low(i, a), t, High(i, a), t + 1);
    NextHigh(i, a, t);
    RevBound(High(i, Pow2(t + 1)), t);
    ShlTimes(l, t + 1);
    MulAssociates(a, 2, l);
    MulAssociates(2, a, l);
    ClearBit(OuterBits(i, 2 * t + 1, t), a, l, h);
  }

  method ReverseIndex(i: nat, size: nat, ghost e: nat) returns (k: nat)
    requires size == Pow2(e) && i < size
    ensures k == Rev(i, e)
  {
    hide OuterBits, Rev, HasBit;
    k := 0;
    var b := size / 2;
    var a := 1;
    ghost var t: nat := 0;
    FirstRound(i, e);
    while b >= a
      invariant a == Pow2(t) && t <= e
      invariant b == if t < e then Pow2(e - 1 - t) else 0
      invariant 2 * t <= e + 1
      invariant k == if 2 * t <= e then OuterBits(i, e, t) else Rev(i, e)
      decreases e - t
    {
      if 2 * t >= e { Overlap(e, t); }
      if 2 * t + 1 < e { RoundStep(i, e, t); } else { MiddleRound(i, t); }
      if HasBit(i, b) {
        k := SetBit(k, a);
      }
      if HasBit(i, a) {
        k := SetBit(k, b);
      }
      b := b / 2;
      a := a * 2;
      t := t + 1;
    }
    if t < e && 2 * t < e {
      if t < e - 1 - t { Pow2Monotone(t, e - 1 - t); }
      assert false;
    }
    if 2 * t == e { OuterBitsDone(i, t); }
  }

  lemma FirstRound(i: nat, e: nat)
    requires i < Pow2(e)
    ensures OuterBits(i, e, 0) == 0
    ensures Pow2(e) / 2 == if e > 0 then Pow2(e - 1) else 0
  {
    ShlPow2(0, e);
  }

  /** The pointers have not crossed while b >= a. */
  lemma Overlap(e: nat, t: nat)
    requires e <= 2 * t && t < e
    ensures Pow2(e - 1 - t) < Pow2(t)
  {
    Pow2Monotone(e - 1 - t, t);
  }

  // ---------------------------------------------------------------- the permutation in place

  /** Every index below i, and its mirror image, is in place. */
  ghost predicate Swapped(now: seq<Complex>, xs: seq<Complex>, e: nat, i: nat)
    requires |now| == |xs| == Pow2(e)
  {
    forall j :: 0 <= j < |now| ==> InPlace(now, xs, e, i, j)
  }

  predicate InPlace(now: seq<Complex>, xs: seq<Complex>, e: nat, i: nat, j: nat)
    requires |now| == |xs| == Pow2(e) && j < |now|
  {
    RevBound(j, e);
    now[j] == if j < i || Rev(j, e) < i then xs[Rev(j, e)] else xs[j]
  }

  function SwapIfLess(now: seq<Complex>, i: nat, k: nat): (ys: seq<Complex>)
    requires i < |now| && k < |now|
    ensures |ys| == |now|
  {
    if i < k then now[k := now[i]][i := now[k]] else now
  }

  lemma SwapStep(now: seq<Complex>, xs: seq<Complex>, e: nat, i: nat, k: nat)
    requires |now| == |xs| == Pow2(e) && i < |now| && k == Rev(i, e) < |now|
    requires Swapped(now, xs, e, i)
    ensures Swapped(SwapIfLess(now, i, k), xs, e, i + 1)
  {
    hide Rev;
    RevInvolution(i, e);
    var i' := i + 1;
    forall j | 0 <= j < |now| ensures InPlace(SwapIfLess(now, i, k), xs, e, i', j) {
      assert InPlace(now, xs, e, i, j) && InPlace(now, xs, e, i, i) && InPlace(now, xs, e, i, k);
      RevInvolution(j, e);
    }
  }

  lemma PermutationIsShuffled(ys: seq<Complex>, xs: seq<Complex>, e: nat)
    requires |ys| == |xs| == Pow2(e)
    requires Swapped(ys, xs, e, |xs|)
    ensures ys == Shuffled(xs, e)
  {
    hide Rev;
    forall j | 0 <= j < |xs| ensures ys[j] == Shuffled(xs, e)[j] {
      assert InPlace(ys, xs, e, |xs|, j);
      ShuffledAt(xs, e, j);
    }
  }

  /** Each pair is swapped once, when its smaller index is reached. */
  method BitReverse(output: array<Complex>, ghost e: nat)
    requires output.Length == Pow2(e)
    modifies output
    ensures output[..] == Shuffled(old(output[..]), e)
  {
    hide Rev, Swapped;
    ghost var xs := output[..];
    SwapStart(xs, e);
    var size := output.Length;
    for i := 0 to size
      invariant Swapped(output[..], xs, e, i)
    {
      ghost var now := output[..];
      RevBound(i, e);
      SwapStep(now, xs, e, i, Rev(i, e));
      var k := ReverseIndex(i, size, e);
      if i < k {
        var tmp := output[k];
        output[k] := output[i];
        output[i] := tmp;
      }
      assert output[..] == SwapIfLess(now, i, k);
    }
    PermutationIsShuffled(output[..], xs, e);
  }

  lemma SwapStart(xs: seq<Complex>, e: nat)
    requires |xs| == Pow2(e)
    ensures Swapped(xs, xs, e, 0)
  {
  }
}
