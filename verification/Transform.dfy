/** The discrete Fourier transform, its decimation in time, and its inverse. */
module Transform {
  import opened ComplexNumbers

  function Pow2(e: nat): (p: nat)
    ensures p > 0
  {
    if e == 0 then 1 else 2 * Pow2(e - 1)
  }

  /** The transform: output k is the sum of xs[j] * w^(jk). */
  function Dft(xs: seq<Complex>, w: Complex): (ys: seq<Complex>)
    ensures |ys| == |xs|
  {
    seq(|xs|, k requires 0 <= k < |xs| => Evaluate(xs, Power(w, k)))
  }

  function DftSum(xs: seq<Complex>, w: Complex, k: nat, n: nat): Complex
    requires n <= |xs|
  {
    if n == 0 then ZERO else Plus(DftSum(xs, w, k, n - 1), Times(xs[n - 1], Power(w, (n - 1) * k)))
  }

  lemma {:induction false} DftIsSum(xs: seq<Complex>, w: Complex, k: nat)
    requires k < |xs|
    ensures Dft(xs, w)[k] == DftSum(xs, w, k, |xs|)
  {
    assert xs[..|xs|] == xs;
    EvaluateIsPowerSum(xs, Power(w, k), |xs|);
    PowerSumIsDftSum(xs, w, k, |xs|);
  }

  lemma {:induction false} PowerSumIsDftSum(xs: seq<Complex>, w: Complex, k: nat, n: nat)
    requires n <= |xs|
    ensures PowerSum(xs, Power(w, k), n) == DftSum(xs, w, k, n)
  {
    hide Plus, Times;
    if n > 0 {
      PowerSumIsDftSum(xs, w, k, n - 1);
      PowerMultiply(w, k, n - 1);
      assert (n - 1) * k == k * (n - 1);
    }
  }

  // ---------------------------------------------------------------- roots of unity

  /** W[s] is a root of unity of order 2^s, the square of the next one. */
  ghost predicate RootChain(W: seq<Complex>) {
    && |W| > 0 && W[0] == ONE
    && (|W| > 1 ==> W[1] == Neg(ONE))
    && forall s :: 1 <= s < |W| ==> IsSquareRoot(W, s)
  }

  predicate IsSquareRoot(W: seq<Complex>, s: nat)
    requires 1 <= s < |W|
  {
    Times(W[s], W[s]) == W[s - 1]
  }

  lemma {:induction false} HalfTurn(W: seq<Complex>, s: nat)
    requires RootChain(W) && 1 <= s < |W|
    ensures Power(W[s], Pow2(s - 1)) == Neg(ONE)
  {
    hide Times, Neg;
    if s == 1 {
      TimesOne(W[1]);
      assert Power(W[1], 1) == Times(W[1], Power(W[1], 0));
    } else {
      HalfTurn(W, s - 1);
      assert IsSquareRoot(W, s);
      PowerSquare(W[s], Pow2(s - 2));
    }
  }

  lemma FullTurn(w: Complex, h: nat)
    requires Power(w, h) == Neg(ONE)
    ensures Power(w, 2 * h) == ONE
  {
    PowerAdd(w, h, h);
  }

  // ---------------------------------------------------------------- decimation

  function Even(xs: seq<Complex>): (ys: seq<Complex>)
    ensures |ys| == |xs| / 2
  {
    seq(|xs| / 2, i requires 0 <= i < |xs| / 2 => xs[2 * i])
  }

  function Odd(xs: seq<Complex>): (ys: seq<Complex>)
    ensures |ys| == |xs| / 2
  {
    seq(|xs| / 2, i requires 0 <= i < |xs| / 2 => xs[2 * i + 1])
  }

  lemma {:induction false} EvaluateSplit(xs: seq<Complex>, r: Complex)
    requires |xs| % 2 == 0
    ensures Evaluate(xs, r) == Plus(Evaluate(Even(xs), Times(r, r)), Times(r, Evaluate(Odd(xs), Times(r, r))))
    decreases |xs|
  {
    hide Times, Plus;
    if |xs| == 0 {
      TimesOne(r);
      TimesOne(ZERO);
    } else {
      var ys := xs[2..];
      EvaluateSplit(ys, r);
      assert Even(xs)[1..] == Even(ys);
      assert Odd(xs)[1..] == Odd(ys);
      assert xs[1..][1..] == ys;
      var rr := Times(r, r);
      RegroupSplit(xs[0], xs[1], r, Evaluate(Even(ys), rr), Evaluate(Odd(ys), rr));
    }
  }

  lemma RegroupSplit(a: Complex, b: Complex, r: Complex, p: Complex, q: Complex)
    ensures Plus(a, Times(r, Plus(b, Times(r, Plus(p, Times(r, q))))))
         == Plus(Plus(a, Times(Times(r, r), p)), Times(r, Plus(b, Times(Times(r, r), q))))
  {
    hide Times, Plus;
    var x, y := Times(r, q), Times(Times(r, r), p);
    TimesDistributes(r, p, x);
    TimesDistributes(r, b, Plus(Times(r, p), Times(r, x)));
    TimesDistributes(r, Times(r, p), Times(r, x));
    TimesAssociates(r, r, p);
    TimesAssociates(r, r, q);
    TimesDistributes(r, b, Times(Times(r, r), q));
    Shuffle(a, Times(r, b), y, Times(r, Times(r, x)));
  }

  lemma Shuffle(a: Complex, b: Complex, y: Complex, z: Complex)
    ensures Plus(a, Plus(b, Plus(y, z))) == Plus(Plus(a, y), Plus(b, z))
  {
  }

  /** The two outputs of a butterfly. */
  lemma Butterfly(xs: seq<Complex>, w: Complex, h: nat, k: nat)
    requires |xs| == 2 * h && k < h && Power(w, h) == Neg(ONE)
    ensures var ww := Times(w, w);
      var t := Times(Power(w, k), Dft(Odd(xs), ww)[k]);
      && Dft(xs, w)[k] == Plus(Dft(Even(xs), ww)[k], t)
      && Dft(xs, w)[k + h] == Minus(Dft(Even(xs), ww)[k], t)
  {
    hide Times, Plus, Minus, Neg;
    PowerSquare(w, k);
    EvaluateSplit(xs, Power(w, k));
    PowerAdd(w, h, k);
    var p := Power(w, k);
    TimesNeg(ONE, p);
    TimesOne(p);
    assert Power(w, k + h) == Neg(p);
    TimesNeg(p, Neg(p));
    TimesNeg(p, p);
    EvaluateSplit(xs, Neg(p));
    TimesNeg(p, Evaluate(Odd(xs), Times(p, p)));
    TimesNeg(Evaluate(Even(xs), Times(p, p)), Times(p, Evaluate(Odd(xs), Times(p, p))));
    NegIsMinus(Evaluate(Even(xs), Times(p, p)), Times(p, Evaluate(Odd(xs), Times(p, p))));
  }

  lemma NegIsMinus(a: Complex, b: Complex)
    ensures Plus(a, Neg(b)) == Minus(a, b)
  {
  }

  // ---------------------------------------------------------------- stages

  /** What the array holds after stage s: every block of 2^s elements is the
      transform of its decimated subsequence. */
  function Level(xs: seq<Complex>, W: seq<Complex>, e: nat, s: nat): (ys: seq<Complex>)
    requires |xs| == Pow2(e) && s <= e < |W|
    ensures |ys| == |xs|
    decreases e
  {
    if s == e then Dft(xs, W[s]) else Level(Even(xs), W, e - 1, s) + Level(Odd(xs), W, e - 1, s)
  }

  /** The order in which the first stage needs the input. */
  function Shuffled(xs: seq<Complex>, e: nat): (ys: seq<Complex>)
    requires |xs| == Pow2(e)
    ensures |ys| == |xs|
    decreases e
  {
    if e == 0 then xs else Shuffled(Even(xs), e - 1) + Shuffled(Odd(xs), e - 1)
  }

  lemma DftOne(xs: seq<Complex>, w: Complex)
    requires |xs| == 1
    ensures Dft(xs, w) == xs
  {
    hide Times, Plus;
    assert xs[1..] == [];
    TimesOne(Power(w, 0));
    TimesOne(xs[0]);
    assert Evaluate(xs[1..], Power(w, 0)) == ZERO;
    assert Dft(xs, w)[0] == Evaluate(xs, Power(w, 0)) == xs[0];
  }

  lemma {:induction false} LevelZero(xs: seq<Complex>, W: seq<Complex>, e: nat)
    requires |xs| == Pow2(e) && e < |W|
    ensures Level(xs, W, e, 0) == Shuffled(xs, e)
    decreases e
  {
    hide Times, Plus;
    if e == 0 {
      DftOne(xs, W[0]);
    } else {
      LevelZero(Even(xs), W, e - 1);
      LevelZero(Odd(xs), W, e - 1);
    }
  }

  /** i is the start of a block of 2^s in an array of 2^e. */
  predicate Aligned(e: nat, s: nat, i: nat)
    requires s <= e
  {
    if s == e then i == 0
    else if i < Pow2(e - 1) then Aligned(e - 1, s, i)
    else Aligned(e - 1, s, i - Pow2(e - 1))
  }

  lemma {:induction false} AlignedStart(e: nat, s: nat)
    requires s <= e
    ensures Aligned(e, s, 0)
  {
    if s < e { AlignedStart(e - 1, s); }
  }

  lemma {:induction false} AlignedNext(e: nat, s: nat, i: nat)
    requires s <= e && Aligned(e, s, i)
    ensures i + Pow2(s) <= Pow2(e)
    ensures i + Pow2(s) < Pow2(e) ==> Aligned(e, s, i + Pow2(s))
  {
    if s < e {
      if i < Pow2(e - 1) {
        AlignedNext(e - 1, s, i);
        if i + Pow2(s) == Pow2(e - 1) { AlignedStart(e - 1, s); }
      } else {
        AlignedNext(e - 1, s, i - Pow2(e - 1));
      }
    }
  }

  /** The decimated subsequence behind the block at i. */
  function Block(xs: seq<Complex>, e: nat, s: nat, i: nat): (b: seq<Complex>)
    requires |xs| == Pow2(e) && s <= e && Aligned(e, s, i)
    ensures |b| == Pow2(s)
    decreases e
  {
    if s == e then xs
    else if i < Pow2(e - 1) then Block(Even(xs), e - 1, s, i)
    else Block(Odd(xs), e - 1, s, i - Pow2(e - 1))
  }

  lemma PowStep(e: nat)
    ensures e > 0 ==> Pow2(e) == 2 * Pow2(e - 1)
  {
  }

  lemma {:induction false} LevelBlock(xs: seq<Complex>, W: seq<Complex>, e: nat, s: nat, i: nat)
    requires |xs| == Pow2(e) && s <= e < |W| && Aligned(e, s, i)
    ensures i + Pow2(s) <= Pow2(e)
    ensures Level(xs, W, e, s)[i..i + Pow2(s)] == Dft(Block(xs, e, s, i), W[s])
    decreases e
  {
    hide Dft, Even, Odd, Pow2;
    PowStep(e);
    AlignedNext(e, s, i);
    if s < e {
      var h := Pow2(e - 1);
      var l, r := Level(Even(xs), W, e - 1, s), Level(Odd(xs), W, e - 1, s);
      assert Level(xs, W, e, s) == l + r;
      if i < h {
        LevelBlock(Even(xs), W, e - 1, s, i);
        SliceLeft(l, r, i, i + Pow2(s));
      } else {
        LevelBlock(Odd(xs), W, e - 1, s, i - h);
        SliceRight(l, r, i, i + Pow2(s));
      }
    }
  }

  /** Two stages of the same block, at the outermost level. */
  lemma TopHalves(xs: seq<Complex>, W: seq<Complex>, e: nat)
    requires |xs| == Pow2(e) && 1 <= e < |W|
    ensures |Even(xs)| == |Odd(xs)| == Pow2(e - 1)
    ensures Level(xs, W, e, e - 1)[0..Pow2(e)] == Dft(Even(xs), W[e - 1]) + Dft(Odd(xs), W[e - 1])
  {
    hide Dft, Even, Odd;
    var l := Level(xs, W, e, e - 1);
    assert l == Level(Even(xs), W, e - 1, e - 1) + Level(Odd(xs), W, e - 1, e - 1);
    assert l[0..Pow2(e)] == l;
  }

  /** Before stage s the block at i holds the transforms of the even and of the
      odd half of the same subsequence. */
  lemma {:induction false} LevelHalves(xs: seq<Complex>, W: seq<Complex>, e: nat, s: nat, i: nat)
    requires |xs| == Pow2(e) && 1 <= s <= e < |W| && Aligned(e, s, i)
    ensures i + Pow2(s) <= Pow2(e)
    ensures Level(xs, W, e, s - 1)[i..i + Pow2(s)]
         == Dft(Even(Block(xs, e, s, i)), W[s - 1]) + Dft(Odd(Block(xs, e, s, i)), W[s - 1])
    decreases e
  {
    hide Dft, Even, Odd, Pow2;
    PowStep(e);
    AlignedNext(e, s, i);
    if s < e {
      var h := Pow2(e - 1);
      var l, r := Level(Even(xs), W, e - 1, s - 1), Level(Odd(xs), W, e - 1, s - 1);
      assert Level(xs, W, e, s - 1) == l + r;
      if i < h {
        LevelHalves(Even(xs), W, e - 1, s, i);
        SliceLeft(l, r, i, i + Pow2(s));
      } else {
        LevelHalves(Odd(xs), W, e - 1, s, i - h);
        SliceRight(l, r, i, i + Pow2(s));
      }
    } else {
      TopHalves(xs, W, e);
    }
  }

  lemma SliceLeft(a: seq<Complex>, b: seq<Complex>, i: nat, j: nat)
    requires i <= j <= |a|
    ensures (a + b)[i..j] == a[i..j]
  {
  }

  lemma SliceRight(a: seq<Complex>, b: seq<Complex>, i: nat, j: nat)
    requires |a| <= i <= j <= |a| + |b|
    ensures (a + b)[i..j] == b[i - |a|..j - |a|]
  {
  }

  // ---------------------------------------------------------------- the inverse

  function Scale(xs: seq<Complex>, c: Complex): (ys: seq<Complex>)
    ensures |ys| == |xs|
  {
    seq(|xs|, i requires 0 <= i < |xs| => Times(c, xs[i]))
  }

  /** xs[k] * w^k. */
  function Twist(xs: seq<Complex>, w: Complex): (ys: seq<Complex>)
    ensures |ys| == |xs|
  {
    seq(|xs|, k requires 0 <= k < |xs| => Times(Power(w, k), xs[k]))
  }

  function Sums(a: seq<Complex>, b: seq<Complex>): (ys: seq<Complex>)
    requires |a| == |b|
    ensures |ys| == |a|
  {
    seq(|a|, i requires 0 <= i < |a| => Plus(a[i], b[i]))
  }

  function Differences(a: seq<Complex>, b: seq<Complex>): (ys: seq<Complex>)
    requires |a| == |b|
    ensures |ys| == |a|
  {
    seq(|a|, i requires 0 <= i < |a| => Minus(a[i], b[i]))
  }

  lemma {:induction false} EvaluateSums(a: seq<Complex>, b: seq<Complex>, r: Complex)
    requires |a| == |b|
    ensures Evaluate(Sums(a, b), r) == Plus(Evaluate(a, r), Evaluate(b, r))
    ensures Evaluate(Differences(a, b), r) == Minus(Evaluate(a, r), Evaluate(b, r))
  {
    hide Times, Plus, Minus;
    if |a| == 0 {
      TimesOne(ZERO);
    } else {
      EvaluateSums(a[1..], b[1..], r);
      assert Sums(a, b)[1..] == Sums(a[1..], b[1..]);
      assert Differences(a, b)[1..] == Differences(a[1..], b[1..]);
      TimesDistributes(r, Evaluate(a[1..], r), Evaluate(b[1..], r));
      Interleave(a[0], b[0], Times(r, Evaluate(a[1..], r)), Times(r, Evaluate(b[1..], r)));
    }
  }

  lemma Interleave(a: Complex, b: Complex, x: Complex, y: Complex)
    ensures Plus(Plus(a, b), Plus(x, y)) == Plus(Plus(a, x), Plus(b, y))
    ensures Plus(Minus(a, b), Minus(x, y)) == Minus(Plus(a, x), Plus(b, y))
  {
  }

  lemma {:induction false} EvaluateScale(xs: seq<Complex>, c: Complex, r: Complex)
    ensures Evaluate(Scale(xs, c), r) == Times(c, Evaluate(xs, r))
  {
    hide Times, Plus;
    TimesOne(c);
    if |xs| > 0 {
      var v := Evaluate(xs[1..], r);
      EvaluateScale(xs[1..], c, r);
      assert Scale(xs, c)[1..] == Scale(xs[1..], c);
      TimesDistributes(c, xs[0], Times(r, v));
      TimesAssociates(c, r, v);
      TimesCommutes(c, r);
      TimesAssociates(r, c, v);
    }
  }

  /** Evaluating the twisted coefficients at r is evaluating at w*r. */
  lemma {:induction false} EvaluateTwist(xs: seq<Complex>, w: Complex, r: Complex)
    ensures Evaluate(Twist(xs, w), r) == Evaluate(xs, Times(w, r))
  {
    hide Times, Plus;
    if |xs| > 0 {
      var t := xs[1..];
      EvaluateTwist(t, w, r);
      EvaluateScale(Twist(t, w), w, r);
      assert Twist(xs, w)[1..] == Scale(Twist(t, w), w) by {
        forall k | 0 <= k < |t| ensures Twist(xs, w)[k + 1] == Scale(Twist(t, w), w)[k] {
          TimesAssociates(w, Power(w, k), t[k]);
        }
      }
      TimesOne(xs[0]);
      TimesCommutes(w, r);
      TimesAssociates(r, w, Evaluate(t, Times(w, r)));
    }
  }

  /** The transform of xs, half by half. */
  lemma DftHalves(xs: seq<Complex>, w: Complex, h: nat)
    requires |xs| == 2 * h && Power(w, h) == Neg(ONE)
    ensures var ww := Times(w, w);
      var E, T := Dft(Even(xs), ww), Twist(Dft(Odd(xs), ww), w);
      Dft(xs, w) == Sums(E, T) + Differences(E, T)
  {
    hide Times, Plus, Minus, Neg, Power, Evaluate;
    var ww := Times(w, w);
    var E, T := Dft(Even(xs), ww), Twist(Dft(Odd(xs), ww), w);
    forall k | 0 <= k < h
      ensures Dft(xs, w)[k] == Sums(E, T)[k] && Dft(xs, w)[k + h] == Differences(E, T)[k]
    {
      Butterfly(xs, w, h, k);
    }
  }

  function Times2(a: Complex): Complex {
    Plus(a, a)
  }

  /** Output 2l, and output 2l + 1, of a transform of Sums(E,T) + Differences(E,T). */
  lemma EvaluateHalves(E: seq<Complex>, T: seq<Complex>, r: Complex, h: nat)
    requires |E| == |T| == h
    ensures Power(r, h) == ONE ==> Evaluate(Sums(E, T) + Differences(E, T), r) == Times2(Evaluate(E, r))
    ensures Power(r, h) == Neg(ONE) ==> Evaluate(Sums(E, T) + Differences(E, T), r) == Times2(Evaluate(T, r))
  {
    hide Times, Plus, Minus, Neg, Times2, Evaluate, Power;
    EvaluateConcat(Sums(E, T), Differences(E, T), r);
    EvaluateSums(E, T, r);
    var x, y := Evaluate(E, r), Evaluate(T, r);
    TimesOne(Minus(x, y));
    TimesNeg(ONE, Minus(x, y));
    SumAndDifference(x, y);
  }

  lemma SumAndDifference(x: Complex, y: Complex)
    ensures Plus(Plus(x, y), Minus(x, y)) == Times2(x)
    ensures Plus(Plus(x, y), Neg(Minus(x, y))) == Times2(y)
  {
  }

  lemma InverseOutputs(xs: seq<Complex>, w: Complex, v: Complex, h: nat, l: nat)
    requires |xs| == 2 * h && l < h && Times(w, v) == ONE
    requires Power(w, h) == Neg(ONE) && Power(v, h) == Neg(ONE)
    ensures var ww, vv := Times(w, w), Times(v, v);
      && Dft(Dft(xs, w), v)[2 * l] == Times2(Dft(Dft(Even(xs), ww), vv)[l])
      && Dft(Dft(xs, w), v)[2 * l + 1] == Times2(Dft(Dft(Odd(xs), ww), vv)[l])
  {
    hide Times, Plus, Minus, Neg, Times2, Evaluate;
    var ww, vv := Times(w, w), Times(v, v);
    var E, O := Dft(Even(xs), ww), Dft(Odd(xs), ww);
    DftHalves(xs, w, h);
    RootPowers(v, h, l);
    PowerSquare(v, l);
    EvaluateHalves(E, Twist(O, w), Power(v, 2 * l), h);
    EvaluateHalves(E, Twist(O, w), Power(v, 2 * l + 1), h);
    EvaluateTwist(O, w, Power(v, 2 * l + 1));
    assert Power(v, 2 * l + 1) == Times(v, Power(v, 2 * l));
    TimesAssociates(w, v, Power(v, 2 * l));
    TimesOne(Power(v, 2 * l));
  }

  lemma RootPowers(v: Complex, h: nat, l: nat)
    requires Power(v, h) == Neg(ONE)
    ensures Power(Power(v, 2 * l), h) == ONE && Power(Power(v, 2 * l + 1), h) == Neg(ONE)
  {
    hide Times, Neg, Power;
    FullTurn(v, h);
    PowerMultiply(v, 2 * h, l);
    PowerMultiply(v, 2 * l, h);
    TurnCounts(h, l);
    PowerOne(l);
    PowerMultiply(v, 2 * l + 1, h);
    PowerAdd(v, 2 * l * h, h);
    TimesOne(Neg(ONE));
  }

  lemma TurnCounts(h: nat, l: nat)
    ensures 2 * h * l == 2 * l * h && (2 * l + 1) * h == 2 * l * h + h
  {
  }

  /** The inverse transform undoes the transform up to the factor 2^e. */
  lemma {:induction false} DftInverse(xs: seq<Complex>, W: seq<Complex>, V: seq<Complex>, e: nat)
    requires |xs| == Pow2(e) && e < |W| == |V| && RootChain(W) && RootChain(V)
    requires forall s :: 0 <= s < |W| ==> Times(W[s], V[s]) == ONE
    ensures Dft(Dft(xs, W[e]), V[e]) == Scale(xs, Real(Pow2(e) as real))
    decreases e
  {
    hide Dft, Times, Neg, Times2;
    if e == 0 {
      DftOne(xs, W[e]);
      DftOne(xs, V[e]);
      TimesOne(xs[0]);
      assert Scale(xs, Real(1.0)) == xs;
    } else {
      DftInverse(Even(xs), W, V, e - 1);
      DftInverse(Odd(xs), W, V, e - 1);
      HalfTurn(W, e);
      HalfTurn(V, e);
      assert IsSquareRoot(W, e) && IsSquareRoot(V, e);
      var h := Pow2(e - 1);
      var ys := Dft(Dft(xs, W[e]), V[e]);
      forall k | 0 <= k < |xs| ensures ys[k] == Scale(xs, Real(Pow2(e) as real))[k] {
        InverseOutputs(xs, W[e], V[e], h, k / 2);
        assert xs[k] == if k % 2 == 0 then Even(xs)[k / 2] else Odd(xs)[k / 2];
        DoubleScale(h as real, xs[k]);
      }
    }
  }

  lemma DoubleScale(h: real, x: Complex)
    ensures Times2(Times(Real(h), x)) == Times(Real(2.0 * h), x)
  {
  }

  // ---------------------------------------------------------------- inverse roots

  function Inverses(W: seq<Complex>): (V: seq<Complex>)
    ensures |V| == |W|
  {
    seq(|W|, s requires 0 <= s < |W| => Inverse(W[s]))
  }

  lemma {:induction false} RootNorm(W: seq<Complex>, s: nat)
    requires RootChain(W) && s < |W|
    ensures Norm(W[s]) != 0.0
  {
    hide Times;
    if s > 0 {
      RootNorm(W, s - 1);
      assert IsSquareRoot(W, s);
      NormTimes(W[s], W[s]);
      NonzeroFactor(Norm(W[s]));
    }
  }

  lemma NonzeroFactor(x: real)
    ensures x * x != 0.0 ==> x != 0.0
  {
  }

  lemma InverseUnique(a: Complex, b: Complex, c: Complex)
    requires Times(a, b) == ONE && Times(a, c) == ONE
    ensures b == c
  {
    hide Times;
    TimesOne(b);
    TimesOne(c);
    TimesAssociates(b, a, c);
    TimesCommutes(a, b);
  }

  lemma InverseChain(W: seq<Complex>)
    requires RootChain(W)
    ensures RootChain(Inverses(W))
    ensures forall s :: 0 <= s < |W| ==> Times(W[s], Inverses(W)[s]) == ONE
  {
    hide Times, Inverse, Neg, Norm;
    var V := Inverses(W);
    forall s | 0 <= s < |W| ensures Times(W[s], V[s]) == ONE {
      RootNorm(W, s);
      InverseTimes(W[s]);
    }
    SelfInverses();
    InverseUnique(ONE, V[0], ONE);
    if |W| > 1 { InverseUnique(Neg(ONE), V[1], Neg(ONE)); }
    forall s | 1 <= s < |W| ensures IsSquareRoot(V, s) {
      assert IsSquareRoot(W, s);
      TimesExchange(W[s], W[s], V[s], V[s]);
      InverseUnique(W[s - 1], Times(V[s], V[s]), V[s - 1]);
    }
  }

  lemma SelfInverses()
    ensures Times(ONE, ONE) == ONE && Times(Neg(ONE), Neg(ONE)) == ONE
  {
    hide Times, Neg;
    TimesOne(ONE);
    TimesNeg(ONE, Neg(ONE));
    TimesOne(Neg(ONE));
    TimesNeg(ONE, ONE);
  }
}
