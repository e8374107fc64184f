/** The in-place fast Fourier transform of cotave/FFT.ipp over exact complex
    numbers. The cosines and sines of the twiddle factors are a parameter: W[s]
    is the factor of the stage with blocks of 2^s elements. */
module FFTModule {
  import opened ComplexNumbers
  import opened Transform
  import opened BitReversal

  function Real2Complex(xs: seq<real>): (ys: seq<Complex>)
    ensures |ys| == |xs|
  {
    seq(|xs|, i requires 0 <= i < |xs| => Complex(xs[i], 0.0))
  }

  /** Both halves of a block after its butterflies. */
  function Butterflies(a: seq<Complex>, b: seq<Complex>, w: Complex): (ys: seq<Complex>)
    requires |a| == |b|
    ensures |ys| == 2 * |a|
  {
    Sums(a, Twist(b, w)) + Differences(a, Twist(b, w))
  }

  /** The twiddle factors a calculation uses. */
  function Twiddles(W: seq<Complex>, isInverse: bool): (V: seq<Complex>)
    ensures |V| == |W|
  {
    if isInverse then Inverses(W) else W
  }

  /** Blocks before i are at stage s, the others still at stage s - 1. */
  function Mixed(xs: seq<Complex>, V: seq<Complex>, e: nat, s: nat, i: nat): (ys: seq<Complex>)
    requires |xs| == Pow2(e) && 1 <= s <= e < |V| && i <= |xs|
    ensures |ys| == |xs|
  {
    Level(xs, V, e, s)[..i] + Level(xs, V, e, s - 1)[i..]
  }

  /** d with the butterflies of the block of 2h elements at i applied. */
  function BlockApplied(d: seq<Complex>, i: nat, h: nat, w: Complex): (ys: seq<Complex>)
    requires i + 2 * h <= |d|
    ensures |ys| == |d|
  {
    d[..i] + Butterflies(d[i..i + h], d[i + h..i + 2 * h], w) + d[i + 2 * h..]
  }

  /** One block: applying its butterflies moves it to stage s. */
  lemma BlockStep(xs: seq<Complex>, V: seq<Complex>, e: nat, s: nat, i: nat, h: nat)
    requires |xs| == Pow2(e) && 1 <= s <= e < |V| && RootChain(V)
    requires Aligned(e, s, i) && h == Pow2(s - 1) && i + 2 * h <= Pow2(e)
    ensures BlockApplied(Mixed(xs, V, e, s, i), i, h, V[s]) == Mixed(xs, V, e, s, i + 2 * h)
  {
    hide Level, Dft, Butterflies, Block, RootChain, Even, Odd;
    LevelBlock(xs, V, e, s, i);
    LevelHalves(xs, V, e, s, i);
    var b := Block(xs, e, s, i);
    BlockTransform(b, V, s);
    SpliceBlock(Level(xs, V, e, s - 1), Level(xs, V, e, s), i, h,
                Dft(Even(b), V[s - 1]), Dft(Odd(b), V[s - 1]),
                Butterflies(Dft(Even(b), V[s - 1]), Dft(Odd(b), V[s - 1]), V[s]));
  }

  lemma ChainStep(V: seq<Complex>, s: nat)
    requires RootChain(V) && 1 <= s < |V|
    ensures Times(V[s], V[s]) == V[s - 1]
  {
    assert IsSquareRoot(V, s);
  }

  lemma BlockTransform(b: seq<Complex>, V: seq<Complex>, s: nat)
    requires RootChain(V) && 1 <= s < |V| && |b| == Pow2(s)
    ensures Dft(b, V[s]) == Butterflies(Dft(Even(b), V[s - 1]), Dft(Odd(b), V[s - 1]), V[s])
  {
    hide Dft, RootChain, Times, Neg, Even, Odd, Sums, Differences, Twist, Power;
    HalfTurn(V, s);
    ChainStep(V, s);
    DftHalves(b, V[s], Pow2(s - 1));
  }

  lemma SpliceBlock(before: seq<Complex>, after: seq<Complex>, i: nat, h: nat,
                    p: seq<Complex>, q: seq<Complex>, r: seq<Complex>)
    requires |before| == |after| && i + 2 * h <= |before| && |p| == |q| == h && |r| == 2 * h
    requires before[i..i + 2 * h] == p + q && after[i..i + 2 * h] == r
    ensures var d := after[..i] + before[i..];
      && d[i..i + h] == p && d[i + h..i + 2 * h] == q
      && d[..i] + r + d[i + 2 * h..] == after[..i + 2 * h] + before[i + 2 * h..]
  {
    var d := after[..i] + before[i..];
    assert d[i..i + 2 * h] == p + q;
    assert d[i..i + h] == d[i..i + 2 * h][..h];
    assert d[i + h..i + 2 * h] == d[i..i + 2 * h][h..];
    assert after[..i + 2 * h] == after[..i] + r;
  }

  class FFT {
    const exponent: nat
    const d: array<Complex>
    var normalizedFlag: bool

    ghost predicate Valid() {
      d.Length == Pow2(exponent)
    }

    /** Copies the input into the buffer. */
    method Load(input: seq<Complex>)
      requires |input| == d.Length
      modifies d
      ensures d[..] == input
    {
      for i := 0 to d.Length
        invariant forall j :: 0 <= j < i ==> d[j] == input[j]
      {
        d[i] := input[i];
      }
    }

    /** The transform of real data. */
    constructor FromReals(exponent: nat, input: seq<real>, W: seq<Complex>)
      requires |input| == Pow2(exponent) && exponent < |W| && RootChain(W)
      ensures Valid() && fresh(d) && this.exponent == exponent && !normalizedFlag
      ensures d[..] == Dft(Real2Complex(input), W[exponent])
    {
      this.exponent := exponent;
      d := new Complex[|input|];
      normalizedFlag := false;
      new;
      hide Dft, RootChain;
      for i := 0 to d.Length
        invariant !normalizedFlag
        invariant forall j :: 0 <= j < i ==> d[j] == Complex(input[j], 0.0)
      {
        d[i] := Complex(input[i], 0.0);
      }
      ghost var xs := Real2Complex(input);
      assert d[..] == xs;
      Calculate(false, W);
    }

    /** The unscaled inverse calculation, on which IFFT is built. */
    constructor FromComplex(exponent: nat, input: seq<Complex>, W: seq<Complex>)
      requires |input| == Pow2(exponent) && exponent < |W| && RootChain(W)
      ensures Valid() && fresh(d) && this.exponent == exponent && !normalizedFlag
      ensures d[..] == Dft(input, Inverses(W)[exponent])
    {
      this.exponent := exponent;
      d := new Complex[|input|];
      normalizedFlag := false;
      new;
      hide Dft, RootChain, Inverses, Scale;
      Load(input);
      Calculate(true, W);
    }

    /** IFFT: the inverse calculation, each element multiplied by 1/size. */
    constructor Inverted(exponent: nat, input: seq<Complex>, W: seq<Complex>)
      requires |input| == Pow2(exponent) && exponent < |W| && RootChain(W)
      ensures Valid() && fresh(d) && this.exponent == exponent && !normalizedFlag
      ensures d[..] == Scale(Dft(input, Inverses(W)[exponent]), Real(1.0 / Pow2(exponent) as real))
    {
      this.exponent := exponent;
      d := new Complex[|input|];
      normalizedFlag := false;
      new;
      hide Dft, RootChain, Inverses, Scale;
      Load(input);
      Calculate(true, W);
      ScaleAll(Real(1.0 / d.Length as real));
    }

    method ScaleAll(a: Complex)
      modifies d
      ensures d[..] == Scale(old(d[..]), a)
    {
      hide Times;
      ghost var ys := d[..];
      for i := 0 to d.Length
        invariant forall j :: 0 <= j < d.Length ==> d[j] == if j < i then Times(a, ys[j]) else ys[j]
      {
        TimesCommutes(d[i], a);
        d[i] := Times(d[i], a);
      }
    }

    /** What the block at i holds after j butterflies. */
    static ghost predicate Combined(now: seq<Complex>, before: seq<Complex>, i: nat, h: nat, w: Complex, j: nat)
      requires |now| == |before| && i + 2 * h <= |now| && j <= h
    {
      && now[..i] == before[..i] && now[i + 2 * h..] == before[i + 2 * h..]
      && (forall k :: i + j <= k < i + h ==> now[k] == before[k])
      && (forall k :: i + h + j <= k < i + 2 * h ==> now[k] == before[k])
      && (forall k :: 0 <= k < j ==> ButterflyAt(now, before, i, h, w, k))
    }

    static ghost predicate ButterflyAt(now: seq<Complex>, before: seq<Complex>, i: nat, h: nat, w: Complex, k: nat)
      requires |now| == |before| && i + 2 * h <= |now| && k < h
    {
      var t := Times(Power(w, k), before[i + h + k]);
      now[i + k] == Plus(before[i + k], t) && now[i + h + k] == Minus(before[i + k], t)
    }

    /** All butterflies of one block, in place. */
    static method CalculateBlock(d: array<Complex>, i: nat, half: nat, w: Complex)
      requires i + 2 * half <= d.Length
      modifies d
      ensures d[..] == BlockApplied(old(d[..]), i, half, w)
    {
      hide Times, Plus, Minus, Power, Combined;
      ghost var before := d[..];
      CombinedStart(before, i, half, w);
      var ww := ONE;
      for j := 0 to half
        invariant ww == Power(w, j)
        invariant Combined(d[..], before, i, half, w, j)
      {
        var a := i + j;
        var b := i + j + half;
        ghost var now := d[..];
        var t := Times(ww, d[b]);
        CombinedStep(now, before, i, half, w, j, t);
        d[b] := Minus(d[a], t);
        d[a] := Plus(d[a], t);
        assert d[..] == now[b := Minus(now[a], t)][a := Plus(now[a], t)];
        ww := Times(ww, w);
      }
      BlockAssembled(d[..], before, i, half, w);
    }

    static lemma CombinedStart(before: seq<Complex>, i: nat, h: nat, w: Complex)
      requires i + 2 * h <= |before|
      ensures Combined(before, before, i, h, w, 0) && Power(w, 0) == ONE
    {
    }

    static lemma CombinedStep(now: seq<Complex>, before: seq<Complex>, i: nat, h: nat, w: Complex, j: nat, t: Complex)
      requires |now| == |before| && i + 2 * h <= |now| && j < h
      requires Combined(now, before, i, h, w, j) && t == Times(Power(w, j), now[i + j + h])
      ensures Combined(now[i + j + h := Minus(now[i + j], t)][i + j := Plus(now[i + j], t)], before, i, h, w, j + 1)
      ensures Times(Power(w, j), w) == Power(w, j + 1)
    {
      assert Times(Power(w, j), w) == Power(w, j + 1) by { TimesCommutes(Power(w, j), w); }
      hide Times, Plus, Minus, Power;
      var after := now[i + j + h := Minus(now[i + j], t)][i + j := Plus(now[i + j], t)];
      forall k | 0 <= k < j + 1 ensures ButterflyAt(after, before, i, h, w, k) {
        if k < j { assert ButterflyAt(now, before, i, h, w, k); }
      }
    }

    static lemma BlockAssembled(now: seq<Complex>, before: seq<Complex>, i: nat, h: nat, w: Complex)
      requires |now| == |before| && i + 2 * h <= |now| && Combined(now, before, i, h, w, h)
      ensures now == BlockApplied(before, i, h, w)
    {
      hide Times, Plus, Minus, Power;
      var p, q := before[i..i + h], before[i + h..i + 2 * h];
      var r := Butterflies(p, q, w);
      forall k | 0 <= k < 2 * h ensures now[i + k] == r[k] {
        var c := if k < h then k else k - h;
        assert ButterflyAt(now, before, i, h, w, c);
        assert r[h + c] == Differences(p, Twist(q, w))[c];
      }
      assert now[i..i + 2 * h] == r;
      assert now == now[..i] + now[i..i + 2 * h] + now[i + 2 * h..];
    }

    method Calculate(isInverse: bool, W: seq<Complex>)
      requires Valid() && exponent < |W| && RootChain(W)
      modifies d
      ensures d[..] == Dft(old(d[..]), Twiddles(W, isInverse)[exponent])
    {
      hide RootChain, Level, Dft, Butterflies, Mixed, Aligned, Times;
      ghost var e := exponent;
      ghost var xs := d[..];
      ghost var V := Twiddles(W, isInverse);
      InverseChain(W);
      BitReverse(d, e);
      LevelZero(xs, V, e);
      var m, s := 2, 1;
      LevelDone(xs, V, e, 0);
      while m <= d.Length
        invariant 1 <= s <= e + 1 && m == Pow2(s)
        invariant d[..] == Level(xs, V, e, s - 1)
        decreases d.Length - m
      {
        StageExists(s, e);
        CalculateStage(m, s, if isInverse then Inverse(W[s]) else W[s], xs, V);
        m := m * 2;
        s := s + 1;
      }
      LastStage(s, e);
      LevelDone(xs, V, e, e);
    }

    /** One pass over all blocks of m elements. */
    method CalculateStage(m: nat, s: nat, w: Complex, ghost xs: seq<Complex>, ghost V: seq<Complex>)
      requires Valid() && |xs| == Pow2(exponent) && 1 <= s <= exponent < |V| && RootChain(V)
      requires m == Pow2(s) && w == V[s] && d[..] == Level(xs, V, exponent, s - 1)
      modifies d
      ensures d[..] == Level(xs, V, exponent, s)
    {
      hide RootChain, Level, Dft, Butterflies, Mixed, Aligned, Times;
      var i := 0;
      AlignedStart(exponent, s);
      MixedEnds(xs, V, exponent, s);
      while i < d.Length
        invariant 0 <= i <= d.Length
        invariant i < d.Length ==> Aligned(exponent, s, i)
        invariant d[..] == Mixed(xs, V, exponent, s, i)
      {
        var half := m / 2;
        AlignedNext(exponent, s, i);
        BlockStep(xs, V, exponent, s, i, half);
        CalculateBlock(d, i, half, w);
        i := i + m;
      }
    }

    static lemma MixedEnds(xs: seq<Complex>, V: seq<Complex>, e: nat, s: nat)
      requires |xs| == Pow2(e) && 1 <= s <= e < |V|
      ensures Mixed(xs, V, e, s, 0) == Level(xs, V, e, s - 1)
      ensures Mixed(xs, V, e, s, |xs|) == Level(xs, V, e, s)
    {
      hide Level;
      assert Level(xs, V, e, s)[..|xs|] == Level(xs, V, e, s);
    }

    static lemma LevelDone(xs: seq<Complex>, V: seq<Complex>, e: nat, s: nat)
      requires |xs| == Pow2(e) && s <= e < |V|
      ensures s == e ==> Level(xs, V, e, s) == Dft(xs, V[e])
    {
    }

    static lemma StageExists(s: nat, e: nat)
      requires 1 <= s <= e + 1 && Pow2(s) <= Pow2(e)
      ensures s <= e && Pow2(s + 1) == Pow2(s) * 2
    {
    }

    static lemma LastStage(s: nat, e: nat)
      requires 1 <= s <= e + 1 && Pow2(s) > Pow2(e)
      ensures s == e + 1
    {
      if s < e { Pow2Monotone(s, e); }
    }

    // -------------------------------------------------------------- normalisation

    /** Element 0 is halved, the others are multiplied by 2/size, once. */
    method Normalize()
      requires Valid()
      modifies this, d
      ensures normalizedFlag
      ensures d[..] == if old(normalizedFlag) then old(d[..]) else Normalized(old(d[..]))
    {
      hide Times;
      if !normalizedFlag {
        ghost var xs := d[..];
        ScaleTail(2.0 / d.Length as real);
        TimesCommutes(d[0], Real(0.5));
        d[0] := Times(d[0], Real(0.5));
        normalizedFlag := true;
        assert d[..] == Normalized(xs);
      }
    }

    method Denormalize()
      requires Valid()
      modifies this, d
      ensures !normalizedFlag
      ensures d[..] == if old(normalizedFlag) then Denormalized(old(d[..])) else old(d[..])
    {
      hide Times;
      if normalizedFlag {
        ghost var xs := d[..];
        ScaleTail(d.Length as real / 2.0);
        TimesCommutes(d[0], Real(2.0));
        d[0] := Times(d[0], Real(2.0));
        normalizedFlag := false;
        assert d[..] == Denormalized(xs);
      }
    }

    /** The loop both share: every element but the first is multiplied by a. */
    method ScaleTail(a: real)
      requires d.Length > 0
      modifies d
      ensures d[0] == old(d[0])
      ensures forall k :: 1 <= k < d.Length ==> d[k] == Times(Real(a), old(d[k]))
    {
      hide Times;
      ghost var xs := d[..];
      for i := 1 to d.Length
        invariant d[0] == xs[0]
        invariant forall k :: 1 <= k < d.Length ==> d[k] == if k < i then Times(Real(a), xs[k]) else xs[k]
      {
        TimesCommutes(d[i], Real(a));
        d[i] := Times(d[i], Real(a));
      }
    }
  }

  function Normalized(xs: seq<Complex>): (ys: seq<Complex>)
    requires |xs| > 0
    ensures |ys| == |xs|
  {
    seq(|xs|, k requires 0 <= k < |xs| => Times(Real(if k == 0 then 0.5 else 2.0 / |xs| as real), xs[k]))
  }

  function Denormalized(xs: seq<Complex>): (ys: seq<Complex>)
    requires |xs| > 0
    ensures |ys| == |xs|
  {
    seq(|xs|, k requires 0 <= k < |xs| => Times(Real(if k == 0 then 2.0 else |xs| as real / 2.0), xs[k]))
  }

  lemma ScaleBack(a: real, b: real, x: Complex)
    requires b * a == 1.0
    ensures Times(Real(b), Times(Real(a), x)) == x
  {
    hide Times;
    TimesAssociates(Real(b), Real(a), x);
    RealTimes(b, a);
    TimesOne(x);
  }

  lemma RealTimes(b: real, a: real)
    ensures Times(Real(b), Real(a)) == Real(b * a)
  {
  }

  /** Denormalising undoes normalising, for every size. */
  lemma NormalizeRoundTrip(xs: seq<Complex>)
    requires |xs| > 0
    ensures Denormalized(Normalized(xs)) == xs && Normalized(Denormalized(xs)) == xs
  {
    hide Times;
    var n := |xs| as real;
    assert (n / 2.0) * (2.0 / n) == 1.0 by { Halving(n); }
    forall k | 0 <= k < |xs|
      ensures Denormalized(Normalized(xs))[k] == xs[k] && Normalized(Denormalized(xs))[k] == xs[k]
    {
      if k == 0 {
        ScaleBack(0.5, 2.0, xs[k]);
        ScaleBack(2.0, 0.5, xs[k]);
      } else {
        ScaleBack(2.0 / n, n / 2.0, xs[k]);
        ScaleBack(n / 2.0, 2.0 / n, xs[k]);
      }
    }
  }

  lemma Halving(n: real)
    requires n != 0.0
    ensures (n / 2.0) * (2.0 / n) == 1.0 && (2.0 / n) * (n / 2.0) == 1.0
  {
    var y := 2.0 / n;
    assert n * y == 2.0;
  }

  /** IFFT of FFT is the identity, for every exponent and input. */
  lemma InverseTransformIdentity(xs: seq<Complex>, W: seq<Complex>, e: nat)
    requires |xs| == Pow2(e) && e < |W| && RootChain(W)
    ensures Scale(Dft(Dft(xs, W[e]), Inverses(W)[e]), Real(1.0 / Pow2(e) as real)) == xs
  {
    hide Times, RootChain, Dft;
    InverseChain(W);
    DftInverse(xs, W, Inverses(W), e);
    var n := Pow2(e) as real;
    var ys := Scale(xs, Real(n));
    Reciprocal(n);
    forall k | 0 <= k < |xs| ensures Scale(ys, Real(1.0 / n))[k] == xs[k] {
      ScaleBack(n, 1.0 / n, xs[k]);
    }
  }

  lemma Reciprocal(n: real)
    requires n != 0.0
    ensures (1.0 / n) * n == 1.0
  {
  }
}
