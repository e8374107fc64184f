/** Cyclic redundancy checks as polynomial division over GF(2). A register of up to 32
    bits sits at the top of a 32-bit word (most significant bit first) or fills it
    (least significant bit first); one theory serves the four codes of misc/CRC.ipp. */
module CRCDivision {

  /** left: bits leave at the top; poly: the generator without its leading term;
      unit: the place of the coefficient of x^0; width: the degree. */
  datatype Generator = Generator(left: bool, poly: bv32, unit: bv32, width: nat)

  function CRC8(): Generator { Generator(true, 0x0700_0000, 0x0100_0000, 8) }
  function CRC16(): Generator { Generator(true, 0x1021_0000, 0x0001_0000, 16) }
  function CRC32(): Generator { Generator(false, 0xEDB8_8320, 0x8000_0000, 32) }
  function CRC32C(): Generator { Generator(false, 0x82F6_3B78, 0x8000_0000, 32) }

  predicate Known(g: Generator) {
    g == CRC8() || g == CRC16() || g == CRC32() || g == CRC32C()
  }

  /** The coefficient that the next shift pushes out. */
  predicate Out(g: Generator, c: bv32) {
    if g.left then c & 0x8000_0000 != 0 else c & 1 != 0
  }

  function Shift(g: Generator, c: bv32): bv32 {
    if g.left then c << 1 else c >> 1
  }

  function Xor(a: bv32, b: bv32): bv32 {
    a ^ b
  }

  function If(b: bool, c: bv32): bv32 {
    if b then c else 0
  }

  /** Multiplication by x modulo the generator. */
  function Step(g: Generator, c: bv32): bv32 {
    Xor(Shift(g, c), If(Out(g, c), g.poly))
  }

  /** Multiplication by x^n modulo the generator. */
  function Times(g: Generator, c: bv32, n: nat): bv32 {
    if n == 0 then c else Step(g, Times(g, c, n - 1))
  }

  /** Eight steps written out. */
  function Eight(g: Generator, c: bv32): bv32 {
    Step(g, Step(g, Step(g, Step(g, Step(g, Step(g, Step(g, Step(g, c))))))))
  }

  // ---------------------------------------------------------------- long division

  /** Division of a bit string, highest coefficient first: bring down one bit, reduce. */
  function Remainder(g: Generator, bits: seq<bool>): bv32 {
    if |bits| == 0 then 0
    else Xor(Step(g, Remainder(g, bits[..|bits| - 1])), If(bits[|bits| - 1], g.unit))
  }

  function Zeros(n: nat): (z: seq<bool>)
    ensures |z| == n
  {
    seq(n, _ => false)
  }

  /** The register of a serial circuit, where message bits meet the outgoing bit. */
  function Serial(g: Generator, c: bv32, bits: seq<bool>): bv32 {
    if |bits| == 0 then c
    else Xor(Step(g, Serial(g, c, bits[..|bits| - 1])), If(bits[|bits| - 1], g.poly))
  }

  lemma XorLaws(a: bv32, b: bv32, c: bv32)
    ensures Xor(a, b) == Xor(b, a) && Xor(Xor(a, b), c) == Xor(a, Xor(b, c))
    ensures Xor(a, 0) == a && Xor(a, a) == 0
  {
    hide Xor;
    XorCommutes(a, b);
    XorAssociates(a, b, c);
    XorUnit(a);
  }

  lemma XorCommutes(a: bv32, b: bv32)
    ensures Xor(a, b) == Xor(b, a)
  {
  }

  lemma XorAssociates(a: bv32, b: bv32, c: bv32)
    ensures Xor(Xor(a, b), c) == Xor(a, Xor(b, c))
  {
  }

  lemma XorUnit(a: bv32)
    ensures Xor(a, 0) == a && Xor(a, a) == 0
  {
  }

  lemma XorIsZero(a: bv32, b: bv32)
    ensures Xor(a, b) == 0 <==> a == b
  {
    hide Xor;
    XorLaws(a, b, b);
    XorLaws(b, 0, 0);
    XorLaws(b, b, b);
    XorLaws(0, b, b);
  }

  lemma Swap(a: bv32, b: bv32, c: bv32, d: bv32)
    ensures Xor(Xor(a, b), Xor(c, d)) == Xor(Xor(a, c), Xor(b, d))
  {
    hide Xor;
    XorAssociates(a, b, Xor(c, d));
    XorAssociates(b, c, d);
    XorCommutes(b, c);
    XorAssociates(c, b, d);
    XorAssociates(a, c, Xor(b, d));
  }

  lemma OutXor(g: Generator, a: bv32, b: bv32)
    ensures Out(g, Xor(a, b)) == (Out(g, a) != Out(g, b))
  {
    if g.left {
      OutIsTop(g, a);
      OutIsTop(g, b);
      OutIsTop(g, Xor(a, b));
      hide Out, Top, Xor;
      TopXor(a, b);
    } else {
      OutIsLow(g, a);
      OutIsLow(g, b);
      OutIsLow(g, Xor(a, b));
      hide Out, Bottom, Xor;
      LowXor(a, b);
    }
  }

  predicate Top(c: bv32) {
    c & 0x8000_0000 != 0
  }

  predicate Bottom(c: bv32) {
    c & 1 != 0
  }

  lemma OutIsTop(g: Generator, c: bv32)
    requires g.left
    ensures Out(g, c) == Top(c)
  {
  }

  lemma OutIsLow(g: Generator, c: bv32)
    requires !g.left
    ensures Out(g, c) == Bottom(c)
  {
  }

  lemma TopXor(a: bv32, b: bv32)
    ensures Top(Xor(a, b)) == (Top(a) != Top(b))
  {
  }

  lemma LowXor(a: bv32, b: bv32)
    ensures Bottom(Xor(a, b)) == (Bottom(a) != Bottom(b))
  {
  }

  lemma ShiftXor(g: Generator, a: bv32, b: bv32)
    ensures Shift(g, Xor(a, b)) == Xor(Shift(g, a), Shift(g, b))
  {
    if g.left { ShiftUpXor(a, b); } else { ShiftDownXor(a, b); }
  }

  lemma ShiftUpXor(a: bv32, b: bv32)
    ensures (a ^ b) << 1 == (a << 1) ^ (b << 1)
  {
  }

  lemma ShiftDownXor(a: bv32, b: bv32)
    ensures (a ^ b) >> 1 == (a >> 1) ^ (b >> 1)
  {
  }

  lemma IfXor(a: bool, b: bool, c: bv32)
    ensures If(a != b, c) == Xor(If(a, c), If(b, c))
  {
    hide Xor;
    XorLaws(c, c, c);
    XorLaws(0, c, c);
    XorLaws(0, 0, 0);
  }

  lemma StepXor(g: Generator, a: bv32, b: bv32)
    ensures Step(g, Xor(a, b)) == Xor(Step(g, a), Step(g, b))
  {
    hide Out, Shift, Xor, If;
    OutXor(g, a, b);
    ShiftXor(g, a, b);
    IfXor(Out(g, a), Out(g, b), g.poly);
    Swap(Shift(g, a), Shift(g, b), If(Out(g, a), g.poly), If(Out(g, b), g.poly));
  }

  lemma StepZero(g: Generator)
    ensures Step(g, 0) == 0
  {
  }

  lemma {:induction false} TimesXor(g: Generator, a: bv32, b: bv32, n: nat)
    ensures Times(g, Xor(a, b), n) == Xor(Times(g, a, n), Times(g, b, n))
  {
    hide Step, Xor;
    if n > 0 {
      TimesXor(g, a, b, n - 1);
      StepXor(g, Times(g, a, n - 1), Times(g, b, n - 1));
    }
  }

  lemma {:induction false} TimesZero(g: Generator, n: nat)
    ensures Times(g, 0, n) == 0
  {
    hide Step;
    StepZero(g);
    if n > 0 { TimesZero(g, n - 1); }
  }

  lemma {:induction false} TimesAdd(g: Generator, c: bv32, m: nat, n: nat)
    ensures Times(g, Times(g, c, m), n) == Times(g, c, m + n)
  {
    hide Step;
    if n > 0 { TimesAdd(g, c, m, n - 1); }
  }

  /** x^width is the generator without its leading term. */
  lemma UnitReachesPoly(g: Generator)
    requires Known(g)
    ensures Times(g, g.unit, g.width) == g.poly
  {
    hide Step, Times;
    if g == CRC8() { LastByte(g, 0x0100_0000); }
    else if g == CRC16() {
      EightShifts(g, 0x0001_0000);
      TimesAdd(g, g.unit, 8, 8);
      LastByte(g, 0x0100_0000);
    } else {
      EightShifts(g, 0x8000_0000);
      EightShifts(g, 0x0080_0000);
      EightShifts(g, 0x0000_8000);
      TimesAdd(g, g.unit, 8, 8);
      TimesAdd(g, g.unit, 16, 8);
      TimesAdd(g, g.unit, 24, 8);
      LastByte(g, 0x0000_0080);
    }
  }

  /** Eight steps through bits that are not pushed out. */
  lemma EightShifts(g: Generator, c: bv32)
    ensures g.left && c & 0xff00_0000 == 0 ==> Times(g, c, 8) == c << 8
    ensures !g.left && c & 0xff == 0 ==> Times(g, c, 8) == c >> 8
  {
    Unfold8(g, c);
    if g.left && c & 0xff00_0000 == 0 { LeftShifts(g, c); }
    if !g.left && c & 0xff == 0 { RightShifts(g, c); }
  }

  lemma Unfold8(g: Generator, c: bv32)
    ensures Times(g, c, 8) == Eight(g, c)
  {
    hide Step;
    assert Times(g, c, 1) == Step(g, c);
    assert Times(g, c, 2) == Step(g, Step(g, c));
    assert Times(g, c, 4) == Step(g, Step(g, Step(g, Step(g, c))));
    assert Times(g, c, 6) == Step(g, Step(g, Step(g, Step(g, Step(g, Step(g, c))))));
  }

  lemma LeftShifts(g: Generator, c: bv32)
    requires g.left && c & 0xff00_0000 == 0
    ensures Eight(g, c) == c << 8
  {
  }

  lemma RightShifts(g: Generator, c: bv32)
    requires !g.left && c & 0xff == 0
    ensures Eight(g, c) == c >> 8
  {
  }

  lemma LastByte(g: Generator, c: bv32)
    requires (g.left && c == 0x0100_0000) || (!g.left && c == 0x80)
    ensures Times(g, c, 8) == g.poly
  {
    Unfold8(g, c);
    if g.left { LastLeft(g); } else { LastRight(g); }
  }

  lemma LastLeft(g: Generator)
    requires g.left
    ensures Eight(g, 0x0100_0000) == g.poly
  {
    assert Step(g, 0x0100_0000) == 0x0200_0000 && Step(g, 0x0200_0000) == 0x0400_0000;
    assert Step(g, 0x0400_0000) == 0x0800_0000 && Step(g, 0x0800_0000) == 0x1000_0000;
    assert Step(g, 0x1000_0000) == 0x2000_0000 && Step(g, 0x2000_0000) == 0x4000_0000;
    assert Step(g, 0x4000_0000) == 0x8000_0000 && Step(g, 0x8000_0000) == Xor(0, g.poly);
  }

  lemma LastRight(g: Generator)
    requires !g.left
    ensures Eight(g, 0x80) == g.poly
  {
    assert Step(g, 0x80) == 0x40 && Step(g, 0x40) == 0x20 && Step(g, 0x20) == 0x10;
    assert Step(g, 0x10) == 0x08 && Step(g, 0x08) == 0x04 && Step(g, 0x04) == 0x02;
    assert Step(g, 0x02) == 0x01 && Step(g, 0x01) == Xor(0, g.poly);
  }

  /** The serial circuit computes the remainder of the message followed by width zero
      bits, plus the initial value times x to the number of bits. */
  lemma {:induction false} SerialIsDivision(g: Generator, c: bv32, bits: seq<bool>)
    requires Known(g)
    ensures Serial(g, c, bits) == Xor(Times(g, Remainder(g, bits), g.width), Times(g, c, |bits|))
    ensures Times(g, Remainder(g, bits), g.width) == Remainder(g, bits + Zeros(g.width))
  {
    hide Known;
    SerialIsTimes(g, c, bits);
    BringDownZeros(g, bits, g.width);
  }

  lemma {:induction false} SerialIsTimes(g: Generator, c: bv32, bits: seq<bool>)
    requires Known(g)
    ensures Serial(g, c, bits) == Xor(Times(g, Remainder(g, bits), g.width), Times(g, c, |bits|))
  {
    hide Step, Xor, Known, If;
    if |bits| == 0 {
      TimesZero(g, g.width);
      XorLaws(c, 0, 0);
    } else {
      var n := |bits| - 1;
      var r, b := Remainder(g, bits[..n]), bits[n];
      SerialIsTimes(g, c, bits[..n]);
      StepXor(g, Times(g, r, g.width), Times(g, c, n));
      TimesXor(g, Step(g, r), If(b, g.unit), g.width);
      TimesAdd(g, r, 1, g.width);
      TimesAdd(g, r, g.width, 1);
      OneStep(g, r);
      OneStep(g, Times(g, r, g.width));
      BitReachesPoly(g, b);
      Reorder(Step(g, Times(g, r, g.width)), Times(g, c, |bits|), If(b, g.poly));
    }
  }

  lemma Reorder(a: bv32, b: bv32, c: bv32)
    ensures Xor(Xor(a, b), c) == Xor(Xor(a, c), b)
  {
    hide Xor;
    XorAssociates(a, b, c);
    XorCommutes(b, c);
    XorAssociates(a, c, b);
  }

  lemma OneStep(g: Generator, c: bv32)
    ensures Times(g, c, 1) == Step(g, c)
  {
  }

  lemma BitReachesPoly(g: Generator, b: bool)
    requires Known(g)
    ensures Times(g, If(b, g.unit), g.width) == If(b, g.poly)
  {
    UnitReachesPoly(g);
    TimesZero(g, g.width);
  }

  lemma {:induction false} BringDownZeros(g: Generator, bits: seq<bool>, n: nat)
    ensures Times(g, Remainder(g, bits), n) == Remainder(g, bits + Zeros(n))
  {
    hide Step, Xor;
    if n == 0 {
      assert bits + Zeros(0) == bits;
    } else {
      BringDownZeros(g, bits, n - 1);
      assert (bits + Zeros(n))[..|bits| + n - 1] == bits + Zeros(n - 1);
      XorLaws(Times(g, Remainder(g, bits), n), 0, 0);
    }
  }
}
