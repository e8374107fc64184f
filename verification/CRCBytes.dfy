/** Whole bytes at a time: what the table-driven loops of misc/CRC.ipp compute, and
    when appending a value to a message gives a fixed register. */
module CRCBytes {
  import opened CRCDivision

  /** A byte where the register lets bits out. */
  function Place(g: Generator, b: bv8): bv32 {
    if g.left then (b as bv32) << 24 else b as bv32
  }

  /** The bits of a byte in the order in which the code takes them. */
  function ByteBits(g: Generator, b: bv8): (r: seq<bool>)
    ensures |r| == 8
  {
    var s := [b & 0x80 != 0, b & 0x40 != 0, b & 0x20 != 0, b & 0x10 != 0,
              b & 0x08 != 0, b & 0x04 != 0, b & 0x02 != 0, b & 0x01 != 0];
    if g.left then s else [s[7], s[6], s[5], s[4], s[3], s[2], s[1], s[0]]
  }

  function MessageBits(g: Generator, msg: seq<bv8>): (r: seq<bool>)
    ensures |r| == 8 * |msg|
  {
    if |msg| == 0 then [] else MessageBits(g, msg[..|msg| - 1]) + ByteBits(g, msg[|msg| - 1])
  }

  function PushByte(g: Generator, c: bv32, b: bv8): bv32 {
    Times(g, Xor(c, Place(g, b)), 8)
  }

  /** The register after a message. */
  function Register(g: Generator, c: bv32, msg: seq<bv8>): bv32 {
    if |msg| == 0 then c else PushByte(g, Register(g, c, msg[..|msg| - 1]), msg[|msg| - 1])
  }

  /** Only the concatenation of what is pushed counts. */
  lemma {:induction false} RegisterConcat(g: Generator, c: bv32, m: seq<bv8>, n: seq<bv8>)
    ensures Register(g, c, m + n) == Register(g, Register(g, c, m), n)
    decreases |n|
  {
    hide PushByte;
    if |n| == 0 {
      assert m + n == m;
    } else {
      RegisterConcat(g, c, m, n[..|n| - 1]);
      assert (m + n)[..|m + n| - 1] == m + n[..|n| - 1];
    }
  }

  // ---------------------------------------------------------------- bytes as bits

  function Shifted(g: Generator, q: bv32, n: nat): bv32 {
    if n == 0 then q else Shift(g, Shifted(g, q, n - 1))
  }

  /** The bits that n plain shifts push out. */
  function OutBits(g: Generator, q: bv32, n: nat): (r: seq<bool>)
    ensures |r| == n
  {
    if n == 0 then [] else OutBits(g, q, n - 1) + [Out(g, Shifted(g, q, n - 1))]
  }

  lemma {:induction false} TimesOfXor(g: Generator, c: bv32, q: bv32, n: nat)
    ensures Times(g, Xor(c, q), n) == Xor(Serial(g, c, OutBits(g, q, n)), Shifted(g, q, n))
  {
    hide *;
    if n == 0 {
      NoSteps(g, c, q);
    } else {
      TimesOfXor(g, c, q, n - 1);
      var s, z := OutBits(g, q, n - 1), Shifted(g, q, n - 1);
      LastSteps(g, c, q, n);
      OneMoreBit(g, c, s, Out(g, z));
      StepXor(g, Serial(g, c, s), z);
      StepIs(g, z);
      Rearranged(Step(g, Serial(g, c, s)), Shift(g, z), If(Out(g, z), g.poly));
    }
  }

  lemma NoSteps(g: Generator, c: bv32, q: bv32)
    ensures Times(g, Xor(c, q), 0) == Xor(Serial(g, c, OutBits(g, q, 0)), Shifted(g, q, 0))
  {
    hide Xor;
  }

  lemma LastSteps(g: Generator, c: bv32, q: bv32, n: nat)
    requires n > 0
    ensures Times(g, Xor(c, q), n) == Step(g, Times(g, Xor(c, q), n - 1))
    ensures OutBits(g, q, n) == OutBits(g, q, n - 1) + [Out(g, Shifted(g, q, n - 1))]
    ensures Shifted(g, q, n) == Shift(g, Shifted(g, q, n - 1))
  {
    hide Step, Xor, Out, Shift;
  }

  lemma StepIs(g: Generator, z: bv32)
    ensures Step(g, z) == Xor(Shift(g, z), If(Out(g, z), g.poly))
  {
    hide Xor, Shift, If, Out;
  }

  lemma OneMoreBit(g: Generator, c: bv32, s: seq<bool>, b: bool)
    ensures Serial(g, c, s + [b]) == Xor(Step(g, Serial(g, c, s)), If(b, g.poly))
  {
    hide Xor, Step, If;
    assert (s + [b])[..|s|] == s;
  }

  lemma Rearranged(a: bv32, b: bv32, c: bv32)
    ensures Xor(a, Xor(b, c)) == Xor(Xor(a, c), b)
  {
    hide Xor;
    XorCommutes(b, c);
    XorAssociates(a, c, b);
  }

  /** A byte in its place shifts like a byte. */
  function ByteShift(g: Generator, b: bv8): bv8 {
    if g.left then b << 1 else b >> 1
  }

  predicate ByteOut(g: Generator, b: bv8) {
    if g.left then b & 0x80 != 0 else b & 0x01 != 0
  }

  function ByteShifted(g: Generator, b: bv8, n: nat): bv8 {
    if n == 0 then b else ByteShift(g, ByteShifted(g, b, n - 1))
  }

  lemma PlaceShifts(g: Generator, b: bv8)
    ensures Shift(g, Place(g, b)) == Place(g, ByteShift(g, b))
    ensures Out(g, Place(g, b)) == ByteOut(g, b)
    ensures Place(g, 0) == 0
  {
    if g.left { } else { }
  }

  lemma {:induction false} ShiftedPlace(g: Generator, b: bv8, n: nat)
    ensures Shifted(g, Place(g, b), n) == Place(g, ByteShifted(g, b, n))
  {
    hide Shift, Place, ByteShift;
    if n > 0 {
      ShiftedPlace(g, b, n - 1);
      PlaceShifts(g, ByteShifted(g, b, n - 1));
    }
  }

  /** Bit by bit, a byte leaves in the order of ByteBits and nothing stays. */
  lemma ByteLeaves(g: Generator, b: bv8, i: nat)
    requires i < 8
    ensures ByteOut(g, ByteShifted(g, b, i)) == ByteBits(g, b)[i]
    ensures ByteShifted(g, b, 8) == 0
  {
    ByteUnrolled(g, b);
    hide ByteShifted;
    if g.left { LeftLeaves(g, b, i); } else { RightLeaves(g, b, i); }
  }

  lemma LeftLeaves(g: Generator, b: bv8, i: nat)
    requires g.left && i < 8 && Unrolled(g, b)
    ensures ByteOut(g, ByteShifted(g, b, i)) == ByteBits(g, b)[i]
    ensures ByteShifted(g, b, 8) == 0
  {
    hide ByteShifted;
  }

  lemma RightLeaves(g: Generator, b: bv8, i: nat)
    requires !g.left && i < 8 && Unrolled(g, b)
    ensures ByteOut(g, ByteShifted(g, b, i)) == ByteBits(g, b)[i]
    ensures ByteShifted(g, b, 8) == 0
  {
    hide ByteShifted;
  }

  predicate Unrolled(g: Generator, b: bv8) {
    && ByteShifted(g, b, 0) == b && ByteShifted(g, b, 1) == ByteShift(g, ByteShifted(g, b, 0))
    && ByteShifted(g, b, 2) == ByteShift(g, ByteShifted(g, b, 1))
    && ByteShifted(g, b, 3) == ByteShift(g, ByteShifted(g, b, 2))
    && ByteShifted(g, b, 4) == ByteShift(g, ByteShifted(g, b, 3))
    && ByteShifted(g, b, 5) == ByteShift(g, ByteShifted(g, b, 4))
    && ByteShifted(g, b, 6) == ByteShift(g, ByteShifted(g, b, 5))
    && ByteShifted(g, b, 7) == ByteShift(g, ByteShifted(g, b, 6))
    && ByteShifted(g, b, 8) == ByteShift(g, ByteShifted(g, b, 7))
  }

  lemma ByteUnrolled(g: Generator, b: bv8)
    ensures Unrolled(g, b)
  {
    hide ByteShift;
  }

  lemma EightOut(g: Generator, b: bv8)
    ensures OutBits(g, Place(g, b), 8) == ByteBits(g, b)
    ensures Shifted(g, Place(g, b), 8) == 0
  {
    hide *;
    forall i | 0 <= i < 8 ensures OutBits(g, Place(g, b), 8)[i] == ByteBits(g, b)[i] {
      OutBitAt(g, Place(g, b), 8);
      ShiftedPlace(g, b, i);
      PlaceShifts(g, ByteShifted(g, b, i));
      ByteLeaves(g, b, i);
    }
    ShiftedPlace(g, b, 8);
    ByteLeaves(g, b, 0);
    PlaceShifts(g, 0);
  }

  lemma {:induction false} OutBitAt(g: Generator, q: bv32, n: nat)
    ensures forall i :: 0 <= i < n ==> OutBits(g, q, n)[i] == Out(g, Shifted(g, q, i))
  {
    hide Out, Shifted;
    if n > 0 { OutBitAt(g, q, n - 1); }
  }

  lemma PushByteIsSerial(g: Generator, c: bv32, b: bv8)
    ensures PushByte(g, c, b) == Serial(g, c, ByteBits(g, b))
  {
    hide Times, Xor, Place, ByteBits, OutBits, Shifted, Serial;
    TimesOfXor(g, c, Place(g, b), 8);
    EightOut(g, b);
    XorLaws(Serial(g, c, ByteBits(g, b)), 0, 0);
  }

  lemma {:induction false} SerialConcat(g: Generator, c: bv32, x: seq<bool>, y: seq<bool>)
    ensures Serial(g, c, x + y) == Serial(g, Serial(g, c, x), y)
    decreases |y|
  {
    hide Step, Xor, If;
    if |y| == 0 {
      assert x + y == x;
    } else {
      SerialConcat(g, c, x, y[..|y| - 1]);
      assert (x + y)[..|x + y| - 1] == x + y[..|y| - 1];
    }
  }

  lemma {:induction false} RegisterIsSerial(g: Generator, c: bv32, msg: seq<bv8>)
    ensures Register(g, c, msg) == Serial(g, c, MessageBits(g, msg))
  {
    hide Serial, PushByte, ByteBits;
    if |msg| > 0 {
      var n := |msg| - 1;
      RegisterIsSerial(g, c, msg[..n]);
      PushByteIsSerial(g, Register(g, c, msg[..n]), msg[n]);
      SerialConcat(g, c, MessageBits(g, msg[..n]), ByteBits(g, msg[n]));
    } else {
      EmptySerial(g, c);
    }
  }

  lemma EmptySerial(g: Generator, c: bv32)
    ensures Serial(g, c, []) == c
  {
  }

  /** For every message: the register is the remainder of the message followed by
      width zero bits under bit-by-bit polynomial division, plus what the initial
      register c contributes. */
  lemma RegisterIsRemainder(g: Generator, c: bv32, msg: seq<bv8>)
    requires Known(g)
    ensures Register(g, c, msg)
         == Xor(Remainder(g, MessageBits(g, msg) + Zeros(g.width)), Times(g, c, 8 * |msg|))
  {
    hide *;
    RegisterIsSerial(g, c, msg);
    SerialIsDivision(g, c, MessageBits(g, msg));
  }

  // ---------------------------------------------------------------- undoing steps

  /** The bits that the code's register uses. */
  predicate Aligned(g: Generator, c: bv32) {
    if g == CRC8() then c & 0x00ff_ffff == 0 else if g == CRC16() then c & 0x0000_ffff == 0 else true
  }

  lemma StepAligned(g: Generator, c: bv32)
    requires Known(g) && Aligned(g, c)
    ensures Aligned(g, Step(g, c))
    ensures Step(g, c) == 0 ==> c == 0
  {
    if g == CRC8() { StepAligned8(c); }
    else if g == CRC16() { StepAligned16(c); }
    else { StepRight(g, c); }
  }

  lemma StepAligned8(c: bv32)
    requires c & 0x00ff_ffff == 0
    ensures Step(CRC8(), c) & 0x00ff_ffff == 0
    ensures Step(CRC8(), c) == 0 ==> c == 0
  {
  }

  lemma StepAligned16(c: bv32)
    requires c & 0x0000_ffff == 0
    ensures Step(CRC16(), c) & 0x0000_ffff == 0
    ensures Step(CRC16(), c) == 0 ==> c == 0
  {
  }

  lemma StepRight(g: Generator, c: bv32)
    requires g == CRC32() || g == CRC32C()
    ensures Step(g, c) == 0 ==> c == 0
  {
  }

  lemma {:induction false} TimesAligned(g: Generator, c: bv32, n: nat)
    requires Known(g) && Aligned(g, c)
    ensures Aligned(g, Times(g, c, n))
    ensures Times(g, c, n) == 0 ==> c == 0
  {
    hide Step, Aligned, Known;
    if n > 0 {
      TimesAligned(g, c, n - 1);
      StepAligned(g, Times(g, c, n - 1));
    }
  }

  lemma AlignedXor(g: Generator, a: bv32, b: bv32)
    requires Aligned(g, a) && Aligned(g, b)
    ensures Aligned(g, Xor(a, b))
  {
  }

  /** Multiplication by x^n is one-to-one on registers. */
  lemma TimesInjective(g: Generator, a: bv32, b: bv32, n: nat)
    requires Known(g) && Aligned(g, a) && Aligned(g, b)
    ensures Times(g, a, n) == Times(g, b, n) <==> a == b
  {
    hide *;
    AlignedXor(g, a, b);
    TimesAligned(g, Xor(a, b), n);
    TimesXor(g, a, b, n);
    XorIsZero(a, b);
    XorIsZero(Times(g, a, n), Times(g, b, n));
    TimesZero(g, n);
  }

  // ---------------------------------------------------------------- appended values

  /** Up to four bytes side by side, in the order in which they leave the register. */
  function PlaceAll(g: Generator, v: seq<bv8>): bv32 {
    if |v| == 0 then 0 else Xor(Place(g, v[0]), Back(g, PlaceAll(g, v[1..])))
  }

  function Back(g: Generator, q: bv32): bv32 {
    if g.left then q >> 8 else q << 8
  }

  predicate Clear(q: bv32, mask: bv32) {
    q & mask == 0
  }

  /** q leaves room for n bytes behind it. */
  predicate Room(g: Generator, q: bv32, n: nat) {
    if n == 0 then true
    else if n == 1 then Clear(q, if g.left then 0xff else 0xff00_0000)
    else if n == 2 then Clear(q, if g.left then 0xffff else 0xffff_0000)
    else if n == 3 then Clear(q, if g.left then 0xff_ffff else 0xffff_ff00)
    else q == 0
  }

  lemma RoomStep(g: Generator, b: bv8, q: bv32, n: nat)
    requires n < 4 && Room(g, q, n + 1)
    ensures Room(g, Xor(Place(g, b), Back(g, q)), n)
  {
    hide Clear, Xor, Back, Place;
    if g.left { LeftRoom(g, b, q); } else { RightRoom(g, b, q); }
  }

  lemma LeftRoom(g: Generator, b: bv8, q: bv32)
    requires g.left
    ensures Clear(q, 0xffff) ==> Clear(Xor(Place(g, b), Back(g, q)), 0xff)
    ensures Clear(q, 0xff_ffff) ==> Clear(Xor(Place(g, b), Back(g, q)), 0xffff)
    ensures q == 0 ==> Clear(Xor(Place(g, b), Back(g, q)), 0xff_ffff)
  {
  }

  lemma RightRoom(g: Generator, b: bv8, q: bv32)
    requires !g.left
    ensures Clear(q, 0xffff_0000) ==> Clear(Xor(Place(g, b), Back(g, q)), 0xff00_0000)
    ensures Clear(q, 0xffff_ff00) ==> Clear(Xor(Place(g, b), Back(g, q)), 0xffff_0000)
    ensures q == 0 ==> Clear(Xor(Place(g, b), Back(g, q)), 0xffff_ff00)
  {
  }

  lemma {:induction false} PlaceAllRoom(g: Generator, v: seq<bv8>)
    requires |v| <= 4
    ensures Room(g, PlaceAll(g, v), 4 - |v|)
  {
    hide Room, Xor, Place, Back;
    if |v| == 0 {
      ZeroRoom(g);
    } else {
      PlaceAllRoom(g, v[1..]);
      RoomStep(g, v[0], PlaceAll(g, v[1..]), 4 - |v|);
    }
  }

  lemma ZeroRoom(g: Generator)
    ensures Room(g, 0, 4)
  {
  }

  lemma BackReturns(g: Generator, q: bv32, n: nat)
    requires 1 <= n <= 4 && Room(g, q, n)
    ensures Times(g, Back(g, q), 8) == q
  {
    hide *;
    RoomLow(g, q, n);
    BackUnreduced(g, q);
    ForthBack(g, q);
  }

  function Forth(g: Generator, q: bv32): bv32 {
    if g.left then q << 8 else q >> 8
  }

  lemma BackUnreduced(g: Generator, q: bv32)
    ensures Times(g, Back(g, q), 8) == Forth(g, Back(g, q))
  {
    hide Times;
    EightShifts(g, Back(g, q));
    if g.left { BackLeft(q); } else { BackRight(q); }
  }

  lemma ForthBack(g: Generator, q: bv32)
    requires Clear(q, if g.left then 0xff else 0xff00_0000)
    ensures Forth(g, Back(g, q)) == q
  {
    if g.left { } else { }
  }

  lemma RoomLow(g: Generator, q: bv32, n: nat)
    requires 1 <= n <= 4 && Room(g, q, n)
    ensures Clear(q, if g.left then 0xff else 0xff00_0000)
  {
    hide Clear;
    LowClear(q);
  }

  lemma LowClear(q: bv32)
    ensures Clear(q, 0xffff) || Clear(q, 0xff_ffff) || q == 0 ==> Clear(q, 0xff)
    ensures Clear(q, 0xffff_0000) || Clear(q, 0xffff_ff00) || q == 0 ==> Clear(q, 0xff00_0000)
  {
  }

  lemma BackLeft(q: bv32)
    ensures (q >> 8) & 0xff00_0000 == 0
  {
  }

  lemma BackRight(q: bv32)
    ensures (q << 8) & 0xff == 0
  {
  }

  /** Pushing up to four bytes meets the register with all of them at once. */
  lemma {:induction false} RegisterOfFew(g: Generator, c: bv32, v: seq<bv8>)
    requires |v| <= 4
    ensures Register(g, c, v) == Times(g, Xor(c, PlaceAll(g, v)), 8 * |v|)
    decreases |v|
  {
    if |v| == 0 {
      XorLaws(c, 0, 0);
    } else {
      var q := PlaceAll(g, v[1..]);
      FirstByte(g, c, v);
      hide Register, Times, Xor, Place, Back, Room, PushByte;
      RegisterOfFew(g, PushByte(g, c, v[0]), v[1..]);
      PlaceAllRoom(g, v[1..]);
      BackReturns(g, q, 5 - |v|);
      PushByteIs(g, c, v[0]);
      TimesXor(g, Xor(c, Place(g, v[0])), Back(g, q), 8);
      XorLaws(c, Place(g, v[0]), Back(g, q));
      TimesAdd(g, Xor(c, PlaceAll(g, v)), 8, 8 * |v| - 8);
    }
  }

  lemma PushByteIs(g: Generator, c: bv32, b: bv8)
    ensures PushByte(g, c, b) == Times(g, Xor(c, Place(g, b)), 8)
  {
  }

  lemma FirstByte(g: Generator, c: bv32, v: seq<bv8>)
    requires |v| > 0
    ensures Register(g, c, v) == Register(g, PushByte(g, c, v[0]), v[1..])
  {
    hide PushByte;
    assert v == [v[0]] + v[1..];
    RegisterConcat(g, c, [v[0]], v[1..]);
    assert [v[0]][..0] == [];
    assert Register(g, c, [v[0]]) == PushByte(g, c, v[0]);
  }

  /** Appending v to a message drives the register from c to the same place as it
      drives a register t with PlaceAll(v) already in it, exactly when c is t + v. */
  lemma AppendedIff(g: Generator, c: bv32, v: seq<bv8>, t: bv32)
    requires Known(g) && |v| <= 4
    requires Aligned(g, c) && Aligned(g, PlaceAll(g, v)) && Aligned(g, t)
    ensures Register(g, c, v) == Times(g, t, 8 * |v|) <==> Xor(c, PlaceAll(g, v)) == t
  {
    hide *;
    RegisterOfFew(g, c, v);
    AlignedXor(g, c, PlaceAll(g, v));
    TimesInjective(g, Xor(c, PlaceAll(g, v)), t, 8 * |v|);
  }
}
