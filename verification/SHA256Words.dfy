/** What the word functions of SHA-256 compute, bit by bit, and its rounds on two
    registers: misc/SHA256.ipp:29-96 and sections 4.1.2 and 6.2.2 of FIPS 180-4. */
module SHA256Words {
  import opened SHA256Spec

  // ---------------------------------------------------------------- bits

  /** Bit i, the lowest being bit 0. */
  predicate Bit(x: bv32, i: bv32)
    requires i < 32
  {
    (x >> i) & 1 == 1
  }

  predicate Majority(a: bool, b: bool, c: bool) {
    (if a then 1 else 0) + (if b then 1 else 0) + (if c then 1 else 0) >= 2
  }

  /** An odd number of the three. */
  predicate Odd(a: bool, b: bool, c: bool) {
    ((if a then 1 else 0) + (if b then 1 else 0) + (if c then 1 else 0)) % 2 == 1
  }

  /** The bits determine the word. */
  lemma SameBits(x: bv32, y: bv32)
    requires forall i: bv32 | i < 32 :: Bit(x, i) == Bit(y, i)
    ensures x == y
  {
    hide Bit;
    SameByte0(x, y);
    SameByte1(x, y);
    SameByte2(x, y);
    SameByte3(x, y);
    FourBytes(x, y);
  }

  lemma SameByte0(x: bv32, y: bv32)
    requires forall i: bv32 | i < 32 :: Bit(x, i) == Bit(y, i)
    ensures x & 0x0000_00ff == y & 0x0000_00ff
  {
    assert Bit(x, 0) == Bit(y, 0) && Bit(x, 1) == Bit(y, 1) && Bit(x, 2) == Bit(y, 2) && Bit(x, 3) == Bit(y, 3);
    assert Bit(x, 4) == Bit(y, 4) && Bit(x, 5) == Bit(y, 5) && Bit(x, 6) == Bit(y, 6) && Bit(x, 7) == Bit(y, 7);
  }

  lemma SameByte1(x: bv32, y: bv32)
    requires forall i: bv32 | i < 32 :: Bit(x, i) == Bit(y, i)
    ensures x & 0x0000_ff00 == y & 0x0000_ff00
  {
    assert Bit(x, 8) == Bit(y, 8) && Bit(x, 9) == Bit(y, 9) && Bit(x, 10) == Bit(y, 10) && Bit(x, 11) == Bit(y, 11);
    assert Bit(x, 12) == Bit(y, 12) && Bit(x, 13) == Bit(y, 13) && Bit(x, 14) == Bit(y, 14) && Bit(x, 15) == Bit(y, 15);
  }

  lemma SameByte2(x: bv32, y: bv32)
    requires forall i: bv32 | i < 32 :: Bit(x, i) == Bit(y, i)
    ensures x & 0x00ff_0000 == y & 0x00ff_0000
  {
    assert Bit(x, 16) == Bit(y, 16) && Bit(x, 17) == Bit(y, 17) && Bit(x, 18) == Bit(y, 18) && Bit(x, 19) == Bit(y, 19);
    assert Bit(x, 20) == Bit(y, 20) && Bit(x, 21) == Bit(y, 21) && Bit(x, 22) == Bit(y, 22) && Bit(x, 23) == Bit(y, 23);
  }

  lemma SameByte3(x: bv32, y: bv32)
    requires forall i: bv32 | i < 32 :: Bit(x, i) == Bit(y, i)
    ensures x & 0xff00_0000 == y & 0xff00_0000
  {
    assert Bit(x, 24) == Bit(y, 24) && Bit(x, 25) == Bit(y, 25) && Bit(x, 26) == Bit(y, 26) && Bit(x, 27) == Bit(y, 27);
    assert Bit(x, 28) == Bit(y, 28) && Bit(x, 29) == Bit(y, 29) && Bit(x, 30) == Bit(y, 30) && Bit(x, 31) == Bit(y, 31);
  }

  lemma FourBytes(x: bv32, y: bv32)
    requires x & 0x0000_00ff == y & 0x0000_00ff && x & 0x0000_ff00 == y & 0x0000_ff00
    requires x & 0x00ff_0000 == y & 0x00ff_0000 && x & 0xff00_0000 == y & 0xff00_0000
    ensures x == y
  {
  }

  /** The bit n places above bit i, around the end. */
  function Above(i: bv32, n: bv32): (j: bv32)
    requires i < 32 && n < 32
    ensures j < 32
  {
    (i + n) % 32
  }

  /** The word has a bit n places above bit i. */
  predicate HasAbove(i: bv32, n: bv32)
    requires i < 32 && n < 32
  {
    i + n < 32
  }

  function Xor3(x: bv32, y: bv32, z: bv32): bv32 {
    x ^ y ^ z
  }

  /** Rotation to the right by n: bit i is bit i + n around the end. */
  lemma RotrBit(n: bv32, x: bv32, i: bv32)
    requires n < 32 && i < 32
    ensures Bit(ROTR(n, x), i) == Bit(x, Above(i, n))
  {
    hide ROTR, Bit, Above;
    if n == 0 { Rotr0(x, i); } else if n == 1 { Rotr1(x, i); } else if n == 2 { Rotr2(x, i); } else if n == 3 { Rotr3(x, i); }
    else if n == 4 { Rotr4(x, i); } else if n == 5 { Rotr5(x, i); } else if n == 6 { Rotr6(x, i); } else if n == 7 { Rotr7(x, i); }
    else if n == 8 { Rotr8(x, i); } else if n == 9 { Rotr9(x, i); } else if n == 10 { Rotr10(x, i); } else if n == 11 { Rotr11(x, i); }
    else if n == 12 { Rotr12(x, i); } else if n == 13 { Rotr13(x, i); } else if n == 14 { Rotr14(x, i); } else if n == 15 { Rotr15(x, i); }
    else if n == 16 { Rotr16(x, i); } else if n == 17 { Rotr17(x, i); } else if n == 18 { Rotr18(x, i); } else if n == 19 { Rotr19(x, i); }
    else if n == 20 { Rotr20(x, i); } else if n == 21 { Rotr21(x, i); } else if n == 22 { Rotr22(x, i); } else if n == 23 { Rotr23(x, i); }
    else if n == 24 { Rotr24(x, i); } else if n == 25 { Rotr25(x, i); } else if n == 26 { Rotr26(x, i); } else if n == 27 { Rotr27(x, i); }
    else if n == 28 { Rotr28(x, i); } else if n == 29 { Rotr29(x, i); } else if n == 30 { Rotr30(x, i); } else { Rotr31(x, i); }
  }

  lemma Rotr0(x: bv32, i: bv32)
    requires i < 32
    ensures Bit(ROTR(0, x), i) == Bit(x, Above(i, 0))
  {
  }

  lemma Rotr1(x: bv32, i: bv32)
    requires i < 32
    ensures Bit(ROTR(1, x), i) == Bit(x, Above(i, 1))
  {
  }

  lemma Rotr2(x: bv32, i: bv32)
    requires i < 32
    ensures Bit(ROTR(2, x), i) == Bit(x, Above(i, 2))
  {
  }

  lemma Rotr3(x: bv32, i: bv32)
    requires i < 32
    ensures Bit(ROTR(3, x), i) == Bit(x, Above(i, 3))
  {
  }

  lemma Rotr4(x: bv32, i: bv32)
    requires i < 32
    ensures Bit(ROTR(4, x), i) == Bit(x, Above(i, 4))
  {
  }

  lemma Rotr5(x: bv32, i: bv32)
    requires i < 32
    ensures Bit(ROTR(5, x), i) == Bit(x, Above(i, 5))
  {
  }

  lemma Rotr6(x: bv32, i: bv32)
    requires i < 32
    ensures Bit(ROTR(6, x), i) == Bit(x, Above(i, 6))
  {
  }

  lemma Rotr7(x: bv32, i: bv32)
    requires i < 32
    ensures Bit(ROTR(7, x), i) == Bit(x, Above(i, 7))
  {
  }

  lemma Rotr8(x: bv32, i: bv32)
    requires i < 32
    ensures Bit(ROTR(8, x), i) == Bit(x, Above(i, 8))
  {
  }

  lemma Rotr9(x: bv32, i: bv32)
    requires i < 32
    ensures Bit(ROTR(9, x), i) == Bit(x, Above(i, 9))
  {
  }

  lemma Rotr10(x: bv32, i: bv32)
    requires i < 32
    ensures Bit(ROTR(10, x), i) == Bit(x, Above(i, 10))
  {
  }

  lemma Rotr11(x: bv32, i: bv32)
    requires i < 32
    ensures Bit(ROTR(11, x), i) == Bit(x, Above(i, 11))
  {
  }

  lemma Rotr12(x: bv32, i: bv32)
    requires i < 32
    ensures Bit(ROTR(12, x), i) == Bit(x, Above(i, 12))
  {
  }

  lemma Rotr13(x: bv32, i: bv32)
    requires i < 32
    ensures Bit(ROTR(13, x), i) == Bit(x, Above(i, 13))
  {
  }

  lemma Rotr14(x: bv32, i: bv32)
    requires i < 32
    ensures Bit(ROTR(14, x), i) == Bit(x, Above(i, 14))
  {
  }

  lemma Rotr15(x: bv32, i: bv32)
    requires i < 32
    ensures Bit(ROTR(15, x), i) == Bit(x, Above(i, 15))
  {
  }

  lemma Rotr16(x: bv32, i: bv32)
    requires i < 32
    ensures Bit(ROTR(16, x), i) == Bit(x, Above(i, 16))
  {
  }

  lemma Rotr17(x: bv32, i: bv32)
    requires i < 32
    ensures Bit(ROTR(17, x), i) == Bit(x, Above(i, 17))
  {
  }

  lemma Rotr18(x: bv32, i: bv32)
    requires i < 32
    ensures Bit(ROTR(18, x), i) == Bit(x, Above(i, 18))
  {
  }

  lemma Rotr19(x: bv32, i: bv32)
    requires i < 32
    ensures Bit(ROTR(19, x), i) == Bit(x, Above(i, 19))
  {
  }

  lemma Rotr20(x: bv32, i: bv32)
    requires i < 32
    ensures Bit(ROTR(20, x), i) == Bit(x, Above(i, 20))
  {
  }

  lemma Rotr21(x: bv32, i: bv32)
    requires i < 32
    ensures Bit(ROTR(21, x), i) == Bit(x, Above(i, 21))
  {
  }

  lemma Rotr22(x: bv32, i: bv32)
    requires i < 32
    ensures Bit(ROTR(22, x), i) == Bit(x, Above(i, 22))
  {
  }

  lemma Rotr23(x: bv32, i: bv32)
    requires i < 32
    ensures Bit(ROTR(23, x), i) == Bit(x, Above(i, 23))
  {
  }

  lemma Rotr24(x: bv32, i: bv32)
    requires i < 32
    ensures Bit(ROTR(24, x), i) == Bit(x, Above(i, 24))
  {
  }

  lemma Rotr25(x: bv32, i: bv32)
    requires i < 32
    ensures Bit(ROTR(25, x), i) == Bit(x, Above(i, 25))
  {
  }

  lemma Rotr26(x: bv32, i: bv32)
    requires i < 32
    ensures Bit(ROTR(26, x), i) == Bit(x, Above(i, 26))
  {
  }

  lemma Rotr27(x: bv32, i: bv32)
    requires i < 32
    ensures Bit(ROTR(27, x), i) == Bit(x, Above(i, 27))
  {
  }

  lemma Rotr28(x: bv32, i: bv32)
    requires i < 32
    ensures Bit(ROTR(28, x), i) == Bit(x, Above(i, 28))
  {
  }

  lemma Rotr29(x: bv32, i: bv32)
    requires i < 32
    ensures Bit(ROTR(29, x), i) == Bit(x, Above(i, 29))
  {
  }

  lemma Rotr30(x: bv32, i: bv32)
    requires i < 32
    ensures Bit(ROTR(30, x), i) == Bit(x, Above(i, 30))
  {
  }

  lemma Rotr31(x: bv32, i: bv32)
    requires i < 32
    ensures Bit(ROTR(31, x), i) == Bit(x, Above(i, 31))
  {
  }

  /** A shift to the right by 3, or by 10: the same without the end, zeros coming in on top. */
  lemma Shr3(x: bv32, i: bv32)
    requires i < 32
    ensures Bit(SHR(3, x), i) == (HasAbove(i, 3) && Bit(x, Above(i, 3)))
  {
  }

  lemma Shr10(x: bv32, i: bv32)
    requires i < 32
    ensures Bit(SHR(10, x), i) == (HasAbove(i, 10) && Bit(x, Above(i, 10)))
  {
  }

  lemma XorBit(x: bv32, y: bv32, z: bv32, i: bv32)
    requires i < 32
    ensures Bit(Xor3(x, y, z), i) == Odd(Bit(x, i), Bit(y, i), Bit(z, i))
  {
    if i < 16 { XorBitLow(x, y, z, i); } else { XorBitHigh(x, y, z, i); }
  }

  lemma XorBitLow(x: bv32, y: bv32, z: bv32, i: bv32)
    requires i < 16
    ensures Bit(Xor3(x, y, z), i) == Odd(Bit(x, i), Bit(y, i), Bit(z, i))
  {
    if i == 0 { } else if i == 1 { } else if i == 2 { } else if i == 3 { } else if i == 4 { } else if i == 5 { } else if i == 6 { } else if i == 7 { }
    else if i == 8 { } else if i == 9 { } else if i == 10 { } else if i == 11 { } else if i == 12 { } else if i == 13 { } else if i == 14 { } else { }
  }

  lemma XorBitHigh(x: bv32, y: bv32, z: bv32, i: bv32)
    requires 16 <= i < 32
    ensures Bit(Xor3(x, y, z), i) == Odd(Bit(x, i), Bit(y, i), Bit(z, i))
  {
    if i == 16 { } else if i == 17 { } else if i == 18 { } else if i == 19 { } else if i == 20 { } else if i == 21 { } else if i == 22 { } else if i == 23 { }
    else if i == 24 { } else if i == 25 { } else if i == 26 { } else if i == 27 { } else if i == 28 { } else if i == 29 { } else if i == 30 { } else { }
  }

  /** Ch chooses between y and z. */
  lemma ChBit(x: bv32, y: bv32, z: bv32, i: bv32)
    requires i < 32
    ensures Bit(Ch(x, y, z), i) == if Bit(x, i) then Bit(y, i) else Bit(z, i)
  {
    if i < 16 { ChBitLow(x, y, z, i); } else { ChBitHigh(x, y, z, i); }
  }

  lemma ChBitLow(x: bv32, y: bv32, z: bv32, i: bv32)
    requires i < 16
    ensures Bit(Ch(x, y, z), i) == if Bit(x, i) then Bit(y, i) else Bit(z, i)
  {
    if i == 0 { } else if i == 1 { } else if i == 2 { } else if i == 3 { } else if i == 4 { } else if i == 5 { } else if i == 6 { } else if i == 7 { }
    else if i == 8 { } else if i == 9 { } else if i == 10 { } else if i == 11 { } else if i == 12 { } else if i == 13 { } else if i == 14 { } else { }
  }

  lemma ChBitHigh(x: bv32, y: bv32, z: bv32, i: bv32)
    requires 16 <= i < 32
    ensures Bit(Ch(x, y, z), i) == if Bit(x, i) then Bit(y, i) else Bit(z, i)
  {
    if i == 16 { } else if i == 17 { } else if i == 18 { } else if i == 19 { } else if i == 20 { } else if i == 21 { } else if i == 22 { } else if i == 23 { }
    else if i == 24 { } else if i == 25 { } else if i == 26 { } else if i == 27 { } else if i == 28 { } else if i == 29 { } else if i == 30 { } else { }
  }

  lemma MajBit(x: bv32, y: bv32, z: bv32, i: bv32)
    requires i < 32
    ensures Bit(Maj(x, y, z), i) == Majority(Bit(x, i), Bit(y, i), Bit(z, i))
  {
    if i < 16 { MajBitLow(x, y, z, i); } else { MajBitHigh(x, y, z, i); }
  }

  lemma MajBitLow(x: bv32, y: bv32, z: bv32, i: bv32)
    requires i < 16
    ensures Bit(Maj(x, y, z), i) == Majority(Bit(x, i), Bit(y, i), Bit(z, i))
  {
    if i == 0 { } else if i == 1 { } else if i == 2 { } else if i == 3 { } else if i == 4 { } else if i == 5 { } else if i == 6 { } else if i == 7 { }
    else if i == 8 { } else if i == 9 { } else if i == 10 { } else if i == 11 { } else if i == 12 { } else if i == 13 { } else if i == 14 { } else { }
  }

  lemma MajBitHigh(x: bv32, y: bv32, z: bv32, i: bv32)
    requires 16 <= i < 32
    ensures Bit(Maj(x, y, z), i) == Majority(Bit(x, i), Bit(y, i), Bit(z, i))
  {
    if i == 16 { } else if i == 17 { } else if i == 18 { } else if i == 19 { } else if i == 20 { } else if i == 21 { } else if i == 22 { } else if i == 23 { }
    else if i == 24 { } else if i == 25 { } else if i == 26 { } else if i == 27 { } else if i == 28 { } else if i == 29 { } else if i == 30 { } else { }
  }

  lemma BigSigma0Is(x: bv32)
    ensures BigSigma0(x) == Xor3(ROTR(2, x), ROTR(13, x), ROTR(22, x))
  {
    hide ROTR, SHR;
  }

  lemma BigSigma0Bit(x: bv32, i: bv32)
    requires i < 32
    ensures Bit(BigSigma0(x), i) == Odd(Bit(x, Above(i, 2)), Bit(x, Above(i, 13)), Bit(x, Above(i, 22)))
  {
    hide Odd, Bit, ROTR, SHR, Xor3, Above, HasAbove, BigSigma0;
    BigSigma0Is(x);
    XorBit(ROTR(2, x), ROTR(13, x), ROTR(22, x), i);
    RotrBit(2, x, i);
    RotrBit(13, x, i);
    RotrBit(22, x, i);
  }

  lemma BigSigma1Is(x: bv32)
    ensures BigSigma1(x) == Xor3(ROTR(6, x), ROTR(11, x), ROTR(25, x))
  {
    hide ROTR, SHR;
  }

  lemma BigSigma1Bit(x: bv32, i: bv32)
    requires i < 32
    ensures Bit(BigSigma1(x), i) == Odd(Bit(x, Above(i, 6)), Bit(x, Above(i, 11)), Bit(x, Above(i, 25)))
  {
    hide Odd, Bit, ROTR, SHR, Xor3, Above, HasAbove, BigSigma1;
    BigSigma1Is(x);
    XorBit(ROTR(6, x), ROTR(11, x), ROTR(25, x), i);
    RotrBit(6, x, i);
    RotrBit(11, x, i);
    RotrBit(25, x, i);
  }

  lemma SmallSigma0Is(x: bv32)
    ensures SmallSigma0(x) == Xor3(ROTR(7, x), ROTR(18, x), SHR(3, x))
  {
    hide ROTR, SHR;
  }

  lemma SmallSigma0Bit(x: bv32, i: bv32)
    requires i < 32
    ensures Bit(SmallSigma0(x), i) == Odd(Bit(x, Above(i, 7)), Bit(x, Above(i, 18)), HasAbove(i, 3) && Bit(x, Above(i, 3)))
  {
    hide Odd, Bit, ROTR, SHR, Xor3, Above, HasAbove, SmallSigma0;
    SmallSigma0Is(x);
    XorBit(ROTR(7, x), ROTR(18, x), SHR(3, x), i);
    RotrBit(7, x, i);
    RotrBit(18, x, i);
    Shr3(x, i);
  }

  lemma SmallSigma1Is(x: bv32)
    ensures SmallSigma1(x) == Xor3(ROTR(17, x), ROTR(19, x), SHR(10, x))
  {
    hide ROTR, SHR;
  }

  lemma SmallSigma1Bit(x: bv32, i: bv32)
    requires i < 32
    ensures Bit(SmallSigma1(x), i) == Odd(Bit(x, Above(i, 17)), Bit(x, Above(i, 19)), HasAbove(i, 10) && Bit(x, Above(i, 10)))
  {
    hide Odd, Bit, ROTR, SHR, Xor3, Above, HasAbove, SmallSigma1;
    SmallSigma1Is(x);
    XorBit(ROTR(17, x), ROTR(19, x), SHR(10, x), i);
    RotrBit(17, x, i);
    RotrBit(19, x, i);
    Shr10(x, i);
  }

  // ---------------------------------------------------------------- the rounds on two registers

  /** Of the eight working variables two are new in a round; the others are older values
      of these two. RegisterA(t) and RegisterE(t) are a and e after t rounds, and for t
      from 0 down to -3 the variables that the rounds start from. */
  function RegisterA(h: seq<bv32>, block: seq<bv8>, t: int): bv32
    requires |h| == 8 && |block| == 64 && -3 <= t <= 64
    decreases t + 3, 1
  {
    if t <= 0 then h[-t]
    else
      var b, c, d := RegisterA(h, block, t - 1), RegisterA(h, block, t - 2), RegisterA(h, block, t - 3);
      Plus(Fresh(h, block, t), Plus(BigSigma0(b), Maj(b, c, d)))
  }

  function RegisterE(h: seq<bv32>, block: seq<bv8>, t: int): bv32
    requires |h| == 8 && |block| == 64 && -3 <= t <= 64
    decreases t + 3, 1
  {
    if t <= 0 then h[4 - t] else Plus(RegisterA(h, block, t - 4), Fresh(h, block, t))
  }

  /** What round t adds to both: from the four values of E before, constant and word. */
  function Fresh(h: seq<bv32>, block: seq<bv8>, t: int): bv32
    requires |h| == 8 && |block| == 64 && 1 <= t <= 64
    decreases t + 3, 0
  {
    var f, g, i := RegisterE(h, block, t - 1), RegisterE(h, block, t - 2), RegisterE(h, block, t - 3);
    Total(RegisterE(h, block, t - 4), BigSigma1(f), Ch(f, g, i), K()[t - 1], ScheduleWord(block, t - 1))
  }

  /** Five words added up. */
  function Total(h: bv32, s1: bv32, ch: bv32, k: bv32, w: bv32): bv32 {
    h + s1 + ch + k + w
  }

  lemma SumsOfRound(v: seq<bv32>, k: bv32, w: bv32)
    requires |v| == 8
    ensures T1(v, k, w) == Total(v[7], BigSigma1(v[4]), Ch(v[4], v[5], v[6]), k, w)
    ensures T2(v) == Plus(BigSigma0(v[0]), Maj(v[0], v[1], v[2]))
  {
    hide BigSigma1, BigSigma0, Ch, Maj;
  }

  /** The rounds of the code are the two recurrences. */
  lemma {:induction false} RoundsAreRegisters(h: seq<bv32>, block: seq<bv8>, t: nat)
    requires |h| == 8 && |block| == 64 && t <= 64
    ensures Working(h, block, t)
         == [RegisterA(h, block, t), RegisterA(h, block, t - 1), RegisterA(h, block, t - 2), RegisterA(h, block, t - 3),
             RegisterE(h, block, t), RegisterE(h, block, t - 1), RegisterE(h, block, t - 2), RegisterE(h, block, t - 3)]
  {
    hide BigSigma0, BigSigma1, Ch, Maj, K, ScheduleWord, Total, Plus, T1, T2, Fresh;
    if t > 0 {
      RoundsAreRegisters(h, block, t - 1);
      var v := Working(h, block, t - 1);
      FreshIs(h, block, t, v);
      assert v[3] == RegisterA(h, block, t - 4);
    }
  }

  lemma FreshIs(h: seq<bv32>, block: seq<bv8>, t: nat, v: seq<bv32>)
    requires |h| == 8 && |block| == 64 && 1 <= t <= 64 && |v| == 8
    requires v == [RegisterA(h, block, t - 1), RegisterA(h, block, t - 2), RegisterA(h, block, t - 3), RegisterA(h, block, t - 4),
                   RegisterE(h, block, t - 1), RegisterE(h, block, t - 2), RegisterE(h, block, t - 3), RegisterE(h, block, t - 4)]
    ensures T1(v, K()[t - 1], ScheduleWord(block, t - 1)) == Fresh(h, block, t)
    ensures RegisterA(h, block, t) == Plus(Fresh(h, block, t), T2(v))
    ensures RegisterE(h, block, t) == Plus(v[3], Fresh(h, block, t))
  {
    SumsOfRound(v, K()[t - 1], ScheduleWord(block, t - 1));
    hide BigSigma0, BigSigma1, Ch, Maj, K, ScheduleWord, Total, Plus, T1, T2;
  }
}
