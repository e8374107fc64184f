/** The digest of "abc", the first example of misc/test/sha_test.cpp:18-29, which
    FIPS 180-4 gives too, computed step by step. */
module SHA256Example {
  import opened SHA256Spec
  import opened SHA256Words

  function Abc(): seq<bv8> {
    [0x61, 0x62, 0x63]
  }

  /** The padded message. */
  function Block(): (b: seq<bv8>)
    ensures |b| == 64
  {
    [0x61, 0x62, 0x63, 0x80] + Zeros(59) + [0x18]
  }

  /** The message schedule. */
  function Words(): (w: seq<bv32>)
    ensures |w| == 64
  {
    [0x61626380, 0x00000000, 0x00000000, 0x00000000, 0x00000000, 0x00000000, 0x00000000, 0x00000000,
      0x00000000, 0x00000000, 0x00000000, 0x00000000, 0x00000000, 0x00000000, 0x00000000, 0x00000018]
    + [0x61626380, 0x000f0000, 0x7da86405, 0x600003c6, 0x3e9d7b78, 0x0183fc00, 0x12dcbfdb, 0xe2e2c38e,
      0xc8215c1a, 0xb73679a2, 0xe5bc3909, 0x32663c5b, 0x9d209d67, 0xec8726cb, 0x702138a4, 0xd3b7973b]
    + [0x93f5997f, 0x3b68ba73, 0xaff4ffc1, 0xf10a5c62, 0x0a8b3996, 0x72af830a, 0x9409e33e, 0x24641522,
      0x9f47bf94, 0xf0a64f5a, 0x3e246a79, 0x27333ba3, 0x0c4763f2, 0x840abf27, 0x7a290d5d, 0x065c43da]
    + [0xfb3e89cb, 0xcc7617db, 0xb9e66c34, 0xa9993667, 0x84badedd, 0xc21462bc, 0x1487472c, 0xb20f7a99,
      0xef57b9cd, 0xebe6b238, 0x9fe3095e, 0x78bc8d4b, 0xa43fcf15, 0x668b2ff8, 0xeeaba2cc, 0x12b1edeb]
  }

  lemma FirstWords(i: nat)
    requires i < 16
    ensures ScheduleWord(Block(), i) == Words()[i]
  {
    var b := Block()[4 * i..4 * i + 4];
    PackFour(b);
    if i == 0 { PackFirst(); } else if i == 15 { PackLast(); } else { PackZero(); }
  }

  lemma PackFour(b: seq<bv8>)
    requires |b| == 4
    ensures Pack(b) == Shifted(Shifted(Shifted(Shifted(0, b[0]), b[1]), b[2]), b[3])
  {
    hide Shifted;
    assert b[..3][..2] == b[..2] && b[..2][..1] == b[..1] && b[..1][..0] == [];
    assert Pack(b[..1]) == Shifted(0, b[0]);
    assert Pack(b[..2]) == Shifted(Pack(b[..1]), b[1]);
    assert Pack(b[..3]) == Shifted(Pack(b[..2]), b[2]);
  }

  lemma PackFirst()
    ensures Shifted(Shifted(Shifted(Shifted(0, 0x61), 0x62), 0x63), 0x80) == 0x61626380
  {
  }

  lemma PackLast()
    ensures Shifted(Shifted(Shifted(Shifted(0, 0), 0), 0), 0x18) == 0x18
  {
  }

  lemma PackZero()
    ensures Shifted(Shifted(Shifted(Shifted(0, 0), 0), 0), 0) == 0
  {
  }

  /** Four words added up. */
  function Added(s1: bv32, b: bv32, s0: bv32, d: bv32): bv32 {
    s1 + b + s0 + d
  }

  lemma ExtendedIs(a: bv32, b: bv32, c: bv32, d: bv32)
    ensures Extended(a, b, c, d) == Added(SmallSigma1(a), b, SmallSigma0(c), d)
  {
    hide SmallSigma1, SmallSigma0;
  }

  /** Word i from the four words it comes from, with its two sigmas given. */
  lemma Extends(i: nat, a: bv32, b: bv32, c: bv32, d: bv32, s1: bv32, s0: bv32)
    requires 16 <= i < 64 && a == Words()[i - 2] && b == Words()[i - 7] && c == Words()[i - 15] && d == Words()[i - 16]
    requires SmallSigma1(a) == s1 && SmallSigma0(c) == s0 && Added(s1, b, s0, d) == Words()[i]
    ensures Extended(Words()[i - 2], Words()[i - 7], Words()[i - 15], Words()[i - 16]) == Words()[i]
  {
    hide *;
    ExtendedIs(a, b, c, d);
  }

  lemma Extend16(i: nat)
    requires 16 <= i < 20
    ensures Extended(Words()[i - 2], Words()[i - 7], Words()[i - 15], Words()[i - 16]) == Words()[i]
  {
    hide Extended;
    if i == 16 { Extends(i, 0x00000000, 0x00000000, 0x00000000, 0x61626380, 0x00000000, 0x00000000); }
    else if i == 17 { Extends(i, 0x00000018, 0x00000000, 0x00000000, 0x00000000, 0x000f0000, 0x00000000); }
    else if i == 18 { Extends(i, 0x61626380, 0x00000000, 0x00000000, 0x00000000, 0x7da86405, 0x00000000); }
    else if i == 19 { Extends(i, 0x000f0000, 0x00000000, 0x00000000, 0x00000000, 0x600003c6, 0x00000000); }
  }

  lemma Extend20(i: nat)
    requires 20 <= i < 24
    ensures Extended(Words()[i - 2], Words()[i - 7], Words()[i - 15], Words()[i - 16]) == Words()[i]
  {
    hide Extended;
    if i == 20 { Extends(i, 0x7da86405, 0x00000000, 0x00000000, 0x00000000, 0x3e9d7b78, 0x00000000); }
    else if i == 21 { Extends(i, 0x600003c6, 0x00000000, 0x00000000, 0x00000000, 0x0183fc00, 0x00000000); }
    else if i == 22 { Extends(i, 0x3e9d7b78, 0x00000018, 0x00000000, 0x00000000, 0x12dcbfc3, 0x00000000); }
    else if i == 23 { Extends(i, 0x0183fc00, 0x61626380, 0x00000000, 0x00000000, 0x8180600e, 0x00000000); }
  }

  lemma Extend24(i: nat)
    requires 24 <= i < 28
    ensures Extended(Words()[i - 2], Words()[i - 7], Words()[i - 15], Words()[i - 16]) == Words()[i]
  {
    hide Extended;
    if i == 24 { Extends(i, 0x12dcbfdb, 0x000f0000, 0x00000000, 0x00000000, 0xc8125c1a, 0x00000000); }
    else if i == 25 { Extends(i, 0xe2e2c38e, 0x7da86405, 0x00000000, 0x00000000, 0x398e159d, 0x00000000); }
    else if i == 26 { Extends(i, 0xc8215c1a, 0x600003c6, 0x00000000, 0x00000000, 0x85bc3543, 0x00000000); }
    else if i == 27 { Extends(i, 0xb73679a2, 0x3e9d7b78, 0x00000000, 0x00000000, 0xf3c8c0e3, 0x00000000); }
  }

  lemma Extend28(i: nat)
    requires 28 <= i < 32
    ensures Extended(Words()[i - 2], Words()[i - 7], Words()[i - 15], Words()[i - 16]) == Words()[i]
  {
    hide Extended;
    if i == 28 { Extends(i, 0xe5bc3909, 0x0183fc00, 0x00000000, 0x00000000, 0x9b9ca167, 0x00000000); }
    else if i == 29 { Extends(i, 0x32663c5b, 0x12dcbfdb, 0x00000000, 0x00000000, 0xd9aa66f0, 0x00000000); }
    else if i == 30 { Extends(i, 0x9d209d67, 0xe2e2c38e, 0x00000018, 0x00000000, 0x5d387513, 0x30060003); }
    else if i == 31 { Extends(i, 0xec8726cb, 0xc8215c1a, 0x61626380, 0x00000018, 0x7787aa1a, 0x940e90ef); }
  }

  lemma Extend32(i: nat)
    requires 32 <= i < 36
    ensures Extended(Words()[i - 2], Words()[i - 7], Words()[i - 15], Words()[i - 16]) == Words()[i]
  {
    hide Extended;
    if i == 32 { Extends(i, 0x702138a4, 0xb73679a2, 0x000f0000, 0x61626380, 0xbb5abe5a, 0xc001fe03); }
    else if i == 33 { Extends(i, 0xd3b7973b, 0xe5bc3909, 0x7da86405, 0x000f0000, 0x394e7e48, 0x1c4f0322); }
    else if i == 34 { Extends(i, 0x93f5997f, 0x32663c5b, 0x600003c6, 0x7da86405, 0x7fb4c6e2, 0x8031987f); }
    else if i == 35 { Extends(i, 0x3b68ba73, 0x9d209d67, 0x3e9d7b78, 0x600003c6, 0x4a7920f7, 0xa9709a3e); }
  }

  lemma Extend36(i: nat)
    requires 36 <= i < 40
    ensures Extended(Words()[i - 2], Words()[i - 7], Words()[i - 15], Words()[i - 16]) == Words()[i]
  {
    hide Extended;
    if i == 36 { Extends(i, 0xaff4ffc1, 0xec8726cb, 0x0183fc00, 0x3e9d7b78, 0xe0331f3b, 0xff337818); }
    else if i == 37 { Extends(i, 0xf10a5c62, 0x702138a4, 0x12dcbfdb, 0x0183fc00, 0x65816433, 0x9b88ea33); }
    else if i == 38 { Extends(i, 0x0a8b3996, 0xd3b7973b, 0xe2e2c38e, 0x12dcbfdb, 0xfbfb66da, 0xb17a254e); }
    else if i == 39 { Extends(i, 0x72af830a, 0x93f5997f, 0xc8215c1a, 0xe2e2c38e, 0x31f8dce2, 0x7b92db33); }
  }

  lemma Extend40(i: nat)
    requires 40 <= i < 44
    ensures Extended(Words()[i - 2], Words()[i - 7], Words()[i - 15], Words()[i - 16]) == Words()[i]
  {
    hide Extended;
    if i == 40 { Extends(i, 0x9409e33e, 0x3b68ba73, 0xb73679a2, 0xc8215c1a, 0xcddd9afd, 0xcde00e0a); }
    else if i == 41 { Extends(i, 0x24641522, 0xaff4ffc1, 0xe5bc3909, 0xb73679a2, 0x883c4fbb, 0x013e863c); }
    else if i == 42 { Extends(i, 0x9f47bf94, 0xf10a5c62, 0x32663c5b, 0xe5bc3909, 0x281f0da4, 0x3f3ec76a); }
    else if i == 43 { Extends(i, 0xf0a64f5a, 0x0a8b3996, 0x9d209d67, 0x32663c5b, 0xee7a0fd4, 0xfbc7b5de); }
  }

  lemma Extend44(i: nat)
    requires 44 <= i < 48
    ensures Extended(Words()[i - 2], Words()[i - 7], Words()[i - 15], Words()[i - 16]) == Words()[i]
  {
    hide Extended;
    if i == 44 { Extends(i, 0x3e246a79, 0x72af830a, 0xec8726cb, 0x9d209d67, 0xb87c31cc, 0x43fb11b5); }
    else if i == 45 { Extends(i, 0x27333ba3, 0x9409e33e, 0x702138a4, 0xec8726cb, 0xfaac3bb1, 0x08cd796d); }
    else if i == 46 { Extends(i, 0x0c4763f2, 0x24641522, 0xd3b7973b, 0x702138a4, 0x5d845673, 0x881f6924); }
    else if i == 47 { Extends(i, 0x840abf27, 0x9f47bf94, 0x93f5997f, 0xd3b7973b, 0x0856302b, 0x8b06bce0); }
  }

  lemma Extend48(i: nat)
    requires 48 <= i < 52
    ensures Extended(Words()[i - 2], Words()[i - 7], Words()[i - 15], Words()[i - 16]) == Words()[i]
  {
    hide Extended;
    if i == 48 { Extends(i, 0x7a290d5d, 0xf0a64f5a, 0x3b68ba73, 0x93f5997f, 0xa71b9812, 0xcf8708e0); }
    else if i == 49 { Extends(i, 0x065c43da, 0x3e246a79, 0xaff4ffc1, 0x3b68ba73, 0xa997d4f5, 0xa9511dfa); }
    else if i == 50 { Extends(i, 0xfb3e89cb, 0x27333ba3, 0xf10a5c62, 0xaff4ffc1, 0x95e24d5a, 0x4cdbe376); }
    else if i == 51 { Extends(i, 0xcc7617db, 0x0c4763f2, 0x0a8b3996, 0xf10a5c62, 0xc9258230, 0xe321f3e3); }
  }

  lemma Extend52(i: nat)
    requires 52 <= i < 56
    ensures Extended(Words()[i - 2], Words()[i - 7], Words()[i - 15], Words()[i - 16]) == Words()[i]
  {
    hide Extended;
    if i == 52 { Extends(i, 0xb9e66c34, 0x840abf27, 0x72af830a, 0x0a8b3996, 0xfbb2b254, 0xfa7233cc); }
    else if i == 53 { Extends(i, 0xa9993667, 0x7a290d5d, 0x9409e33e, 0x72af830a, 0xbdd547b2, 0x17668aa3); }
    else if i == 54 { Extends(i, 0x84badedd, 0x065c43da, 0x24641522, 0x9409e33e, 0x34945c7d, 0x458cc397); }
    else if i == 55 { Extends(i, 0xc21462bc, 0xfb3e89cb, 0x9f47bf94, 0x24641522, 0xbd397c50, 0xd5335f5c); }
  }

  lemma Extend56(i: nat)
    requires 56 <= i < 60
    ensures Extended(Words()[i - 2], Words()[i - 7], Words()[i - 15], Words()[i - 16]) == Words()[i]
  {
    hide Extended;
    if i == 56 { Extends(i, 0x1487472c, 0xcc7617db, 0xf0a64f5a, 0x9f47bf94, 0x4b76a902, 0x3823395c); }
    else if i == 57 { Extends(i, 0xb20f7a99, 0xb9e66c34, 0x3e246a79, 0xf0a64f5a, 0x52336c98, 0xef268a12); }
    else if i == 58 { Extends(i, 0xef57b9cd, 0xa9993667, 0x27333ba3, 0x3e246a79, 0x2be49faf, 0x8c40c8cf); }
    else if i == 59 { Extends(i, 0xebe6b238, 0x84badedd, 0x0c4763f2, 0x27333ba3, 0x8f619123, 0x3d6ce1a8); }
  }

  lemma Extend60(i: nat)
    requires 60 <= i < 64
    ensures Extended(Words()[i - 2], Words()[i - 7], Words()[i - 15], Words()[i - 16]) == Words()[i]
  {
    hide Extended;
    if i == 60 { Extends(i, 0x9fe3095e, 0xc21462bc, 0x840abf27, 0x0c4763f2, 0xe5a364cf, 0xf040a398); }
    else if i == 61 { Extends(i, 0x78bc8d4b, 0x1487472c, 0x7a290d5d, 0x840abf27, 0xd712fc6a, 0xf6e62d3b); }
    else if i == 62 { Extends(i, 0xa43fcf15, 0xb20f7a99, 0x065c43da, 0x7a290d5d, 0x1e41696b, 0xa431b16b); }
    else if i == 63 { Extends(i, 0x668b2ff8, 0xef57b9cd, 0xfb3e89cb, 0x065c43da, 0xf21a9d5f, 0x2ae352e5); }
  }

  lemma {:induction false} ScheduleIs(i: nat)
    requires i < 64
    ensures ScheduleWord(Block(), i) == Words()[i]
  {
    hide Words, Block, Extended;
    if i < 16 {
      FirstWords(i);
    } else {
      ScheduleIs(i - 2);
      ScheduleIs(i - 7);
      ScheduleIs(i - 15);
      ScheduleIs(i - 16);
      if i < 20 { Extend16(i); } else if i < 24 { Extend20(i); } else if i < 28 { Extend24(i); }
      else if i < 32 { Extend28(i); } else if i < 36 { Extend32(i); } else if i < 40 { Extend36(i); }
      else if i < 44 { Extend40(i); } else if i < 48 { Extend44(i); } else if i < 52 { Extend48(i); }
      else if i < 56 { Extend52(i); } else if i < 60 { Extend56(i); } else { Extend60(i); }
    }
  }

  // ---------------------------------------------------------------- the rounds

  /** The working variables are these after i rounds. */
  ghost predicate Holds(i: nat, a: bv32, b: bv32, c: bv32, d: bv32, e: bv32, f: bv32, g: bv32, h: bv32) {
    i <= 64 && Working(Initial(), Block(), i) == [a, b, c, d, e, f, g, h]
  }

  /** One round, with the values of its functions given. */
  lemma Round(i: nat, a: bv32, b: bv32, c: bv32, d: bv32, e: bv32, f: bv32, g: bv32, h: bv32,
              s1: bv32, ch: bv32, s0: bv32, mj: bv32, t1: bv32, t2: bv32, a1: bv32, e1: bv32)
    requires Holds(i, a, b, c, d, e, f, g, h) && i < 64
    requires BigSigma1(e) == s1 && Ch(e, f, g) == ch && BigSigma0(a) == s0 && Maj(a, b, c) == mj
    requires Total(h, s1, ch, K()[i], Words()[i]) == t1 && Plus(s0, mj) == t2 && Plus(t1, t2) == a1 && Plus(d, t1) == e1
    ensures Holds(i + 1, a1, a, b, c, e1, e, f, g)
  {
    hide Words, K, Block, Initial, BigSigma0, BigSigma1, Ch, Maj, T1, T2, Total, Plus;
    ScheduleIs(i);
    SumsOfRound([a, b, c, d, e, f, g, h], K()[i], Words()[i]);
  }

  lemma Rounds0()
    requires Holds(0, 0x6a09e667, 0xbb67ae85, 0x3c6ef372, 0xa54ff53a, 0x510e527f, 0x9b05688c, 0x1f83d9ab, 0x5be0cd19)
    ensures Holds(4, 0xd550f666, 0xc8c347a7, 0x5a6ad9ad, 0x5d6aebcd, 0x24e00850, 0xf92939eb, 0x78ce7989, 0xfa2a4622)
  {
    hide Holds;
    Round(0, 0x6a09e667, 0xbb67ae85, 0x3c6ef372, 0xa54ff53a, 0x510e527f, 0x9b05688c, 0x1f83d9ab, 0x5be0cd19,
          0x3587272b, 0x1f85c98c, 0xce20b47e, 0x3a6fe667, 0x54da50e8, 0x08909ae5,
          0x5d6aebcd, 0xfa2a4622);
    Round(1, 0x5d6aebcd, 0x6a09e667, 0xbb67ae85, 0x3c6ef372, 0xfa2a4622, 0x510e527f, 0x9b05688c, 0x1f83d9ab,
          0x5a94fd2d, 0x510f6aae, 0xa29f64d1, 0x7b6beec5, 0x3c5f8617, 0x1e0b5396,
          0x5a6ad9ad, 0x78ce7989);
    Round(2, 0x5a6ad9ad, 0x5d6aebcd, 0x6a09e667, 0xbb67ae85, 0x78ce7989, 0xfa2a4622, 0x510e527f, 0x9b05688c,
          0x73f0e495, 0x790a4276, 0x3096d054, 0x5a6aebed, 0x3dc18b66, 0x8b01bc41,
          0xc8c347a7, 0xf92939eb);
    Round(3, 0xc8c347a7, 0x5a6ad9ad, 0x5d6aebcd, 0x6a09e667, 0xf92939eb, 0x78ce7989, 0xfa2a4622, 0x510e527f,
          0x0607743c, 0x7a0a7f89, 0xc21008d0, 0x586acbad, 0xbad621e9, 0x1a7ad47d,
          0xd550f666, 0x24e00850);
  }

  lemma Rounds4()
    requires Holds(4, 0xd550f666, 0xc8c347a7, 0x5a6ad9ad, 0x5d6aebcd, 0x24e00850, 0xf92939eb, 0x78ce7989, 0xfa2a4622)
    ensures Holds(8, 0x85a07b5f, 0xe5030380, 0x2b4209f5, 0x04409a6a, 0x0c657a79, 0x9b27a401, 0x714260ad, 0x43ada245)
  {
    hide Holds;
    Round(4, 0xd550f666, 0xc8c347a7, 0x5a6ad9ad, 0x5d6aebcd, 0x24e00850, 0xf92939eb, 0x78ce7989, 0xfa2a4622,
          0x3a933432, 0x782e79c9, 0x45bb0c4b, 0xd842d7a7, 0xe642b678, 0x1dfde3f2,
          0x04409a6a, 0x43ada245);
    Round(5, 0x04409a6a, 0xd550f666, 0xc8c347a7, 0x5a6ad9ad, 0x43ada245, 0x24e00850, 0xf92939eb, 0x78ce7989,
          0x8b77e19c, 0xb8a019ea, 0x5029ac8f, 0xc440d666, 0x16d78700, 0x146a82f5,
          0x2b4209f5, 0x714260ad);
    Round(6, 0x2b4209f5, 0x04409a6a, 0xd550f666, 0xc8c347a7, 0x714260ad, 0x43ada245, 0x24e00850, 0xf92939eb,
          0x015b7776, 0x45a02855, 0x0d5e0cc0, 0x05409a66, 0xd2645c5a, 0x129ea726,
          0xe5030380, 0x9b27a401);
    Round(7, 0xe5030380, 0x2b4209f5, 0x04409a6a, 0xd550f666, 0x9b27a401, 0x714260ad, 0x43ada245, 0x24e00850,
          0x158dfaa9, 0x518a2245, 0x2949eb6c, 0x25420be0, 0x37148413, 0x4e8bf74c,
          0x85a07b5f, 0x0c657a79);
  }

  lemma Rounds8()
    requires Holds(8, 0x85a07b5f, 0xe5030380, 0x2b4209f5, 0x04409a6a, 0x0c657a79, 0x9b27a401, 0x714260ad, 0x43ada245)
    ensures Holds(12, 0xf71fc5a9, 0x4798a3f4, 0x8c87346b, 0x8e04ecb9, 0x816fd6e9, 0x436b23e8, 0x1cc92596, 0x32ca2d8c)
  {
    hide Holds;
    Round(8, 0x85a07b5f, 0xe5030380, 0x2b4209f5, 0x04409a6a, 0x0c657a79, 0x9b27a401, 0x714260ad, 0x43ada245,
          0x99ad25c0, 0x79272085, 0xba794dc2, 0xa5020bd5, 0x2e899322, 0x5f7b5997,
          0x8e04ecb9, 0x32ca2d8c);
    Round(9, 0x8e04ecb9, 0x85a07b5f, 0xe5030380, 0x2b4209f5, 0x32ca2d8c, 0x0c657a79, 0x9b27a401, 0x714260ad,
          0xe45bb7ea, 0x8965a809, 0x15ffad31, 0x85006b99, 0xf1871ba1, 0x9b0018ca,
          0x8c87346b, 0x1cc92596);
    Round(10, 0x8c87346b, 0x8e04ecb9, 0x85a07b5f, 0xe5030380, 0x1cc92596, 0x32ca2d8c, 0x0c657a79, 0x9b27a401,
          0x8e2276bc, 0x10ec7fed, 0x5cac0711, 0x8c847c7b, 0x5e682068, 0xe930838c,
          0x4798a3f4, 0x436b23e8);
    Round(11, 0x4798a3f4, 0x8c87346b, 0x8e04ecb9, 0x85a07b5f, 0x436b23e8, 0x1cc92596, 0x32ca2d8c, 0x0c657a79,
          0x699435ca, 0x30c92d84, 0x6ccbc526, 0x8e84a4f9, 0xfbcf5b8a, 0xfb506a1f,
          0xf71fc5a9, 0x816fd6e9);
  }

  lemma Rounds12()
    requires Holds(12, 0xf71fc5a9, 0x4798a3f4, 0x8c87346b, 0x8e04ecb9, 0x816fd6e9, 0x436b23e8, 0x1cc92596, 0x32ca2d8c)
    ensures Holds(16, 0xb0fa238e, 0xc0645fde, 0xd932eb16, 0x87912990, 0x07590dcd, 0x0b92f20c, 0x745a48de, 0x1e578218)
  {
    hide Holds;
    Round(12, 0xf71fc5a9, 0x4798a3f4, 0x8c87346b, 0x8e04ecb9, 0x816fd6e9, 0x436b23e8, 0x1cc92596, 0x32ca2d8c,
          0xccdee661, 0x1deb23fe, 0x2f9eee48, 0xc79fa5e9, 0x9052955f, 0xf73e9431,
          0x87912990, 0x1e578218);
    Round(13, 0x87912990, 0xf71fc5a9, 0x4798a3f4, 0x8c87346b, 0x1e578218, 0x816fd6e9, 0x436b23e8, 0x1cc92596,
          0x08bb98f7, 0x416fa3e8, 0x29c634f3, 0xc799a1b0, 0xe7d31473, 0xf15fd6a3,
          0xd932eb16, 0x745a48de);
    Round(14, 0xd932eb16, 0x87912990, 0xf71fc5a9, 0x4798a3f4, 0x745a48de, 0x1e578218, 0x816fd6e9, 0x436b23e8,
          0x4f3b8d50, 0x95779639, 0x25562836, 0xd713e990, 0xc3fa4e18, 0xfc6a11c6,
          0xc0645fde, 0x0b92f20c);
    Round(15, 0xc0645fde, 0xd932eb16, 0x87912990, 0xf71fc5a9, 0x0b92f20c, 0x745a48de, 0x1e578218, 0x816fd6e9,
          0xb8d63f93, 0x1457401c, 0xdf906fd4, 0xc1306b96, 0x10394824, 0xa0c0db6a,
          0xb0fa238e, 0x07590dcd);
  }

  lemma Rounds16()
    requires Holds(16, 0xb0fa238e, 0xc0645fde, 0xd932eb16, 0x87912990, 0x07590dcd, 0x0b92f20c, 0x745a48de, 0x1e578218)
    ensures Holds(20, 0xe1f20c33, 0xfe777bbf, 0xc2fbd9d1, 0x21da9a9b, 0xb0638179, 0xcc899961, 0x846ee454, 0x8034229c)
  {
    hide Holds;
    Round(16, 0xb0fa238e, 0xc0645fde, 0xd932eb16, 0x87912990, 0x07590dcd, 0x0b92f20c, 0x745a48de, 0x1e578218,
          0x213b6995, 0x7312401e, 0x58c535f1, 0xd0726b9e, 0xf8a2f90c, 0x2937a18f,
          0x21da9a9b, 0x8034229c);
    Round(17, 0x21da9a9b, 0xb0fa238e, 0xc0645fde, 0xd932eb16, 0x8034229c, 0x07590dcd, 0x0b92f20c, 0x745a48de,
          0x3b81984e, 0x0b92d08c, 0x76c5c4f5, 0xa0fa1b9e, 0xab3bf93e, 0x17bfe093,
          0xc2fbd9d1, 0x846ee454);
    Round(18, 0xc2fbd9d1, 0x21da9a9b, 0xb0fa238e, 0xc0645fde, 0x846ee454, 0x8034229c, 0x07590dcd, 0x0b92f20c,
          0xeff31c0f, 0x8335299d, 0x5157a6a1, 0xa0fa9b9b, 0x0c253983, 0xf252423c,
          0xfe777bbf, 0xcc899961);
    Round(19, 0xfe777bbf, 0xc2fbd9d1, 0x21da9a9b, 0xb0fa238e, 0xcc899961, 0x846ee454, 0x8034229c, 0x07590dcd,
          0xefc707b0, 0x843ca2dc, 0xff8cd2ad, 0xe2fbdb9b, 0xff695deb, 0xe288ae48,
          0xe1f20c33, 0xb0638179);
  }

  lemma Rounds20()
    requires Holds(20, 0xe1f20c33, 0xfe777bbf, 0xc2fbd9d1, 0x21da9a9b, 0xb0638179, 0xcc899961, 0x846ee454, 0x8034229c)
    ensures Holds(24, 0xc5d53d8d, 0xa7a3623f, 0xc2606d6d, 0x9dc68b63, 0xaa47c347, 0x49f5114a, 0xe1257970, 0x8ada8930)
  {
    hide Holds;
    Round(20, 0xe1f20c33, 0xfe777bbf, 0xc2fbd9d1, 0x21da9a9b, 0xb0638179, 0xcc899961, 0x846ee454, 0x8034229c,
          0xf8373ead, 0x840de565, 0x51d3431b, 0xe2f359b3, 0x68ffee95, 0x34c69cce,
          0x9dc68b63, 0x8ada8930);
    Round(21, 0x9dc68b63, 0xe1f20c33, 0xfe777bbf, 0xc2fbd9d1, 0x8ada8930, 0xb0638179, 0xcc899961, 0x846ee454,
          0x897ea930, 0xc4439171, 0xa640c29b, 0xfdf60b33, 0x1e299f9f, 0xa436cdce,
          0xc2606d6d, 0xe1257970);
    Round(22, 0xc2606d6d, 0x9dc68b63, 0xe1f20c33, 0xfe777bbf, 0xe1257970, 0x8ada8930, 0xb0638179, 0xcc899961,
          0x7f24093a, 0x90428939, 0x9a43bf51, 0xc1e20d63, 0x4b7d958b, 0x5c25ccb4,
          0xa7a3623f, 0x49f5114a);
    Round(23, 0xa7a3623f, 0xc2606d6d, 0x9dc68b63, 0xe1f20c33, 0x49f5114a, 0xe1257970, 0x8ada8930, 0xb0638179,
          0xfae64fc3, 0xc32f9970, 0x759d1b0a, 0x87e26b6f, 0xc855b714, 0xfd7f8679,
          0xc5d53d8d, 0xaa47c347);
  }

  lemma Rounds24()
    requires Holds(24, 0xc5d53d8d, 0xa7a3623f, 0xc2606d6d, 0x9dc68b63, 0xaa47c347, 0x49f5114a, 0xe1257970, 0x8ada8930)
    ensures Holds(28, 0x77d37528, 0xb62ec4bc, 0xcde8037d, 0x1c2c2838, 0xedffbff8, 0xc74c6516, 0x14383d8e, 0x2823ef91)
  {
    hide Holds;
    Round(24, 0xc5d53d8d, 0xa7a3623f, 0xc2606d6d, 0x9dc68b63, 0xaa47c347, 0x49f5114a, 0xe1257970, 0x8ada8930,
          0x55bdf420, 0x49653972, 0xc9ed56dd, 0xc7e16d2d, 0x8a5d642e, 0x91cec40a,
          0x1c2c2838, 0x2823ef91);
    Round(25, 0x1c2c2838, 0xc5d53d8d, 0xa7a3623f, 0xc2606d6d, 0x2823ef91, 0xaa47c347, 0x49f5114a, 0xe1257970,
          0xa7724357, 0x69d7d34b, 0xf66b0b1f, 0x85a5283d, 0x51d7d021, 0x7c10335c,
          0xcde8037d, 0x14383d8e);
    Round(26, 0xcde8037d, 0x1c2c2838, 0xc5d53d8d, 0xa7a3623f, 0x14383d8e, 0x2823ef91, 0xaa47c347, 0x49f5114a,
          0x958ca0fb, 0xaa67efc1, 0xc89998a8, 0xcdec293d, 0x1fa902d7, 0x9685c1e5,
          0xb62ec4bc, 0xc74c6516);
    Round(27, 0xb62ec4bc, 0xcde8037d, 0x1c2c2838, 0xc5d53d8d, 0xc74c6516, 0x14383d8e, 0x2823ef91, 0xaa47c347,
          0x5ff7537b, 0x2c2baf87, 0xb37cf281, 0x9c2c003c, 0x282a826b, 0x4fa8f2bd,
          0x77d37528, 0xedffbff8);
  }

  lemma Rounds28()
    requires Holds(28, 0x77d37528, 0xb62ec4bc, 0xcde8037d, 0x1c2c2838, 0xedffbff8, 0xc74c6516, 0x14383d8e, 0x2823ef91)
    ensures Holds(32, 0x73b33bf5, 0xea992a22, 0xa0060b30, 0x363482c9, 0xba591112, 0x0109ab3a, 0xade79437, 0x6112a3b7)
  {
    hide Holds;
    Round(28, 0x77d37528, 0xb62ec4bc, 0xcde8037d, 0x1c2c2838, 0xedffbff8, 0xc74c6516, 0x14383d8e, 0x2823ef91,
          0xe375bd7e, 0xd54c2516, 0xf963c20e, 0xf7ea453c, 0x44e67b7f, 0xf14e074a,
          0x363482c9, 0x6112a3b7);
    Round(29, 0x363482c9, 0x77d37528, 0xb62ec4bc, 0xcde8037d, 0x6112a3b7, 0xedffbff8, 0xc74c6516, 0x14383d8e,
          0x2239b36a, 0xe75ee7b0, 0x89cfb5ce, 0x3636c4a8, 0xdfff90ba, 0xc0067a76,
          0xa0060b30, 0xade79437);
    Round(30, 0xa0060b30, 0x363482c9, 0x77d37528, 0xb62ec4bc, 0xade79437, 0x6112a3b7, 0xedffbff8, 0xc74c6516,
          0xab883974, 0x611aabff, 0x69a8407c, 0x36160328, 0x4adae67e, 0x9fbe43a4,
          0xea992a22, 0x0109ab3a);
    Round(31, 0xea992a22, 0xa0060b30, 0x363482c9, 0x77d37528, 0x0109ab3a, 0xade79437, 0x6112a3b7, 0xedffbff8,
          0x0b919a99, 0x611380b7, 0x8f1995eb, 0xa2140a20, 0x42859bea, 0x312da00b,
          0x73b33bf5, 0xba591112);
  }

  lemma Rounds32()
    requires Holds(32, 0x73b33bf5, 0xea992a22, 0xa0060b30, 0x363482c9, 0xba591112, 0x0109ab3a, 0xade79437, 0x6112a3b7)
    ensures Holds(36, 0x65a0cfe4, 0xa9a7738c, 0xfe604df5, 0x98e12507, 0xf4b002d6, 0x085f3833, 0x59249dd3, 0x9cd9f5f6)
  {
    hide Holds;
    Round(32, 0x73b33bf5, 0xea992a22, 0xa0060b30, 0x363482c9, 0xba591112, 0x0109ab3a, 0xade79437, 0x6112a3b7,
          0x4436a63b, 0x05af8537, 0x4fa886aa, 0xe2932b30, 0x66a5732d, 0x323bb1da,
          0x98e12507, 0x9cd9f5f6);
    Round(33, 0x98e12507, 0x73b33bf5, 0xea992a22, 0xa0060b30, 0x9cd9f5f6, 0xba591112, 0x0109ab3a, 0xade79437,
          0x085a07a7, 0x99591b1a, 0x4a90902b, 0xfab12b27, 0xb91e92a3, 0x4541bb52,
          0xfe604df5, 0x59249dd3);
    Round(34, 0xfe604df5, 0x98e12507, 0x73b33bf5, 0xea992a22, 0x59249dd3, 0x9cd9f5f6, 0xba591112, 0x0109ab3a,
          0x65415f48, 0xba5995d2, 0x91003786, 0xfae12df5, 0x1dc60e11, 0x8be1657b,
          0xa9a7738c, 0x085f3833);
    Round(35, 0xa9a7738c, 0xfe604df5, 0x98e12507, 0x73b33bf5, 0x085f3833, 0x59249dd3, 0x9cd9f5f6, 0xba591112,
          0xe5dc6e83, 0x9c84ddd7, 0x2bc2a37e, 0xb8e16585, 0x80fcc6e1, 0xe4a40903,
          0x65a0cfe4, 0xf4b002d6);
  }

  lemma Rounds36()
    requires Holds(36, 0x65a0cfe4, 0xa9a7738c, 0xfe604df5, 0x98e12507, 0xf4b002d6, 0x085f3833, 0x59249dd3, 0x9cd9f5f6)
    ensures Holds(40, 0x79ea687a, 0x6dc57a8a, 0x34df1604, 0x41a65cb1, 0x1efbc0a0, 0xf0781bc8, 0xa507a53d, 0x0772a26b)
  {
    hide Holds;
    Round(36, 0x65a0cfe4, 0xa9a7738c, 0xfe604df5, 0x98e12507, 0xf4b002d6, 0x085f3833, 0x59249dd3, 0x9cd9f5f6,
          0x590d3d71, 0x09149d13, 0xe5748f69, 0xeda04fe4, 0x6e917d64, 0xd314df4d,
          0x41a65cb1, 0x0772a26b);
    Round(37, 0x41a65cb1, 0x65a0cfe4, 0xa9a7738c, 0xfe604df5, 0x0772a26b, 0xf4b002d6, 0x085f3833, 0x59249dd3,
          0x582c115e, 0x0c3d1a52, 0x2c915f18, 0x61a65fa4, 0xa6a75748, 0x8e37bebc,
          0x34df1604, 0xa507a53d);
    Round(38, 0x34df1604, 0x41a65cb1, 0x65a0cfe4, 0xa9a7738c, 0xa507a53d, 0x0772a26b, 0xf4b002d6, 0x085f3833,
          0xd2f220b2, 0x55b2a2eb, 0xc14e73aa, 0x65a65ea4, 0x46d0a83c, 0x26f4d24e,
          0x6dc57a8a, 0xf0781bc8);
    Round(39, 0x6dc57a8a, 0x34df1604, 0x41a65cb1, 0x65a0cfe4, 0xf0781bc8, 0xa507a53d, 0x0772a26b, 0xf4b002d6,
          0x66d20b14, 0xa702a12b, 0x5ac8193e, 0x65c75e80, 0xb95af0bc, 0xc08f77be,
          0x79ea687a, 0x1efbc0a0);
  }

  lemma Rounds40()
    requires Holds(40, 0x79ea687a, 0x6dc57a8a, 0x34df1604, 0x41a65cb1, 0x1efbc0a0, 0xf0781bc8, 0xa507a53d, 0x0772a26b)
    ensures Holds(44, 0x9d4baf93, 0x17aa0dfe, 0xdf46652f, 0xd6670766, 0xfda24c2e, 0xdecd4715, 0x838b2711, 0x26352d63)
  {
    hide Holds;
    Round(40, 0x79ea687a, 0x6dc57a8a, 0x34df1604, 0x41a65cb1, 0x1efbc0a0, 0xf0781bc8, 0xa507a53d, 0x0772a26b,
          0xe9986075, 0xb17c259d, 0x7408bcaa, 0x7dcf7a0a, 0xe48ed0b2, 0xf1d836b4,
          0xd6670766, 0x26352d63);
    Round(41, 0xd6670766, 0x79ea687a, 0x6dc57a8a, 0x34df1604, 0x26352d63, 0x1efbc0a0, 0xf0781bc8, 0xa507a53d,
          0x3a6aa383, 0xd67912a8, 0x12b2e9b8, 0x7de76a6a, 0x4eac110d, 0x909a5422,
          0xdf46652f, 0x838b2711);
    Round(42, 0xdf46652f, 0xd6670766, 0x79ea687a, 0x6dc57a8a, 0x838b2711, 0x26352d63, 0x1efbc0a0, 0xf0781bc8,
          0x61add539, 0x1e71e5a1, 0xc73bdc05, 0xdf66656e, 0x7107cc8b, 0xa6a24173,
          0x17aa0dfe, 0xdecd4715);
    Round(43, 0x17aa0dfe, 0xdf46652f, 0xd6670766, 0x79ea687a, 0xdecd4715, 0x838b2711, 0x26352d63, 0x1efbc0a0,
          0xd363665b, 0xa2b92f73, 0x422dc671, 0xd766056e, 0x83b7e3b4, 0x1993cbdf,
          0x9d4baf93, 0xfda24c2e);
  }

  lemma Rounds44()
    requires Holds(44, 0x9d4baf93, 0x17aa0dfe, 0xdf46652f, 0xd6670766, 0xfda24c2e, 0xdecd4715, 0x838b2711, 0x26352d63)
    ensures Holds(48, 0x4172328d, 0xa14c14b0, 0x72ab4b91, 0x26628815, 0xfecf0bc6, 0xd57b94a9, 0xb7755da1, 0xa80f11f0)
  {
    hide Holds;
    Round(44, 0x9d4baf93, 0x17aa0dfe, 0xdf46652f, 0xd6670766, 0xfda24c2e, 0xdecd4715, 0x838b2711, 0x26352d63,
          0xef0f2a07, 0xde896715, 0xb5704fcc, 0x9f4a2dbf, 0xd1a80a8a, 0x54ba7d8b,
          0x26628815, 0xa80f11f0);
    Round(45, 0x26628815, 0x9d4baf93, 0x17aa0dfe, 0xdf46652f, 0xa80f11f0, 0xfda24c2e, 0xdecd4715, 0x838b2711,
          0xfb3dc5f1, 0xfec24625, 0x8311c588, 0x176a8d97, 0xd82ef872, 0x9a7c531f,
          0x72ab4b91, 0xb7755da1);
    Round(46, 0x72ab4b91, 0x26628815, 0x9d4baf93, 0x17aa0dfe, 0xb7755da1, 0xa80f11f0, 0xfda24c2e, 0xdecd4715,
          0x8845eb06, 0xe88711ae, 0xad0f0274, 0x366b8b91, 0xbdd186ab, 0xe37a8e05,
          0xa14c14b0, 0xd57b94a9);
    Round(47, 0xa14c14b0, 0x72ab4b91, 0x26628815, 0x9d4baf93, 0xd57b94a9, 0xb7755da1, 0xa80f11f0, 0xfda24c2e,
          0x8fa515ca, 0xbd7515f1, 0xbd84cdc9, 0x226a0891, 0x61835c33, 0xdfeed65a,
          0x4172328d, 0xfecf0bc6);
  }

  lemma Rounds48()
    requires Holds(48, 0x4172328d, 0xa14c14b0, 0x72ab4b91, 0x26628815, 0xfecf0bc6, 0xd57b94a9, 0xb7755da1, 0xa80f11f0)
    ensures Holds(52, 0x886e7a22, 0x7a0508a1, 0xf11bfaa8, 0x05757ceb, 0x49231c1e, 0x52f1ccf7, 0x6e5c390c, 0xbd714038)
  {
    hide Holds;
    Round(48, 0x4172328d, 0xa14c14b0, 0x72ab4b91, 0x26628815, 0xfecf0bc6, 0xd57b94a9, 0xb7755da1, 0xa80f11f0,
          0x04a106b1, 0xd57b54a1, 0x0cfcb237, 0x616a1291, 0x970eb823, 0x6e66c4c8,
          0x05757ceb, 0xbd714038);
    Round(49, 0x05757ceb, 0x4172328d, 0xa14c14b0, 0x72ab4b91, 0xbd714038, 0xfecf0bc6, 0xd57b94a9, 0xb7755da1,
          0x5d427776, 0xfc4b9481, 0xf3f6d884, 0x017434a9, 0xfbb0ed7b, 0xf56b0d2d,
          0xf11bfaa8, 0x6e5c390c);
    Round(50, 0xf11bfaa8, 0x05757ceb, 0x4172328d, 0xa14c14b0, 0x6e5c390c, 0xbd714038, 0xfecf0bc6, 0xd57b94a9,
          0x3e283d54, 0xbcd302ca, 0x86ebd5b1, 0x41737aa9, 0xb1a5b847, 0xc85f505a,
          0x7a0508a1, 0x52f1ccf7);
    Round(51, 0x7a0508a1, 0xf11bfaa8, 0x05757ceb, 0x4172328d, 0x52f1ccf7, 0x6e5c390c, 0xbd714038, 0xfecf0bc6,
          0x3b47e2a3, 0xef50080c, 0x0fa817e8, 0x711578a9, 0x07b0e991, 0x80bd9091,
          0x886e7a22, 0x49231c1e);
  }

  lemma Rounds52()
    requires Holds(52, 0x886e7a22, 0x7a0508a1, 0xf11bfaa8, 0x05757ceb, 0x49231c1e, 0x52f1ccf7, 0x6e5c390c, 0xbd714038)
    ensures Holds(56, 0x38cc9913, 0x3ec45cdb, 0xf5702fdb, 0x101fd28f, 0x54cb266b, 0xe50e1b4f, 0x9f4787c3, 0x529e7d00)
  {
    hide Holds;
    Round(52, 0x886e7a22, 0x7a0508a1, 0xf11bfaa8, 0x05757ceb, 0x49231c1e, 0x52f1ccf7, 0x6e5c390c, 0xbd714038,
          0x6b63a737, 0x667d2d16, 0xcae757da, 0xf80f7aa0, 0x4d290015, 0xc2f6d27a,
          0x101fd28f, 0x529e7d00);
    Round(53, 0x101fd28f, 0x886e7a22, 0x7a0508a1, 0xf11bfaa8, 0x529e7d00, 0x49231c1e, 0x52f1ccf7, 0x6e5c390c,
          0xee7eaa12, 0x40639cf7, 0x2f35481d, 0x180f5aa3, 0xae2b8d1b, 0x4744a2c0,
          0xf5702fdb, 0x9f4787c3);
    Round(54, 0xf5702fdb, 0x101fd28f, 0x886e7a22, 0x7a0508a1, 0x9f4787c3, 0x529e7d00, 0x49231c1e, 0x52f1ccf7,
          0x55cd1720, 0x52261d1c, 0x433ccfa2, 0x907e7a8b, 0x6b0912ae, 0xd3bb4a2d,
          0x3ec45cdb, 0xe50e1b4f);
    Round(55, 0x3ec45cdb, 0xf5702fdb, 0x101fd28f, 0x886e7a22, 0xe50e1b4f, 0x9f4787c3, 0x529e7d00, 0x49231c1e,
          0xd1653e5c, 0x97966743, 0x381b8def, 0x34545edb, 0xcc5cac49, 0x6c6fecca,
          0x38cc9913, 0x54cb266b);
  }

  lemma Rounds56()
    requires Holds(56, 0x38cc9913, 0x3ec45cdb, 0xf5702fdb, 0x101fd28f, 0x54cb266b, 0xe50e1b4f, 0x9f4787c3, 0x529e7d00)
    ensures Holds(60, 0xb6ae8fff, 0xffb70472, 0xc062d46f, 0xfcd1887b, 0xb21bad3d, 0x6d83bfc6, 0x7e44008e, 0x9b5e906c)
  {
    hide Holds;
    Round(56, 0x38cc9913, 0x3ec45cdb, 0xf5702fdb, 0x101fd28f, 0x54cb266b, 0xe50e1b4f, 0x9f4787c3, 0x529e7d00,
          0x05aa8057, 0xcf0e83cb, 0x34ceacc3, 0x3cc41ddb, 0x8b3ebddd, 0x7192ca9e,
          0xfcd1887b, 0x9b5e906c);
    Round(57, 0xfcd1887b, 0x38cc9913, 0x3ec45cdb, 0xf5702fdb, 0x9b5e906c, 0x54cb266b, 0xe50e1b4f, 0x9f4787c3,
          0x10b627de, 0x744a0b6b, 0xfaca6b61, 0x3cc4985b, 0x88d3d0b3, 0x378f03bc,
          0xc062d46f, 0x7e44008e);
    Round(58, 0xc062d46f, 0xfcd1887b, 0x38cc9913, 0x3ec45cdb, 0x7e44008e, 0x9b5e906c, 0x54cb266b, 0xe50e1b4f,
          0x0a369fbd, 0x1acf266d, 0xd837090c, 0xf8c0987b, 0x2ebf62eb, 0xd0f7a187,
          0xffb70472, 0x6d83bfc6);
    Round(59, 0xffb70472, 0xc062d46f, 0xfcd1887b, 0x38cc9913, 0x6d83bfc6, 0x7e44008e, 0x9b5e906c, 0x54cb266b,
          0x20a45dbe, 0xfe5c00ae, 0x406bf75a, 0xfcf3847b, 0x794f142a, 0x3d5f7bd5,
          0xb6ae8fff, 0xb21bad3d);
  }

  lemma Rounds60()
    requires Holds(60, 0xb6ae8fff, 0xffb70472, 0xc062d46f, 0xfcd1887b, 0xb21bad3d, 0x6d83bfc6, 0x7e44008e, 0x9b5e906c)
    ensures Holds(64, 0x506e3058, 0xd39a2165, 0x04d24d6c, 0xb85e2ce9, 0x5ef50f24, 0xfb121210, 0x948d25b6, 0x961f4894)
  {
    hide Holds;
    Round(60, 0xb6ae8fff, 0xffb70472, 0xc062d46f, 0xfcd1887b, 0xb21bad3d, 0x6d83bfc6, 0x7e44008e, 0x9b5e906c,
          0x5ca8b318, 0x6c47ad86, 0x2869e851, 0xf6a6847f, 0x994dc019, 0x1f106cd0,
          0xb85e2ce9, 0x961f4894);
    Round(61, 0xb85e2ce9, 0xb6ae8fff, 0xffb70472, 0xc062d46f, 0x961f4894, 0xb21bad3d, 0x6d83bfc6, 0x7e44008e,
          0x4f6ef480, 0xfb9bbf56, 0x71e9ef2a, 0xbebe0cfb, 0xd42a5147, 0x30a7fc25,
          0x04d24d6c, 0x948d25b6);
    Round(62, 0x04d24d6c, 0xb85e2ce9, 0xb6ae8fff, 0xffb70472, 0x948d25b6, 0x961f4894, 0xb21bad3d, 0x6d83bfc6,
          0x2a127e78, 0xb61f889d, 0x236105da, 0xb4de0ded, 0xfb5b0d9e, 0xd83f13c7,
          0xd39a2165, 0xfb121210);
    Round(63, 0xd39a2165, 0x04d24d6c, 0xb85e2ce9, 0xb6ae8fff, 0xfb121210, 0x948d25b6, 0x961f4894, 0xb21bad3d,
          0x88fa2277, 0x940d4894, 0x174d83c6, 0x90da2d6d, 0xa8467f25, 0xa827b133,
          0x506e3058, 0x5ef50f24);
  }

  lemma AllRounds()
    ensures Holds(64, 0x506e3058, 0xd39a2165, 0x04d24d6c, 0xb85e2ce9, 0x5ef50f24, 0xfb121210, 0x948d25b6, 0x961f4894)
  {
    assert Holds(0, 0x6a09e667, 0xbb67ae85, 0x3c6ef372, 0xa54ff53a, 0x510e527f, 0x9b05688c, 0x1f83d9ab, 0x5be0cd19);
    hide Holds;
    Rounds0();
    Rounds4();
    Rounds8();
    Rounds12();
    Rounds16();
    Rounds20();
    Rounds24();
    Rounds28();
    Rounds32();
    Rounds36();
    Rounds40();
    Rounds44();
    Rounds48();
    Rounds52();
    Rounds56();
    Rounds60();
  }

  /** The hash value after the one block. */
  function Hashed(): (h: seq<bv32>)
    ensures |h| == 8
  {
    [0xba7816bf, 0x8f01cfea, 0x414140de, 0x5dae2223, 0xb00361a3, 0x96177a9c, 0xb410ff61, 0xf20015ad]
  }

  lemma FinalSums()
    ensures Plus(0x6a09e667, 0x506e3058) == 0xba7816bf
    ensures Plus(0xbb67ae85, 0xd39a2165) == 0x8f01cfea
    ensures Plus(0x3c6ef372, 0x04d24d6c) == 0x414140de
    ensures Plus(0xa54ff53a, 0xb85e2ce9) == 0x5dae2223
    ensures Plus(0x510e527f, 0x5ef50f24) == 0xb00361a3
    ensures Plus(0x9b05688c, 0xfb121210) == 0x96177a9c
    ensures Plus(0x1f83d9ab, 0x948d25b6) == 0xb410ff61
    ensures Plus(0x5be0cd19, 0x961f4894) == 0xf20015ad
  {
  }

  lemma BlockHashed()
    ensures Compressed(Initial(), Block()) == Hashed()
  {
    AllRounds();
    hide Working, Block;
    FinalSums();
    assert Compressed(Initial(), Block()) == Hashed() by {
      hide Plus;
    }
  }

  lemma PaddedAbc()
    ensures Abc() + CodePadding(3) == Block()
  {
    EightBytes();
    PaddingOfAbc();
    hide BigEndian, CodePadding, Zeros;
    Joined(Zeros(52), Zeros(7));
    FewerZeros();
  }

  lemma FewerZeros()
    ensures Zeros(52) + Zeros(7) == Zeros(59)
  {
  }

  lemma PaddingOfAbc()
    ensures CodePadding(3) == [0x80] + Zeros(52) + BigEndian(24, 8)
  {
    hide BigEndian, Zeros;
    assert BitLength(3) == 24;
  }

  lemma Joined(y: seq<bv8>, z: seq<bv8>)
    ensures Abc() + ([0x80] + y + (z + [0x18])) == [0x61, 0x62, 0x63, 0x80] + (y + z) + [0x18]
  {
  }

  lemma EightBytes()
    ensures BigEndian(24, 8) == Zeros(7) + [0x18]
  {
    ZeroBytes(7);
    LastOfEight();
    hide BigEndian, Zeros;
  }

  lemma LastOfEight()
    ensures BigEndian(24, 8) == BigEndian(0, 7) + [0x18]
  {
    assert 24 / 256 == 0 && 24 % 256 == 24;
  }

  lemma {:induction false} ZeroBytes(n: nat)
    ensures BigEndian(0, n) == Zeros(n)
  {
    if n > 0 { ZeroBytes(n - 1); }
  }

  /** The digest of "abc". */
  lemma DigestOfAbc()
    ensures Digest(Abc()) == [
      0xba, 0x78, 0x16, 0xbf, 0x8f, 0x01, 0xcf, 0xea, 0x41, 0x41, 0x40, 0xde, 0x5d, 0xae, 0x22, 0x23,
      0xb0, 0x03, 0x61, 0xa3, 0x96, 0x17, 0x7a, 0x9c, 0xb4, 0x10, 0xff, 0x61, 0xf2, 0x00, 0x15, 0xad]
  {
    PaddedAbc();
    BlockHashed();
    var p := Abc() + CodePadding(3);
    hide Compressed, Block, CodePadding, Hashed, Initial;
    assert p[..0] == [] && p[0..] == p;
    assert Absorbed(Initial(), p) == Compressed(Initial(), p);
    HashedBytes();
  }

  lemma BytesOfWord(w: bv32)
    ensures WordBytes(w, 4) == [LowByte(w >> 8 >> 8 >> 8), LowByte(w >> 8 >> 8), LowByte(w >> 8), LowByte(w)]
  {
    hide LowByte;
    assert WordBytes(w >> 8 >> 8 >> 8 >> 8, 0) == [];
    assert WordBytes(w >> 8 >> 8 >> 8, 1) == [LowByte(w >> 8 >> 8 >> 8)];
    assert WordBytes(w >> 8 >> 8, 2) == WordBytes(w >> 8 >> 8 >> 8, 1) + [LowByte(w >> 8 >> 8)];
    assert WordBytes(w >> 8, 3) == WordBytes(w >> 8 >> 8, 2) + [LowByte(w >> 8)];
  }

  lemma WordIs(w: bv32, a: bv8, b: bv8, c: bv8, d: bv8)
    requires LowByte(w >> 8 >> 8 >> 8) == a && LowByte(w >> 8 >> 8) == b && LowByte(w >> 8) == c && LowByte(w) == d
    ensures WordBytes(w, 4) == [a, b, c, d]
  {
    BytesOfWord(w);
    hide WordBytes, LowByte;
  }

  lemma More(h: seq<bv32>, n: nat)
    requires n < |h|
    ensures DigestBytes(h[..n + 1]) == DigestBytes(h[..n]) + WordBytes(h[n], 4)
  {
    hide WordBytes;
    assert h[..n + 1][..n] == h[..n];
  }

  lemma FirstBytes()
    ensures DigestBytes(Hashed()[..4]) == [
      0xba, 0x78, 0x16, 0xbf, 0x8f, 0x01, 0xcf, 0xea, 0x41, 0x41, 0x40, 0xde, 0x5d, 0xae, 0x22, 0x23]
  {
    hide WordBytes, DigestBytes;
    var h := Hashed();
    NoWords(h);
    More(h, 0);
    Word0();
    More(h, 1);
    Word1();
    More(h, 2);
    Word2();
    More(h, 3);
    Word3();
  }

  lemma HashedBytes()
    ensures DigestBytes(Hashed()) == [
      0xba, 0x78, 0x16, 0xbf, 0x8f, 0x01, 0xcf, 0xea, 0x41, 0x41, 0x40, 0xde, 0x5d, 0xae, 0x22, 0x23,
      0xb0, 0x03, 0x61, 0xa3, 0x96, 0x17, 0x7a, 0x9c, 0xb4, 0x10, 0xff, 0x61, 0xf2, 0x00, 0x15, 0xad]
  {
    hide WordBytes, DigestBytes;
    var h := Hashed();
    FirstBytes();
    More(h, 4);
    Word4();
    More(h, 5);
    Word5();
    More(h, 6);
    Word6();
    More(h, 7);
    Word7();
    assert h[..8] == h;
  }

  lemma Word0()
    ensures WordBytes(0xba7816bf, 4) == [0xba, 0x78, 0x16, 0xbf]
  {
    WordIs(0xba7816bf, 0xba, 0x78, 0x16, 0xbf);
  }

  lemma Word1()
    ensures WordBytes(0x8f01cfea, 4) == [0x8f, 0x01, 0xcf, 0xea]
  {
    WordIs(0x8f01cfea, 0x8f, 0x01, 0xcf, 0xea);
  }

  lemma Word2()
    ensures WordBytes(0x414140de, 4) == [0x41, 0x41, 0x40, 0xde]
  {
    WordIs(0x414140de, 0x41, 0x41, 0x40, 0xde);
  }

  lemma Word3()
    ensures WordBytes(0x5dae2223, 4) == [0x5d, 0xae, 0x22, 0x23]
  {
    WordIs(0x5dae2223, 0x5d, 0xae, 0x22, 0x23);
  }

  lemma Word4()
    ensures WordBytes(0xb00361a3, 4) == [0xb0, 0x03, 0x61, 0xa3]
  {
    WordIs(0xb00361a3, 0xb0, 0x03, 0x61, 0xa3);
  }

  lemma Word5()
    ensures WordBytes(0x96177a9c, 4) == [0x96, 0x17, 0x7a, 0x9c]
  {
    WordIs(0x96177a9c, 0x96, 0x17, 0x7a, 0x9c);
  }

  lemma Word6()
    ensures WordBytes(0xb410ff61, 4) == [0xb4, 0x10, 0xff, 0x61]
  {
    WordIs(0xb410ff61, 0xb4, 0x10, 0xff, 0x61);
  }

  lemma Word7()
    ensures WordBytes(0xf20015ad, 4) == [0xf2, 0x00, 0x15, 0xad]
  {
    WordIs(0xf20015ad, 0xf2, 0x00, 0x15, 0xad);
  }

  lemma NoWords(h: seq<bv32>)
    ensures DigestBytes(h[..0]) == []
  {
  }
}
