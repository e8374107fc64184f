/** setKey of misc/CamelliaCipher.ipp: the subkeys are the rotations that the tables
    of section 2.2 of RFC 3713 list, although the code rotates in place, step by step. */
module CamelliaKeySchedule {
  import opened CamelliaRotation
  import opened CamelliaSpec
  import opened CamelliaBuffers
  import opened CamelliaCipherModule

  // ---------------------------------------------------------------- the tables of the RFC

  function Inverted(s: seq<bv8>): (r: seq<bv8>)
    ensures |r| == |s|
  {
    seq(|s|, i requires 0 <= i < |s| => !s[i])
  }

  predicate LongEnough(key: seq<bv8>, size: int) {
    |key| >= if size == 192 then 24 else if size == 256 then 32 else 16
  }

  function KeyLeft(key: seq<bv8>, size: int): (r: seq<bv8>)
    requires LongEnough(key, size)
    ensures |r| == 16
  {
    key[..16]
  }

  function KeyRight(key: seq<bv8>, size: int): (r: seq<bv8>)
    requires LongEnough(key, size)
    ensures |r| == 16
  {
    if size == 192 then key[16..24] + Inverted(key[16..24])
    else if size == 256 then key[16..32]
    else seq(16, _ => 0)
  }

  function MixedA(t: SBoxes, sigma: seq<bv8>, kl: seq<bv8>, kr: seq<bv8>): (r: seq<bv8>)
    requires |sigma| == 48 && |kl| == |kr| == 16
    ensures |r| == 16
  {
    var d := RfcPair(t, BlockOf(Xor(kl, kr)), Sub(sigma, 0), Sub(sigma, 1));
    Bytes(RfcPair(t, BlockOf(Xor(Bytes(d), kl)), Sub(sigma, 2), Sub(sigma, 3)))
  }

  function MixedB(t: SBoxes, sigma: seq<bv8>, ka: seq<bv8>, kr: seq<bv8>): (r: seq<bv8>)
    requires |sigma| == 48 && |ka| == |kr| == 16
    ensures |r| == 16
  {
    Bytes(RfcPair(t, BlockOf(Xor(ka, kr)), Sub(sigma, 4), Sub(sigma, 5)))
  }

  /** k1 to k18 for 128-bit keys. */
  function ShortK(kl: seq<bv8>, ka: seq<bv8>): (r: seq<bv8>)
    requires |kl| == |ka| == 16
    ensures |r| == 144
  {
    Rotated(ka, 0) + Rotated(kl, 15) + Rotated(ka, 15) + Rotated(kl, 45)
    + Rotated(ka, 45)[..8] + Rotated(kl, 60)[8..] + Rotated(ka, 60)
    + Rotated(kl, 94) + Rotated(ka, 94) + Rotated(kl, 111)
  }

  function ShortKl(kl: seq<bv8>, ka: seq<bv8>): (r: seq<bv8>)
    requires |kl| == |ka| == 16
    ensures |r| == 32
  {
    Rotated(ka, 30) + Rotated(kl, 77)
  }

  /** k1 to k24 for 192- and 256-bit keys. */
  function LongK(kl: seq<bv8>, kr: seq<bv8>, ka: seq<bv8>, kb: seq<bv8>): (r: seq<bv8>)
    requires |kl| == |kr| == |ka| == |kb| == 16
    ensures |r| == 192
  {
    Rotated(kb, 0) + Rotated(kr, 15) + Rotated(ka, 15) + Rotated(kb, 30)
    + Rotated(kl, 45) + Rotated(ka, 45) + Rotated(kr, 60) + Rotated(kb, 60)
    + Rotated(kl, 77) + Rotated(kr, 94) + Rotated(ka, 94) + Rotated(kl, 111)
  }

  function LongKl(kl: seq<bv8>, kr: seq<bv8>, ka: seq<bv8>): (r: seq<bv8>)
    requires |kl| == |kr| == |ka| == 16
    ensures |r| == 48
  {
    Rotated(kr, 30) + Rotated(kl, 60) + Rotated(ka, 77)
  }

  function OuterKw(kl: seq<bv8>, k: seq<bv8>): (r: seq<bv8>)
    requires |kl| == |k| == 16
    ensures |r| == 32
  {
    Rotated(kl, 0) + Rotated(k, 111)
  }

  // ---------------------------------------------------------------- steps of the schedule

  /** b holds s rotated by y. */
  ghost predicate Turned(b: CamelliaBlock, s: seq<bv8>, y: nat)
    reads b.e
  {
    b.Valid() && |s| == 16 && b.e[..] == Rotated(s, y)
  }

  method Turn(b: CamelliaBlock, x: nat, ghost s: seq<bv8>, ghost y: nat)
    requires Turned(b, s, y)
    modifies b.e
    ensures Turned(b, s, y + x)
  {
    b.RotateLeft(x);
    RotationsCompose(s, y, x);
  }

  /** Appends n bytes of a block behind the first ro bytes of ret. */
  method Emit(ret: array<bv8>, ro: nat, b: CamelliaBlock, so: nat, n: nat)
    requires b.Valid() && ret != b.e && ro + n <= ret.Length && so + n <= 16
    modifies ret
    ensures ret[..ro + n] == old(ret[..ro]) + b.e[..][so..so + n]
  {
    ghost var s := ret[..];
    CopyInto(ret, ro, b.e, so, n);
    assert b.e[so..so + n] == b.e[..][so..so + n];
    assert ret[..ro + n] == ret[..][..ro] + ret[..][ro..ro + n];
  }

  method EmitBlock(ret: array<bv8>, ro: nat, b: CamelliaBlock)
    requires b.Valid() && ret != b.e && ro + 16 <= ret.Length
    modifies ret
    ensures ret[..ro + 16] == old(ret[..ro]) + b.e[..]
  {
    Emit(ret, ro, b, 0, 16);
    assert b.e[..][0..16] == b.e[..];
  }

  /** Two Feistel rounds with the constants number i and i + 1. */
  method MixTwice(t: SBoxes, b: CamelliaBlock, sigma: array<bv8>, i: nat) returns (r: CamelliaBlock)
    requires b.Valid() && 8 * i + 16 <= sigma.Length
    ensures r.Valid() && fresh(r) && fresh(r.e)
    ensures r.e[..] == Bytes(RfcPair(t, BlockOf(b.e[..]), Sub(sigma[..], i), Sub(sigma[..], i + 1)))
  {
    hide RfcPair, Round, BlockOf, Bytes, Sub;
    var k1 := new CamelliaBlock();
    RoundInto(t, k1, b, sigma, 8 * i);
    SliceIsSub(sigma, i);
    r := new CamelliaBlock();
    RoundInto(t, r, k1, sigma, 8 * (i + 1));
    SliceIsSub(sigma, i + 1);
    PairIsTwoRounds(t, BlockOf(b.e[..]), Sub(sigma[..], i), Sub(sigma[..], i + 1));
    BlockSlices(r.e[..]);
  }

  method XorBlock(ret: CamelliaBlock, a: CamelliaBlock, b: CamelliaBlock)
    requires ret.Valid() && a.Valid() && b.Valid()
    modifies ret.e
    ensures ret.e[..] == Xor(old(a.e[..]), old(b.e[..]))
  {
    hide Xor;
    assert a.e[0..16] == a.e[..] && b.e[0..16] == b.e[..];
    XorInto(ret.e, 0, a.e, 0, b.e, 0, 16);
    assert ret.e[0..16] == ret.e[..];
  }

  method LoadRight(kr: CamelliaBlock, key: seq<bv8>, size: int)
    requires kr.Valid() && LongEnough(key, size) && kr.e[..] == seq(16, _ => 0)
    modifies kr.e
    ensures kr.e[..] == KeyRight(key, size)
  {
    if size == 192 {
      ghost var x, y := key[16..24], Inverted(key[16..24]);
      for i := 0 to 8
        invariant forall k :: 0 <= k < i ==> kr.e[k] == x[k]
        invariant forall k :: 8 <= k < 8 + i ==> kr.e[k] == y[k - 8]
      {
        kr.e[i] := key[16 + i];
        kr.e[8 + i] := !kr.e[i];
      }
      assert kr.e[..] == x + y;
    } else if size == 256 {
      for i := 0 to 16
        invariant forall k :: 0 <= k < i ==> kr.e[k] == key[16 + k]
      {
        kr.e[i] := key[16 + i];
      }
    }
  }

  // ---------------------------------------------------------------- the schedule

  method TurnAndEmit(ret: array<bv8>, ro: nat, b: CamelliaBlock, x: nat, ghost s: seq<bv8>, ghost y: nat)
    requires Turned(b, s, y) && ret != b.e && ro + 16 <= ret.Length
    modifies ret, b.e
    ensures Turned(b, s, y + x)
    ensures ret[..ro + 16] == old(ret[..ro]) + Rotated(s, y + x)
  {
    Turn(b, x, s, y);
    EmitBlock(ret, ro, b);
  }

  ghost predicate Separate(key: CamelliaKey, blocks: set<array<bv8>>) {
    key.Valid() && key.kw !in blocks && key.k !in blocks && key.kl !in blocks
  }

  method Short(key: CamelliaKey, kl: CamelliaBlock, ka: CamelliaBlock, ghost l: seq<bv8>, ghost a: seq<bv8>)
    requires Turned(kl, l, 0) && Turned(ka, a, 0) && kl.e != ka.e && Separate(key, {kl.e, ka.e})
    modifies key.kw, key.k, key.kl, kl.e, ka.e
    ensures key.kw[..] == OuterKw(l, a) && key.k[..144] == ShortK(l, a) && key.kl[..32] == ShortKl(l, a)
  {
    hide Rotated;
    assert key.kw[..0] == [] && key.k[..0] == [] && key.kl[..0] == [];
    EmitBlock(key.kw, 0, kl);
    EmitBlock(key.k, 0, ka);
    ShortStart(key, kl, ka, l, a);
    ghost var k := key.k[..64];
    ShortMiddle(key, kl, ka, l, a, k);
    ShortEnd(key, kl, ka, l, a, key.k[..96]);
  }

  method ShortStart(key: CamelliaKey, kl: CamelliaBlock, ka: CamelliaBlock, ghost l: seq<bv8>, ghost a: seq<bv8>)
    requires Turned(kl, l, 0) && Turned(ka, a, 0) && kl.e != ka.e && Separate(key, {kl.e, ka.e})
    requires key.k[..16] == Rotated(a, 0) && key.kl[..0] == []
    modifies key.k, key.kl, kl.e, ka.e
    ensures Turned(kl, l, 45) && Turned(ka, a, 30) && key.kl[..16] == Rotated(a, 30)
    ensures key.k[..64] == Rotated(a, 0) + Rotated(l, 15) + Rotated(a, 15) + Rotated(l, 45)
  {
    hide Rotated;
    TurnAndEmit(key.k, 16, kl, 15, l, 0);
    TurnAndEmit(key.k, 32, ka, 15, a, 0);
    TurnAndEmit(key.kl, 0, ka, 15, a, 15);
    assert [] + Rotated(a, 30) == Rotated(a, 30);
    TurnAndEmit(key.k, 48, kl, 30, l, 15);
  }

  /** k9 is a left and k10 a right half. */
  method ShortMiddle(key: CamelliaKey, kl: CamelliaBlock, ka: CamelliaBlock, ghost l: seq<bv8>, ghost a: seq<bv8>,
                     ghost k: seq<bv8>)
    requires Turned(kl, l, 45) && Turned(ka, a, 30) && kl.e != ka.e && Separate(key, {kl.e, ka.e})
    requires key.k[..64] == k
    modifies key.k, kl.e, ka.e
    ensures Turned(kl, l, 60) && Turned(ka, a, 60)
    ensures key.k[..96] == k + Rotated(a, 45)[..8] + Rotated(l, 60)[8..] + Rotated(a, 60)
  {
    hide Rotated;
    Turn(ka, 15, a, 30);
    Emit(key.k, 64, ka, 0, 8);
    Turn(kl, 15, l, 45);
    Emit(key.k, 72, kl, 8, 8);
    assert Rotated(a, 45)[0..8] == Rotated(a, 45)[..8] && Rotated(l, 60)[8..16] == Rotated(l, 60)[8..];
    TurnAndEmit(key.k, 80, ka, 15, a, 45);
  }

  method ShortEnd(key: CamelliaKey, kl: CamelliaBlock, ka: CamelliaBlock, ghost l: seq<bv8>, ghost a: seq<bv8>,
                  ghost k: seq<bv8>)
    requires Turned(kl, l, 60) && Turned(ka, a, 60) && kl.e != ka.e && Separate(key, {kl.e, ka.e})
    requires key.k[..96] == k && key.kw[..16] == Rotated(l, 0) && key.kl[..16] == Rotated(a, 30)
    modifies key.kw, key.k, key.kl, kl.e, ka.e
    ensures key.kw[..] == OuterKw(l, a) && key.kl[..32] == ShortKl(l, a)
    ensures key.k[..144] == k + Rotated(l, 94) + Rotated(a, 94) + Rotated(l, 111)
  {
    hide Rotated;
    TurnAndEmit(key.kl, 16, kl, 17, l, 60);
    TurnAndEmit(key.k, 96, kl, 17, l, 77);
    TurnAndEmit(key.k, 112, ka, 34, a, 60);
    TurnAndEmit(key.k, 128, kl, 17, l, 94);
    TurnAndEmit(key.kw, 16, ka, 17, a, 94);
    assert key.kw[..32] == key.kw[..];
  }

  ghost predicate Apart4(kl: CamelliaBlock, kr: CamelliaBlock, ka: CamelliaBlock, kb: CamelliaBlock) {
    && kl.e != kr.e && kl.e != ka.e && kl.e != kb.e
    && kr.e != ka.e && kr.e != kb.e && ka.e != kb.e
  }

  method Long(key: CamelliaKey, kl: CamelliaBlock, kr: CamelliaBlock, ka: CamelliaBlock, kb: CamelliaBlock,
              ghost l: seq<bv8>, ghost r: seq<bv8>, ghost a: seq<bv8>, ghost b: seq<bv8>)
    requires Turned(kl, l, 0) && Turned(kr, r, 0) && Turned(ka, a, 0) && Turned(kb, b, 0)
    requires Apart4(kl, kr, ka, kb) && Separate(key, {kl.e, kr.e, ka.e, kb.e})
    modifies key.kw, key.k, key.kl, kl.e, kr.e, ka.e, kb.e
    ensures key.kw[..] == OuterKw(l, b) && key.k[..] == LongK(l, r, a, b) && key.kl[..] == LongKl(l, r, a)
  {
    hide Rotated;
    assert key.kw[..0] == [] && key.k[..0] == [] && key.kl[..0] == [];
    EmitBlock(key.kw, 0, kl);
    EmitBlock(key.k, 0, kb);
    LongStart(key, kl, kr, ka, kb, l, r, a, b);
    LongMiddle(key, kl, kr, ka, kb, l, r, a, b, key.k[..64]);
    LongEnd(key, kl, kr, ka, kb, l, r, a, b, key.k[..128]);
  }

  method LongStart(key: CamelliaKey, kl: CamelliaBlock, kr: CamelliaBlock, ka: CamelliaBlock, kb: CamelliaBlock,
                   ghost l: seq<bv8>, ghost r: seq<bv8>, ghost a: seq<bv8>, ghost b: seq<bv8>)
    requires Turned(kl, l, 0) && Turned(kr, r, 0) && Turned(ka, a, 0) && Turned(kb, b, 0)
    requires Apart4(kl, kr, ka, kb) && Separate(key, {kl.e, kr.e, ka.e, kb.e})
    requires key.k[..16] == Rotated(b, 0) && key.kl[..0] == []
    modifies key.k, key.kl, kr.e, ka.e, kb.e
    ensures Turned(kl, l, 0) && Turned(kr, r, 30) && Turned(ka, a, 15) && Turned(kb, b, 30)
    ensures key.k[..64] == Rotated(b, 0) + Rotated(r, 15) + Rotated(a, 15) + Rotated(b, 30)
    ensures key.kl[..16] == Rotated(r, 30)
  {
    hide Rotated;
    TurnAndEmit(key.k, 16, kr, 15, r, 0);
    TurnAndEmit(key.k, 32, ka, 15, a, 0);
    TurnAndEmit(key.kl, 0, kr, 15, r, 15);
    assert [] + Rotated(r, 30) == Rotated(r, 30);
    TurnAndEmit(key.k, 48, kb, 30, b, 0);
  }

  method LongMiddle(key: CamelliaKey, kl: CamelliaBlock, kr: CamelliaBlock, ka: CamelliaBlock, kb: CamelliaBlock,
                    ghost l: seq<bv8>, ghost r: seq<bv8>, ghost a: seq<bv8>, ghost b: seq<bv8>, ghost k: seq<bv8>)
    requires Turned(kl, l, 0) && Turned(kr, r, 30) && Turned(ka, a, 15) && Turned(kb, b, 30)
    requires Apart4(kl, kr, ka, kb) && Separate(key, {kl.e, kr.e, ka.e, kb.e})
    requires key.k[..64] == k && key.kl[..16] == Rotated(r, 30)
    modifies key.k, key.kl, kl.e, kr.e, ka.e, kb.e
    ensures Turned(kl, l, 60) && Turned(kr, r, 60) && Turned(ka, a, 45) && Turned(kb, b, 60)
    ensures key.k[..128] == k + Rotated(l, 45) + Rotated(a, 45) + Rotated(r, 60) + Rotated(b, 60)
    ensures key.kl[..32] == Rotated(r, 30) + Rotated(l, 60)
  {
    hide Rotated;
    TurnAndEmit(key.k, 64, kl, 45, l, 0);
    TurnAndEmit(key.k, 80, ka, 30, a, 15);
    TurnAndEmit(key.kl, 16, kl, 15, l, 45);
    TurnAndEmit(key.k, 96, kr, 30, r, 30);
    TurnAndEmit(key.k, 112, kb, 30, b, 30);
  }

  method LongEnd(key: CamelliaKey, kl: CamelliaBlock, kr: CamelliaBlock, ka: CamelliaBlock, kb: CamelliaBlock,
                 ghost l: seq<bv8>, ghost r: seq<bv8>, ghost a: seq<bv8>, ghost b: seq<bv8>, ghost k: seq<bv8>)
    requires Turned(kl, l, 60) && Turned(kr, r, 60) && Turned(ka, a, 45) && Turned(kb, b, 60)
    requires Apart4(kl, kr, ka, kb) && Separate(key, {kl.e, kr.e, ka.e, kb.e})
    requires key.k[..128] == k && key.kl[..32] == Rotated(r, 30) + Rotated(l, 60)
    requires key.kw[..16] == Rotated(l, 0)
    modifies key.kw, key.k, key.kl, kl.e, kr.e, ka.e, kb.e
    ensures key.k[..] == k + Rotated(l, 77) + Rotated(r, 94) + Rotated(a, 94) + Rotated(l, 111)
    ensures key.kl[..] == LongKl(l, r, a) && key.kw[..] == OuterKw(l, b)
  {
    hide Rotated;
    TurnAndEmit(key.k, 128, kl, 17, l, 60);
    TurnAndEmit(key.kl, 32, ka, 32, a, 45);
    TurnAndEmit(key.k, 144, kr, 34, r, 60);
    TurnAndEmit(key.k, 160, ka, 17, a, 77);
    TurnAndEmit(key.k, 176, kl, 34, l, 77);
    TurnAndEmit(key.kw, 16, kb, 51, b, 60);
    assert key.kw[..32] == key.kw[..] && key.k[..192] == key.k[..] && key.kl[..48] == key.kl[..];
  }

  method SetKey(t: SBoxes, sigma: array<bv8>, key: CamelliaKey, ukey: seq<bv8>, bitsize: int)
    requires key.Valid() && sigma.Length == 48 && LongEnough(ukey, bitsize)
    requires sigma !in {key.kw, key.k, key.kl}
    modifies key, key.kw, key.k, key.kl
    ensures key.size == bitsize
    ensures var l, r := KeyLeft(ukey, bitsize), KeyRight(ukey, bitsize);
            var a := MixedA(t, sigma[..], l, r);
            if bitsize == 128 then
              && key.kw[..] == OuterKw(l, a) && key.k[..144] == ShortK(l, a)
              && key.kl[..32] == ShortKl(l, a)
            else
              var b := MixedB(t, sigma[..], a, r);
              && key.kw[..] == OuterKw(l, b) && key.k[..] == LongK(l, r, a, b)
              && key.kl[..] == LongKl(l, r, a)
  {
    hide Rotated, Xor, RfcPair, Round, BlockOf, Bytes, Sub, OuterKw, ShortK, ShortKl, LongK, LongKl, KeyRight;
    key.size := bitsize;
    ghost var l, r := KeyLeft(ukey, bitsize), KeyRight(ukey, bitsize);
    var kl := new CamelliaBlock.FromData(ukey[..16]);
    var kr := new CamelliaBlock();
    LoadRight(kr, ukey, bitsize);
    var ka, kb := Derive(t, sigma, kl, kr, l, r);
    FullTurn(kl.e[..]);
    FullTurn(kr.e[..]);
    FullTurn(ka.e[..]);
    FullTurn(kb.e[..]);
    if bitsize == 128 {
      Short(key, kl, ka, l, ka.e[..]);
    } else {
      Long(key, kl, kr, ka, kb, l, r, ka.e[..], kb.e[..]);
    }
  }

  method Derive(t: SBoxes, sigma: array<bv8>, kl: CamelliaBlock, kr: CamelliaBlock, ghost l: seq<bv8>, ghost r: seq<bv8>)
    returns (ka: CamelliaBlock, kb: CamelliaBlock)
    requires kl.Valid() && kr.Valid() && sigma.Length == 48 && kl.e[..] == l && kr.e[..] == r
    ensures ka.Valid() && kb.Valid() && fresh(ka.e) && fresh(kb.e) && ka.e != kb.e
    ensures ka.e[..] == MixedA(t, sigma[..], l, r)
    ensures kb.e[..] == MixedB(t, sigma[..], ka.e[..], r)
  {
    hide Xor, RfcPair, BlockOf, Bytes, Sub;
    var kr1 := new CamelliaBlock();
    XorBlock(kr1, kl, kr);
    kr1 := MixTwice(t, kr1, sigma, 0);
    XorBlock(kr1, kr1, kl);
    ka := MixTwice(t, kr1, sigma, 2);
    var x := new CamelliaBlock();
    XorBlock(x, ka, kr);
    kb := MixTwice(t, x, sigma, 4);
  }
}
