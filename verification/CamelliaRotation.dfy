/** Rotating a block of 16 bytes to the left, bit 0 being the top bit of byte 0:
    operator<<= of misc/CamelliaCipher.ipp. */
module CamelliaRotation {

  /** The top r bits of the second byte follow the first byte without its top r bits. */
  function ShiftedByte(a: bv8, b: bv8, r: nat): bv8
    requires r < 8
  {
    (a << r) | (b >> (8 - r))
  }

  function Rotated(s: seq<bv8>, x: nat): (t: seq<bv8>)
    requires |s| == 16
    ensures |t| == 16
  {
    seq(16, i requires 0 <= i < 16 => ShiftedByte(s[(i + x / 8) % 16], s[(i + x / 8 + 1) % 16], x % 8))
  }

  function Mask(j: nat): bv8
    requires j < 8
  {
    if j == 0 then 0x80 else if j == 1 then 0x40 else if j == 2 then 0x20 else if j == 3 then 0x10
    else if j == 4 then 0x08 else if j == 5 then 0x04 else if j == 6 then 0x02 else 0x01
  }

  predicate ByteBit(b: bv8, j: nat)
    requires j < 8
  {
    b & Mask(j) != 0
  }

  /** Bit i of a sequence of bytes. */
  predicate Bit(s: seq<bv8>, i: nat)
    requires i < 8 * |s|
  {
    ByteBit(s[i / 8], i % 8)
  }

  lemma SameByte(a: bv8, b: bv8)
    requires forall j :: 0 <= j < 8 ==> ByteBit(a, j) == ByteBit(b, j)
    ensures a == b
  {
    assert ByteBit(a, 0) == ByteBit(b, 0) && ByteBit(a, 1) == ByteBit(b, 1);
    assert ByteBit(a, 2) == ByteBit(b, 2) && ByteBit(a, 3) == ByteBit(b, 3);
    assert ByteBit(a, 4) == ByteBit(b, 4) && ByteBit(a, 5) == ByteBit(b, 5);
    assert ByteBit(a, 6) == ByteBit(b, 6) && ByteBit(a, 7) == ByteBit(b, 7);
  }

  lemma ShiftedByteBit(a: bv8, b: bv8, r: nat, j: nat)
    requires r < 8 && j < 8
    ensures ByteBit(ShiftedByte(a, b, r), j) == if j + r < 8 then ByteBit(a, j + r) else ByteBit(b, j + r - 8)
  {
    if r < 2 { ShiftTo1(a, b, r, j); }
    else if r < 4 { ShiftTo3(a, b, r, j); }
    else if r < 6 { ShiftTo5(a, b, r, j); }
    else { ShiftTo7(a, b, r, j); }
  }

  lemma ShiftTo1(a: bv8, b: bv8, r: nat, j: nat)
    requires 0 <= r < 2 && j < 8
    ensures ByteBit(ShiftedByte(a, b, r), j) == if j + r < 8 then ByteBit(a, j + r) else ByteBit(b, j + r - 8)
  {
    if r == 0 { } else { assert r == 1; }
  }

  lemma ShiftTo3(a: bv8, b: bv8, r: nat, j: nat)
    requires 2 <= r < 4 && j < 8
    ensures ByteBit(ShiftedByte(a, b, r), j) == if j + r < 8 then ByteBit(a, j + r) else ByteBit(b, j + r - 8)
  {
    if r == 2 { } else { assert r == 3; }
  }

  lemma ShiftTo5(a: bv8, b: bv8, r: nat, j: nat)
    requires 4 <= r < 6 && j < 8
    ensures ByteBit(ShiftedByte(a, b, r), j) == if j + r < 8 then ByteBit(a, j + r) else ByteBit(b, j + r - 8)
  {
    if r == 4 { } else { assert r == 5; }
  }

  lemma ShiftTo7(a: bv8, b: bv8, r: nat, j: nat)
    requires 6 <= r < 8 && j < 8
    ensures ByteBit(ShiftedByte(a, b, r), j) == if j + r < 8 then ByteBit(a, j + r) else ByteBit(b, j + r - 8)
  {
    if r == 6 { } else { assert r == 7; }
  }

  lemma WrapBytes(m: nat, k: nat)
    requires k < 8
    ensures (8 * m + k) % 128 == 8 * (m % 16) + k
  {
    assert 8 * m + k == 128 * (m / 16) + (8 * (m % 16) + k);
  }

  lemma SplitSum(i: nat, x: nat)
    requires i < 128
    ensures i % 8 + x % 8 < 8 ==>
              (i / 8 + x / 8) % 16 == (i + x) % 128 / 8 && i % 8 + x % 8 == (i + x) % 128 % 8
    ensures i % 8 + x % 8 >= 8 ==>
              (i / 8 + x / 8 + 1) % 16 == (i + x) % 128 / 8 && i % 8 + x % 8 == (i + x) % 128 % 8 + 8
  {
    var j := i % 8 + x % 8;
    if j < 8 {
      WrapBytes(i / 8 + x / 8, j);
    } else {
      WrapBytes(i / 8 + x / 8 + 1, j - 8);
    }
  }

  /** Bit i of the rotated block is bit i + x of the block, round the end. */
  lemma RotatedBit(s: seq<bv8>, x: nat, i: nat)
    requires |s| == 16 && i < 128
    ensures Bit(Rotated(s, x), i) == Bit(s, (i + x) % 128)
  {
    hide ByteBit, ShiftedByte;
    var q := i / 8;
    assert Rotated(s, x)[q] == ShiftedByte(s[(q + x / 8) % 16], s[(q + x / 8 + 1) % 16], x % 8);
    ShiftedByteBit(s[(q + x / 8) % 16], s[(q + x / 8 + 1) % 16], x % 8, i % 8);
    SplitSum(i, x);
  }

  lemma SameBits(s: seq<bv8>, t: seq<bv8>)
    requires |s| == |t| && forall i :: 0 <= i < 8 * |s| ==> Bit(s, i) == Bit(t, i)
    ensures s == t
  {
    hide ByteBit;
    forall q | 0 <= q < |s| ensures s[q] == t[q] {
      forall j | 0 <= j < 8 ensures ByteBit(s[q], j) == ByteBit(t[q], j) {
        assert Bit(s, 8 * q + j) == Bit(t, 8 * q + j);
      }
      SameByte(s[q], t[q]);
    }
  }

  lemma WrapTwice(i: nat, x: nat, y: nat)
    ensures ((i + y) % 128 + x) % 128 == (i + (x + y)) % 128
  {
  }

  /** Rotations add up. */
  lemma RotationsCompose(s: seq<bv8>, x: nat, y: nat)
    requires |s| == 16
    ensures Rotated(Rotated(s, x), y) == Rotated(s, x + y)
  {
    hide Bit, Rotated;
    forall i | 0 <= i < 128 ensures Bit(Rotated(Rotated(s, x), y), i) == Bit(Rotated(s, x + y), i) {
      RotatedBit(Rotated(s, x), y, i);
      RotatedBit(s, x, (i + y) % 128);
      RotatedBit(s, x + y, i);
      WrapTwice(i, x, y);
    }
    SameBits(Rotated(Rotated(s, x), y), Rotated(s, x + y));
  }

  /** A full turn is the identity. */
  lemma FullTurn(s: seq<bv8>)
    requires |s| == 16
    ensures Rotated(s, 128) == s && Rotated(s, 0) == s
  {
    hide Bit, Rotated;
    forall i | 0 <= i < 128 ensures Bit(Rotated(s, 128), i) == Bit(s, i) == Bit(Rotated(s, 0), i) {
      RotatedBit(s, 128, i);
      RotatedBit(s, 0, i);
      assert (i + 128) % 128 == i;
    }
    SameBits(Rotated(s, 128), s);
    SameBits(Rotated(s, 0), s);
  }
}
