/** Bytes as numbers. */
module ByteConversion {

  lemma ByteValue(b: nat)
    requires b < 256
    ensures (b as bv8) as nat == b
  {
  }
}

/** SHA-256 on values: the compression function and the two paddings that
    misc/SHA256.ipp and section 5.1.1 of FIPS 180-4 describe. */
module SHA256Spec {
  import opened ByteConversion

  function K(): (k: seq<bv32>)
    ensures |k| == 64
  {
    [0x428a2f98, 0x71374491, 0xb5c0fbcf, 0xe9b5dba5, 0x3956c25b, 0x59f111f1, 0x923f82a4, 0xab1c5ed5,
      0xd807aa98, 0x12835b01, 0x243185be, 0x550c7dc3, 0x72be5d74, 0x80deb1fe, 0x9bdc06a7, 0xc19bf174]
    + [0xe49b69c1, 0xefbe4786, 0x0fc19dc6, 0x240ca1cc, 0x2de92c6f, 0x4a7484aa, 0x5cb0a9dc, 0x76f988da,
      0x983e5152, 0xa831c66d, 0xb00327c8, 0xbf597fc7, 0xc6e00bf3, 0xd5a79147, 0x06ca6351, 0x14292967]
    + [0x27b70a85, 0x2e1b2138, 0x4d2c6dfc, 0x53380d13, 0x650a7354, 0x766a0abb, 0x81c2c92e, 0x92722c85,
      0xa2bfe8a1, 0xa81a664b, 0xc24b8b70, 0xc76c51a3, 0xd192e819, 0xd6990624, 0xf40e3585, 0x106aa070]
    + [0x19a4c116, 0x1e376c08, 0x2748774c, 0x34b0bcb5, 0x391c0cb3, 0x4ed8aa4a, 0x5b9cca4f, 0x682e6ff3,
      0x748f82ee, 0x78a5636f, 0x84c87814, 0x8cc70208, 0x90befffa, 0xa4506ceb, 0xbef9a3f7, 0xc67178f2]
  }

  function Initial(): (h: seq<bv32>)
    ensures |h| == 8
  {
    [0x6a09e667, 0xbb67ae85, 0x3c6ef372, 0xa54ff53a, 0x510e527f, 0x9b05688c, 0x1f83d9ab, 0x5be0cd19]
  }

  // ---------------------------------------------------------------- section 4.1.2 of FIPS 180-4

  function SHR(n: bv32, x: bv32): bv32
    requires n <= 32
  {
    x >> n
  }

  function ROTR(n: bv32, x: bv32): bv32
    requires n <= 32
  {
    (x >> n) | (x << (32 - n))
  }

  function Ch(x: bv32, y: bv32, z: bv32): bv32 {
    (x & y) ^ (!x & z)
  }

  function Maj(x: bv32, y: bv32, z: bv32): bv32 {
    (x & y) ^ (y & z) ^ (z & x)
  }

  function BigSigma0(x: bv32): bv32 {
    ROTR(2, x) ^ ROTR(13, x) ^ ROTR(22, x)
  }

  function BigSigma1(x: bv32): bv32 {
    ROTR(6, x) ^ ROTR(11, x) ^ ROTR(25, x)
  }

  function SmallSigma0(x: bv32): bv32 {
    ROTR(7, x) ^ ROTR(18, x) ^ SHR(3, x)
  }

  function SmallSigma1(x: bv32): bv32 {
    ROTR(17, x) ^ ROTR(19, x) ^ SHR(10, x)
  }

  // ---------------------------------------------------------------- section 6.2.2 of FIPS 180-4

  /** Bytes as a word, the first byte on top. */
  function Pack(s: seq<bv8>): bv32 {
    if |s| == 0 then 0 else Shifted(Pack(s[..|s| - 1]), s[|s| - 1])
  }

  function Shifted(w: bv32, b: bv8): bv32 {
    (w << 8) + (b as bv32)
  }

  function Extended(a: bv32, b: bv32, c: bv32, d: bv32): bv32 {
    SmallSigma1(a) + b + SmallSigma0(c) + d
  }

  /** Word i of the message schedule. */
  function ScheduleWord(block: seq<bv8>, i: nat): bv32
    requires |block| == 64 && i < 64
  {
    if i < 16 then Pack(block[4 * i..4 * i + 4])
    else Extended(ScheduleWord(block, i - 2), ScheduleWord(block, i - 7),
                  ScheduleWord(block, i - 15), ScheduleWord(block, i - 16))
  }

  function T1(h: seq<bv32>, k: bv32, w: bv32): bv32
    requires |h| == 8
  {
    h[7] + BigSigma1(h[4]) + Ch(h[4], h[5], h[6]) + k + w
  }

  function T2(h: seq<bv32>): bv32
    requires |h| == 8
  {
    BigSigma0(h[0]) + Maj(h[0], h[1], h[2])
  }

  /** One round on the working variables a to h. */
  function Mixed(h: seq<bv32>, k: bv32, w: bv32): (r: seq<bv32>)
    requires |h| == 8
    ensures |r| == 8
  {
    [Plus(T1(h, k, w), T2(h)), h[0], h[1], h[2], Plus(h[3], T1(h, k, w)), h[4], h[5], h[6]]
  }

  function Plus(x: bv32, y: bv32): bv32 {
    x + y
  }

  function Working(h: seq<bv32>, block: seq<bv8>, i: nat): (r: seq<bv32>)
    requires |h| == 8 && |block| == 64 && i <= 64
    ensures |r| == 8
  {
    if i == 0 then h else Mixed(Working(h, block, i - 1), K()[i - 1], ScheduleWord(block, i - 1))
  }

  function Compressed(h: seq<bv32>, block: seq<bv8>): (r: seq<bv32>)
    requires |h| == 8 && |block| == 64
    ensures |r| == 8
  {
    seq(8, i requires 0 <= i < 8 => Plus(h[i], Working(h, block, 64)[i]))
  }

  /** The hash value after whole blocks. */
  function Absorbed(h: seq<bv32>, s: seq<bv8>): (r: seq<bv32>)
    requires |h| == 8 && |s| % 64 == 0
    ensures |r| == 8
  {
    if |s| == 0 then h else Compressed(Absorbed(h, s[..|s| - 64]), s[|s| - 64..])
  }

  // ---------------------------------------------------------------- padding

  const WRAP: nat := 0x1_0000_0000_0000_0000

  function Zeros(n: nat): (s: seq<bv8>)
    ensures |s| == n
  {
    seq(n, _ => 0)
  }

  /** The low n bytes of x, the highest first. */
  function BigEndian(x: nat, n: nat): (s: seq<bv8>)
    ensures |s| == n
  {
    if n == 0 then [] else BigEndian(x / 256, n - 1) + [(x % 256) as bv8]
  }

  /** The bit length as a 64-bit number. */
  function BitLength(n: nat): nat {
    n * 8 % WRAP
  }

  /** What end() feeds to the compression function after the message. */
  function CodePadding(n: nat): seq<bv8> {
    var r := n % 64;
    if r < 55 then [0x80] + Zeros(55 - r) + BigEndian(BitLength(n), 8)
    else [0x80] + Zeros(63 - r) + Zeros(56) + BigEndian(BitLength(n), 8)
  }

  /** Section 5.1.1: a one bit, the least number of zero bits that leaves 64 bits of
      the last block free, and the bit length. In bytes, the zero bits are the last
      seven bits of 0x80 and FipsZeros(n) bytes. */
  function FipsZeros(n: nat): nat {
    (119 - n % 64) % 64
  }

  function FipsPadding(n: nat): seq<bv8> {
    [0x80] + Zeros(FipsZeros(n)) + BigEndian(BitLength(n), 8)
  }

  /** FipsZeros(n) is the least number of bytes that works. */
  lemma FipsZerosLeast(n: nat, z: nat)
    ensures (n + 1 + FipsZeros(n) + 8) % 64 == 0
    ensures (n + 1 + z + 8) % 64 == 0 ==> FipsZeros(n) <= z
  {
  }

  lemma PaddingLengths(n: nat)
    ensures (n + |CodePadding(n)|) % 64 == 0
    ensures (n + |FipsPadding(n)|) % 64 == 0
    ensures |CodePadding(n)| == |FipsPadding(n)| + (if n % 64 == 55 then 64 else 0)
  {
    hide BigEndian, BitLength, Zeros;
    var q, r := n / 64, n % 64;
    assert n == 64 * q + r;
    assert |FipsPadding(n)| == 9 + FipsZeros(n);
    assert |CodePadding(n)| == if r < 55 then 64 - r else 128 - r;
    assert FipsZeros(n) == if r <= 55 then 55 - r else 119 - r;
    if r < 55 {
      Multiple(n, 64 - r, q + 1);
    } else {
      Multiple(n, 128 - r, q + 2);
      if r == 55 { Multiple(n, 64 - r, q + 1); }
    }
  }

  lemma Multiple(n: nat, k: nat, q: nat)
    requires n + k == 64 * q
    ensures (n + k) % 64 == 0
  {
  }

  /** The padding is the standard's exactly when the length is not 55 modulo 64;
      otherwise end() adds one block too many. */
  lemma PaddingIff(n: nat)
    ensures CodePadding(n) == FipsPadding(n) <==> n % 64 != 55
  {
    PaddingLengths(n);
    var r := n % 64;
    if r < 55 {
      assert FipsZeros(n) == 55 - r;
    } else if r > 55 {
      assert FipsZeros(n) == 63 - r + 56;
      assert Zeros(63 - r) + Zeros(56) == Zeros(FipsZeros(n));
      assert [0x80] + Zeros(63 - r) + Zeros(56) == [0x80] + (Zeros(63 - r) + Zeros(56));
    }
  }

  function LowByte(w: bv32): bv8 {
    (w & 0xff) as bv8
  }

  /** The low n bytes of a word, the highest first. */
  function WordBytes(w: bv32, n: nat): (s: seq<bv8>)
    ensures |s| == n
  {
    if n == 0 then [] else WordBytes(w >> 8, n - 1) + [LowByte(w)]
  }

  /** Writing a word and reading it back is the identity. */
  lemma PackOfWordBytes(w: bv32)
    ensures Pack(WordBytes(w, 4)) == w
  {
    hide Shifted, LowByte;
    PackWordBytes(w, 3);
    PackWordBytes(w >> 8, 2);
    PackWordBytes(w >> 8 >> 8, 1);
    PackWordBytes(w >> 8 >> 8 >> 8, 0);
    FourBytes(w);
  }

  lemma PackWordBytes(w: bv32, n: nat)
    ensures Pack(WordBytes(w, n + 1)) == Shifted(Pack(WordBytes(w >> 8, n)), LowByte(w))
  {
    hide Shifted, LowByte;
    var s := WordBytes(w, n + 1);
    assert s[..n] == WordBytes(w >> 8, n);
  }

  lemma FourBytes(w: bv32)
    ensures Shifted(Shifted(Shifted(Shifted(0, LowByte(w >> 8 >> 8 >> 8)), LowByte(w >> 8 >> 8)),
                            LowByte(w >> 8)), LowByte(w)) == w
  {
  }

  /** The 32 bytes of the digest. */
  function DigestBytes(h: seq<bv32>): (r: seq<bv8>)
    ensures |r| == 4 * |h|
  {
    if |h| == 0 then [] else DigestBytes(h[..|h| - 1]) + WordBytes(h[|h| - 1], 4)
  }

  function Digest(m: seq<bv8>): seq<bv8> {
    PaddingLengths(|m|);
    DigestBytes(Absorbed(Initial(), m + CodePadding(|m|)))
  }

  function FipsDigest(m: seq<bv8>): seq<bv8> {
    PaddingLengths(|m|);
    DigestBytes(Absorbed(Initial(), m + FipsPadding(|m|)))
  }

  /** Away from the lengths 55, 119, 183, ... the digest is the standard's; there the
      compression function runs over one block more than the standard's blocks. */
  lemma DigestMatches(m: seq<bv8>)
    ensures |m| % 64 != 55 ==> Digest(m) == FipsDigest(m)
    ensures |m| % 64 == 55 ==>
      |m + CodePadding(|m|)| == |m + FipsPadding(|m|)| + 64 && m + CodePadding(|m|) != m + FipsPadding(|m|)
  {
    hide Absorbed, DigestBytes, Initial, CodePadding, FipsPadding;
    PaddingIff(|m|);
    PaddingLengths(|m|);
  }

  // ---------------------------------------------------------------- padded messages differ

  function Number(s: seq<bv8>): nat {
    if |s| == 0 then 0 else Number(s[..|s| - 1]) * 256 + s[|s| - 1] as nat
  }

  function Power256(n: nat): (p: nat)
    ensures p > 0
  {
    if n == 0 then 1 else 256 * Power256(n - 1)
  }

  lemma {:induction false} NumberOfBigEndian(x: nat, n: nat)
    requires x < Power256(n)
    ensures Number(BigEndian(x, n)) == x
  {
    if n > 0 {
      Quotient(x, Power256(n - 1));
      NumberOfBigEndian(x / 256, n - 1);
      LastByte(BigEndian(x / 256, n - 1), x % 256);
    }
  }

  lemma Quotient(x: nat, p: nat)
    requires x < 256 * p
    ensures x / 256 < p && x == 256 * (x / 256) + x % 256
  {
  }

  lemma LastByte(s: seq<bv8>, b: nat)
    requires b < 256
    ensures Number(s + [b as bv8]) == Number(s) * 256 + b
  {
    ByteValue(b);
    assert (s + [b as bv8])[..|s|] == s;
  }

  lemma EightBytes()
    ensures Power256(8) == WRAP
  {
    assert Power256(4) == 0x1_0000_0000;
    assert Power256(6) == 0x1_0000_0000_0000;
  }

  /** The padded blocks determine the message, for every length that 64 bits count. */
  lemma PaddingInjective(m: seq<bv8>, n: seq<bv8>)
    requires |m| * 8 < WRAP && |n| * 8 < WRAP
    requires m + CodePadding(|m|) == n + CodePadding(|n|)
    ensures m == n
  {
    LengthRecovered(m);
    LengthRecovered(n);
    hide *;
    SamePrefix(m, CodePadding(|m|), n, CodePadding(|n|));
  }

  lemma SamePrefix(m: seq<bv8>, a: seq<bv8>, n: seq<bv8>, b: seq<bv8>)
    requires |m| == |n| && m + a == n + b
    ensures m == n
  {
    assert (m + a)[..|m|] == m;
    assert (n + b)[..|n|] == n;
  }

  /** What the last eight bytes say. */
  function LengthField(p: seq<bv8>): nat {
    if |p| >= 8 then Number(p[|p| - 8..]) else 0
  }

  lemma LengthRecovered(m: seq<bv8>)
    requires |m| * 8 < WRAP
    ensures LengthField(m + CodePadding(|m|)) == |m| * 8
  {
    EightBytes();
    PaddingEnds(m);
    hide Number, BigEndian, CodePadding, Power256;
    NumberOfBigEndian(|m| * 8, 8);
  }

  lemma PaddingEnds(m: seq<bv8>)
    requires |m| * 8 < WRAP
    ensures var p := m + CodePadding(|m|);
            |p| >= 8 && p[|p| - 8..] == BigEndian(|m| * 8, 8)
  {
    hide BigEndian, Zeros;
    assert BitLength(|m|) == |m| * 8;
  }
}
