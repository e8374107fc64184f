/** The Camellia rounds on values: the block cipher of misc/CamelliaCipher.ipp for
    any S-box table and any subkeys, with the forms that RFC 3713 gives. */
module CamelliaSpec {
  import opened CamelliaRotation

  type Half = s: seq<bv8> | |s| == 8 witness [0, 0, 0, 0, 0, 0, 0, 0]

  /** The four S-boxes, 256 bytes each, one after the other. */
  type SBoxes = s: seq<bv8> | |s| == 1024 witness seq(1024, _ => 0)

  datatype Block = Block(l: Half, r: Half)

  /** Subkeys: kw 4, k 24 and kl 6 halves. */
  datatype Subkeys = Subkeys(size: int, kw: seq<bv8>, k: seq<bv8>, kl: seq<bv8>)

  predicate KeyOk(key: Subkeys) {
    |key.kw| == 32 && |key.k| == 192 && |key.kl| == 48
  }

  function BlockOf(s: seq<bv8>): Block
    requires |s| == 16
  {
    Block(s[..8], s[8..])
  }

  function Bytes(b: Block): (s: seq<bv8>)
    ensures |s| == 16
  {
    b.l + b.r
  }

  /** The i-th half of a subkey array. */
  function Sub(s: seq<bv8>, i: nat): Half
    requires 8 * i + 8 <= |s|
  {
    s[8 * i..8 * i + 8]
  }

  function Xor(a: seq<bv8>, b: seq<bv8>): (c: seq<bv8>)
    requires |a| == |b|
    ensures |c| == |a|
  {
    seq(|a|, i requires 0 <= i < |a| => a[i] ^ b[i])
  }

  // ---------------------------------------------------------------- the round function

  function SBox(t: SBoxes, index: nat, x: bv8): bv8
    requires index < 4
  {
    t[index * 256 + x as int]
  }

  function SLayer(t: SBoxes, x: Half): Half {
    [SBox(t, 0, x[0]), SBox(t, 1, x[1]), SBox(t, 2, x[2]), SBox(t, 3, x[3]),
     SBox(t, 1, x[4]), SBox(t, 2, x[5]), SBox(t, 3, x[6]), SBox(t, 0, x[7])]
  }

  function Xor5(x: Half, a: nat, b: nat, c: nat, d: nat, e: nat): bv8
    requires a < 8 && b < 8 && c < 8 && d < 8 && e < 8
  {
    x[a] ^ x[b] ^ x[c] ^ x[d] ^ x[e]
  }

  function Xor6(x: Half, a: nat, b: nat, c: nat, d: nat, e: nat, f: nat): bv8
    requires a < 8 && b < 8 && c < 8 && d < 8 && e < 8 && f < 8
  {
    x[a] ^ x[b] ^ x[c] ^ x[d] ^ x[e] ^ x[f]
  }

  function PLayer(x: Half): Half {
    [Xor6(x, 0, 2, 3, 5, 6, 7),
     Xor6(x, 0, 1, 3, 4, 6, 7),
     Xor6(x, 0, 1, 2, 4, 5, 7),
     Xor6(x, 1, 2, 3, 4, 5, 6),
     Xor5(x, 0, 1, 5, 6, 7),
     Xor5(x, 1, 2, 4, 6, 7),
     Xor5(x, 2, 3, 4, 5, 7),
     Xor5(x, 0, 3, 4, 5, 6)]
  }

  function F(t: SBoxes, x: Half, k: Half): Half {
    PLayer(SLayer(t, Xor(x, k)))
  }

  /** One Feistel round, halves exchanged. */
  function Round(t: SBoxes, b: Block, k: Half): Block {
    Block(Xor(b.r, F(t, b.l, k)), b.l)
  }

  function Unround(t: SBoxes, b: Block, k: Half): Block {
    Block(b.r, Xor(b.l, F(t, b.r, k)))
  }

  // ---------------------------------------------------------------- the FL functions

  function RotateOne(x: seq<bv8>, i: nat): bv8
    requires |x| >= 4 && i < 4
  {
    (x[i] << 1) | (x[(i + 1) % 4] >> 7)
  }

  function Masked(x: seq<bv8>, kl: seq<bv8>): (s: seq<bv8>)
    requires |x| >= 4 && |kl| >= 4
    ensures |s| == 4
  {
    seq(4, i requires 0 <= i < 4 => RotateOne(x, i) & RotateOne(kl, i))
  }

  function Ored(y: seq<bv8>, kl: Half): (s: seq<bv8>)
    requires |y| == 4
    ensures |s| == 4
  {
    seq(4, i requires 0 <= i < 4 => y[i] | kl[4 + i])
  }

  function FL(x: Half, kl: Half): Half {
    var right := Xor(Masked(x, kl), x[4..]);
    Xor(Ored(right, kl), x[..4]) + right
  }

  function FLinv(y: Half, kl: Half): Half {
    var left := Xor(Ored(y[4..], kl), y[..4]);
    left + Xor(Masked(left, kl), y[4..])
  }

  lemma XorTwice(a: seq<bv8>, b: seq<bv8>)
    requires |a| == |b|
    ensures Xor(Xor(a, b), b) == a && Xor(b, Xor(b, a)) == a
    ensures Xor(a, b) == Xor(b, a)
  {
    forall i | 0 <= i < |a|
      ensures Xor(Xor(a, b), b)[i] == a[i] && Xor(b, Xor(b, a))[i] == a[i] && Xor(a, b)[i] == Xor(b, a)[i]
    {
      XorByteTwice(a[i], b[i]);
    }
  }

  lemma XorByteTwice(a: bv8, b: bv8)
    ensures (a ^ b) ^ b == a && b ^ (b ^ a) == a && a ^ b == b ^ a
  {
  }

  lemma MaskedPrefix(x: seq<bv8>, kl: seq<bv8>)
    requires |x| >= 4 && |kl| >= 4
    ensures Masked(x, kl) == Masked(x[..4], kl)
  {
  }

  lemma MaskedKey(x: seq<bv8>, kl: seq<bv8>)
    requires |x| >= 4 && |kl| >= 4
    ensures Masked(x, kl) == Masked(x, kl[..4])
  {
  }

  lemma FLParts(x: Half, kl: Half)
    ensures FL(x, kl)[4..] == Xor(Masked(x[..4], kl[..4]), x[4..])
    ensures FL(x, kl)[..4] == Xor(Ored(FL(x, kl)[4..], kl), x[..4])
  {
    hide Masked, Ored, Xor;
    MaskedPrefix(x, kl);
    MaskedKey(x[..4], kl);
  }

  lemma FLinvParts(y: Half, kl: Half)
    ensures FLinv(y, kl)[..4] == Xor(Ored(y[4..], kl), y[..4])
    ensures FLinv(y, kl)[4..] == Xor(Masked(FLinv(y, kl)[..4], kl[..4]), y[4..])
  {
    hide Masked, Ored, Xor;
    var left := Xor(Ored(y[4..], kl), y[..4]);
    assert FLinv(y, kl)[..4] == left;
    MaskedKey(left, kl);
  }

  lemma HalvesJoin(x: Half)
    ensures x[..4] + x[4..] == x
  {
  }

  /** FLinv and FL undo each other, for every subkey. */
  lemma FLInverse(x: Half, kl: Half)
    ensures FLinv(FL(x, kl), kl) == x
    ensures FL(FLinv(x, kl), kl) == x
  {
    hide *;
    var y, z := FL(x, kl), FLinv(FL(x, kl), kl);
    FLParts(x, kl);
    FLinvParts(y, kl);
    XorTwice(x[..4], Ored(y[4..], kl));
    XorTwice(x[4..], Masked(x[..4], kl[..4]));
    HalvesJoin(x);
    HalvesJoin(z);
    var v, w := FLinv(x, kl), FL(FLinv(x, kl), kl);
    FLinvParts(x, kl);
    FLParts(v, kl);
    XorTwice(x[4..], Masked(v[..4], kl[..4]));
    XorTwice(x[..4], Ored(x[4..], kl));
    HalvesJoin(w);
  }

  /** Four bytes as a 32-bit word. */
  function Word(s: seq<bv8>): bv32
    requires |s| == 4
  {
    ((s[0] as bv32) << 24) | ((s[1] as bv32) << 16) | ((s[2] as bv32) << 8) | (s[3] as bv32)
  }

  function RotateWord(w: bv32): bv32 {
    (w << 1) | (w >> 31)
  }

  lemma WordXor(a: seq<bv8>, b: seq<bv8>)
    requires |a| == 4 && |b| == 4
    ensures Word(Xor(a, b)) == Word(a) ^ Word(b)
  {
  }

  lemma WordOr(a: seq<bv8>, kl: Half)
    requires |a| == 4
    ensures Word(Ored(a, kl)) == Word(a) | Word(kl[4..])
  {
  }

  lemma WordMasked(a: seq<bv8>, kl: seq<bv8>)
    requires |a| == 4 && |kl| == 4
    ensures Word(Masked(a, kl)) == RotateWord(Word(a) & Word(kl))
  {
  }

  function RfcRight(x1: bv32, x2: bv32, k1: bv32): bv32 {
    x2 ^ RotateWord(x1 & k1)
  }

  function RfcLeft(x1: bv32, x2: bv32, k2: bv32): bv32 {
    x1 ^ (x2 | k2)
  }

  lemma RightWord(a: seq<bv8>, b: seq<bv8>, kl: seq<bv8>)
    requires |a| == |b| == |kl| == 4
    ensures Word(Xor(Masked(a, kl), b)) == RfcRight(Word(a), Word(b), Word(kl))
  {
    hide Word, Masked, Xor, RotateWord;
    WordXor(Masked(a, kl), b);
    WordMasked(a, kl);
  }

  lemma LeftWord(a: seq<bv8>, b: seq<bv8>, kl: Half)
    requires |a| == |b| == 4
    ensures Word(Xor(Ored(b, kl), a)) == RfcLeft(Word(a), Word(b), Word(kl[4..]))
  {
    hide Word, Ored, Xor;
    WordXor(Ored(b, kl), a);
    WordOr(b, kl);
  }

  /** FL on 32-bit words, as section 2.4.2 of RFC 3713 defines it. */
  lemma FLOnWords(x: Half, kl: Half)
    ensures var y := FL(x, kl);
            && Word(y[4..]) == RfcRight(Word(x[..4]), Word(x[4..]), Word(kl[..4]))
            && Word(y[..4]) == RfcLeft(Word(x[..4]), Word(y[4..]), Word(kl[4..]))
  {
    hide *;
    FLParts(x, kl);
    RightWord(x[..4], x[4..], kl[..4]);
    LeftWord(x[..4], FL(x, kl)[4..], kl);
  }

  // ---------------------------------------------------------------- encryption and decryption

  function Rounds(size: int): (n: nat)
    ensures n == 18 || n == 24
  {
    if size == 128 then 18 else 24
  }

  predicate HasFL(size: int, r: nat) {
    r == 6 || r == 12 || (size != 128 && r == 18)
  }

  function Layer(key: Subkeys, r: nat, b: Block): Block
    requires KeyOk(key) && r <= 24
  {
    if HasFL(key.size, r) then
      Block(FL(b.l, Sub(key.kl, 2 * r / 6 - 2)), FLinv(b.r, Sub(key.kl, 2 * r / 6 - 1)))
    else b
  }

  /** The state after round r of encrypt. */
  function Forward(t: SBoxes, key: Subkeys, b: Block, r: nat): Block
    requires KeyOk(key) && r <= Rounds(key.size)
  {
    if r == 0 then b
    else Layer(key, r, Round(t, Forward(t, key, b, r - 1), Sub(key.k, r - 1)))
  }

  function Whitened(key: Subkeys, m: seq<bv8>): Block
    requires KeyOk(key) && |m| == 16
  {
    BlockOf(Xor(m, key.kw[..16]))
  }

  function Encrypted(t: SBoxes, key: Subkeys, m: seq<bv8>): (c: seq<bv8>)
    requires KeyOk(key) && |m| == 16
    ensures |c| == 16
  {
    var b := Forward(t, key, Whitened(key, m), Rounds(key.size));
    Xor(b.r, Sub(key.kw, 2)) + Xor(b.l, Sub(key.kw, 3))
  }

  predicate UndoesFL(r: nat) {
    r == 19 || r == 13 || r == 7
  }

  function Unlayer(key: Subkeys, r: nat, b: Block): Block
    requires KeyOk(key) && 1 <= r <= 24
  {
    if UndoesFL(r) then
      Block(FLinv(b.l, Sub(key.kl, 2 * (r - 1) / 6 - 2)), FL(b.r, Sub(key.kl, 2 * (r - 1) / 6 - 1)))
    else b
  }

  /** The state of decrypt after its rounds from the last down to r + 1. */
  function Backward(t: SBoxes, key: Subkeys, b: Block, r: nat): Block
    requires KeyOk(key) && r <= Rounds(key.size)
    decreases Rounds(key.size) - r
  {
    if r == Rounds(key.size) then b
    else Unlayer(key, r + 1, Unround(t, Backward(t, key, b, r + 1), Sub(key.k, r)))
  }

  function Unwhitened(key: Subkeys, c: seq<bv8>): Block
    requires KeyOk(key) && |c| == 16
  {
    Block(Xor(c[8..], Sub(key.kw, 3)), Xor(c[..8], Sub(key.kw, 2)))
  }

  function Decrypted(t: SBoxes, key: Subkeys, c: seq<bv8>): (m: seq<bv8>)
    requires KeyOk(key) && |c| == 16
    ensures |m| == 16
  {
    Xor(Bytes(Backward(t, key, Unwhitened(key, c), 0)), key.kw[..16])
  }

  lemma RoundInverse(t: SBoxes, b: Block, k: Half)
    ensures Unround(t, Round(t, b, k), k) == b
    ensures Round(t, Unround(t, b, k), k) == b
  {
    hide Xor, F;
    XorTwice(b.r, F(t, b.l, k));
    XorTwice(b.l, F(t, b.r, k));
  }

  /** What decrypt undoes at the start of round r + 1 is what encrypt did after round r. */
  lemma LayerInverse(key: Subkeys, r: nat, b: Block)
    requires KeyOk(key) && r < Rounds(key.size)
    ensures Unlayer(key, r + 1, Layer(key, r, b)) == b
    ensures Layer(key, r, Unlayer(key, r + 1, b)) == b
  {
    hide FL, FLinv;
    if HasFL(key.size, r) {
      FLInverse(b.l, Sub(key.kl, 2 * r / 6 - 2));
      FLInverse(b.r, Sub(key.kl, 2 * r / 6 - 1));
    }
  }

  /** The last round has no FL layer. */
  lemma NoLastLayer(key: Subkeys, b: Block)
    requires KeyOk(key)
    ensures Layer(key, Rounds(key.size), b) == b
  {
  }

  lemma FirstLayer(key: Subkeys, b: Block)
    requires KeyOk(key)
    ensures Layer(key, 0, b) == b
  {
  }

  /** Backwards from the end, decrypt passes through the states of encrypt, each before its FL layer. */
  lemma {:induction false} BackwardRetraces(t: SBoxes, key: Subkeys, b: Block, r: nat)
    requires KeyOk(key) && r <= Rounds(key.size)
    ensures Forward(t, key, b, r)
         == Layer(key, r, Backward(t, key, Forward(t, key, b, Rounds(key.size)), r))
    decreases Rounds(key.size) - r
  {
    hide Layer, Unlayer, Round, Unround, Rounds;
    var n := Rounds(key.size);
    var e := Forward(t, key, b, n);
    if r == n {
      NoLastLayer(key, e);
    } else {
      BackwardRetraces(t, key, b, r + 1);
      var f := Forward(t, key, b, r);
      var g := Round(t, f, Sub(key.k, r));
      Cancelled(key, r + 1, g, Backward(t, key, e, r + 1));
      RoundInverse(t, f, Sub(key.k, r));
      LayerAfter(key, r, f);
    }
  }

  /** Every state is a layer's result. */
  lemma LayerAfter(key: Subkeys, r: nat, b: Block)
    requires KeyOk(key) && r < Rounds(key.size)
    ensures Layer(key, r, Unlayer(key, r + 1, b)) == b
  {
    LayerInverse(key, r, b);
  }

  lemma Cancelled(key: Subkeys, r: nat, a: Block, b: Block)
    requires KeyOk(key) && r <= Rounds(key.size) && Layer(key, r, a) == Layer(key, r, b)
    ensures a == b
  {
    if r < Rounds(key.size) {
      LayerInverse(key, r, a);
      LayerInverse(key, r, b);
    } else {
      NoLastLayer(key, a);
      NoLastLayer(key, b);
    }
  }

  /** Forwards again from where decrypt ended. */
  lemma {:induction false} ForwardRetraces(t: SBoxes, key: Subkeys, e: Block, r: nat)
    requires KeyOk(key) && r <= Rounds(key.size)
    ensures Forward(t, key, Backward(t, key, e, 0), r) == Layer(key, r, Backward(t, key, e, r))
  {
    hide Layer, Unlayer, Round, Unround, Rounds;
    if r == 0 {
      FirstLayer(key, Backward(t, key, e, 0));
    } else {
      ForwardRetraces(t, key, e, r - 1);
      var g := Backward(t, key, e, r);
      LayerAfter(key, r - 1, Unround(t, g, Sub(key.k, r - 1)));
      RoundInverse(t, g, Sub(key.k, r - 1));
    }
  }

  lemma WhiteningInverse(key: Subkeys, s: seq<bv8>)
    requires KeyOk(key) && |s| == 16
    ensures Xor(Bytes(Whitened(key, s)), key.kw[..16]) == s
    ensures Whitened(key, Xor(s, key.kw[..16])) == BlockOf(s)
  {
    XorTwice(s, key.kw[..16]);
    assert Bytes(Whitened(key, s)) == Xor(s, key.kw[..16]);
  }

  lemma OutputInverse(key: Subkeys, b: Block, c: seq<bv8>)
    requires KeyOk(key) && |c| == 16
    ensures Unwhitened(key, Xor(b.r, Sub(key.kw, 2)) + Xor(b.l, Sub(key.kw, 3))) == b
    ensures var u := Unwhitened(key, c);
            Xor(u.r, Sub(key.kw, 2)) + Xor(u.l, Sub(key.kw, 3)) == c
  {
    hide Xor;
    XorTwice(b.r, Sub(key.kw, 2));
    XorTwice(b.l, Sub(key.kw, 3));
    var x, y := Xor(b.r, Sub(key.kw, 2)), Xor(b.l, Sub(key.kw, 3));
    assert (x + y)[..8] == x && (x + y)[8..] == y;
    XorTwice(c[8..], Sub(key.kw, 3));
    XorTwice(c[..8], Sub(key.kw, 2));
    assert c[..8] + c[8..] == c;
  }

  /** Decryption inverts encryption and the other way round: for every block, every
      key size, every subkey array and every S-box table. */
  lemma DecryptInvertsEncrypt(t: SBoxes, key: Subkeys, m: seq<bv8>)
    requires KeyOk(key) && |m| == 16
    ensures Decrypted(t, key, Encrypted(t, key, m)) == m
    ensures Encrypted(t, key, Decrypted(t, key, m)) == m
  {
    hide Forward, Backward, Xor, Whitened, Unwhitened, Rounds, Bytes, Layer;
    var n := Rounds(key.size);
    var b := Whitened(key, m);
    OutputInverse(key, Forward(t, key, b, n), m);
    BackwardRetraces(t, key, b, 0);
    FirstLayer(key, Backward(t, key, Forward(t, key, b, n), 0));
    StartsAt(t, key, b);
    WhiteningInverse(key, m);
    var e := Unwhitened(key, m);
    ForwardRetraces(t, key, e, n);
    NoLastLayer(key, Backward(t, key, e, n));
    StartsAt(t, key, e);
    WhiteningInverse(key, Bytes(Backward(t, key, e, 0)));
    BytesBlock(Backward(t, key, e, 0));
  }

  lemma StartsAt(t: SBoxes, key: Subkeys, b: Block)
    requires KeyOk(key)
    ensures Forward(t, key, b, 0) == b && Backward(t, key, b, Rounds(key.size)) == b
  {
  }

  lemma BytesBlock(b: Block)
    ensures BlockOf(Bytes(b)) == b
  {
  }

  // ---------------------------------------------------------------- the rounds of RFC 3713

  /** Section 2.3 of RFC 3713 writes the rounds in pairs without exchanging halves. */
  function RfcPair(t: SBoxes, d: Block, k1: Half, k2: Half): Block {
    var d2: Half := Xor(d.r, F(t, d.l, k1));
    var d1: Half := Xor(d.l, F(t, d2, k2));
    Block(d1, d2)
  }

  function RfcFL(d: Block, ke1: Half, ke2: Half): Block {
    Block(FL(d.l, ke1), FLinv(d.r, ke2))
  }

  /** The state after m pairs, with the FL layers after pairs 3, 6 and, for long keys, 9. */
  function RfcPairs(t: SBoxes, key: Subkeys, b: Block, m: nat): Block
    requires KeyOk(key) && 2 * m <= Rounds(key.size)
  {
    if m == 0 then b
    else
      var d := RfcPair(t, RfcPairs(t, key, b, m - 1), Sub(key.k, 2 * m - 2), Sub(key.k, 2 * m - 1));
      if m == 3 then RfcFL(d, Sub(key.kl, 0), Sub(key.kl, 1))
      else if m == 6 then RfcFL(d, Sub(key.kl, 2), Sub(key.kl, 3))
      else if m == 9 && key.size != 128 then RfcFL(d, Sub(key.kl, 4), Sub(key.kl, 5))
      else d
  }

  lemma PairIsTwoRounds(t: SBoxes, d: Block, k1: Half, k2: Half)
    ensures RfcPair(t, d, k1, k2) == Round(t, Round(t, d, k1), k2)
  {
    hide F, Xor;
  }

  lemma OddRoundHasNoLayer(key: Subkeys, m: nat, b: Block)
    requires KeyOk(key) && 1 <= m && 2 * m - 1 <= 24
    ensures Layer(key, 2 * m - 1, b) == b
  {
  }

  lemma EvenLayer(key: Subkeys, m: nat, d: Block)
    requires KeyOk(key) && 1 <= m && 2 * m <= Rounds(key.size)
    ensures Layer(key, 2 * m, d)
         == (if m == 3 then RfcFL(d, Sub(key.kl, 0), Sub(key.kl, 1))
             else if m == 6 then RfcFL(d, Sub(key.kl, 2), Sub(key.kl, 3))
             else if m == 9 && key.size != 128 then RfcFL(d, Sub(key.kl, 4), Sub(key.kl, 5))
             else d)
  {
    hide FL, FLinv;
  }

  lemma {:induction false} PairsAreRounds(t: SBoxes, key: Subkeys, b: Block, m: nat)
    requires KeyOk(key) && 2 * m <= Rounds(key.size)
    ensures RfcPairs(t, key, b, m) == Forward(t, key, b, 2 * m)
  {
    hide RfcPair, RfcFL, Round, Layer;
    if m > 0 {
      PairsAreRounds(t, key, b, m - 1);
      var d := Forward(t, key, b, 2 * m - 2);
      var k1, k2 := Sub(key.k, 2 * m - 2), Sub(key.k, 2 * m - 1);
      PairIsTwoRounds(t, d, k1, k2);
      OddRoundHasNoLayer(key, m, Round(t, d, k1));
      assert Forward(t, key, b, 2 * m - 1) == Round(t, d, k1);
      EvenLayer(key, m, RfcPair(t, d, k1, k2));
    }
  }

  /** encrypt is the cipher of RFC 3713: key whitening, the paired rounds and the final
      exchange, for the 18 rounds of 128-bit and the 24 rounds of longer keys. */
  lemma EncryptMatchesRfc(t: SBoxes, key: Subkeys, m: seq<bv8>)
    requires KeyOk(key) && |m| == 16
    ensures Rounds(key.size) == if key.size == 128 then 18 else 24
    ensures var d := RfcPairs(t, key, RfcWhitened(key, m), if key.size == 128 then 9 else 12);
            Encrypted(t, key, m) == Xor(d.r, Sub(key.kw, 2)) + Xor(d.l, Sub(key.kw, 3))
  {
    assert Rounds(key.size) / 2 == if key.size == 128 then 9 else 12;
    hide Forward, RfcPairs, Xor, RfcWhitened, Whitened, Rounds, Sub;
    SameWhitening(key, m);
    PairsAreRounds(t, key, RfcWhitened(key, m), Rounds(key.size) / 2);
  }

  lemma SameWhitening(key: Subkeys, m: seq<bv8>)
    requires KeyOk(key) && |m| == 16
    ensures RfcWhitened(key, m) == Whitened(key, m)
  {
  }

  function RfcWhitened(key: Subkeys, m: seq<bv8>): Block
    requires KeyOk(key) && |m| == 16
  {
    Block(Xor(m[..8], Sub(key.kw, 0)), Xor(m[8..], Sub(key.kw, 1)))
  }
}
