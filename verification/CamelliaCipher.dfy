/** Blocks, encryption and decryption of misc/CamelliaCipher.ipp on byte buffers. */
module CamelliaCipherModule {
  import opened CamelliaRotation
  import opened CamelliaSpec
  import opened CamelliaBuffers

  class CamelliaBlock {
    const e: array<bv8>

    ghost predicate Valid() {
      e.Length == 16
    }

    constructor ()
      ensures Valid() && fresh(e) && e[..] == seq(16, _ => 0)
    {
      e := new bv8[16](_ => 0);
    }

    constructor FromData(data: seq<bv8>)
      requires |data| == 16
      ensures Valid() && fresh(e) && e[..] == data
    {
      e := new bv8[16](i requires 0 <= i < 16 => data[i]);
    }

    /** operator<<=: a copy is kept while the bytes are overwritten. */
    method RotateLeft(x: nat)
      requires Valid()
      modifies e
      ensures e[..] == Rotated(old(e[..]), x)
    {
      hide ShiftedByte, Rotated;
      var tmp := e[..];
      var p := x / 8;
      var r := x - p * 8;
      for i := 0 to 16
        invariant forall k :: 0 <= k < i ==> e[k] == Rotated(tmp, x)[k]
      {
        RotatedAt(tmp, x, i);
        e[i] := ShiftedByte(tmp[(i + p) % 16], tmp[(i + p + 1) % 16], r);
      }
    }
  }

  lemma RotatedAt(s: seq<bv8>, x: nat, i: nat)
    requires |s| == 16 && i < 16
    ensures Rotated(s, x)[i] == ShiftedByte(s[(i + x / 8) % 16], s[(i + x / 8 + 1) % 16], x % 8)
    ensures x % 8 == x - x / 8 * 8
  {
    hide ShiftedByte;
  }

  /** Splicing both halves fills a block. */
  lemma BothHalves(s: seq<bv8>, l: Half, r: Half)
    requires |s| == 16
    ensures Spliced(Spliced(s, 0, l), 8, r) == l + r
    ensures Spliced(Spliced(s, 8, r), 0, l) == l + r
    ensures BlockOf(l + r) == Block(l, r)
  {
  }

  lemma BlockSlices(s: seq<bv8>)
    requires |s| == 16
    ensures s[0..8] == BlockOf(s).l && s[8..16] == BlockOf(s).r && Bytes(BlockOf(s)) == s
  {
  }

  lemma WholeSplice(s: seq<bv8>, t: seq<bv8>)
    requires |s| == |t|
    ensures Spliced(s, 0, t) == t
  {
  }

  /** F into the left half, then the exclusive-or with the old right half. */
  method RoundInto(t: SBoxes, next: CamelliaBlock, prev: CamelliaBlock, k: array<bv8>, ko: nat)
    requires next.Valid() && prev.Valid() && ko + 8 <= k.Length
    requires next.e != prev.e && next.e != k
    modifies next.e
    ensures BlockOf(next.e[..]) == Round(t, BlockOf(prev.e[..]), k[ko..ko + 8])
  {
    hide F, Xor, Spliced, BlockOf, Bytes;
    ghost var s := next.e[..];
    ghost var b := BlockOf(prev.e[..]);
    BlockSlices(prev.e[..]);
    assert prev.e[0..8] == b.l && prev.e[8..16] == b.r by { SliceOfArray(prev.e); }
    ghost var f := F(t, b.l, k[ko..ko + 8]);
    FInto(t, next.e, 0, prev.e, 0, k, ko);
    assert next.e[0..8] == f by { SliceOfArray(next.e); }
    XorInto(next.e, 0, prev.e, 8, next.e, 0, 8);
    CopyInto(next.e, 8, prev.e, 0, 8);
    TwiceSpliced(s, f, Xor(b.r, f), b.l);
  }

  lemma SliceOfArray(a: array<bv8>)
    requires a.Length == 16
    ensures a[0..8] == a[..][0..8] && a[8..16] == a[..][8..16]
  {
  }

  lemma TwiceSpliced(s: seq<bv8>, f: Half, l: Half, r: Half)
    requires |s| == 16
    ensures BlockOf(Spliced(Spliced(Spliced(s, 0, f), 0, l), 8, r)) == Block(l, r)
    ensures BlockOf(Spliced(Spliced(Spliced(s, 8, f), 8, r), 0, l)) == Block(l, r)
    ensures BlockOf(Spliced(Spliced(s, 0, l), 8, r)) == Block(l, r)
    ensures BlockOf(Spliced(Spliced(s, 8, r), 0, l)) == Block(l, r)
  {
  }

  method UnroundInto(t: SBoxes, prev: CamelliaBlock, next: CamelliaBlock, k: array<bv8>, ko: nat)
    requires next.Valid() && prev.Valid() && ko + 8 <= k.Length
    requires next.e != prev.e && prev.e != k
    modifies prev.e
    ensures BlockOf(prev.e[..]) == Unround(t, BlockOf(next.e[..]), k[ko..ko + 8])
  {
    hide F, Xor, Spliced, BlockOf, Bytes;
    ghost var s := prev.e[..];
    ghost var b := BlockOf(next.e[..]);
    BlockSlices(next.e[..]);
    assert next.e[0..8] == b.l && next.e[8..16] == b.r by { SliceOfArray(next.e); }
    ghost var f := F(t, b.r, k[ko..ko + 8]);
    FInto(t, prev.e, 8, next.e, 8, k, ko);
    assert prev.e[8..16] == f by { SliceOfArray(prev.e); }
    XorInto(prev.e, 8, next.e, 0, prev.e, 8, 8);
    CopyInto(prev.e, 0, next.e, 8, 8);
    TwiceSpliced(s, f, b.r, Xor(b.l, f));
  }

  /** FL on the left and FLinv on the right half, in place. */
  method LayerInPlace(m: CamelliaBlock, kl: array<bv8>, i: nat)
    requires m.Valid() && m.e != kl && 8 * i + 16 <= kl.Length
    modifies m.e
    ensures BlockOf(m.e[..])
         == Block(FL(BlockOf(old(m.e[..])).l, Sub(kl[..], i)), FLinv(BlockOf(old(m.e[..])).r, Sub(kl[..], i + 1)))
  {
    hide FL, FLinv, Spliced, BlockOf, Bytes;
    ghost var s := m.e[..];
    ghost var b := BlockOf(s);
    BlockSlices(s);
    SliceOfArray(m.e);
    assert kl[8 * i..8 * i + 8] == Sub(kl[..], i) && kl[8 * i + 8..8 * i + 16] == Sub(kl[..], i + 1);
    FLInto(m.e, 0, m.e, 0, kl, 8 * i);
    SplicedElsewhere(s, 0, FL(b.l, Sub(kl[..], i)), 8, 8);
    SliceOfArray(m.e);
    FLinvInto(m.e, 8, m.e, 8, kl, 8 * i + 8);
    TwiceSpliced(s, b.l, FL(b.l, Sub(kl[..], i)), FLinv(b.r, Sub(kl[..], i + 1)));
  }

  method UnlayerInPlace(m: CamelliaBlock, kl: array<bv8>, i: nat)
    requires m.Valid() && m.e != kl && 8 * i + 16 <= kl.Length
    modifies m.e
    ensures BlockOf(m.e[..])
         == Block(FLinv(BlockOf(old(m.e[..])).l, Sub(kl[..], i)), FL(BlockOf(old(m.e[..])).r, Sub(kl[..], i + 1)))
  {
    hide FL, FLinv, Spliced, BlockOf, Bytes;
    ghost var s := m.e[..];
    ghost var b := BlockOf(s);
    BlockSlices(s);
    SliceOfArray(m.e);
    assert kl[8 * i..8 * i + 8] == Sub(kl[..], i) && kl[8 * i + 8..8 * i + 16] == Sub(kl[..], i + 1);
    FLInto(m.e, 8, m.e, 8, kl, 8 * i + 8);
    SplicedElsewhere(s, 8, FL(b.r, Sub(kl[..], i + 1)), 0, 8);
    SliceOfArray(m.e);
    FLinvInto(m.e, 0, m.e, 0, kl, 8 * i);
    TwiceSpliced(s, b.r, FLinv(b.l, Sub(kl[..], i)), FL(b.r, Sub(kl[..], i + 1)));
  }

  class CamelliaKey {
    var size: int
    const kw: array<bv8>
    const k: array<bv8>
    const kl: array<bv8>

    ghost predicate Valid() {
      && kw.Length == 32 && k.Length == 192 && kl.Length == 48
      && kw != k && kw != kl && k != kl
    }

    ghost function Value(): (v: Subkeys)
      requires Valid()
      reads this, kw, k, kl
      ensures KeyOk(v)
    {
      Subkeys(size, kw[..], k[..], kl[..])
    }

    constructor ()
      ensures Valid() && size == 0 && fresh(kw) && fresh(k) && fresh(kl)
    {
      size := 0;
      kw := new bv8[32](_ => 0);
      k := new bv8[192](_ => 0);
      kl := new bv8[48](_ => 0);
    }
  }

  lemma SliceIsSub(a: array<bv8>, i: nat)
    requires 8 * i + 8 <= a.Length
    ensures a[8 * i..8 * i + 8] == Sub(a[..], i)
  {
  }

  method Encrypt(t: SBoxes, m: CamelliaBlock, key: CamelliaKey) returns (ret: CamelliaBlock)
    requires m.Valid() && key.Valid()
    ensures ret.Valid() && fresh(ret) && fresh(ret.e)
    ensures ret.e[..] == Encrypted(t, key.Value(), m.e[..])
  {
    hide Xor, Round, Layer, BlockOf, Encrypted, Sub;
    ghost var v := key.Value();
    var n := if key.size == 128 then 18 else 24;
    var mr1 := new CamelliaBlock();
    WhitenInto(mr1, m, key);
    ghost var b := Whitened(v, m.e[..]);
    for r := 1 to n + 1
      invariant mr1.Valid() && fresh(mr1.e) && key.Value() == v
      invariant BlockOf(mr1.e[..]) == Forward(t, v, b, r - 1)
    {
      var mr := new CamelliaBlock();
      RoundInto(t, mr, mr1, key.k, 8 * (r - 1));
      SliceIsSub(key.k, r - 1);
      if r == 6 || r == 12 || (key.size != 128 && r == 18) {
        LayerInPlace(mr, key.kl, 2 * r / 6 - 2);
        assert 2 * r / 6 - 2 + 1 == 2 * r / 6 - 1;
      }
      LayerIs(v, r, Round(t, Forward(t, v, b, r - 1), Sub(v.k, r - 1)));
      mr1 := mr;
    }
    ret := new CamelliaBlock();
    ExchangeInto(ret, mr1, key);
    EncryptedIs(t, v, m.e[..]);
  }

  method WhitenInto(ret: CamelliaBlock, m: CamelliaBlock, key: CamelliaKey)
    requires ret.Valid() && m.Valid() && key.Valid() && ret.e != key.kw
    modifies ret.e
    ensures ret.e[..] == Xor(old(m.e[..]), key.kw[..16])
    ensures BlockOf(ret.e[..]) == BlockOf(Xor(old(m.e[..]), key.kw[..16]))
  {
    hide Xor, BlockOf;
    ghost var s := ret.e[..];
    assert m.e[0..16] == m.e[..] && key.kw[0..16] == key.kw[..16];
    XorInto(ret.e, 0, m.e, 0, key.kw, 0, 16);
    assert Spliced(s, 0, ret.e[..]) == ret.e[..];
  }

  /** The final exchange of halves. */
  method ExchangeInto(ret: CamelliaBlock, mr1: CamelliaBlock, key: CamelliaKey)
    requires ret.Valid() && mr1.Valid() && key.Valid() && ret.e != mr1.e && ret.e != key.kw
    modifies ret.e
    ensures var f := BlockOf(mr1.e[..]);
            ret.e[..] == Xor(f.r, Sub(key.kw[..], 2)) + Xor(f.l, Sub(key.kw[..], 3))
  {
    hide Xor, Spliced, BlockOf;
    ghost var s, f := ret.e[..], BlockOf(mr1.e[..]);
    BlockSlices(mr1.e[..]);
    SliceOfArray(mr1.e);
    assert key.kw[16..24] == Sub(key.kw[..], 2) && key.kw[24..32] == Sub(key.kw[..], 3);
    XorInto(ret.e, 0, mr1.e, 8, key.kw, 16, 8);
    XorInto(ret.e, 8, mr1.e, 0, key.kw, 24, 8);
    BothHalves(s, Xor(f.r, Sub(key.kw[..], 2)), Xor(f.l, Sub(key.kw[..], 3)));
  }

  method UnexchangeInto(ret: CamelliaBlock, c: CamelliaBlock, key: CamelliaKey)
    requires ret.Valid() && c.Valid() && key.Valid() && ret.e != c.e && ret.e != key.kw
    modifies ret.e
    ensures BlockOf(ret.e[..]) == Unwhitened(key.Value(), c.e[..])
  {
    hide Xor, Spliced, BlockOf;
    ghost var s, b := ret.e[..], Unwhitened(key.Value(), c.e[..]);
    assert key.kw[16..24] == Sub(key.kw[..], 2) && key.kw[24..32] == Sub(key.kw[..], 3);
    assert c.e[0..8] == c.e[..][..8] && c.e[8..16] == c.e[..][8..];
    XorInto(ret.e, 8, c.e, 0, key.kw, 16, 8);
    XorInto(ret.e, 0, c.e, 8, key.kw, 24, 8);
    BothHalves(s, b.l, b.r);
  }

  lemma LayerIs(key: Subkeys, r: nat, b: Block)
    requires KeyOk(key) && 1 <= r <= 24
    ensures r == 6 || r == 12 || (key.size != 128 && r == 18) ==>
      Layer(key, r, b)
      == Block(FL(b.l, Sub(key.kl, 2 * r / 6 - 2)), FLinv(b.r, Sub(key.kl, 2 * r / 6 - 1)))
    ensures !(r == 6 || r == 12 || (key.size != 128 && r == 18)) ==> Layer(key, r, b) == b
  {
    hide FL, FLinv;
  }

  lemma UnlayerIs(key: Subkeys, r: nat, b: Block)
    requires KeyOk(key) && 1 <= r <= 24
    ensures r == 19 || r == 13 || r == 7 ==>
      Unlayer(key, r, b)
      == Block(FLinv(b.l, Sub(key.kl, 2 * (r - 1) / 6 - 2)), FL(b.r, Sub(key.kl, 2 * (r - 1) / 6 - 1)))
    ensures !(r == 19 || r == 13 || r == 7) ==> Unlayer(key, r, b) == b
  {
    hide FL, FLinv;
  }

  lemma EncryptedIs(t: SBoxes, key: Subkeys, m: seq<bv8>)
    requires KeyOk(key) && |m| == 16
    ensures var f := Forward(t, key, Whitened(key, m), Rounds(key.size));
            Encrypted(t, key, m) == Xor(f.r, Sub(key.kw, 2)) + Xor(f.l, Sub(key.kw, 3))
  {
    hide Forward, Whitened, Xor, Sub;
  }

  method Decrypt(t: SBoxes, c: CamelliaBlock, key: CamelliaKey) returns (cr: CamelliaBlock)
    requires c.Valid() && key.Valid()
    ensures cr.Valid() && fresh(cr) && fresh(cr.e)
    ensures cr.e[..] == Decrypted(t, key.Value(), c.e[..])
  {
    hide Xor, Unround, Unlayer, BlockOf, Bytes, Decrypted, Unwhitened, Sub;
    ghost var v := key.Value();
    var n := if key.size == 128 then 18 else 24;
    cr := new CamelliaBlock();
    ghost var b := Unwhitened(v, c.e[..]);
    UnexchangeInto(cr, c, key);
    for r := n downto 0
      invariant cr.Valid() && fresh(cr) && fresh(cr.e) && key.Value() == v
      invariant BlockOf(cr.e[..]) == Backward(t, v, b, r)
    {
      var cr1 := new CamelliaBlock();
      UnroundInto(t, cr1, cr, key.k, 8 * r);
      SliceIsSub(key.k, r);
      if r + 1 == 19 || r + 1 == 13 || r + 1 == 7 {
        UnlayerInPlace(cr1, key.kl, 2 * r / 6 - 2);
        assert 2 * r / 6 - 2 + 1 == 2 * r / 6 - 1;
      }
      UnlayerIs(v, r + 1, Unround(t, Backward(t, v, b, r + 1), Sub(v.k, r)));
      cr := cr1;
    }
    BlockSlices(cr.e[..]);
    WhitenInto(cr, cr, key);
    DecryptedIs(t, v, c.e[..]);
  }

  lemma DecryptedIs(t: SBoxes, key: Subkeys, c: seq<bv8>)
    requires KeyOk(key) && |c| == 16
    ensures Decrypted(t, key, c) == Xor(Bytes(Backward(t, key, Unwhitened(key, c), 0)), key.kw[..16])
  {
    hide Backward, Unwhitened, Xor, Bytes;
  }
}
