/** The byte-buffer routines of misc/CamelliaCipher.ipp. A pointer into a buffer is an
    array and an offset; source and target may be the same place. */
module CamelliaBuffers {
  import opened CamelliaRotation
  import opened CamelliaSpec

  /** s with t written at offset o. */
  function Spliced(s: seq<bv8>, o: nat, t: seq<bv8>): (r: seq<bv8>)
    requires o + |t| <= |s|
    ensures |r| == |s| && r[o..o + |t|] == t
    ensures r[..o] == s[..o] && r[o + |t|..] == s[o + |t|..]
  {
    s[..o] + t + s[o + |t|..]
  }

  lemma SplicedAt(s: seq<bv8>, o: nat, t: seq<bv8>, r: seq<bv8>)
    requires o + |t| <= |s| == |r|
    requires forall i :: 0 <= i < |t| ==> r[o + i] == t[i]
    requires forall i :: 0 <= i < |s| && !(o <= i < o + |t|) ==> r[i] == s[i]
    ensures r == Spliced(s, o, t)
  {
    forall i | 0 <= i < |r| ensures r[i] == Spliced(s, o, t)[i] {
      if o <= i < o + |t| { assert r[o + (i - o)] == t[i - o]; }
    }
  }

  lemma SplicedUp(s: seq<bv8>, o: nat, a: seq<bv8>, b: seq<bv8>)
    requires o + |a| + |b| <= |s|
    ensures Spliced(Spliced(s, o, a), o + |a|, b) == Spliced(s, o, a + b)
    ensures Spliced(Spliced(s, o + |a|, b), o, a) == Spliced(s, o, a + b)
  {
  }

  lemma SplicedElsewhere(s: seq<bv8>, o: nat, t: seq<bv8>, p: nat, n: nat)
    requires o + |t| <= |s| && p + n <= |s| && (p + n <= o || o + |t| <= p)
    ensures Spliced(s, o, t)[p..p + n] == s[p..p + n]
  {
  }

  /** The places [o, o+n) and [p, p+n) coincide or do not meet. */
  predicate Apart(o: nat, p: nat, n: nat) {
    o == p || o + n <= p || p + n <= o
  }

  method XorInto(ret: array<bv8>, ro: nat, a: array<bv8>, ao: nat, b: array<bv8>, bo: nat, n: nat)
    requires ro + n <= ret.Length && ao + n <= a.Length && bo + n <= b.Length
    requires (a == ret ==> Apart(ao, ro, n)) && (b == ret ==> Apart(bo, ro, n))
    modifies ret
    ensures ret[..] == Spliced(old(ret[..]), ro, Xor(old(a[ao..ao + n]), old(b[bo..bo + n])))
  {
    ghost var s, x, y := ret[..], a[ao..ao + n], b[bo..bo + n];
    for i := 0 to n
      invariant forall k :: 0 <= k < i ==> ret[ro + k] == x[k] ^ y[k]
      invariant forall k :: 0 <= k < ret.Length && !(ro <= k < ro + i) ==> ret[k] == s[k]
      invariant forall k :: i <= k < n ==> a[ao + k] == x[k]
      invariant forall k :: i <= k < n ==> b[bo + k] == y[k]
    {
      ret[ro + i] := a[ao + i] ^ b[bo + i];
    }
    SplicedAt(s, ro, Xor(x, y), ret[..]);
  }

  method CopyInto(ret: array<bv8>, ro: nat, src: array<bv8>, so: nat, n: nat)
    requires ret != src && ro + n <= ret.Length && so + n <= src.Length
    modifies ret
    ensures ret[..] == Spliced(old(ret[..]), ro, src[so..so + n])
  {
    ghost var s, x := ret[..], src[so..so + n];
    for i := 0 to n
      invariant forall k :: 0 <= k < i ==> ret[ro + k] == x[k]
      invariant forall k :: 0 <= k < ret.Length && !(ro <= k < ro + i) ==> ret[k] == s[k]
    {
      ret[ro + i] := src[so + i];
    }
    SplicedAt(s, ro, x, ret[..]);
  }

  /** Each byte goes through its own S-box, in place. */
  method SInto(t: SBoxes, l: array<bv8>)
    requires l.Length == 8
    modifies l
    ensures l[..] == SLayer(t, old(l[..]))
  {
    ghost var x: Half := l[..];
    hide SBox;
    l[0] := SBox(t, 0, l[0]);
    l[1] := SBox(t, 1, l[1]);
    l[2] := SBox(t, 2, l[2]);
    l[3] := SBox(t, 3, l[3]);
    l[4] := SBox(t, 1, l[4]);
    l[5] := SBox(t, 2, l[5]);
    l[6] := SBox(t, 3, l[6]);
    l[7] := SBox(t, 0, l[7]);
  }

  method PInto(y: array<bv8>, yo: nat, x: array<bv8>)
    requires x.Length == 8 && yo + 8 <= y.Length && x != y
    modifies y
    ensures y[..] == Spliced(old(y[..]), yo, PLayer(x[..]))
  {
    ghost var s := y[..];
    var h: Half := x[..];
    hide *;
    var p0, p1 := Xor6(h, 0, 2, 3, 5, 6, 7), Xor6(h, 0, 1, 3, 4, 6, 7);
    var p2, p3 := Xor6(h, 0, 1, 2, 4, 5, 7), Xor6(h, 1, 2, 3, 4, 5, 6);
    var p4, p5 := Xor5(h, 0, 1, 5, 6, 7), Xor5(h, 1, 2, 4, 6, 7);
    var p6, p7 := Xor5(h, 2, 3, 4, 5, 7), Xor5(h, 0, 3, 4, 5, 6);
    FourInto(y, yo, p0, p1, p2, p3);
    FourInto(y, yo + 4, p4, p5, p6, p7);
    SplicedUp(s, yo, [p0, p1, p2, p3], [p4, p5, p6, p7]);
    PHalves(h);
  }

  lemma PHalves(x: Half)
    ensures PLayer(x)
         == [Xor6(x, 0, 2, 3, 5, 6, 7), Xor6(x, 0, 1, 3, 4, 6, 7),
             Xor6(x, 0, 1, 2, 4, 5, 7), Xor6(x, 1, 2, 3, 4, 5, 6)]
          + [Xor5(x, 0, 1, 5, 6, 7), Xor5(x, 1, 2, 4, 6, 7),
             Xor5(x, 2, 3, 4, 5, 7), Xor5(x, 0, 3, 4, 5, 6)]
  {
    hide Xor5, Xor6;
  }

  method FourInto(y: array<bv8>, yo: nat, a: bv8, b: bv8, c: bv8, d: bv8)
    requires yo + 4 <= y.Length
    modifies y
    ensures y[..] == Spliced(old(y[..]), yo, [a, b, c, d])
  {
    ghost var s := y[..];
    y[yo] := a;
    y[yo + 1] := b;
    y[yo + 2] := c;
    y[yo + 3] := d;
    SplicedAt(s, yo, [a, b, c, d], y[..]);
  }

  method FInto(t: SBoxes, y: array<bv8>, yo: nat, x: array<bv8>, xo: nat, k: array<bv8>, ko: nat)
    requires yo + 8 <= y.Length && xo + 8 <= x.Length && ko + 8 <= k.Length
    modifies y
    ensures y[..] == Spliced(old(y[..]), yo, F(t, old(x[xo..xo + 8]), old(k[ko..ko + 8])))
  {
    hide Xor, SLayer, PLayer, Spliced;
    var buf := new bv8[8](_ => 0);
    XorInto(buf, 0, x, xo, k, ko, 8);
    WholeSplice(Xor(x[xo..xo + 8], k[ko..ko + 8]), buf[..]);
    SInto(t, buf);
    PInto(y, yo, buf);
  }

  lemma WholeSplice(t: seq<bv8>, r: seq<bv8>)
    requires |t| == |r| && exists s: seq<bv8> :: |s| == |t| && r == Spliced(s, 0, t)
    ensures r == t
  {
  }

  /** The right half of y becomes that of x masked with the left half of v. */
  method MaskRight(y: array<bv8>, yo: nat, x: array<bv8>, xo: nat, v: array<bv8>, vo: nat,
                   kl: array<bv8>, klo: nat)
    requires yo + 8 <= y.Length && xo + 8 <= x.Length && vo + 8 <= v.Length && klo + 8 <= kl.Length
    requires x == y ==> Apart(xo, yo, 8)
    modifies y
    ensures y[..] == Spliced(old(y[..]), yo + 4,
              Xor(Masked(old(v[vo..vo + 4]), old(kl[klo..klo + 4])), old(x[xo + 4..xo + 4 + 4])))
  {
    hide Xor, Masked, Spliced;
    var buf := new bv8[4](_ => 0);
    MaskedInto(buf, v, vo, kl, klo);
    assert buf[0..4] == buf[..];
    XorInto(y, yo + 4, buf, 0, x, xo + 4, 4);
  }

  /** The left half of y becomes that of x masked with the right half of v. */
  method MaskLeft(y: array<bv8>, yo: nat, x: array<bv8>, xo: nat, v: array<bv8>, vo: nat,
                  kl: array<bv8>, klo: nat)
    requires yo + 8 <= y.Length && xo + 8 <= x.Length && vo + 8 <= v.Length && klo + 8 <= kl.Length
    requires x == y ==> Apart(xo, yo, 8)
    modifies y
    ensures y[..] == Spliced(old(y[..]), yo,
              Xor(Ored(old(v[vo + 4..vo + 8]), old(kl[klo..klo + 8])), old(x[xo..xo + 4])))
  {
    hide Xor, Ored, Spliced;
    var buf := new bv8[4](_ => 0);
    OredInto(buf, v, vo, kl, klo);
    assert buf[0..4] == buf[..];
    XorInto(y, yo, buf, 0, x, xo, 4);
  }

  method FLInto(y: array<bv8>, yo: nat, x: array<bv8>, xo: nat, kl: array<bv8>, klo: nat)
    requires yo + 8 <= y.Length && xo + 8 <= x.Length && klo + 8 <= kl.Length
    requires kl != y && (x == y ==> Apart(xo, yo, 8))
    modifies y
    ensures y[..] == Spliced(old(y[..]), yo, FL(old(x[xo..xo + 8]), kl[klo..klo + 8]))
  {
    hide Xor, Masked, Ored, Spliced, FL;
    ghost var s, s0 := y[..], x[..];
    ghost var h: Half := s0[xo..xo + 8];
    ghost var k: Half := kl[klo..klo + 8];
    HalfSlices(s0, xo, h);
    HalfSlices(kl[..], klo, k);
    assert kl[klo..klo + 4] == k[..4] && kl[..][klo..klo + 8] == k;
    assert x[xo..xo + 4] == h[..4] && x[xo + 4..xo + 4 + 4] == h[4..];
    MaskRight(y, yo, x, xo, x, xo, kl, klo);
    ghost var s1 := y[..];
    assert x[xo..xo + 4] == h[..4] by {
      if x == y { SplicedElsewhere(s, yo + 4, Xor(Masked(h[..4], k[..4]), h[4..]), xo, 4); }
      assert x[..][xo..xo + 4] == x[xo..xo + 4];
    }
    MaskLeft(y, yo, x, xo, y, yo, kl, klo);
    FLSplices(s, yo, h, k, s1, y[..]);
  }

  method FLinvInto(x: array<bv8>, xo: nat, y: array<bv8>, yo: nat, kl: array<bv8>, klo: nat)
    requires yo + 8 <= y.Length && xo + 8 <= x.Length && klo + 8 <= kl.Length
    requires kl != x && (x == y ==> Apart(yo, xo, 8))
    modifies x
    ensures x[..] == Spliced(old(x[..]), xo, FLinv(old(y[yo..yo + 8]), kl[klo..klo + 8]))
  {
    hide Xor, Masked, Ored, Spliced, FLinv;
    ghost var s, s0 := x[..], y[..];
    ghost var h: Half := s0[yo..yo + 8];
    ghost var k: Half := kl[klo..klo + 8];
    HalfSlices(s0, yo, h);
    HalfSlices(kl[..], klo, k);
    assert kl[klo..klo + 4] == k[..4] && kl[..][klo..klo + 8] == k;
    assert y[yo..yo + 4] == h[..4] && y[yo + 4..yo + 8] == h[4..];
    MaskLeft(x, xo, y, yo, y, yo, kl, klo);
    ghost var s1 := x[..];
    assert y[yo + 4..yo + 4 + 4] == h[4..] by {
      if x == y { SplicedElsewhere(s, xo, Xor(Ored(h[4..], k), h[..4]), yo + 4, 4); }
      assert y[..][yo + 4..yo + 4 + 4] == y[yo + 4..yo + 4 + 4];
    }
    MaskRight(x, xo, y, yo, x, xo, kl, klo);
    FLinvSplices(s, xo, h, k, s1, x[..]);
  }

  lemma FLinvSplices(s: seq<bv8>, xo: nat, h: Half, k: Half, s1: seq<bv8>, s2: seq<bv8>)
    requires xo + 8 <= |s|
    requires s1 == Spliced(s, xo, Xor(Ored(h[4..], k), h[..4]))
    requires s2 == Spliced(s1, xo + 4, Xor(Masked(s1[xo..xo + 4], k[..4]), h[4..]))
    ensures s2 == Spliced(s, xo, FLinv(h, k))
  {
    hide Xor, Masked, Ored, Spliced, FLinv;
    FLinvParts(h, k);
    HalvesJoin(FLinv(h, k));
    SplicedUp(s, xo, FLinv(h, k)[..4], FLinv(h, k)[4..]);
  }

  lemma HalfSlices(s: seq<bv8>, o: nat, h: Half)
    requires o + 8 <= |s| && s[o..o + 8] == h
    ensures s[o..o + 4] == h[..4] && s[o + 4..o + 8] == h[4..]
  {
  }

  lemma FLSplices(s: seq<bv8>, yo: nat, h: Half, k: Half, s1: seq<bv8>, s2: seq<bv8>)
    requires yo + 8 <= |s|
    requires s1 == Spliced(s, yo + 4, Xor(Masked(h[..4], k[..4]), h[4..]))
    requires s2 == Spliced(s1, yo, Xor(Ored(s1[yo + 4..yo + 8], k), h[..4]))
    ensures s2 == Spliced(s, yo, FL(h, k))
  {
    hide Xor, Masked, Ored, Spliced, FL;
    FLParts(h, k);
    HalvesJoin(FL(h, k));
    SplicedUp(s, yo, FL(h, k)[..4], FL(h, k)[4..]);
  }

  method MaskedInto(buf: array<bv8>, x: array<bv8>, xo: nat, kl: array<bv8>, klo: nat)
    requires buf.Length == 4 && xo + 4 <= x.Length && klo + 4 <= kl.Length
    requires buf != x && buf != kl
    modifies buf
    ensures buf[..] == Masked(x[xo..xo + 4], kl[klo..klo + 4])
  {
    for i := 0 to 4
      invariant forall j :: 0 <= j < i ==> buf[j] == Masked(x[xo..xo + 4], kl[klo..klo + 4])[j]
    {
      hide Masked;
      buf[i] := ((x[xo + i] << 1) | (x[xo + (i + 1) % 4] >> 7))
                & ((kl[klo + i] << 1) | (kl[klo + (i + 1) % 4] >> 7));
      MaskedAt(x[xo..xo + 4], kl[klo..klo + 4], i);
    }
  }

  method OredInto(buf: array<bv8>, y: array<bv8>, yo: nat, kl: array<bv8>, klo: nat)
    requires buf.Length == 4 && yo + 8 <= y.Length && klo + 8 <= kl.Length
    requires buf != y && buf != kl
    modifies buf
    ensures buf[..] == Ored(y[yo + 4..yo + 8], kl[klo..klo + 8])
  {
    for i := 0 to 4
      invariant forall j :: 0 <= j < i ==> buf[j] == Ored(y[yo + 4..yo + 8], kl[klo..klo + 8])[j]
    {
      buf[i] := y[yo + 4 + i] | kl[klo + 4 + i];
    }
  }

  lemma MaskedAt(x: seq<bv8>, kl: seq<bv8>, i: nat)
    requires |x| >= 4 && |kl| >= 4 && i < 4
    ensures Masked(x, kl)[i] == ((x[i] << 1) | (x[(i + 1) % 4] >> 7)) & ((kl[i] << 1) | (kl[(i + 1) % 4] >> 7))
  {
  }
}
