/** The streaming hash object of misc/SHA256.ipp. */
module SHA256Module {
  import opened SHA256Spec

  /** The fields of the object. */
  datatype Stream = Stream(h: seq<bv32>, count: nat, dnum: nat, data: seq<bv8>)

  /** The bytes of a message of this length that fill whole blocks. */
  function Whole(len: nat): (n: nat)
    ensures n <= len && n % 64 == 0 && len - n == len % 64 < 64
  {
    len / 64 * 64
  }

  /** The object after a message, however it was cut into pushes: full blocks are
      absorbed and counted (as a 64-bit number), the rest waits in the buffer. */
  function StreamOf(m: seq<bv8>): (s: Stream)
    ensures |s.h| == 8 && |s.data| == 64 && s.dnum < 64
  {
    var n := Whole(|m|);
    Stream(Absorbed(Initial(), m[..n]), |m| / 64 % WRAP, |m| - n, m[n..] + Zeros(64 - (|m| - n)))
  }

  /** The length grows by one: a block becomes whole, or none does. */
  lemma WholeStep(len: nat)
    ensures if len - Whole(len) == 63
      then Whole(len + 1) == len + 1 == Whole(len) + 64 && (len + 1) / 64 == len / 64 + 1
      else Whole(len + 1) == Whole(len) && (len + 1) / 64 == len / 64
  {
  }

  lemma CountStep(q: nat)
    ensures (q % WRAP + 1) % WRAP == (q + 1) % WRAP
  {
  }

  lemma BufferFills(m: seq<bv8>, b: bv8)
    ensures var s := StreamOf(m);
            var d := s.data[s.dnum := b];
            if (s.dnum + 1) % 64 == 0 then
              StreamOf(m + [b]) == Stream(Compressed(s.h, d), (s.count + 1) % WRAP, 0, Zeros(64))
            else
              StreamOf(m + [b]) == Stream(s.h, s.count, s.dnum + 1, d)
  {
    hide Compressed, Initial, Whole, Absorbed;
    var s, t := StreamOf(m), m + [b];
    var n := Whole(|m|);
    var d := s.data[s.dnum := b];
    WholeStep(|m|);
    if |m| - n == 63 {
      assert d == m[n..] + [b];
      assert t[..n] == m[..n] && t[n..] == d;
      assert t[..|t|] == t;
      BlockMore(t, n);
      CountStep(|m| / 64);
      assert t[|t|..] + Zeros(64) == Zeros(64);
    } else {
      assert t[..n] == m[..n];
      assert t[n..] == m[n..] + [b];
      assert d == m[n..] + [b] + Zeros(63 - s.dnum);
    }
  }

  lemma BlockMore(t: seq<bv8>, n: nat)
    requires n % 64 == 0 && |t| == n + 64
    ensures Absorbed(Initial(), t) == Compressed(Absorbed(Initial(), t[..n]), t[n..])
  {
  }

  // ---------------------------------------------------------------- the object

  class SHA256 {
    const H: array<bv32>
    var count: nat
    var dnum: nat
    const data: array<bv8>

    ghost predicate Valid()
      reads this
    {
      Shape() && dnum < 64
    }

    ghost predicate Shape() {
      H.Length == 8 && data.Length == 64
    }

    ghost function Value(): Stream
      reads this, H, data
    {
      Stream(H[..], count, dnum, data[..])
    }

    constructor ()
      ensures Valid() && fresh(H) && fresh(data) && Value() == StreamOf([])
    {
      hide K;
      H := new bv32[8](i requires 0 <= i < 8 => Initial()[i]);
      count := 0;
      dnum := 0;
      data := new bv8[64](_ => 0);
      new;
      assert H[..] == Initial();
      assert data[..] == Zeros(64);
      ghost var none: seq<bv8> := [];
      assert none[..0] == none && none + Zeros(64) == Zeros(64);
    }

    constructor Copy(opp: SHA256)
      requires opp.Valid()
      ensures Valid() && fresh(H) && fresh(data) && Value() == opp.Value()
    {
      var h, d := opp.H[..], opp.data[..];
      H := new bv32[8](i requires 0 <= i < 8 => h[i]);
      count := opp.count;
      dnum := opp.dnum;
      data := new bv8[64](i requires 0 <= i < 64 => d[i]);
    }

    /** Absorbs the buffer and clears it. */
    method Calc()
      requires Shape()
      modifies H, data
      ensures H[..] == Compressed(old(H[..]), old(data[..]))
      ensures data[..] == Zeros(64)
    {
      hide Compressed, Working, ScheduleWord, Pack, Zeros;
      ghost var h0, block := H[..], data[..];
      var w := new bv32[64](_ => 0);
      Load(w);
      Extend(w, block);
      var h := new bv32[8](i requires 0 <= i < 8 reads this, H => H[i]);
      assert h[..] == h0;
      Mix(h, w, block);
      Add(h, block);
    }

    /** The bytes become words, and the buffer is cleared on the way. */
    method Load(w: array<bv32>)
      requires Shape() && w.Length == 64 && w != H
      modifies w, data
      ensures forall i :: 0 <= i < 16 ==> w[i] == Pack(old(data[..])[4 * i..4 * i + 4])
      ensures data[..] == Zeros(64)
    {
      ghost var d := data[..];
      hide Pack, Zeros;
      NoZeros();
      assert data[0..] == d[0..];
      for i := 0 to 16
        invariant forall k :: 0 <= k < i ==> w[k] == Pack(d[4 * k..4 * k + 4])
        invariant data[..4 * i] == Zeros(4 * i) && data[4 * i..] == d[4 * i..]
      {
        ghost var b := data[..];
        SameSlice(b, d, 4 * i);
        assert b[4 * i..4 * i + 4] == data[4 * i..4 * i + 4];
        w[i] := LoadWord(4 * i);
        MoreZeros(4 * i);
        AfterSlice(b, data[..], d, 4 * i);
      }
      assert data[..64] == data[..];
    }

    static lemma NoZeros()
      ensures Zeros(0) == []
    {
    }

    static lemma MoreZeros(n: nat)
      ensures Zeros(n) + Zeros(4) == Zeros(n + 4)
    {
    }

    static lemma SameSlice(b: seq<bv8>, d: seq<bv8>, o: nat)
      requires |b| == |d| && o + 4 <= |d| && b[o..] == d[o..]
      ensures b[o..o + 4] == d[o..o + 4]
    {
      assert b[o..][..4] == d[o..][..4];
    }

    static lemma AfterSlice(b: seq<bv8>, c: seq<bv8>, d: seq<bv8>, o: nat)
      requires |b| == |c| == |d| && o + 4 <= |d| && b[o..] == d[o..] && c[o + 4..] == b[o + 4..]
      ensures c[o + 4..] == d[o + 4..]
    {
      assert b[o..][4..] == d[o..][4..];
    }

    method LoadWord(o: nat) returns (w: bv32)
      requires Shape() && o + 4 <= 64
      modifies data
      ensures w == Pack(old(data[o..o + 4]))
      ensures data[..o + 4] == old(data[..o]) + Zeros(4) && data[o + 4..] == old(data[o + 4..])
    {
      hide Pack, Shifted;
      ghost var d, s := data[..], data[o..o + 4];
      w := 0;
      PackNothing();
      for j := 0 to 4
        invariant w == Pack(s[..j])
        invariant forall k :: 0 <= k < o ==> data[k] == d[k]
        invariant forall k :: o <= k < o + j ==> data[k] == 0
        invariant forall k :: o + j <= k < 64 ==> data[k] == d[k]
      {
        PackMore(s[..j + 1]);
        assert s[..j + 1][..j] == s[..j];
        w := Shifted(w, data[o + j]);
        data[o + j] := 0;
      }
      assert s[..4] == s;
    }

    method Extend(w: array<bv32>, ghost block: seq<bv8>)
      requires w.Length == 64 && |block| == 64
      requires forall i :: 0 <= i < 16 ==> w[i] == Pack(block[4 * i..4 * i + 4])
      modifies w
      ensures forall i :: 0 <= i < 64 ==> w[i] == ScheduleWord(block, i)
    {
      hide Pack, Extended;
      for i := 16 to 64
        invariant forall k :: 0 <= k < i ==> w[k] == ScheduleWord(block, k)
      {
        w[i] := Extended(w[i - 2], w[i - 7], w[i - 15], w[i - 16]);
      }
    }

    /** The 64 rounds shift the working variables in place. */
    method Mix(h: array<bv32>, w: array<bv32>, ghost block: seq<bv8>)
      requires h.Length == 8 && w.Length == 64 && |block| == 64 && h != w
      requires forall i :: 0 <= i < 64 ==> w[i] == ScheduleWord(block, i)
      modifies h
      ensures h[..] == Working(old(h[..]), block, 64)
    {
      hide K, T1, T2, Plus, ScheduleWord, Mixed;
      ghost var h0 := h[..];
      for i := 0 to 64
        invariant h[..] == Working(h0, block, i)
      {
        MixOnce(h, K()[i], w[i]);
      }
    }

    method MixOnce(h: array<bv32>, k: bv32, w: bv32)
      requires h.Length == 8
      modifies h
      ensures h[..] == Mixed(old(h[..]), k, w)
    {
      hide T1, T2, Plus;
      var t1 := T1(h[..], k, w);
      var t2 := T2(h[..]);
      h[7] := h[6];
      h[6] := h[5];
      h[5] := h[4];
      h[4] := Plus(h[3], t1);
      h[3] := h[2];
      h[2] := h[1];
      h[1] := h[0];
      h[0] := Plus(t1, t2);
    }

    method Add(h: array<bv32>, ghost block: seq<bv8>)
      requires Shape() && h.Length == 8 && h != H && |block| == 64
      requires h[..] == Working(H[..], block, 64)
      modifies H
      ensures H[..] == Compressed(old(H[..]), block)
    {
      hide Plus, Working;
      ghost var h0 := H[..];
      for i := 0 to 8
        invariant forall k :: 0 <= k < i ==> H[k] == Plus(h0[k], h[k])
        invariant forall k :: i <= k < 8 ==> H[k] == h0[k]
      {
        H[i] := Plus(H[i], h[i]);
      }
    }

    static lemma PackNothing()
      ensures Pack([]) == 0
    {
    }

    static lemma PackMore(s: seq<bv8>)
      requires |s| > 0
      ensures Pack(s) == Shifted(Pack(s[..|s| - 1]), s[|s| - 1])
    {
      hide Shifted;
    }

    /** Any number of bytes; what counts is the concatenation of all pushes. */
    method Push(umsg: seq<bv8>, ghost m: seq<bv8>)
      requires Valid() && Value() == StreamOf(m)
      modifies this, H, data
      ensures Valid() && Value() == StreamOf(m + umsg)
    {
      hide StreamOf, Compressed;
      assert m + umsg[..0] == m;
      for i := 0 to |umsg|
        invariant Valid() && Value() == StreamOf(m + umsg[..i])
      {
        ghost var p := m + umsg[..i];
        BufferFills(p, umsg[i]);
        assert p + [umsg[i]] == m + umsg[..i + 1];
        data[dnum] := umsg[i];
        dnum := dnum + 1;
        if dnum % 64 == 0 {
          Calc();
          count := (count + 1) % WRAP;
          dnum := 0;
          for j := 0 to 64
            modifies data
            invariant data[..] == Zeros(64)
          {
            data[j] := 0;
          }
        }
      }
      assert umsg[..|umsg|] == umsg;
    }

    /** Padding: one block when fewer than 55 bytes wait, two blocks otherwise. */
    method End(ghost m: seq<bv8>)
      requires Valid() && Value() == StreamOf(m)
      modifies this, H, data
      ensures (|m| + |CodePadding(|m|)|) % 64 == 0
      ensures H[..] == Absorbed(Initial(), m + CodePadding(|m|))
    {
      hide Compressed, Initial, Absorbed, StreamOf, CodePadding, CodeBits, BitLength, Whole;
      ghost var n := Whole(|m|);
      ghost var rest, pad := m[n..], CodePadding(|m|);
      EndStart(m, Value());
      if dnum < 55 {
        ghost var b := EndInOne(|m|, rest);
        OneBlock(m, n, pad, b);
      } else {
        ghost var b, c := EndInTwo(|m|, rest);
        TwoBlocks(m, n, pad, b, c);
      }
    }

    method EndInOne(ghost len: nat, ghost rest: seq<bv8>) returns (ghost b: seq<bv8>)
      requires Valid() && dnum == len % 64 < 55 && data[..dnum] == rest
      requires CodeBits(count, dnum) == BitLength(len)
      modifies this, H, data
      ensures |b| == 64 && b == rest + CodePadding(len) && H[..] == Compressed(old(H[..]), b)
    {
      hide Compressed, BigEndian, CodeBits, BitLength, Zeros;
      Mark(56);
      StoreBits(len);
      b := data[..];
      assert b == rest + [0x80] + Zeros(55 - dnum) + BigEndian(BitLength(len), 8);
      assert b == rest + CodePadding(len);
      Calc();
    }

    method EndInTwo(ghost len: nat, ghost rest: seq<bv8>) returns (ghost b: seq<bv8>, ghost c: seq<bv8>)
      requires Valid() && dnum == len % 64 >= 55 && data[..dnum] == rest
      requires CodeBits(count, dnum) == BitLength(len)
      modifies this, H, data
      ensures |b| == |c| == 64 && b + c == rest + CodePadding(len)
      ensures H[..] == Compressed(Compressed(old(H[..]), b), c)
    {
      hide Compressed, BigEndian, CodeBits, BitLength, Zeros;
      Mark(64);
      b := data[..];
      assert data[..64] == b;
      Calc();
      Clear(56);
      StoreBits(len);
      c := data[..];
      Rearrange(rest, Zeros(63 - dnum), Zeros(56), BigEndian(BitLength(len), 8));
      Calc();
    }

    /** The counters become the bit length, which goes into the last eight bytes. */
    method StoreBits(ghost len: nat)
      requires Shape() && CodeBits(count, dnum) == BitLength(len)
      modifies this`count, data
      ensures data[..] == old(data[..])[..56] + BigEndian(BitLength(len), 8)
    {
      count := CodeBits(count, dnum);
      StoreCount(count);
    }

    static lemma EndStart(m: seq<bv8>, s: Stream)
      requires s == StreamOf(m)
      ensures var n := Whole(|m|);
        && s.h == Absorbed(Initial(), m[..n]) && s.dnum == |m| % 64 <= |s.data| && s.data[..s.dnum] == m[n..]
        && CodeBits(s.count, s.dnum) == BitLength(|m|)
    {
      hide Absorbed, Initial, CodeBits, BitLength, Whole;
      BitCount(|m|);
    }

    static lemma Rearrange(rest: seq<bv8>, y: seq<bv8>, z: seq<bv8>, e: seq<bv8>)
      ensures (rest + [0x80] + y) + (z + e) == rest + ([0x80] + y + z + e)
    {
    }

    /** The one bit behind the message, then zeros up to hi. */
    method Mark(hi: nat)
      requires Valid() && dnum < hi <= 64
      modifies data
      ensures data[..hi] == old(data[..dnum]) + [0x80] + Zeros(hi - dnum - 1)
      ensures data[hi..] == old(data[hi..])
    {
      ghost var d := data[..];
      data[dnum] := 0x80;
      for i := dnum + 1 to hi
        invariant data[..dnum] == d[..dnum] && data[dnum] == 0x80 && data[hi..] == d[hi..]
        invariant forall k :: dnum < k < i ==> data[k] == 0
      {
        data[i] := 0;
      }
    }

    method Clear(hi: nat)
      requires Shape() && hi <= 64
      modifies data
      ensures data[..hi] == Zeros(hi)
    {
      for i := 0 to hi
        invariant forall k :: 0 <= k < i ==> data[k] == 0
      {
        data[i] := 0;
      }
    }

    /** The eight bytes at the end, filled from the back. */
    method StoreCount(bits: nat)
      requires Shape() && bits == count < WRAP
      modifies this`count, data
      ensures data[..] == old(data[..])[..56] + BigEndian(bits, 8)
    {
      ghost var d := data[..];
      assert BigEndian(bits, 0) == [];
      for i := 8 downto 0
        invariant data[..56 + i] == d[..56 + i]
        invariant BigEndian(bits, 8) == BigEndian(count, i) + data[56 + i..]
      {
        data[56 + i] := (count % 256) as bv8;
        count := count / 256;
      }
      assert data[..] == data[..56] + data[56..];
    }

    /** A copy is padded; the object itself can take more pushes. */
    method Hash(result: array<bv8>, ghost m: seq<bv8>)
      requires Valid() && Value() == StreamOf(m) && result.Length >= 32 && result != data
      modifies result
      ensures result[..32] == Digest(m) && result[32..] == old(result[32..])
    {
      hide Initial, Absorbed, CodePadding, StreamOf, WordBytes, DigestBytes;
      var tmp := new SHA256.Copy(this);
      tmp.End(m);
      ghost var r, h := result[..], tmp.H[..];
      DigestStart();
      for i := 0 to 8
        invariant tmp.H[..] == h && tmp.Shape()
        invariant result[..4 * i] == DigestBytes(h[..i]) && result[32..] == r[32..]
      {
        WriteWord(result, 4 * i, tmp.H[i]);
        DigestMore(h[..i + 1]);
        assert h[..i + 1][..i] == h[..i];
        assert result[..4 * i + 4] == result[..4 * i] + result[4 * i..4 * i + 4];
      }
      assert h[..8] == h;
    }

    /** The one-shot form. */
    static method HashMessage(result: array<bv8>, msg: seq<bv8>)
      requires result.Length >= 32
      modifies result
      ensures result[..32] == Digest(msg)
    {
      var tmp := new SHA256();
      tmp.Push(msg, []);
      assert [] + msg == msg;
      tmp.Hash(result, msg);
    }

    static lemma DigestStart()
      ensures DigestBytes([]) == []
    {
    }

    static lemma DigestMore(h: seq<bv32>)
      requires |h| > 0
      ensures DigestBytes(h) == DigestBytes(h[..|h| - 1]) + WordBytes(h[|h| - 1], 4)
    {
    }

    static method WriteWord(result: array<bv8>, o: nat, w: bv32)
      requires o + 4 <= result.Length
      modifies result
      ensures result[o..o + 4] == WordBytes(w, 4)
      ensures result[..o] == old(result[..o]) && result[o + 4..] == old(result[o + 4..])
    {
      hide LowByte;
      var val := w;
      ghost var r := result[..];
      assert WordBytes(w, 4) == WordBytes(val, 4) + result[o + 4..o + 4];
      for j := 4 downto 0
        invariant WordBytes(w, 4) == WordBytes(val, j) + result[o + j..o + 4]
        invariant result[..o + j] == r[..o + j] && result[o + 4..] == r[o + 4..]
      {
        result[o + j] := LowByte(val);
        val := val >> 8;
      }
    }
  }

  /** The bit count in 64-bit arithmetic. */
  function CodeBits(count: nat, dnum: nat): (r: nat)
    ensures r < WRAP
  {
    (count * 64 + dnum) * 8 % WRAP
  }

  /** The counters give the bit length modulo 2^64. */
  lemma BitCount(n: nat)
    ensures CodeBits(n / 64 % WRAP, n % 64) == BitLength(n)
  {
    var q, c := n / 64, n / 64 % WRAP;
    var k := q / WRAP;
    assert q == WRAP * k + c && n == 64 * q + n % 64;
    assert n * 8 == (c * 64 + n % 64) * 8 + WRAP * (512 * k);
    AddMultiple((c * 64 + n % 64) * 8, 512 * k);
  }

  lemma AddMultiple(x: nat, k: nat)
    ensures (x + WRAP * k) % WRAP == x % WRAP
  {
  }

  lemma OneBlock(m: seq<bv8>, n: nat, pad: seq<bv8>, b: seq<bv8>)
    requires n % 64 == 0 && n <= |m| && |b| == 64 && b == m[n..] + pad
    ensures |m + pad| % 64 == 0
    ensures Absorbed(Initial(), m + pad) == Compressed(Absorbed(Initial(), m[..n]), b)
  {
    hide Absorbed, Compressed, Initial;
    var t := m + pad;
    assert t[..n] == m[..n] && t[n..] == b;
    assert |t| == n + 64;
    BlockMore(t, n);
  }

  lemma TwoBlocks(m: seq<bv8>, n: nat, pad: seq<bv8>, b: seq<bv8>, c: seq<bv8>)
    requires n % 64 == 0 && n <= |m| && |b| == |c| == 64 && b + c == m[n..] + pad
    ensures |m + pad| % 64 == 0
    ensures Absorbed(Initial(), m + pad)
         == Compressed(Compressed(Absorbed(Initial(), m[..n]), b), c)
  {
    hide Absorbed, Compressed, Initial;
    var t, u := m + pad, m[..n] + b;
    Regroup(m, n, pad, b, c);
    BlockMore(t, n + 64);
    BlockMore(u, n);
  }

  lemma Regroup(m: seq<bv8>, n: nat, pad: seq<bv8>, b: seq<bv8>, c: seq<bv8>)
    requires n <= |m| && |b| == |c| == 64 && b + c == m[n..] + pad
    ensures var t, u := m + pad, m[..n] + b;
            && |t| == n + 128 && |u| == n + 64 && t[..n + 64] == u && t[n + 64..] == c
            && u[..n] == m[..n] && u[n..] == b
  {
    assert m == m[..n] + m[n..];
    assert m + pad == m[..n] + (m[n..] + pad);
    assert m + pad == (m[..n] + b) + c;
  }
}
