/** The four check codes of misc/CRC.ipp: table-driven registers, their output and
    the test of a received value. */
module CRCModule {
  import opened CRCDivision
  import opened CRCBytes
  import T8 = CRC8Table
  import T16 = CRC16Table
  import T32 = CRC32Table
  import T32C = CRC32CTable

  // ---------------------------------------------------------------- CRC_8_ATM

  function Crc8(c: bv8, msg: seq<bv8>): bv8 {
    if |msg| == 0 then c else T8.Table(Crc8(c, msg[..|msg| - 1]) ^ msg[|msg| - 1])
  }

  lemma Push8(c: bv8, b: bv8)
    ensures T8.Put(T8.Table(c ^ b)) == PushByte(CRC8(), T8.Put(c), b)
  {
    T8.TableIsDivision(c ^ b);
    Place8(c, b);
    hide *;
    PushByteIs(CRC8(), T8.Put(c), b);
  }

  lemma Place8(c: bv8, b: bv8)
    ensures Place(CRC8(), c ^ b) == Xor(T8.Put(c), Place(CRC8(), b))
  {
  }

  lemma {:induction false} Crc8IsRegister(c: bv8, msg: seq<bv8>)
    ensures T8.Put(Crc8(c, msg)) == Register(CRC8(), T8.Put(c), msg)
  {
    if |msg| > 0 {
      hide T8.Table, T8.Put, PushByte;
      Crc8IsRegister(c, msg[..|msg| - 1]);
      Push8(Crc8(c, msg[..|msg| - 1]), msg[|msg| - 1]);
    }
  }

  /** The value of a message is its remainder: M(x) * x^8 modulo x^8 + x^2 + x + 1. */
  lemma Crc8IsRemainder(msg: seq<bv8>)
    ensures T8.Put(Crc8(0, msg)) == Remainder(CRC8(), MessageBits(CRC8(), msg) + Zeros(8))
  {
    Crc8IsRegister(0, msg);
    Zero8();
    hide *;
    KnownAll();
    RegisterIsRemainder(CRC8(), 0, msg);
    TimesZero(CRC8(), 8 * |msg|);
    XorLaws(Remainder(CRC8(), MessageBits(CRC8(), msg) + Zeros(8)), 0, 0);
  }

  lemma Zero8()
    ensures T8.Put(0) == 0
  {
  }

  lemma KnownAll()
    ensures Known(CRC8()) && Known(CRC16()) && Known(CRC32()) && Known(CRC32C())
    ensures CRC8().width == 8 && CRC16().width == 16 && CRC32().width == 32 && CRC32C().width == 32
  {
  }

  /** check() accepts exactly the value of the message. */
  lemma Check8(msg: seq<bv8>, v: bv8)
    ensures Crc8(0, msg + [v]) == 0 <==> v == Crc8(0, msg)
  {
    var c := Crc8(0, msg);
    Crc8IsRegister(0, msg + [v]);
    Crc8IsRegister(0, msg);
    RegisterConcat(CRC8(), T8.Put(0), msg, [v]);
    PutOne8(Crc8(0, msg + [v]), 0);
    PutOne8(v, c);
    Single8(v, c);
    hide *;
    KnownAll();
    AppendedIff(CRC8(), T8.Put(c), [v], 0);
    TimesZero(CRC8(), 8);
    XorIsZero(T8.Put(c), PlaceAll(CRC8(), [v]));
    Zero8();
  }

  lemma PutOne8(a: bv8, b: bv8)
    ensures T8.Put(a) == T8.Put(b) <==> a == b
  {
  }

  lemma Single8(v: bv8, c: bv8)
    ensures PlaceAll(CRC8(), [v]) == T8.Put(v)
    ensures Aligned(CRC8(), T8.Put(v)) && Aligned(CRC8(), T8.Put(c)) && Aligned(CRC8(), 0)
  {
    assert [v][1..] == [];
    assert PlaceAll(CRC8(), []) == 0;
  }

  class CRC8Atm {
    var crc8atm: bv8

    constructor ()
      ensures crc8atm == 0
    {
      crc8atm := 0;
    }

    method Reset()
      modifies this
      ensures crc8atm == 0
    {
      crc8atm := 0;
    }

    method Push(umsg: seq<bv8>)
      modifies this
      ensures crc8atm == Crc8(old(crc8atm), umsg)
    {
      hide T8.Table;
      ghost var c := crc8atm;
      for i := 0 to |umsg|
        invariant crc8atm == Crc8(c, umsg[..i])
      {
        assert umsg[..i + 1][..i] == umsg[..i];
        crc8atm := T8.Table(crc8atm ^ umsg[i]);
      }
      assert umsg[..|umsg|] == umsg;
    }

    method Crc() returns (result: seq<bv8>)
      ensures result == [crc8atm]
    {
      result := [crc8atm];
    }

    static method Check(crcValue: seq<bv8>, msg: seq<bv8>) returns (ok: bool)
      requires |crcValue| == 1
      ensures ok <==> crcValue == [Crc8(0, msg)]
    {
      var tmp := new CRC8Atm();
      tmp.Push(msg);
      tmp.Push(crcValue);
      var buf := tmp.Crc();
      ok := buf[0] == 0;
      Crc8Concat(0, msg, crcValue);
      assert crcValue == [crcValue[0]];
      Check8(msg, crcValue[0]);
    }
  }

  lemma {:induction false} Crc8Concat(c: bv8, m: seq<bv8>, n: seq<bv8>)
    ensures Crc8(c, m + n) == Crc8(Crc8(c, m), n)
    decreases |n|
  {
    hide T8.Table;
    if |n| == 0 {
      assert m + n == m;
    } else {
      Crc8Concat(c, m, n[..|n| - 1]);
      assert (m + n)[..|m + n| - 1] == m + n[..|n| - 1];
    }
  }

  // ---------------------------------------------------------------- CRC_16_CCITT

  function High(c: bv16): bv8 {
    ((c >> 8) & 0xff) as bv8
  }

  function Low(c: bv16): bv8 {
    (c & 0xff) as bv8
  }

  function Index16(c: bv16, b: bv8): bv8 {
    (((c >> 8) ^ (b as bv16)) & 0xff) as bv8
  }

  function Push16(c: bv16, b: bv8): bv16 {
    Xor16(T16.Table(Index16(c, b)), Up16(c))
  }

  function Xor16(a: bv16, b: bv16): bv16 {
    a ^ b
  }

  function Up16(c: bv16): bv16 {
    c << 8
  }

  function Crc16(c: bv16, msg: seq<bv8>): bv16 {
    if |msg| == 0 then c else Push16(Crc16(c, msg[..|msg| - 1]), msg[|msg| - 1])
  }

  lemma Push16IsByte(c: bv16, b: bv8)
    ensures T16.Put(Push16(c, b)) == PushByte(CRC16(), T16.Put(c), b)
  {
    Push16Put(c, b);
    T16.TableIsDivision(Index16(c, b));
    Split16(c, b);
    hide *;
    var g, q := CRC16(), T16.Put(Up16(c));
    BackReturns(g, q, 1);
    TimesXor(g, Place(g, Index16(c, b)), Back(g, q), 8);
    PushByteIs(g, T16.Put(c), b);
  }

  lemma Push16Put(c: bv16, b: bv8)
    ensures T16.Put(Push16(c, b)) == Xor(T16.Put(T16.Table(Index16(c, b))), T16.Put(Up16(c)))
  {
    hide T16.Table, Index16, Xor, T16.Put, Xor16, Up16;
    PutXor16(T16.Table(Index16(c, b)), Up16(c));
  }

  lemma Split16(c: bv16, b: bv8)
    ensures Xor(T16.Put(c), Place(CRC16(), b)) == Xor(Place(CRC16(), Index16(c, b)), Back(CRC16(), T16.Put(Up16(c))))
    ensures Room(CRC16(), T16.Put(Up16(c)), 1)
  {
  }

  lemma PutXor16(a: bv16, b: bv16)
    ensures T16.Put(Xor16(a, b)) == Xor(T16.Put(a), T16.Put(b))
  {
  }

  lemma {:induction false} Crc16IsRegister(c: bv16, msg: seq<bv8>)
    ensures T16.Put(Crc16(c, msg)) == Register(CRC16(), T16.Put(c), msg)
  {
    if |msg| > 0 {
      hide Push16, T16.Put, PushByte;
      Crc16IsRegister(c, msg[..|msg| - 1]);
      Push16IsByte(Crc16(c, msg[..|msg| - 1]), msg[|msg| - 1]);
    }
  }

  /** The register of a message: its remainder plus the preset times x to its length. */
  lemma Crc16IsRemainder(msg: seq<bv8>)
    ensures T16.Put(Crc16(0xffff, msg))
         == Xor(Remainder(CRC16(), MessageBits(CRC16(), msg) + Zeros(16)),
                Times(CRC16(), T16.Put(0xffff), 8 * |msg|))
  {
    Crc16IsRegister(0xffff, msg);
    hide *;
    KnownAll();
    RegisterIsRemainder(CRC16(), T16.Put(0xffff), msg);
  }

  /** check() accepts exactly the two bytes that crc() writes, high byte first. */
  lemma Check16(msg: seq<bv8>, h: bv8, l: bv8)
    ensures Crc16(0xffff, msg + [h, l]) == 0
       <==> h == High(Crc16(0xffff, msg)) && l == Low(Crc16(0xffff, msg))
  {
    var c := Crc16(0xffff, msg);
    Crc16IsRegister(0xffff, msg + [h, l]);
    Crc16IsRegister(0xffff, msg);
    RegisterConcat(CRC16(), T16.Put(0xffff), msg, [h, l]);
    PutZero16(Crc16(0xffff, msg + [h, l]));
    Pair16(h, l, c);
    hide *;
    KnownAll();
    AppendedIff(CRC16(), T16.Put(c), [h, l], 0);
    TimesZero(CRC16(), 16);
    XorIsZero(T16.Put(c), PlaceAll(CRC16(), [h, l]));
  }

  lemma PutZero16(a: bv16)
    ensures T16.Put(a) == 0 <==> a == 0
  {
  }

  lemma Pair16(h: bv8, l: bv8, c: bv16)
    ensures PlaceAll(CRC16(), [h, l]) == T16.Put(c) <==> h == High(c) && l == Low(c)
    ensures Aligned(CRC16(), PlaceAll(CRC16(), [h, l])) && Aligned(CRC16(), T16.Put(c)) && Aligned(CRC16(), 0)
  {
    assert [h, l][1..] == [l] && [l][1..] == [];
    assert PlaceAll(CRC16(), []) == 0;
    assert PlaceAll(CRC16(), [l]) == Xor(Place(CRC16(), l), Back(CRC16(), 0));
    PairPut16(h, l);
    PairBits16(h, l, c);
    hide High, Low, Pair;
    PutOne16(Pair(h, l), c);
    Aligned16(c);
    Aligned16(Pair(h, l));
  }

  function Pair(h: bv8, l: bv8): bv16 {
    ((h as bv16) << 8) | (l as bv16)
  }

  lemma PairPut16(h: bv8, l: bv8)
    ensures Xor(Place(CRC16(), h), Back(CRC16(), Xor(Place(CRC16(), l), Back(CRC16(), 0)))) == T16.Put(Pair(h, l))
  {
  }

  lemma PairBits16(h: bv8, l: bv8, c: bv16)
    ensures Pair(h, l) == c <==> h == High(c) && l == Low(c)
  {
    PairOfBytes(c);
    BytesOfPair(h, l);
    hide Pair, High, Low;
  }

  lemma PairOfBytes(c: bv16)
    ensures Pair(High(c), Low(c)) == c
  {
  }

  lemma BytesOfPair(h: bv8, l: bv8)
    ensures High(Pair(h, l)) == h && Low(Pair(h, l)) == l
  {
  }

  lemma PutOne16(a: bv16, b: bv16)
    ensures T16.Put(a) == T16.Put(b) <==> a == b
  {
  }

  lemma Aligned16(c: bv16)
    ensures Aligned(CRC16(), T16.Put(c)) && Aligned(CRC16(), 0)
  {
  }

  class CRC16Ccitt {
    var crc16ccitt: bv16

    constructor ()
      ensures crc16ccitt == 0xffff
    {
      crc16ccitt := 0xffff;
    }

    method Reset()
      modifies this
      ensures crc16ccitt == 0xffff
    {
      crc16ccitt := 0xffff;
    }

    method Push(umsg: seq<bv8>)
      modifies this
      ensures crc16ccitt == Crc16(old(crc16ccitt), umsg)
    {
      hide T16.Table, Index16, Xor16, Up16;
      ghost var c := crc16ccitt;
      for i := 0 to |umsg|
        invariant crc16ccitt == Crc16(c, umsg[..i])
      {
        assert umsg[..i + 1][..i] == umsg[..i];
        crc16ccitt := Xor16(T16.Table(Index16(crc16ccitt, umsg[i])), Up16(crc16ccitt));
      }
      assert umsg[..|umsg|] == umsg;
    }

    method Crc() returns (result: seq<bv8>)
      ensures result == [High(crc16ccitt), Low(crc16ccitt)]
    {
      result := [High(crc16ccitt), Low(crc16ccitt)];
    }

    static method Check(crcValue: seq<bv8>, msg: seq<bv8>) returns (ok: bool)
      requires |crcValue| == 2
      ensures ok <==> crcValue == [High(Crc16(0xffff, msg)), Low(Crc16(0xffff, msg))]
    {
      var tmp := new CRC16Ccitt();
      tmp.Push(msg);
      tmp.Push(crcValue);
      var buf := tmp.Crc();
      ok := buf[0] == 0 && buf[1] == 0;
      Crc16Concat(0xffff, msg, crcValue);
      ZeroBytes16(tmp.crc16ccitt);
      assert crcValue == [crcValue[0], crcValue[1]];
      Check16(msg, crcValue[0], crcValue[1]);
    }
  }

  lemma ZeroBytes16(c: bv16)
    ensures High(c) == 0 && Low(c) == 0 <==> c == 0
  {
  }

  lemma {:induction false} Crc16Concat(c: bv16, m: seq<bv8>, n: seq<bv8>)
    ensures Crc16(c, m + n) == Crc16(Crc16(c, m), n)
    decreases |n|
  {
    hide Push16;
    if |n| == 0 {
      assert m + n == m;
    } else {
      Crc16Concat(c, m, n[..|n| - 1]);
      assert (m + n)[..|m + n| - 1] == m + n[..|n| - 1];
    }
  }

  // ---------------------------------------------------------------- CRC_32 and CRC_32C

  predicate Reflected(g: Generator) {
    g == CRC32() || g == CRC32C()
  }

  function Table32(g: Generator, b: bv8): bv32 {
    if g == CRC32() then T32.Table(b) else T32C.Table(b)
  }

  function Index32(c: bv32, b: bv8): bv8 {
    ((c & 0xff) as bv8) ^ b
  }

  function Down32(c: bv32): bv32 {
    c >> 8
  }

  function Push32(g: Generator, c: bv32, b: bv8): bv32 {
    Xor(Table32(g, Index32(c, b)), Down32(c))
  }

  /** Both reflected codes run the same loop on their tables. */
  function Crc32(g: Generator, c: bv32, msg: seq<bv8>): bv32 {
    if |msg| == 0 then c else Push32(g, Crc32(g, c, msg[..|msg| - 1]), msg[|msg| - 1])
  }

  lemma Table32IsDivision(g: Generator, b: bv8)
    requires Reflected(g)
    ensures Table32(g, b) == Times(g, Place(g, b), 8)
  {
    hide T32.Table, T32C.Table, Times, Place;
    if g == CRC32() { T32.TableIsDivision(b); } else { T32C.TableIsDivision(b); }
  }

  function Upper(c: bv32): bv32 {
    c & 0xffff_ff00
  }

  lemma SplitBits(c: bv32, b: bv8)
    ensures Xor(c, b as bv32) == Xor(Index32(c, b) as bv32, Upper(c))
  {
    LowAndUpper(c);
    IndexBits(c, b);
    hide Xor, Upper, Index32, LowByte;
    XorAssociates(LowByte(c), Upper(c), b as bv32);
    XorCommutes(Upper(c), b as bv32);
    XorAssociates(LowByte(c), b as bv32, Upper(c));
  }

  function LowByte(c: bv32): bv32 {
    c & 0xff
  }

  lemma LowAndUpper(c: bv32)
    ensures c == Xor(LowByte(c), Upper(c))
  {
  }

  lemma IndexBits(c: bv32, b: bv8)
    ensures Index32(c, b) as bv32 == Xor(LowByte(c), b as bv32)
  {
  }

  lemma UpperBits(c: bv32)
    ensures Upper(c) >> 8 == Down32(c) && Upper(c) & 0xff == 0
  {
  }

  lemma Split32(g: Generator, c: bv32, b: bv8)
    requires Reflected(g)
    ensures Xor(c, Place(g, b)) == Xor(Place(g, Index32(c, b)), Upper(c))
  {
    ReflectedKnown(g);
    hide Xor, Index32, Upper;
    SplitBits(c, b);
  }

  lemma ClearedShifts(g: Generator, c: bv32)
    requires Reflected(g)
    ensures Times(g, Upper(c), 8) == Down32(c)
  {
    ReflectedKnown(g);
    hide Times, Down32, Upper;
    UpperBits(c);
    EightShifts(g, Upper(c));
  }

  lemma Push32IsByte(g: Generator, c: bv32, b: bv8)
    requires Reflected(g)
    ensures Push32(g, c, b) == PushByte(g, c, b)
  {
    assert Push32(g, c, b) == Xor(Table32(g, Index32(c, b)), Down32(c)) by {
      hide Table32, Index32, Down32, Xor;
    }
    hide *;
    Split32(g, c, b);
    Table32IsDivision(g, Index32(c, b));
    ClearedShifts(g, c);
    TimesXor(g, Place(g, Index32(c, b)), Upper(c), 8);
    PushByteIs(g, c, b);
  }

  lemma {:induction false} Crc32IsRegister(g: Generator, c: bv32, msg: seq<bv8>)
    requires Reflected(g)
    ensures Crc32(g, c, msg) == Register(g, c, msg)
  {
    if |msg| > 0 {
      hide Push32, PushByte, Reflected;
      Crc32IsRegister(g, c, msg[..|msg| - 1]);
      Push32IsByte(g, Crc32(g, c, msg[..|msg| - 1]), msg[|msg| - 1]);
    }
  }

  lemma ReflectedKnown(g: Generator)
    requires Reflected(g)
    ensures Known(g) && g.width == 32 && !g.left
    ensures forall c :: Aligned(g, c)
  {
  }

  lemma Crc32IsRemainder(g: Generator, msg: seq<bv8>)
    requires Reflected(g)
    ensures Crc32(g, 0xffff_ffff, msg)
         == Xor(Remainder(g, MessageBits(g, msg) + Zeros(32)), Times(g, 0xffff_ffff, 8 * |msg|))
  {
    hide *;
    Crc32IsRegister(g, 0xffff_ffff, msg);
    ReflectedKnown(g);
    RegisterIsRemainder(g, 0xffff_ffff, msg);
  }

  lemma {:induction false} Crc32Concat(g: Generator, c: bv32, m: seq<bv8>, n: seq<bv8>)
    ensures Crc32(g, c, m + n) == Crc32(g, Crc32(g, c, m), n)
    decreases |n|
  {
    hide Push32;
    if |n| == 0 {
      assert m + n == m;
    } else {
      Crc32Concat(g, c, m, n[..|n| - 1]);
      assert (m + n)[..|m + n| - 1] == m + n[..|n| - 1];
    }
  }

  /** Four bytes as a word, the first one lowest. */
  function LittleWord(v: seq<bv8>): bv32
    requires |v| == 4
  {
    Joined(v[0], v[1], v[2], v[3])
  }

  function Joined(a: bv8, b: bv8, c: bv8, d: bv8): bv32 {
    (a as bv32) | ((b as bv32) << 8) | ((c as bv32) << 16) | ((d as bv32) << 24)
  }

  function ByteAt(w: bv32, k: nat): bv8
    requires k <= 24
  {
    ((w >> k) & 0xff) as bv8
  }

  /** What crc() writes: the complement, high byte first. */
  function BigBytes(w: bv32): (r: seq<bv8>)
    ensures |r| == 4
  {
    [ByteAt(w, 24), ByteAt(w, 16), ByteAt(w, 8), ByteAt(w, 0)]
  }

  function Reversed(v: seq<bv8>): (r: seq<bv8>)
    requires |v| == 4
    ensures |r| == 4
  {
    [v[3], v[2], v[1], v[0]]
  }

  lemma PlaceFour(g: Generator, v: seq<bv8>)
    requires Reflected(g) && |v| == 4
    ensures PlaceAll(g, v) == LittleWord(v)
  {
    ReflectedKnown(g);
    var a, b, c, d := v[0], v[1], v[2], v[3];
    assert v[1..][1..] == v[2..] && v[2..][1..] == v[3..] && v[3..][1..] == [];
    assert PlaceAll(g, []) == 0;
    assert PlaceAll(g, v[3..]) == Xor(Place(g, d), Back(g, 0));
    assert PlaceAll(g, v[2..]) == Xor(Place(g, c), Back(g, PlaceAll(g, v[3..])));
    assert PlaceAll(g, v[1..]) == Xor(Place(g, b), Back(g, PlaceAll(g, v[2..])));
    assert PlaceAll(g, v) == Xor(Place(g, a), Back(g, PlaceAll(g, v[1..])));
    hide PlaceAll, Aligned, Known;
    FourPlaces(g, a, b, c, d);
  }

  lemma FourPlaces(g: Generator, a: bv8, b: bv8, c: bv8, d: bv8)
    requires !g.left
    ensures Xor(Place(g, a), Back(g, Xor(Place(g, b), Back(g, Xor(Place(g, c), Back(g, Xor(Place(g, d), Back(g, 0))))))))
         == Joined(a, b, c, d)
  {
  }

  /** Where four more bytes v take the register to the image of t. */
  lemma AppendFour(g: Generator, msg: seq<bv8>, v: seq<bv8>, t: bv32)
    requires Reflected(g) && |v| == 4
    ensures Crc32(g, 0xffff_ffff, msg + v) == Times(g, t, 32)
       <==> Xor(Crc32(g, 0xffff_ffff, msg), LittleWord(v)) == t
  {
    hide *;
    var c := Crc32(g, 0xffff_ffff, msg);
    Crc32Concat(g, 0xffff_ffff, msg, v);
    Crc32IsRegister(g, c, v);
    PlaceFour(g, v);
    ReflectedKnown(g);
    AppendedIff(g, c, v, t);
  }

  lemma Residue32()
    ensures Times(CRC32(), 0xffff_ffff, 32) == 0xDEBB_20E3
  {
    var g := CRC32();
    FourTimes(g, 0xffff_ffff);
    Unfold8(g, 0xffff_ffff);
    Unfold8(g, 0x2DFD_1072);
    Unfold8(g, 0xBE26_ED00);
    Unfold8(g, 0x00BE_26ED);
    hide Times;
    assert Eight(CRC32(), 0xffff_ffff) == 0x2DFD_1072;
    assert Eight(CRC32(), 0x2DFD_1072) == 0xBE26_ED00;
    assert Eight(CRC32(), 0xBE26_ED00) == 0x00BE_26ED;
    assert Eight(CRC32(), 0x00BE_26ED) == 0xDEBB_20E3;
  }

  lemma FourTimes(g: Generator, c: bv32)
    ensures Times(g, c, 32) == Times(g, Times(g, Times(g, Times(g, c, 8), 8), 8), 8)
  {
    hide Times;
    TimesAdd(g, c, 8, 8);
    TimesAdd(g, c, 16, 8);
    TimesAdd(g, c, 24, 8);
  }

  function Complement(c: bv32): bv32 {
    c ^ 0xffff_ffff
  }

  lemma ComplementBytes(c: bv32, v: seq<bv8>)
    requires |v| == 4
    ensures Xor(c, LittleWord(Reversed(v))) == 0xffff_ffff <==> v == BigBytes(Complement(c))
  {
    WordBytes(v, Complement(c));
    hide *;
    ComplementIs(c, LittleWord(Reversed(v)));
  }

  lemma WordBytes(v: seq<bv8>, w: bv32)
    requires |v| == 4
    ensures LittleWord(Reversed(v)) == w <==> v == BigBytes(w)
  {
    hide ByteAt, Joined;
    FourBytes(v[0], v[1], v[2], v[3], w);
    var b := BigBytes(w);
    assert v == b <==> v[0] == b[0] && v[1] == b[1] && v[2] == b[2] && v[3] == b[3] by {
      SameFour(v, b);
    }
  }

  lemma SameFour(v: seq<bv8>, b: seq<bv8>)
    requires |v| == |b| == 4
    ensures v == b <==> v[0] == b[0] && v[1] == b[1] && v[2] == b[2] && v[3] == b[3]
  {
    assert v == [v[0], v[1], v[2], v[3]] && b == [b[0], b[1], b[2], b[3]];
  }

  lemma ComplementIs(c: bv32, x: bv32)
    ensures Xor(c, x) == 0xffff_ffff <==> x == Complement(c)
  {
    assert Complement(c) == Xor(c, 0xffff_ffff);
    hide Xor, Complement;
    Transposed(c, x, 0xffff_ffff);
  }

  lemma FourBytes(a: bv8, b: bv8, c: bv8, d: bv8, w: bv32)
    ensures Joined(d, c, b, a) == w
       <==> a == ByteAt(w, 24) && b == ByteAt(w, 16) && c == ByteAt(w, 8) && d == ByteAt(w, 0)
  {
  }

  lemma ResidueBytes(r: bv32)
    ensures BigBytes(Complement(r)) == [0x21, 0x44, 0xDF, 0x1C] <==> r == 0xDEBB_20E3
  {
    var v: seq<bv8> := [0x21, 0x44, 0xDF, 0x1C];
    WordBytes(v, Complement(r));
    ResidueWord(r);
    assert LittleWord(Reversed(v)) == 0x2144_DF1C;
    hide BigBytes, Complement, LittleWord, Reversed;
  }

  lemma ResidueWord(r: bv32)
    ensures Complement(r) == 0x2144_DF1C <==> r == 0xDEBB_20E3
  {
  }

  class CRC32Register {
    const g: Generator
    var crc32: bv32

    constructor (g: Generator)
      requires Reflected(g)
      ensures this.g == g && crc32 == 0xffff_ffff
    {
      this.g := g;
      crc32 := 0xffff_ffff;
    }

    method Reset()
      modifies this
      ensures crc32 == 0xffff_ffff
    {
      crc32 := 0xffff_ffff;
    }

    method Push(umsg: seq<bv8>)
      modifies this
      ensures crc32 == Crc32(g, old(crc32), umsg)
    {
      hide Table32, Index32, Xor, Down32;
      ghost var c := crc32;
      for i := 0 to |umsg|
        invariant crc32 == Crc32(g, c, umsg[..i])
      {
        assert umsg[..i + 1][..i] == umsg[..i];
        crc32 := Xor(Table32(g, Index32(crc32, umsg[i])), Down32(crc32));
      }
      assert umsg[..|umsg|] == umsg;
    }

    method Crc() returns (result: seq<bv8>)
      ensures result == BigBytes(Complement(crc32))
    {
      result := BigBytes(Complement(crc32));
    }

    /** CRC_32: the value is pushed lowest byte first, and the residue is fixed. */
    static method Check(crcValue: seq<bv8>, msg: seq<bv8>) returns (ok: bool)
      requires |crcValue| == 4
      ensures ok <==> crcValue == BigBytes(Complement(Crc32(CRC32(), 0xffff_ffff, msg)))
    {
      hide BigBytes, Crc32, Complement;
      var tmp := new CRC32Register(CRC32());
      tmp.Push(msg);
      var buf := Reversed(crcValue);
      tmp.Push(buf);
      buf := tmp.Crc();
      ok := buf[0] == 0x21 && buf[1] == 0x44 && buf[2] == 0xDF && buf[3] == 0x1C;
      assert ok <==> buf == [0x21, 0x44, 0xDF, 0x1C];
      Check32(msg, crcValue);
      Crc32Concat(CRC32(), 0xffff_ffff, msg, Reversed(crcValue));
    }
  }

  lemma Check32(msg: seq<bv8>, v: seq<bv8>)
    requires |v| == 4
    ensures BigBytes(Complement(Crc32(CRC32(), 0xffff_ffff, msg + Reversed(v)))) == [0x21, 0x44, 0xDF, 0x1C]
       <==> v == BigBytes(Complement(Crc32(CRC32(), 0xffff_ffff, msg)))
  {
    assert Reflected(CRC32());
    hide *;
    ResidueBytes(Crc32(CRC32(), 0xffff_ffff, msg + Reversed(v)));
    Residue32();
    AppendFour(CRC32(), msg, Reversed(v), 0xffff_ffff);
    ComplementBytes(Crc32(CRC32(), 0xffff_ffff, msg), v);
  }

  lemma Residue32C()
    ensures Times(CRC32C(), 0x641F_6454, 32) == 0xffff_ffff
  {
    var g := CRC32C();
    FourTimes(g, 0x641F_6454);
    Unfold8(g, 0x641F_6454);
    Unfold8(g, 0x96DB_52A8);
    Unfold8(g, 0x2804_363B);
    Unfold8(g, 0xA942_E6BC);
    hide Times;
    assert Eight(CRC32C(), 0x641F_6454) == 0x96DB_52A8;
    assert Eight(CRC32C(), 0x96DB_52A8) == 0x2804_363B;
    assert Eight(CRC32C(), 0x2804_363B) == 0xA942_E6BC;
    assert Eight(CRC32C(), 0xA942_E6BC) == 0xffff_ffff;
  }

  /** check() of CRC_32C pushes the value highest byte first and expects a zero result.
      It accepts one value for each message, and that value is the register plus a
      constant, lowest byte first: not what crc() writes. */
  lemma Check32C(msg: seq<bv8>, v: seq<bv8>)
    requires |v| == 4
    ensures Crc32(CRC32C(), 0xffff_ffff, msg + v) == 0xffff_ffff
       <==> LittleWord(v) == Xor(Crc32(CRC32C(), 0xffff_ffff, msg), 0x641F_6454)
  {
    assert Reflected(CRC32C());
    hide *;
    var c := Crc32(CRC32C(), 0xffff_ffff, msg);
    Residue32C();
    AppendFour(CRC32C(), msg, v, 0x641F_6454);
    Transposed(c, LittleWord(v), 0x641F_6454);
  }

  lemma Transposed(a: bv32, b: bv32, c: bv32)
    ensures Xor(a, b) == c <==> b == Xor(a, c)
  {
    hide Xor;
    XorLaws(a, a, b);
    XorLaws(a, a, c);
    XorLaws(0, b, b);
    XorLaws(0, c, c);
    XorLaws(b, 0, 0);
    XorLaws(c, 0, 0);
  }

  /** crc() writes the complement, and its bytes read lowest first have the outer bytes of
      the register, complemented, in each other's place. */
  lemma SwappedEnds(w: bv32)
    ensures LittleWord(BigBytes(w)) & 0xff == w >> 24
    ensures LittleWord(BigBytes(w)) >> 24 == w & 0xff
  {
    SwappedLow(ByteAt(w, 24), ByteAt(w, 16), ByteAt(w, 8), ByteAt(w, 0));
    OuterBytes(w);
  }

  lemma SwappedLow(a: bv8, b: bv8, c: bv8, d: bv8)
    ensures Joined(a, b, c, d) & 0xff == a as bv32 && Joined(a, b, c, d) >> 24 == d as bv32
  {
  }

  lemma OuterBytes(w: bv32)
    ensures ByteAt(w, 24) as bv32 == w >> 24 && ByteAt(w, 0) as bv32 == w & 0xff
  {
  }

  /** The sum of the outer bytes of the register would have to be 0xAB and 0x9B. */
  lemma EndsClash(c: bv32)
    ensures !(Xor(c, 0x641F_6454) & 0xff == Complement(c) >> 24 && Xor(c, 0x641F_6454) >> 24 == Complement(c) & 0xff)
  {
  }

  /** check() of CRC_32C rejects the right value of every message. */
  lemma OwnRejected32C(msg: seq<bv8>)
    ensures Crc32(CRC32C(), 0xffff_ffff, msg + BigBytes(Complement(Crc32(CRC32C(), 0xffff_ffff, msg)))) != 0xffff_ffff
  {
    var c := Crc32(CRC32C(), 0xffff_ffff, msg);
    hide *;
    Check32C(msg, BigBytes(Complement(c)));
    SwappedEnds(Complement(c));
    EndsClash(c);
  }

  /** check() of CRC_32C as it stands. */
  method CheckCastagnoli(crcValue: seq<bv8>, msg: seq<bv8>) returns (ok: bool)
    requires |crcValue| == 4
    ensures ok <==> LittleWord(crcValue) == Xor(Crc32(CRC32C(), 0xffff_ffff, msg), 0x641F_6454)
    ensures crcValue == BigBytes(Complement(Crc32(CRC32C(), 0xffff_ffff, msg))) ==> !ok
  {
    hide BigBytes, Crc32, Complement, LittleWord;
    var tmp := new CRC32Register(CRC32C());
    tmp.Push(msg);
    tmp.Push(crcValue);
    var buf := tmp.Crc();
    ok := buf[0] == 0 && buf[1] == 0 && buf[2] == 0 && buf[3] == 0;
    ZeroResult(tmp.crc32);
    assert ok <==> buf == [0, 0, 0, 0];
    Check32C(msg, crcValue);
    OwnRejected32C(msg);
    Crc32Concat(CRC32C(), 0xffff_ffff, msg, crcValue);
  }

  lemma ZeroResult(r: bv32)
    ensures BigBytes(Complement(r)) == [0, 0, 0, 0] <==> r == 0xffff_ffff
  {
    var v: seq<bv8> := [0, 0, 0, 0];
    WordBytes(v, Complement(r));
    AllOnes(r);
    assert LittleWord(Reversed(v)) == 0;
    hide BigBytes, Complement, LittleWord, Reversed;
  }

  lemma AllOnes(r: bv32)
    ensures Complement(r) == 0 <==> r == 0xffff_ffff
  {
  }
}
