/** What the round function of Camellia computes, told without the code's formulas: the
    S-box that serves each byte, the matrix of the P layer and its form on words. */
module CamelliaRoundFunction {
  import opened CamelliaRotation
  import opened CamelliaSpec

  // ---------------------------------------------------------------- tables and matrix

  /** The S-box of each byte: SBOX1 to SBOX4 and then SBOX2 to SBOX4 and SBOX1. */
  function TableOf(i: nat): (n: nat)
    requires i < 8
    ensures n < 4
  {
    if i < 4 then i else (i - 3) % 4
  }

  /** The bytes after the key is added and each is replaced through its S-box, table n
      filling the bytes from 256 n on. */
  function Substituted(t: SBoxes, x: Half, k: Half): Half {
    seq(8, i requires 0 <= i < 8 => t[256 * TableOf(i) + (x[i] ^ k[i]) as int])
  }

  /** Rows of the matrix of the P layer: the bits say, from the top, which bytes an output
      byte adds up. */
  function Row(i: nat): bv8
    requires i < 8
  {
    if i == 0 then 0xb7 else if i == 1 then 0xdb else if i == 2 then 0xed else if i == 3 then 0x7e
    else if i == 4 then 0xc7 else if i == 5 then 0x6b else if i == 6 then 0x3d else 0x9e
  }

  /** The sum of two bytes. */
  function Add(a: bv8, b: bv8): bv8 {
    a ^ b
  }

  /** The sum of the bytes among the first n that a row selects. */
  function Selected(row: bv8, x: Half, n: nat): bv8
    requires n <= 8
  {
    if n == 0 then 0
    else Up(ByteBit(row, n - 1), Selected(row, x, n - 1), x[n - 1])
  }

  /** a, with b added if it is selected. */
  function Up(selected: bool, a: bv8, b: bv8): bv8 {
    if selected then Add(a, b) else a
  }

  lemma ZeroFirst(x: bv8)
    ensures Add(0, x) == x
  {
  }

  lemma SixAdded(x: Half, a: nat, b: nat, c: nat, d: nat, e: nat, f: nat)
    requires a < 8 && b < 8 && c < 8 && d < 8 && e < 8 && f < 8
    ensures Xor6(x, a, b, c, d, e, f) == Add(Add(Add(Add(Add(x[a], x[b]), x[c]), x[d]), x[e]), x[f])
  {
  }

  lemma FiveAdded(x: Half, a: nat, b: nat, c: nat, d: nat, e: nat)
    requires a < 8 && b < 8 && c < 8 && d < 8 && e < 8
    ensures Xor5(x, a, b, c, d, e) == Add(Add(Add(Add(x[a], x[b]), x[c]), x[d]), x[e])
  {
  }

  /** The P layer in terms of Add. */
  lemma PAdded(x: Half)
    ensures PLayer(x) == [
      Add(Add(Add(Add(Add(x[0], x[2]), x[3]), x[5]), x[6]), x[7]),
      Add(Add(Add(Add(Add(x[0], x[1]), x[3]), x[4]), x[6]), x[7]),
      Add(Add(Add(Add(Add(x[0], x[1]), x[2]), x[4]), x[5]), x[7]),
      Add(Add(Add(Add(Add(x[1], x[2]), x[3]), x[4]), x[5]), x[6]),
      Add(Add(Add(Add(x[0], x[1]), x[5]), x[6]), x[7]),
      Add(Add(Add(Add(x[1], x[2]), x[4]), x[6]), x[7]),
      Add(Add(Add(Add(x[2], x[3]), x[4]), x[5]), x[7]),
      Add(Add(Add(Add(x[0], x[3]), x[4]), x[5]), x[6])]
  {
    hide Add, Xor5, Xor6;
    SixAdded(x, 0, 2, 3, 5, 6, 7);
    SixAdded(x, 0, 1, 3, 4, 6, 7);
    SixAdded(x, 0, 1, 2, 4, 5, 7);
    SixAdded(x, 1, 2, 3, 4, 5, 6);
    FiveAdded(x, 0, 1, 5, 6, 7);
    FiveAdded(x, 1, 2, 4, 6, 7);
    FiveAdded(x, 2, 3, 4, 5, 7);
    FiveAdded(x, 0, 3, 4, 5, 6);
  }

  /** Every output byte of the P layer is the sum of the bytes in its row. */
  lemma PIsMatrix(x: Half, i: nat)
    requires i < 8
    ensures PLayer(x)[i] == Selected(Row(i), x, 8)
  {
    hide Selected, PLayer, Add;
    if i == 0 { Row0(x); } else if i == 1 { Row1(x); } else if i == 2 { Row2(x); } else if i == 3 { Row3(x); }
    else if i == 4 { Row4(x); } else if i == 5 { Row5(x); } else if i == 6 { Row6(x); } else { Row7(x); }
  }

  /** A row with its eight entries. */
  predicate Entries(row: bv8, a: bool, b: bool, c: bool, d: bool, e: bool, f: bool, g: bool, h: bool) {
    && ByteBit(row, 0) == a && ByteBit(row, 1) == b && ByteBit(row, 2) == c && ByteBit(row, 3) == d
    && ByteBit(row, 4) == e && ByteBit(row, 5) == f && ByteBit(row, 6) == g && ByteBit(row, 7) == h
  }

  lemma SelectedIs(row: bv8, x: Half, a: bool, b: bool, c: bool, d: bool, e: bool, f: bool, g: bool, h: bool)
    requires Entries(row, a, b, c, d, e, f, g, h)
    ensures Selected(row, x, 8)
         == Up(h, Up(g, Up(f, Up(e, Up(d, Up(c, Up(b, Up(a, 0, x[0]), x[1]), x[2]), x[3]), x[4]), x[5]), x[6]), x[7])
  {
    hide Up, ByteBit;
    assert Selected(row, x, 1) == Up(a, 0, x[0]);
    assert Selected(row, x, 2) == Up(b, Selected(row, x, 1), x[1]);
    assert Selected(row, x, 3) == Up(c, Selected(row, x, 2), x[2]);
    assert Selected(row, x, 4) == Up(d, Selected(row, x, 3), x[3]);
    assert Selected(row, x, 5) == Up(e, Selected(row, x, 4), x[4]);
    assert Selected(row, x, 6) == Up(f, Selected(row, x, 5), x[5]);
    assert Selected(row, x, 7) == Up(g, Selected(row, x, 6), x[6]);
  }

  lemma Row0(x: Half)
    ensures PLayer(x)[0] == Selected(0xb7, x, 8)
  {
    hide Selected, PLayer, Add, Entries;
    PAdded(x);
    Entries0();
    SelectedIs(0xb7, x, true, false, true, true, false, true, true, true);
    ZeroFirst(x[0]);
  }

  lemma Entries0()
    ensures Entries(0xb7, true, false, true, true, false, true, true, true)
  {
  }

  lemma Row1(x: Half)
    ensures PLayer(x)[1] == Selected(0xdb, x, 8)
  {
    hide Selected, PLayer, Add, Entries;
    PAdded(x);
    Entries1();
    SelectedIs(0xdb, x, true, true, false, true, true, false, true, true);
    ZeroFirst(x[0]);
  }

  lemma Entries1()
    ensures Entries(0xdb, true, true, false, true, true, false, true, true)
  {
  }

  lemma Row2(x: Half)
    ensures PLayer(x)[2] == Selected(0xed, x, 8)
  {
    hide Selected, PLayer, Add, Entries;
    PAdded(x);
    Entries2();
    SelectedIs(0xed, x, true, true, true, false, true, true, false, true);
    ZeroFirst(x[0]);
  }

  lemma Entries2()
    ensures Entries(0xed, true, true, true, false, true, true, false, true)
  {
  }

  lemma Row3(x: Half)
    ensures PLayer(x)[3] == Selected(0x7e, x, 8)
  {
    hide Selected, PLayer, Add, Entries;
    PAdded(x);
    Entries3();
    SelectedIs(0x7e, x, false, true, true, true, true, true, true, false);
    ZeroFirst(x[1]);
  }

  lemma Entries3()
    ensures Entries(0x7e, false, true, true, true, true, true, true, false)
  {
  }

  lemma Row4(x: Half)
    ensures PLayer(x)[4] == Selected(0xc7, x, 8)
  {
    hide Selected, PLayer, Add, Entries;
    PAdded(x);
    Entries4();
    SelectedIs(0xc7, x, true, true, false, false, false, true, true, true);
    ZeroFirst(x[0]);
  }

  lemma Entries4()
    ensures Entries(0xc7, true, true, false, false, false, true, true, true)
  {
  }

  lemma Row5(x: Half)
    ensures PLayer(x)[5] == Selected(0x6b, x, 8)
  {
    hide Selected, PLayer, Add, Entries;
    PAdded(x);
    Entries5();
    SelectedIs(0x6b, x, false, true, true, false, true, false, true, true);
    ZeroFirst(x[1]);
  }

  lemma Entries5()
    ensures Entries(0x6b, false, true, true, false, true, false, true, true)
  {
  }

  lemma Row6(x: Half)
    ensures PLayer(x)[6] == Selected(0x3d, x, 8)
  {
    hide Selected, PLayer, Add, Entries;
    PAdded(x);
    Entries6();
    SelectedIs(0x3d, x, false, false, true, true, true, true, false, true);
    ZeroFirst(x[2]);
  }

  lemma Entries6()
    ensures Entries(0x3d, false, false, true, true, true, true, false, true)
  {
  }

  lemma Row7(x: Half)
    ensures PLayer(x)[7] == Selected(0x9e, x, 8)
  {
    hide Selected, PLayer, Add, Entries;
    PAdded(x);
    Entries7();
    SelectedIs(0x9e, x, true, false, false, true, true, true, true, false);
    ZeroFirst(x[0]);
  }

  lemma Entries7()
    ensures Entries(0x9e, true, false, false, true, true, true, true, false)
  {
  }

  /** The S layer, byte by byte. */
  lemma SIsSubstitution(t: SBoxes, x: Half, k: Half)
    ensures SLayer(t, Xor(x, k)) == Substituted(t, x, k)
  {
    var y, z := SLayer(t, Xor(x, k)), Substituted(t, x, k);
    assert y[0] == z[0] && y[1] == z[1] && y[2] == z[2] && y[3] == z[3];
    assert y[4] == z[4] && y[5] == z[5] && y[6] == z[6] && y[7] == z[7];
  }

  /** The round function of section 2.4.1 of RFC 3713: each byte of the result is the sum,
      over a row of the matrix, of the bytes of x + k replaced through their S-boxes. */
  lemma RoundFunction(t: SBoxes, x: Half, k: Half, i: nat)
    requires i < 8
    ensures F(t, x, k)[i] == Selected(Row(i), Substituted(t, x, k), 8)
  {
    hide PLayer, SLayer, Substituted, Selected, Xor, Row;
    SIsSubstitution(t, x, k);
    PIsMatrix(Substituted(t, x, k), i);
  }

  // ---------------------------------------------------------------- the form on words

  /** A word of four bytes, rotated left by n bytes. */
  function Turned(w: seq<bv8>, n: nat): (r: seq<bv8>)
    requires |w| == 4 && n < 4
    ensures |r| == 4
  {
    w[n..] + w[..n]
  }

  /** The P layer as four additions of rotated words and an exchange. */
  function PWords(x: Half): Half {
    var l1 := Xor(x[..4], Turned(x[4..], 1));
    var r1 := Xor(x[4..], Turned(l1, 2));
    var l2 := Xor(l1, Turned(r1, 3));
    var r2 := Xor(r1, Turned(l2, 3));
    r2 + l2
  }

  /** The same additions backwards. */
  function PInverse(y: Half): Half {
    var l2, r2 := y[4..], y[..4];
    var r1 := Xor(r2, Turned(l2, 3));
    var l1 := Xor(l2, Turned(r1, 3));
    var r0 := Xor(r1, Turned(l1, 2));
    Xor(l1, Turned(r0, 1)) + r0
  }

  // the sum of two selections is a selection

  lemma AddCommutes(a: bv8, b: bv8)
    ensures Add(a, b) == Add(b, a)
  {
  }

  lemma AddAssociates(a: bv8, b: bv8, c: bv8)
    ensures Add(a, Add(b, c)) == Add(Add(a, b), c)
  {
  }

  lemma AddSelf(a: bv8)
    ensures Add(a, a) == 0
  {
  }

  lemma AddExchange(a: bv8, b: bv8, c: bv8, d: bv8)
    ensures Add(Add(a, b), Add(c, d)) == Add(Add(a, c), Add(b, d))
  {
    hide Add;
    AddAssociates(a, b, Add(c, d));
    AddAssociates(b, c, d);
    AddCommutes(b, c);
    AddAssociates(c, b, d);
    AddAssociates(a, c, Add(b, d));
  }

  lemma BitOfSum(r: bv8, s: bv8, j: nat)
    requires j < 8
    ensures ByteBit(r ^ s, j) == (ByteBit(r, j) != ByteBit(s, j))
  {
    hide ByteBit;
    if j == 0 { BitOfSum0(r, s); } else if j == 1 { BitOfSum1(r, s); } else if j == 2 { BitOfSum2(r, s); }
    else if j == 3 { BitOfSum3(r, s); } else if j == 4 { BitOfSum4(r, s); } else if j == 5 { BitOfSum5(r, s); }
    else if j == 6 { BitOfSum6(r, s); } else { BitOfSum7(r, s); }
  }

  lemma BitOfSum0(r: bv8, s: bv8)
    ensures ByteBit(r ^ s, 0) == (ByteBit(r, 0) != ByteBit(s, 0))
  {
  }

  lemma BitOfSum1(r: bv8, s: bv8)
    ensures ByteBit(r ^ s, 1) == (ByteBit(r, 1) != ByteBit(s, 1))
  {
  }

  lemma BitOfSum2(r: bv8, s: bv8)
    ensures ByteBit(r ^ s, 2) == (ByteBit(r, 2) != ByteBit(s, 2))
  {
  }

  lemma BitOfSum3(r: bv8, s: bv8)
    ensures ByteBit(r ^ s, 3) == (ByteBit(r, 3) != ByteBit(s, 3))
  {
  }

  lemma BitOfSum4(r: bv8, s: bv8)
    ensures ByteBit(r ^ s, 4) == (ByteBit(r, 4) != ByteBit(s, 4))
  {
  }

  lemma BitOfSum5(r: bv8, s: bv8)
    ensures ByteBit(r ^ s, 5) == (ByteBit(r, 5) != ByteBit(s, 5))
  {
  }

  lemma BitOfSum6(r: bv8, s: bv8)
    ensures ByteBit(r ^ s, 6) == (ByteBit(r, 6) != ByteBit(s, 6))
  {
  }

  lemma BitOfSum7(r: bv8, s: bv8)
    ensures ByteBit(r ^ s, 7) == (ByteBit(r, 7) != ByteBit(s, 7))
  {
  }

  lemma {:induction false} SelectedSum(r: bv8, s: bv8, x: Half, n: nat)
    requires n <= 8
    ensures Selected(r ^ s, x, n) == Add(Selected(r, x, n), Selected(s, x, n))
  {
    hide ByteBit, Add;
    if n == 0 {
      ZeroFirst(0);
    } else {
      SelectedSum(r, s, x, n - 1);
      BitOfSum(r, s, n - 1);
      var a, b, c := Selected(r, x, n - 1), Selected(s, x, n - 1), x[n - 1];
      AddExchange(a, c, b, c);
      AddSelf(c);
      AddCommutes(Add(a, b), 0);
      ZeroFirst(Add(a, b));
      AddAssociates(a, b, c);
      AddAssociates(a, c, b);
      AddCommutes(c, b);
    }
  }

  /** A mask has its own bit alone. */
  lemma MaskBit(k: nat, j: nat)
    requires k < 8 && j < 8
    ensures ByteBit(Mask(k), j) == (j == k)
  {
    if j == k { } else if j < k { } else { }
  }

  lemma Only0(x: Half)
    ensures x[0] == Selected(0x80, x, 8)
  {
    hide Selected, Add, Entries;
    Single0();
    SelectedIs(0x80, x, true, false, false, false, false, false, false, false);
    ZeroFirst(x[0]);
  }

  lemma Single0()
    ensures Entries(0x80, true, false, false, false, false, false, false, false)
  {
    hide ByteBit;
    MaskBit(0, 0);
    MaskBit(0, 1);
    MaskBit(0, 2);
    MaskBit(0, 3);
    MaskBit(0, 4);
    MaskBit(0, 5);
    MaskBit(0, 6);
    MaskBit(0, 7);
  }

  lemma Only1(x: Half)
    ensures x[1] == Selected(0x40, x, 8)
  {
    hide Selected, Add, Entries;
    Single1();
    SelectedIs(0x40, x, false, true, false, false, false, false, false, false);
    ZeroFirst(x[1]);
  }

  lemma Single1()
    ensures Entries(0x40, false, true, false, false, false, false, false, false)
  {
    hide ByteBit;
    MaskBit(1, 0);
    MaskBit(1, 1);
    MaskBit(1, 2);
    MaskBit(1, 3);
    MaskBit(1, 4);
    MaskBit(1, 5);
    MaskBit(1, 6);
    MaskBit(1, 7);
  }

  lemma Only2(x: Half)
    ensures x[2] == Selected(0x20, x, 8)
  {
    hide Selected, Add, Entries;
    Single2();
    SelectedIs(0x20, x, false, false, true, false, false, false, false, false);
    ZeroFirst(x[2]);
  }

  lemma Single2()
    ensures Entries(0x20, false, false, true, false, false, false, false, false)
  {
    hide ByteBit;
    MaskBit(2, 0);
    MaskBit(2, 1);
    MaskBit(2, 2);
    MaskBit(2, 3);
    MaskBit(2, 4);
    MaskBit(2, 5);
    MaskBit(2, 6);
    MaskBit(2, 7);
  }

  lemma Only3(x: Half)
    ensures x[3] == Selected(0x10, x, 8)
  {
    hide Selected, Add, Entries;
    Single3();
    SelectedIs(0x10, x, false, false, false, true, false, false, false, false);
    ZeroFirst(x[3]);
  }

  lemma Single3()
    ensures Entries(0x10, false, false, false, true, false, false, false, false)
  {
    hide ByteBit;
    MaskBit(3, 0);
    MaskBit(3, 1);
    MaskBit(3, 2);
    MaskBit(3, 3);
    MaskBit(3, 4);
    MaskBit(3, 5);
    MaskBit(3, 6);
    MaskBit(3, 7);
  }

  lemma Only4(x: Half)
    ensures x[4] == Selected(0x08, x, 8)
  {
    hide Selected, Add, Entries;
    Single4();
    SelectedIs(0x08, x, false, false, false, false, true, false, false, false);
    ZeroFirst(x[4]);
  }

  lemma Single4()
    ensures Entries(0x08, false, false, false, false, true, false, false, false)
  {
    hide ByteBit;
    MaskBit(4, 0);
    MaskBit(4, 1);
    MaskBit(4, 2);
    MaskBit(4, 3);
    MaskBit(4, 4);
    MaskBit(4, 5);
    MaskBit(4, 6);
    MaskBit(4, 7);
  }

  lemma Only5(x: Half)
    ensures x[5] == Selected(0x04, x, 8)
  {
    hide Selected, Add, Entries;
    Single5();
    SelectedIs(0x04, x, false, false, false, false, false, true, false, false);
    ZeroFirst(x[5]);
  }

  lemma Single5()
    ensures Entries(0x04, false, false, false, false, false, true, false, false)
  {
    hide ByteBit;
    MaskBit(5, 0);
    MaskBit(5, 1);
    MaskBit(5, 2);
    MaskBit(5, 3);
    MaskBit(5, 4);
    MaskBit(5, 5);
    MaskBit(5, 6);
    MaskBit(5, 7);
  }

  lemma Only6(x: Half)
    ensures x[6] == Selected(0x02, x, 8)
  {
    hide Selected, Add, Entries;
    Single6();
    SelectedIs(0x02, x, false, false, false, false, false, false, true, false);
    ZeroFirst(x[6]);
  }

  lemma Single6()
    ensures Entries(0x02, false, false, false, false, false, false, true, false)
  {
    hide ByteBit;
    MaskBit(6, 0);
    MaskBit(6, 1);
    MaskBit(6, 2);
    MaskBit(6, 3);
    MaskBit(6, 4);
    MaskBit(6, 5);
    MaskBit(6, 6);
    MaskBit(6, 7);
  }

  lemma Only7(x: Half)
    ensures x[7] == Selected(0x01, x, 8)
  {
    hide Selected, Add, Entries;
    Single7();
    SelectedIs(0x01, x, false, false, false, false, false, false, false, true);
    ZeroFirst(x[7]);
  }

  lemma Single7()
    ensures Entries(0x01, false, false, false, false, false, false, false, true)
  {
    hide ByteBit;
    MaskBit(7, 0);
    MaskBit(7, 1);
    MaskBit(7, 2);
    MaskBit(7, 3);
    MaskBit(7, 4);
    MaskBit(7, 5);
    MaskBit(7, 6);
    MaskBit(7, 7);
  }

  /** The bytes of w are these selections from x. */
  predicate Rows(w: seq<bv8>, x: Half, a: bv8, b: bv8, c: bv8, d: bv8) {
    Four(w, Selected(a, x, 8), Selected(b, x, 8), Selected(c, x, 8), Selected(d, x, 8))
  }

  lemma RowsAdd(u: seq<bv8>, v: seq<bv8>, x: Half, a: bv8, b: bv8, c: bv8, d: bv8, e: bv8, f: bv8, g: bv8, h: bv8)
    requires Rows(u, x, a, b, c, d) && Rows(v, x, e, f, g, h)
    ensures Rows(Xor(u, v), x, a ^ e, b ^ f, c ^ g, d ^ h)
  {
    SelectedSum(a, e, x, 8);
    SelectedSum(b, f, x, 8);
    SelectedSum(c, g, x, 8);
    SelectedSum(d, h, x, 8);
    hide Selected, Xor, Add;
    XorFour(u, v);
  }

  lemma RowsTurn(w: seq<bv8>, x: Half, a: bv8, b: bv8, c: bv8, d: bv8)
    requires Rows(w, x, a, b, c, d)
    ensures Rows(Turned(w, 1), x, b, c, d, a) && Rows(Turned(w, 2), x, c, d, a, b) && Rows(Turned(w, 3), x, d, a, b, c)
  {
    hide Selected;
  }

  lemma RowsStart(x: Half)
    ensures Rows(x[..4], x, 0x80, 0x40, 0x20, 0x10) && Rows(x[4..], x, 0x08, 0x04, 0x02, 0x01)
  {
    Only0(x);
    Only1(x);
    Only2(x);
    Only3(x);
    Only4(x);
    Only5(x);
    Only6(x);
    Only7(x);
    hide Selected;
  }

  /** The rows of the words after each of the four additions. */
  lemma PWordsRows(x: Half)
    ensures Rows(PWords(x)[..4], x, 0xb7, 0xdb, 0xed, 0x7e)
    ensures Rows(PWords(x)[4..], x, 0xc7, 0x6b, 0x3d, 0x9e)
  {
    hide Xor, Turned, Rows, Selected;
    var l, r := x[..4], x[4..];
    RowsStart(x);
    var l1 := Xor(l, Turned(r, 1));
    RowsTurn(r, x, 0x08, 0x04, 0x02, 0x01);
    RowsAdd(l, Turned(r, 1), x, 0x80, 0x40, 0x20, 0x10, 0x04, 0x02, 0x01, 0x08);
    assert Rows(l1, x, 0x84, 0x42, 0x21, 0x18);
    var r1 := Xor(r, Turned(l1, 2));
    RowsTurn(l1, x, 0x84, 0x42, 0x21, 0x18);
    RowsAdd(r, Turned(l1, 2), x, 0x08, 0x04, 0x02, 0x01, 0x21, 0x18, 0x84, 0x42);
    assert Rows(r1, x, 0x29, 0x1c, 0x86, 0x43);
    var l2 := Xor(l1, Turned(r1, 3));
    RowsTurn(r1, x, 0x29, 0x1c, 0x86, 0x43);
    RowsAdd(l1, Turned(r1, 3), x, 0x84, 0x42, 0x21, 0x18, 0x43, 0x29, 0x1c, 0x86);
    assert Rows(l2, x, 0xc7, 0x6b, 0x3d, 0x9e);
    var r2 := Xor(r1, Turned(l2, 3));
    RowsTurn(l2, x, 0xc7, 0x6b, 0x3d, 0x9e);
    RowsAdd(r1, Turned(l2, 3), x, 0x29, 0x1c, 0x86, 0x43, 0x9e, 0xc7, 0x6b, 0x3d);
    assert PWords(x)[..4] == r2 && PWords(x)[4..] == l2;
  }

  lemma PIsWords(x: Half)
    ensures PLayer(x) == PWords(x)
  {
    PWordsRows(x);
    Row0(x);
    Row1(x);
    Row2(x);
    Row3(x);
    Row4(x);
    Row5(x);
    Row6(x);
    Row7(x);
    hide Selected, PLayer, PWords;
    var y, z := PLayer(x), PWords(x);
    assert z[..4][0] == z[0] && z[..4][1] == z[1] && z[..4][2] == z[2] && z[..4][3] == z[3];
    assert z[4..][0] == z[4] && z[4..][1] == z[5] && z[4..][2] == z[6] && z[4..][3] == z[7];
  }

  predicate Four(c: seq<bv8>, p: bv8, q: bv8, r: bv8, s: bv8) {
    |c| == 4 && c[0] == p && c[1] == q && c[2] == r && c[3] == s
  }

  lemma XorFour(a: seq<bv8>, b: seq<bv8>)
    requires |a| == |b| == 4
    ensures Four(Xor(a, b), Add(a[0], b[0]), Add(a[1], b[1]), Add(a[2], b[2]), Add(a[3], b[3]))
  {
    XorAt(a, b, 0);
    XorAt(a, b, 1);
    XorAt(a, b, 2);
    XorAt(a, b, 3);
    hide Xor, Add;
  }

  lemma XorAt(a: seq<bv8>, b: seq<bv8>, i: nat)
    requires |a| == |b| && i < |a|
    ensures Xor(a, b)[i] == Add(a[i], b[i])
  {
  }

  /** The P layer loses nothing: the words can be taken apart again, from either side. */
  lemma PLayerInverse(x: Half)
    ensures PInverse(PLayer(x)) == x && PLayer(PInverse(x)) == x
  {
    PIsWords(x);
    PIsWords(PInverse(x));
    hide PLayer, Xor, Turned;
    ForwardBack(x);
    BackForward(x);
  }

  lemma ForwardBack(x: Half)
    ensures PInverse(PWords(x)) == x
  {
    hide Xor, Turned;
    var l1 := Xor(x[..4], Turned(x[4..], 1));
    var r1 := Xor(x[4..], Turned(l1, 2));
    var l2 := Xor(l1, Turned(r1, 3));
    var r2 := Xor(r1, Turned(l2, 3));
    assert PWords(x)[4..] == l2 && PWords(x)[..4] == r2;
    XorTwice(r1, Turned(l2, 3));
    XorTwice(l1, Turned(r1, 3));
    XorTwice(x[4..], Turned(l1, 2));
    XorTwice(x[..4], Turned(x[4..], 1));
    HalvesJoin(x);
  }

  lemma BackForward(y: Half)
    ensures PWords(PInverse(y)) == y
  {
    hide Xor, Turned;
    var l2, r2 := y[4..], y[..4];
    var r1 := Xor(r2, Turned(l2, 3));
    var l1 := Xor(l2, Turned(r1, 3));
    var r0 := Xor(r1, Turned(l1, 2));
    var l0 := Xor(l1, Turned(r0, 1));
    assert PInverse(y)[..4] == l0 && PInverse(y)[4..] == r0;
    XorTwice(l1, Turned(r0, 1));
    XorTwice(r1, Turned(l1, 2));
    XorTwice(l2, Turned(r1, 3));
    XorTwice(r2, Turned(l2, 3));
    HalvesJoin(y);
  }
}
