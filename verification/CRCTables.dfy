/** The lookup tables of misc/CRC.ipp, sixteen entries to a function, and the proof that
    every entry is eight division steps on its index. */
module CRCTableRows {

  function Pick<T>(j: bv8, v0: T, v1: T, v2: T, v3: T, v4: T, v5: T, v6: T, v7: T,
                   v8: T, v9: T, va: T, vb: T, vc: T, vd: T, ve: T, vf: T): T {
    match j
    case 0 => v0
    case 1 => v1
    case 2 => v2
    case 3 => v3
    case 4 => v4
    case 5 => v5
    case 6 => v6
    case 7 => v7
    case 8 => v8
    case 9 => v9
    case 10 => va
    case 11 => vb
    case 12 => vc
    case 13 => vd
    case 14 => ve
    case _ => vf
  }
}

/** crc8atm_table. */
module CRC8Table {
  import opened CRCTableRows
  import opened CRCDivision
  import opened CRCBytes

  function Row0(j: bv8): bv8 {
    Pick(j, 0x00, 0x07, 0x0e, 0x09, 0x1c, 0x1b, 0x12, 0x15, 0x38, 0x3f, 0x36, 0x31, 0x24, 0x23, 0x2a, 0x2d)
  }

  function Row1(j: bv8): bv8 {
    Pick(j, 0x70, 0x77, 0x7e, 0x79, 0x6c, 0x6b, 0x62, 0x65, 0x48, 0x4f, 0x46, 0x41, 0x54, 0x53, 0x5a, 0x5d)
  }

  function Row2(j: bv8): bv8 {
    Pick(j, 0xe0, 0xe7, 0xee, 0xe9, 0xfc, 0xfb, 0xf2, 0xf5, 0xd8, 0xdf, 0xd6, 0xd1, 0xc4, 0xc3, 0xca, 0xcd)
  }

  function Row3(j: bv8): bv8 {
    Pick(j, 0x90, 0x97, 0x9e, 0x99, 0x8c, 0x8b, 0x82, 0x85, 0xa8, 0xaf, 0xa6, 0xa1, 0xb4, 0xb3, 0xba, 0xbd)
  }

  function Row4(j: bv8): bv8 {
    Pick(j, 0xc7, 0xc0, 0xc9, 0xce, 0xdb, 0xdc, 0xd5, 0xd2, 0xff, 0xf8, 0xf1, 0xf6, 0xe3, 0xe4, 0xed, 0xea)
  }

  function Row5(j: bv8): bv8 {
    Pick(j, 0xb7, 0xb0, 0xb9, 0xbe, 0xab, 0xac, 0xa5, 0xa2, 0x8f, 0x88, 0x81, 0x86, 0x93, 0x94, 0x9d, 0x9a)
  }

  function Row6(j: bv8): bv8 {
    Pick(j, 0x27, 0x20, 0x29, 0x2e, 0x3b, 0x3c, 0x35, 0x32, 0x1f, 0x18, 0x11, 0x16, 0x03, 0x04, 0x0d, 0x0a)
  }

  function Row7(j: bv8): bv8 {
    Pick(j, 0x57, 0x50, 0x59, 0x5e, 0x4b, 0x4c, 0x45, 0x42, 0x6f, 0x68, 0x61, 0x66, 0x73, 0x74, 0x7d, 0x7a)
  }

  function Row8(j: bv8): bv8 {
    Pick(j, 0x89, 0x8e, 0x87, 0x80, 0x95, 0x92, 0x9b, 0x9c, 0xb1, 0xb6, 0xbf, 0xb8, 0xad, 0xaa, 0xa3, 0xa4)
  }

  function Row9(j: bv8): bv8 {
    Pick(j, 0xf9, 0xfe, 0xf7, 0xf0, 0xe5, 0xe2, 0xeb, 0xec, 0xc1, 0xc6, 0xcf, 0xc8, 0xdd, 0xda, 0xd3, 0xd4)
  }

  function RowA(j: bv8): bv8 {
    Pick(j, 0x69, 0x6e, 0x67, 0x60, 0x75, 0x72, 0x7b, 0x7c, 0x51, 0x56, 0x5f, 0x58, 0x4d, 0x4a, 0x43, 0x44)
  }

  function RowB(j: bv8): bv8 {
    Pick(j, 0x19, 0x1e, 0x17, 0x10, 0x05, 0x02, 0x0b, 0x0c, 0x21, 0x26, 0x2f, 0x28, 0x3d, 0x3a, 0x33, 0x34)
  }

  function RowC(j: bv8): bv8 {
    Pick(j, 0x4e, 0x49, 0x40, 0x47, 0x52, 0x55, 0x5c, 0x5b, 0x76, 0x71, 0x78, 0x7f, 0x6a, 0x6d, 0x64, 0x63)
  }

  function RowD(j: bv8): bv8 {
    Pick(j, 0x3e, 0x39, 0x30, 0x37, 0x22, 0x25, 0x2c, 0x2b, 0x06, 0x01, 0x08, 0x0f, 0x1a, 0x1d, 0x14, 0x13)
  }

  function RowE(j: bv8): bv8 {
    Pick(j, 0xae, 0xa9, 0xa0, 0xa7, 0xb2, 0xb5, 0xbc, 0xbb, 0x96, 0x91, 0x98, 0x9f, 0x8a, 0x8d, 0x84, 0x83)
  }

  function RowF(j: bv8): bv8 {
    Pick(j, 0xde, 0xd9, 0xd0, 0xd7, 0xc2, 0xc5, 0xcc, 0xcb, 0xe6, 0xe1, 0xe8, 0xef, 0xfa, 0xfd, 0xf4, 0xf3)
  }

  function Quarter0(r: bv8, j: bv8): bv8 {
    if r == 0 then Row0(j) else if r == 1 then Row1(j) else if r == 2 then Row2(j) else Row3(j)
  }

  function Quarter1(r: bv8, j: bv8): bv8 {
    if r == 4 then Row4(j) else if r == 5 then Row5(j) else if r == 6 then Row6(j) else Row7(j)
  }

  function Quarter2(r: bv8, j: bv8): bv8 {
    if r == 8 then Row8(j) else if r == 9 then Row9(j) else if r == 10 then RowA(j) else RowB(j)
  }

  function Quarter3(r: bv8, j: bv8): bv8 {
    if r == 12 then RowC(j) else if r == 13 then RowD(j) else if r == 14 then RowE(j) else RowF(j)
  }

  /** Entry 16 * r + j. */
  function Row(r: bv8, j: bv8): bv8 {
    if r < 4 then Quarter0(r, j) else if r < 8 then Quarter1(r, j)
    else if r < 12 then Quarter2(r, j) else Quarter3(r, j)
  }

  function Table(b: bv8): bv8 {
    Row(b >> 4, b & 0x0f)
  }

  /** The place of a table entry in the register. */
  function Put(v: bv8): bv32 {
    (v as bv32) << 24
  }

  lemma FirstRow(j: bv8)
    requires j < 16
    ensures Put(Row0(j)) == Eight(CRC8(), Place(CRC8(), j))
  {
    match j
    case 0 => case 1 => case 2 => case 3 => case 4 => case 5 => case 6 => case 7 => case 8 => case 9 => case 10 => case 11 => case 12 => case 13 => case 14 => case 15 => case _ =>
  }

  lemma FirstColumn(r: bv8)
    requires r < 16
    ensures Put(Row(r, 0)) == Eight(CRC8(), Place(CRC8(), r << 4))
  {
    match r
    case 0 => case 1 => case 2 => case 3 => case 4 => case 5 => case 6 => case 7 => case 8 => case 9 => case 10 => case 11 => case 12 => case 13 => case 14 => case 15 => case _ =>
  }

  lemma Rows0(j: bv8)
    requires j < 16
    ensures Put(Row0(j)) == Xor(Put(Row0(0)), Put(Row0(j)))
    ensures Put(Row1(j)) == Xor(Put(Row1(0)), Put(Row0(j)))
    ensures Put(Row2(j)) == Xor(Put(Row2(0)), Put(Row0(j)))
    ensures Put(Row3(j)) == Xor(Put(Row3(0)), Put(Row0(j)))
  {
    match j
    case 0 => case 1 => case 2 => case 3 => case 4 => case 5 => case 6 => case 7 => case 8 => case 9 => case 10 => case 11 => case 12 => case 13 => case 14 => case 15 => case _ =>
  }

  lemma Linear0(r: bv8, j: bv8)
    requires r < 4 && j < 16
    ensures Put(Quarter0(r, j)) == Xor(Put(Quarter0(r, 0)), Put(Row0(j)))
  {
    Rows0(j);
    hide Row0, Row1, Row2, Row3, Put, Xor;
    if r == 0 { } else if r == 1 { } else if r == 2 { } else { }
  }

  lemma Rows1(j: bv8)
    requires j < 16
    ensures Put(Row4(j)) == Xor(Put(Row4(0)), Put(Row0(j)))
    ensures Put(Row5(j)) == Xor(Put(Row5(0)), Put(Row0(j)))
    ensures Put(Row6(j)) == Xor(Put(Row6(0)), Put(Row0(j)))
    ensures Put(Row7(j)) == Xor(Put(Row7(0)), Put(Row0(j)))
  {
    match j
    case 0 => case 1 => case 2 => case 3 => case 4 => case 5 => case 6 => case 7 => case 8 => case 9 => case 10 => case 11 => case 12 => case 13 => case 14 => case 15 => case _ =>
  }

  lemma Linear1(r: bv8, j: bv8)
    requires 4 <= r < 8 && j < 16
    ensures Put(Quarter1(r, j)) == Xor(Put(Quarter1(r, 0)), Put(Row0(j)))
  {
    Rows1(j);
    hide Row4, Row5, Row6, Row7, Row0, Put, Xor;
  }

  lemma Rows2(j: bv8)
    requires j < 16
    ensures Put(Row8(j)) == Xor(Put(Row8(0)), Put(Row0(j)))
    ensures Put(Row9(j)) == Xor(Put(Row9(0)), Put(Row0(j)))
    ensures Put(RowA(j)) == Xor(Put(RowA(0)), Put(Row0(j)))
    ensures Put(RowB(j)) == Xor(Put(RowB(0)), Put(Row0(j)))
  {
    match j
    case 0 => case 1 => case 2 => case 3 => case 4 => case 5 => case 6 => case 7 => case 8 => case 9 => case 10 => case 11 => case 12 => case 13 => case 14 => case 15 => case _ =>
  }

  lemma Linear2(r: bv8, j: bv8)
    requires 8 <= r < 12 && j < 16
    ensures Put(Quarter2(r, j)) == Xor(Put(Quarter2(r, 0)), Put(Row0(j)))
  {
    Rows2(j);
    hide Row8, Row9, RowA, RowB, Row0, Put, Xor;
  }

  lemma Rows3(j: bv8)
    requires j < 16
    ensures Put(RowC(j)) == Xor(Put(RowC(0)), Put(Row0(j)))
    ensures Put(RowD(j)) == Xor(Put(RowD(0)), Put(Row0(j)))
    ensures Put(RowE(j)) == Xor(Put(RowE(0)), Put(Row0(j)))
    ensures Put(RowF(j)) == Xor(Put(RowF(0)), Put(Row0(j)))
  {
    match j
    case 0 => case 1 => case 2 => case 3 => case 4 => case 5 => case 6 => case 7 => case 8 => case 9 => case 10 => case 11 => case 12 => case 13 => case 14 => case 15 => case _ =>
  }

  lemma Linear3(r: bv8, j: bv8)
    requires 12 <= r < 16 && j < 16
    ensures Put(Quarter3(r, j)) == Xor(Put(Quarter3(r, 0)), Put(Row0(j)))
  {
    Rows3(j);
    hide RowC, RowD, RowE, RowF, Row0, Put, Xor;
  }

  /** The table is linear. */
  lemma RowsLinear(r: bv8, j: bv8)
    requires r < 16 && j < 16
    ensures Put(Row(r, j)) == Xor(Put(Row(r, 0)), Put(Row0(j)))
  {
    hide Quarter0, Quarter1, Quarter2, Quarter3, Row0, Put, Xor;
    if r < 4 { Linear0(r, j); }
    else if r < 8 { Linear1(r, j); }
    else if r < 12 { Linear2(r, j); }
    else { Linear3(r, j); }
  }

  lemma PlaceJoin(b: bv8)
    ensures Place(CRC8(), b) == Xor(Place(CRC8(), (b >> 4) << 4), Place(CRC8(), b & 0x0f))
    ensures b >> 4 < 16 && b & 0x0f < 16
  {
  }

  lemma Unfolded(b: bv8)
    ensures Table(b) == Row(b >> 4, b & 0x0f)
  {
    hide Row;
  }

  /** Every entry is what eight bit steps make of its index. */
  lemma TableIsDivision(b: bv8)
    ensures Put(Table(b)) == Times(CRC8(), Place(CRC8(), b), 8)
  {
    hide *;
    var hi, lo := b >> 4, b & 0x0f;
    PlaceJoin(b);
    Unfolded(b);
    RowsLinear(hi, lo);
    FirstRow(lo);
    FirstColumn(hi);
    Unfold8(CRC8(), Place(CRC8(), hi << 4));
    Unfold8(CRC8(), Place(CRC8(), lo));
    TimesXor(CRC8(), Place(CRC8(), hi << 4), Place(CRC8(), lo), 8);
  }
}

/** crc16ccitt_table. */
module CRC16Table {
  import opened CRCTableRows
  import opened CRCDivision
  import opened CRCBytes

  function Row0(j: bv8): bv16 {
    Pick(j, 0x0000, 0x1021, 0x2042, 0x3063, 0x4084, 0x50a5, 0x60c6, 0x70e7, 0x8108, 0x9129, 0xa14a, 0xb16b,
            0xc18c, 0xd1ad, 0xe1ce, 0xf1ef)
  }

  function Row1(j: bv8): bv16 {
    Pick(j, 0x1231, 0x0210, 0x3273, 0x2252, 0x52b5, 0x4294, 0x72f7, 0x62d6, 0x9339, 0x8318, 0xb37b, 0xa35a,
            0xd3bd, 0xc39c, 0xf3ff, 0xe3de)
  }

  function Row2(j: bv8): bv16 {
    Pick(j, 0x2462, 0x3443, 0x0420, 0x1401, 0x64e6, 0x74c7, 0x44a4, 0x5485, 0xa56a, 0xb54b, 0x8528, 0x9509,
            0xe5ee, 0xf5cf, 0xc5ac, 0xd58d)
  }

  function Row3(j: bv8): bv16 {
    Pick(j, 0x3653, 0x2672, 0x1611, 0x0630, 0x76d7, 0x66f6, 0x5695, 0x46b4, 0xb75b, 0xa77a, 0x9719, 0x8738,
            0xf7df, 0xe7fe, 0xd79d, 0xc7bc)
  }

  function Row4(j: bv8): bv16 {
    Pick(j, 0x48c4, 0x58e5, 0x6886, 0x78a7, 0x0840, 0x1861, 0x2802, 0x3823, 0xc9cc, 0xd9ed, 0xe98e, 0xf9af,
            0x8948, 0x9969, 0xa90a, 0xb92b)
  }

  function Row5(j: bv8): bv16 {
    Pick(j, 0x5af5, 0x4ad4, 0x7ab7, 0x6a96, 0x1a71, 0x0a50, 0x3a33, 0x2a12, 0xdbfd, 0xcbdc, 0xfbbf, 0xeb9e,
            0x9b79, 0x8b58, 0xbb3b, 0xab1a)
  }

  function Row6(j: bv8): bv16 {
    Pick(j, 0x6ca6, 0x7c87, 0x4ce4, 0x5cc5, 0x2c22, 0x3c03, 0x0c60, 0x1c41, 0xedae, 0xfd8f, 0xcdec, 0xddcd,
            0xad2a, 0xbd0b, 0x8d68, 0x9d49)
  }

  function Row7(j: bv8): bv16 {
    Pick(j, 0x7e97, 0x6eb6, 0x5ed5, 0x4ef4, 0x3e13, 0x2e32, 0x1e51, 0x0e70, 0xff9f, 0xefbe, 0xdfdd, 0xcffc,
            0xbf1b, 0xaf3a, 0x9f59, 0x8f78)
  }

  function Row8(j: bv8): bv16 {
    Pick(j, 0x9188, 0x81a9, 0xb1ca, 0xa1eb, 0xd10c, 0xc12d, 0xf14e, 0xe16f, 0x1080, 0x00a1, 0x30c2, 0x20e3,
            0x5004, 0x4025, 0x7046, 0x6067)
  }

  function Row9(j: bv8): bv16 {
    Pick(j, 0x83b9, 0x9398, 0xa3fb, 0xb3da, 0xc33d, 0xd31c, 0xe37f, 0xf35e, 0x02b1, 0x1290, 0x22f3, 0x32d2,
            0x4235, 0x5214, 0x6277, 0x7256)
  }

  function RowA(j: bv8): bv16 {
    Pick(j, 0xb5ea, 0xa5cb, 0x95a8, 0x8589, 0xf56e, 0xe54f, 0xd52c, 0xc50d, 0x34e2, 0x24c3, 0x14a0, 0x0481,
            0x7466, 0x6447, 0x5424, 0x4405)
  }

  function RowB(j: bv8): bv16 {
    Pick(j, 0xa7db, 0xb7fa, 0x8799, 0x97b8, 0xe75f, 0xf77e, 0xc71d, 0xd73c, 0x26d3, 0x36f2, 0x0691, 0x16b0,
            0x6657, 0x7676, 0x4615, 0x5634)
  }

  function RowC(j: bv8): bv16 {
    Pick(j, 0xd94c, 0xc96d, 0xf90e, 0xe92f, 0x99c8, 0x89e9, 0xb98a, 0xa9ab, 0x5844, 0x4865, 0x7806, 0x6827,
            0x18c0, 0x08e1, 0x3882, 0x28a3)
  }

  function RowD(j: bv8): bv16 {
    Pick(j, 0xcb7d, 0xdb5c, 0xeb3f, 0xfb1e, 0x8bf9, 0x9bd8, 0xabbb, 0xbb9a, 0x4a75, 0x5a54, 0x6a37, 0x7a16,
            0x0af1, 0x1ad0, 0x2ab3, 0x3a92)
  }

  function RowE(j: bv8): bv16 {
    Pick(j, 0xfd2e, 0xed0f, 0xdd6c, 0xcd4d, 0xbdaa, 0xad8b, 0x9de8, 0x8dc9, 0x7c26, 0x6c07, 0x5c64, 0x4c45,
            0x3ca2, 0x2c83, 0x1ce0, 0x0cc1)
  }

  function RowF(j: bv8): bv16 {
    Pick(j, 0xef1f, 0xff3e, 0xcf5d, 0xdf7c, 0xaf9b, 0xbfba, 0x8fd9, 0x9ff8, 0x6e17, 0x7e36, 0x4e55, 0x5e74,
            0x2e93, 0x3eb2, 0x0ed1, 0x1ef0)
  }

  function Quarter0(r: bv8, j: bv8): bv16 {
    if r == 0 then Row0(j) else if r == 1 then Row1(j) else if r == 2 then Row2(j) else Row3(j)
  }

  function Quarter1(r: bv8, j: bv8): bv16 {
    if r == 4 then Row4(j) else if r == 5 then Row5(j) else if r == 6 then Row6(j) else Row7(j)
  }

  function Quarter2(r: bv8, j: bv8): bv16 {
    if r == 8 then Row8(j) else if r == 9 then Row9(j) else if r == 10 then RowA(j) else RowB(j)
  }

  function Quarter3(r: bv8, j: bv8): bv16 {
    if r == 12 then RowC(j) else if r == 13 then RowD(j) else if r == 14 then RowE(j) else RowF(j)
  }

  /** Entry 16 * r + j. */
  function Row(r: bv8, j: bv8): bv16 {
    if r < 4 then Quarter0(r, j) else if r < 8 then Quarter1(r, j)
    else if r < 12 then Quarter2(r, j) else Quarter3(r, j)
  }

  function Table(b: bv8): bv16 {
    Row(b >> 4, b & 0x0f)
  }

  /** The place of a table entry in the register. */
  function Put(v: bv16): bv32 {
    (v as bv32) << 16
  }

  lemma FirstRow(j: bv8)
    requires j < 16
    ensures Put(Row0(j)) == Eight(CRC16(), Place(CRC16(), j))
  {
    match j
    case 0 => case 1 => case 2 => case 3 => case 4 => case 5 => case 6 => case 7 => case 8 => case 9 => case 10 => case 11 => case 12 => case 13 => case 14 => case 15 => case _ =>
  }

  lemma FirstColumn(r: bv8)
    requires r < 16
    ensures Put(Row(r, 0)) == Eight(CRC16(), Place(CRC16(), r << 4))
  {
    match r
    case 0 => case 1 => case 2 => case 3 => case 4 => case 5 => case 6 => case 7 => case 8 => case 9 => case 10 => case 11 => case 12 => case 13 => case 14 => case 15 => case _ =>
  }

  lemma Rows0(j: bv8)
    requires j < 16
    ensures Put(Row0(j)) == Xor(Put(Row0(0)), Put(Row0(j)))
    ensures Put(Row1(j)) == Xor(Put(Row1(0)), Put(Row0(j)))
    ensures Put(Row2(j)) == Xor(Put(Row2(0)), Put(Row0(j)))
    ensures Put(Row3(j)) == Xor(Put(Row3(0)), Put(Row0(j)))
  {
    match j
    case 0 => case 1 => case 2 => case 3 => case 4 => case 5 => case 6 => case 7 => case 8 => case 9 => case 10 => case 11 => case 12 => case 13 => case 14 => case 15 => case _ =>
  }

  lemma Linear0(r: bv8, j: bv8)
    requires r < 4 && j < 16
    ensures Put(Quarter0(r, j)) == Xor(Put(Quarter0(r, 0)), Put(Row0(j)))
  {
    Rows0(j);
    hide Row0, Row1, Row2, Row3, Put, Xor;
    if r == 0 { } else if r == 1 { } else if r == 2 { } else { }
  }

  lemma Rows1(j: bv8)
    requires j < 16
    ensures Put(Row4(j)) == Xor(Put(Row4(0)), Put(Row0(j)))
    ensures Put(Row5(j)) == Xor(Put(Row5(0)), Put(Row0(j)))
    ensures Put(Row6(j)) == Xor(Put(Row6(0)), Put(Row0(j)))
    ensures Put(Row7(j)) == Xor(Put(Row7(0)), Put(Row0(j)))
  {
    match j
    case 0 => case 1 => case 2 => case 3 => case 4 => case 5 => case 6 => case 7 => case 8 => case 9 => case 10 => case 11 => case 12 => case 13 => case 14 => case 15 => case _ =>
  }

  lemma Linear1(r: bv8, j: bv8)
    requires 4 <= r < 8 && j < 16
    ensures Put(Quarter1(r, j)) == Xor(Put(Quarter1(r, 0)), Put(Row0(j)))
  {
    Rows1(j);
    hide Row4, Row5, Row6, Row7, Row0, Put, Xor;
  }

  lemma Rows2(j: bv8)
    requires j < 16
    ensures Put(Row8(j)) == Xor(Put(Row8(0)), Put(Row0(j)))
    ensures Put(Row9(j)) == Xor(Put(Row9(0)), Put(Row0(j)))
    ensures Put(RowA(j)) == Xor(Put(RowA(0)), Put(Row0(j)))
    ensures Put(RowB(j)) == Xor(Put(RowB(0)), Put(Row0(j)))
  {
    match j
    case 0 => case 1 => case 2 => case 3 => case 4 => case 5 => case 6 => case 7 => case 8 => case 9 => case 10 => case 11 => case 12 => case 13 => case 14 => case 15 => case _ =>
  }

  lemma Linear2(r: bv8, j: bv8)
    requires 8 <= r < 12 && j < 16
    ensures Put(Quarter2(r, j)) == Xor(Put(Quarter2(r, 0)), Put(Row0(j)))
  {
    Rows2(j);
    hide Row8, Row9, RowA, RowB, Row0, Put, Xor;
  }

  lemma Rows3(j: bv8)
    requires j < 16
    ensures Put(RowC(j)) == Xor(Put(RowC(0)), Put(Row0(j)))
    ensures Put(RowD(j)) == Xor(Put(RowD(0)), Put(Row0(j)))
    ensures Put(RowE(j)) == Xor(Put(RowE(0)), Put(Row0(j)))
    ensures Put(RowF(j)) == Xor(Put(RowF(0)), Put(Row0(j)))
  {
    match j
    case 0 => case 1 => case 2 => case 3 => case 4 => case 5 => case 6 => case 7 => case 8 => case 9 => case 10 => case 11 => case 12 => case 13 => case 14 => case 15 => case _ =>
  }

  lemma Linear3(r: bv8, j: bv8)
    requires 12 <= r < 16 && j < 16
    ensures Put(Quarter3(r, j)) == Xor(Put(Quarter3(r, 0)), Put(Row0(j)))
  {
    Rows3(j);
    hide RowC, RowD, RowE, RowF, Row0, Put, Xor;
  }

  /** The table is linear. */
  lemma RowsLinear(r: bv8, j: bv8)
    requires r < 16 && j < 16
    ensures Put(Row(r, j)) == Xor(Put(Row(r, 0)), Put(Row0(j)))
  {
    hide Quarter0, Quarter1, Quarter2, Quarter3, Row0, Put, Xor;
    if r < 4 { Linear0(r, j); }
    else if r < 8 { Linear1(r, j); }
    else if r < 12 { Linear2(r, j); }
    else { Linear3(r, j); }
  }

  lemma PlaceJoin(b: bv8)
    ensures Place(CRC16(), b) == Xor(Place(CRC16(), (b >> 4) << 4), Place(CRC16(), b & 0x0f))
    ensures b >> 4 < 16 && b & 0x0f < 16
  {
  }

  lemma Unfolded(b: bv8)
    ensures Table(b) == Row(b >> 4, b & 0x0f)
  {
    hide Row;
  }

  /** Every entry is what eight bit steps make of its index. */
  lemma TableIsDivision(b: bv8)
    ensures Put(Table(b)) == Times(CRC16(), Place(CRC16(), b), 8)
  {
    hide *;
    var hi, lo := b >> 4, b & 0x0f;
    PlaceJoin(b);
    Unfolded(b);
    RowsLinear(hi, lo);
    FirstRow(lo);
    FirstColumn(hi);
    Unfold8(CRC16(), Place(CRC16(), hi << 4));
    Unfold8(CRC16(), Place(CRC16(), lo));
    TimesXor(CRC16(), Place(CRC16(), hi << 4), Place(CRC16(), lo), 8);
  }
}

/** crc32_table. */
module CRC32Table {
  import opened CRCTableRows
  import opened CRCDivision
  import opened CRCBytes

  function Row0(j: bv8): bv32 {
    Pick(j, 0x00000000, 0x77073096, 0xee0e612c, 0x990951ba, 0x076dc419, 0x706af48f, 0xe963a535, 0x9e6495a3,
            0x0edb8832, 0x79dcb8a4, 0xe0d5e91e, 0x97d2d988, 0x09b64c2b, 0x7eb17cbd, 0xe7b82d07, 0x90bf1d91)
  }

  function Row1(j: bv8): bv32 {
    Pick(j, 0x1db71064, 0x6ab020f2, 0xf3b97148, 0x84be41de, 0x1adad47d, 0x6ddde4eb, 0xf4d4b551, 0x83d385c7,
            0x136c9856, 0x646ba8c0, 0xfd62f97a, 0x8a65c9ec, 0x14015c4f, 0x63066cd9, 0xfa0f3d63, 0x8d080df5)
  }

  function Row2(j: bv8): bv32 {
    Pick(j, 0x3b6e20c8, 0x4c69105e, 0xd56041e4, 0xa2677172, 0x3c03e4d1, 0x4b04d447, 0xd20d85fd, 0xa50ab56b,
            0x35b5a8fa, 0x42b2986c, 0xdbbbc9d6, 0xacbcf940, 0x32d86ce3, 0x45df5c75, 0xdcd60dcf, 0xabd13d59)
  }

  function Row3(j: bv8): bv32 {
    Pick(j, 0x26d930ac, 0x51de003a, 0xc8d75180, 0xbfd06116, 0x21b4f4b5, 0x56b3c423, 0xcfba9599, 0xb8bda50f,
            0x2802b89e, 0x5f058808, 0xc60cd9b2, 0xb10be924, 0x2f6f7c87, 0x58684c11, 0xc1611dab, 0xb6662d3d)
  }

  function Row4(j: bv8): bv32 {
    Pick(j, 0x76dc4190, 0x01db7106, 0x98d220bc, 0xefd5102a, 0x71b18589, 0x06b6b51f, 0x9fbfe4a5, 0xe8b8d433,
            0x7807c9a2, 0x0f00f934, 0x9609a88e, 0xe10e9818, 0x7f6a0dbb, 0x086d3d2d, 0x91646c97, 0xe6635c01)
  }

  function Row5(j: bv8): bv32 {
    Pick(j, 0x6b6b51f4, 0x1c6c6162, 0x856530d8, 0xf262004e, 0x6c0695ed, 0x1b01a57b, 0x8208f4c1, 0xf50fc457,
            0x65b0d9c6, 0x12b7e950, 0x8bbeb8ea, 0xfcb9887c, 0x62dd1ddf, 0x15da2d49, 0x8cd37cf3, 0xfbd44c65)
  }

  function Row6(j: bv8): bv32 {
    Pick(j, 0x4db26158, 0x3ab551ce, 0xa3bc0074, 0xd4bb30e2, 0x4adfa541, 0x3dd895d7, 0xa4d1c46d, 0xd3d6f4fb,
            0x4369e96a, 0x346ed9fc, 0xad678846, 0xda60b8d0, 0x44042d73, 0x33031de5, 0xaa0a4c5f, 0xdd0d7cc9)
  }

  function Row7(j: bv8): bv32 {
    Pick(j, 0x5005713c, 0x270241aa, 0xbe0b1010, 0xc90c2086, 0x5768b525, 0x206f85b3, 0xb966d409, 0xce61e49f,
            0x5edef90e, 0x29d9c998, 0xb0d09822, 0xc7d7a8b4, 0x59b33d17, 0x2eb40d81, 0xb7bd5c3b, 0xc0ba6cad)
  }

  function Row8(j: bv8): bv32 {
    Pick(j, 0xedb88320, 0x9abfb3b6, 0x03b6e20c, 0x74b1d29a, 0xead54739, 0x9dd277af, 0x04db2615, 0x73dc1683,
            0xe3630b12, 0x94643b84, 0x0d6d6a3e, 0x7a6a5aa8, 0xe40ecf0b, 0x9309ff9d, 0x0a00ae27, 0x7d079eb1)
  }

  function Row9(j: bv8): bv32 {
    Pick(j, 0xf00f9344, 0x8708a3d2, 0x1e01f268, 0x6906c2fe, 0xf762575d, 0x806567cb, 0x196c3671, 0x6e6b06e7,
            0xfed41b76, 0x89d32be0, 0x10da7a5a, 0x67dd4acc, 0xf9b9df6f, 0x8ebeeff9, 0x17b7be43, 0x60b08ed5)
  }

  function RowA(j: bv8): bv32 {
    Pick(j, 0xd6d6a3e8, 0xa1d1937e, 0x38d8c2c4, 0x4fdff252, 0xd1bb67f1, 0xa6bc5767, 0x3fb506dd, 0x48b2364b,
            0xd80d2bda, 0xaf0a1b4c, 0x36034af6, 0x41047a60, 0xdf60efc3, 0xa867df55, 0x316e8eef, 0x4669be79)
  }

  function RowB(j: bv8): bv32 {
    Pick(j, 0xcb61b38c, 0xbc66831a, 0x256fd2a0, 0x5268e236, 0xcc0c7795, 0xbb0b4703, 0x220216b9, 0x5505262f,
            0xc5ba3bbe, 0xb2bd0b28, 0x2bb45a92, 0x5cb36a04, 0xc2d7ffa7, 0xb5d0cf31, 0x2cd99e8b, 0x5bdeae1d)
  }

  function RowC(j: bv8): bv32 {
    Pick(j, 0x9b64c2b0, 0xec63f226, 0x756aa39c, 0x026d930a, 0x9c0906a9, 0xeb0e363f, 0x72076785, 0x05005713,
            0x95bf4a82, 0xe2b87a14, 0x7bb12bae, 0x0cb61b38, 0x92d28e9b, 0xe5d5be0d, 0x7cdcefb7, 0x0bdbdf21)
  }

  function RowD(j: bv8): bv32 {
    Pick(j, 0x86d3d2d4, 0xf1d4e242, 0x68ddb3f8, 0x1fda836e, 0x81be16cd, 0xf6b9265b, 0x6fb077e1, 0x18b74777,
            0x88085ae6, 0xff0f6a70, 0x66063bca, 0x11010b5c, 0x8f659eff, 0xf862ae69, 0x616bffd3, 0x166ccf45)
  }

  function RowE(j: bv8): bv32 {
    Pick(j, 0xa00ae278, 0xd70dd2ee, 0x4e048354, 0x3903b3c2, 0xa7672661, 0xd06016f7, 0x4969474d, 0x3e6e77db,
            0xaed16a4a, 0xd9d65adc, 0x40df0b66, 0x37d83bf0, 0xa9bcae53, 0xdebb9ec5, 0x47b2cf7f, 0x30b5ffe9)
  }

  function RowF(j: bv8): bv32 {
    Pick(j, 0xbdbdf21c, 0xcabac28a, 0x53b39330, 0x24b4a3a6, 0xbad03605, 0xcdd70693, 0x54de5729, 0x23d967bf,
            0xb3667a2e, 0xc4614ab8, 0x5d681b02, 0x2a6f2b94, 0xb40bbe37, 0xc30c8ea1, 0x5a05df1b, 0x2d02ef8d)
  }

  function Quarter0(r: bv8, j: bv8): bv32 {
    if r == 0 then Row0(j) else if r == 1 then Row1(j) else if r == 2 then Row2(j) else Row3(j)
  }

  function Quarter1(r: bv8, j: bv8): bv32 {
    if r == 4 then Row4(j) else if r == 5 then Row5(j) else if r == 6 then Row6(j) else Row7(j)
  }

  function Quarter2(r: bv8, j: bv8): bv32 {
    if r == 8 then Row8(j) else if r == 9 then Row9(j) else if r == 10 then RowA(j) else RowB(j)
  }

  function Quarter3(r: bv8, j: bv8): bv32 {
    if r == 12 then RowC(j) else if r == 13 then RowD(j) else if r == 14 then RowE(j) else RowF(j)
  }

  /** Entry 16 * r + j. */
  function Row(r: bv8, j: bv8): bv32 {
    if r < 4 then Quarter0(r, j) else if r < 8 then Quarter1(r, j)
    else if r < 12 then Quarter2(r, j) else Quarter3(r, j)
  }

  function Table(b: bv8): bv32 {
    Row(b >> 4, b & 0x0f)
  }

  /** The place of a table entry in the register. */
  function Put(v: bv32): bv32 {
    v as bv32
  }

  lemma FirstRow(j: bv8)
    requires j < 16
    ensures Put(Row0(j)) == Eight(CRC32(), Place(CRC32(), j))
  {
    match j
    case 0 => case 1 => case 2 => case 3 => case 4 => case 5 => case 6 => case 7 => case 8 => case 9 => case 10 => case 11 => case 12 => case 13 => case 14 => case 15 => case _ =>
  }

  lemma FirstColumn(r: bv8)
    requires r < 16
    ensures Put(Row(r, 0)) == Eight(CRC32(), Place(CRC32(), r << 4))
  {
    match r
    case 0 => case 1 => case 2 => case 3 => case 4 => case 5 => case 6 => case 7 => case 8 => case 9 => case 10 => case 11 => case 12 => case 13 => case 14 => case 15 => case _ =>
  }

  lemma Rows0(j: bv8)
    requires j < 16
    ensures Put(Row0(j)) == Xor(Put(Row0(0)), Put(Row0(j)))
    ensures Put(Row1(j)) == Xor(Put(Row1(0)), Put(Row0(j)))
    ensures Put(Row2(j)) == Xor(Put(Row2(0)), Put(Row0(j)))
    ensures Put(Row3(j)) == Xor(Put(Row3(0)), Put(Row0(j)))
  {
    match j
    case 0 => case 1 => case 2 => case 3 => case 4 => case 5 => case 6 => case 7 => case 8 => case 9 => case 10 => case 11 => case 12 => case 13 => case 14 => case 15 => case _ =>
  }

  lemma Linear0(r: bv8, j: bv8)
    requires r < 4 && j < 16
    ensures Put(Quarter0(r, j)) == Xor(Put(Quarter0(r, 0)), Put(Row0(j)))
  {
    Rows0(j);
    hide Row0, Row1, Row2, Row3, Put, Xor;
    if r == 0 { } else if r == 1 { } else if r == 2 { } else { }
  }

  lemma Rows1(j: bv8)
    requires j < 16
    ensures Put(Row4(j)) == Xor(Put(Row4(0)), Put(Row0(j)))
    ensures Put(Row5(j)) == Xor(Put(Row5(0)), Put(Row0(j)))
    ensures Put(Row6(j)) == Xor(Put(Row6(0)), Put(Row0(j)))
    ensures Put(Row7(j)) == Xor(Put(Row7(0)), Put(Row0(j)))
  {
    match j
    case 0 => case 1 => case 2 => case 3 => case 4 => case 5 => case 6 => case 7 => case 8 => case 9 => case 10 => case 11 => case 12 => case 13 => case 14 => case 15 => case _ =>
  }

  lemma Linear1(r: bv8, j: bv8)
    requires 4 <= r < 8 && j < 16
    ensures Put(Quarter1(r, j)) == Xor(Put(Quarter1(r, 0)), Put(Row0(j)))
  {
    Rows1(j);
    hide Row4, Row5, Row6, Row7, Row0, Put, Xor;
  }

  lemma Rows2(j: bv8)
    requires j < 16
    ensures Put(Row8(j)) == Xor(Put(Row8(0)), Put(Row0(j)))
    ensures Put(Row9(j)) == Xor(Put(Row9(0)), Put(Row0(j)))
    ensures Put(RowA(j)) == Xor(Put(RowA(0)), Put(Row0(j)))
    ensures Put(RowB(j)) == Xor(Put(RowB(0)), Put(Row0(j)))
  {
    match j
    case 0 => case 1 => case 2 => case 3 => case 4 => case 5 => case 6 => case 7 => case 8 => case 9 => case 10 => case 11 => case 12 => case 13 => case 14 => case 15 => case _ =>
  }

  lemma Linear2(r: bv8, j: bv8)
    requires 8 <= r < 12 && j < 16
    ensures Put(Quarter2(r, j)) == Xor(Put(Quarter2(r, 0)), Put(Row0(j)))
  {
    Rows2(j);
    hide Row8, Row9, RowA, RowB, Row0, Put, Xor;
  }

  lemma Rows3(j: bv8)
    requires j < 16
    ensures Put(RowC(j)) == Xor(Put(RowC(0)), Put(Row0(j)))
    ensures Put(RowD(j)) == Xor(Put(RowD(0)), Put(Row0(j)))
    ensures Put(RowE(j)) == Xor(Put(RowE(0)), Put(Row0(j)))
    ensures Put(RowF(j)) == Xor(Put(RowF(0)), Put(Row0(j)))
  {
    match j
    case 0 => case 1 => case 2 => case 3 => case 4 => case 5 => case 6 => case 7 => case 8 => case 9 => case 10 => case 11 => case 12 => case 13 => case 14 => case 15 => case _ =>
  }

  lemma Linear3(r: bv8, j: bv8)
    requires 12 <= r < 16 && j < 16
    ensures Put(Quarter3(r, j)) == Xor(Put(Quarter3(r, 0)), Put(Row0(j)))
  {
    Rows3(j);
    hide RowC, RowD, RowE, RowF, Row0, Put, Xor;
  }

  /** The table is linear. */
  lemma RowsLinear(r: bv8, j: bv8)
    requires r < 16 && j < 16
    ensures Put(Row(r, j)) == Xor(Put(Row(r, 0)), Put(Row0(j)))
  {
    hide Quarter0, Quarter1, Quarter2, Quarter3, Row0, Put, Xor;
    if r < 4 { Linear0(r, j); }
    else if r < 8 { Linear1(r, j); }
    else if r < 12 { Linear2(r, j); }
    else { Linear3(r, j); }
  }

  lemma PlaceJoin(b: bv8)
    ensures Place(CRC32(), b) == Xor(Place(CRC32(), (b >> 4) << 4), Place(CRC32(), b & 0x0f))
    ensures b >> 4 < 16 && b & 0x0f < 16
  {
  }

  lemma Unfolded(b: bv8)
    ensures Table(b) == Row(b >> 4, b & 0x0f)
  {
    hide Row;
  }

  /** Every entry is what eight bit steps make of its index. */
  lemma TableIsDivision(b: bv8)
    ensures Put(Table(b)) == Times(CRC32(), Place(CRC32(), b), 8)
  {
    hide *;
    var hi, lo := b >> 4, b & 0x0f;
    PlaceJoin(b);
    Unfolded(b);
    RowsLinear(hi, lo);
    FirstRow(lo);
    FirstColumn(hi);
    Unfold8(CRC32(), Place(CRC32(), hi << 4));
    Unfold8(CRC32(), Place(CRC32(), lo));
    TimesXor(CRC32(), Place(CRC32(), hi << 4), Place(CRC32(), lo), 8);
  }
}

/** crc32c_table. */
module CRC32CTable {
  import opened CRCTableRows
  import opened CRCDivision
  import opened CRCBytes

  function Row0(j: bv8): bv32 {
    Pick(j, 0x00000000, 0xf26b8303, 0xe13b70f7, 0x1350f3f4, 0xc79a971f, 0x35f1141c, 0x26a1e7e8, 0xd4ca64eb,
            0x8ad958cf, 0x78b2dbcc, 0x6be22838, 0x9989ab3b, 0x4d43cfd0, 0xbf284cd3, 0xac78bf27, 0x5e133c24)
  }

  function Row1(j: bv8): bv32 {
    Pick(j, 0x105ec76f, 0xe235446c, 0xf165b798, 0x030e349b, 0xd7c45070, 0x25afd373, 0x36ff2087, 0xc494a384,
            0x9a879fa0, 0x68ec1ca3, 0x7bbcef57, 0x89d76c54, 0x5d1d08bf, 0xaf768bbc, 0xbc267848, 0x4e4dfb4b)
  }

  function Row2(j: bv8): bv32 {
    Pick(j, 0x20bd8ede, 0xd2d60ddd, 0xc186fe29, 0x33ed7d2a, 0xe72719c1, 0x154c9ac2, 0x061c6936, 0xf477ea35,
            0xaa64d611, 0x580f5512, 0x4b5fa6e6, 0xb93425e5, 0x6dfe410e, 0x9f95c20d, 0x8cc531f9, 0x7eaeb2fa)
  }

  function Row3(j: bv8): bv32 {
    Pick(j, 0x30e349b1, 0xc288cab2, 0xd1d83946, 0x23b3ba45, 0xf779deae, 0x05125dad, 0x1642ae59, 0xe4292d5a,
            0xba3a117e, 0x4851927d, 0x5b016189, 0xa96ae28a, 0x7da08661, 0x8fcb0562, 0x9c9bf696, 0x6ef07595)
  }

  function Row4(j: bv8): bv32 {
    Pick(j, 0x417b1dbc, 0xb3109ebf, 0xa0406d4b, 0x522bee48, 0x86e18aa3, 0x748a09a0, 0x67dafa54, 0x95b17957,
            0xcba24573, 0x39c9c670, 0x2a993584, 0xd8f2b687, 0x0c38d26c, 0xfe53516f, 0xed03a29b, 0x1f682198)
  }

  function Row5(j: bv8): bv32 {
    Pick(j, 0x5125dad3, 0xa34e59d0, 0xb01eaa24, 0x42752927, 0x96bf4dcc, 0x64d4cecf, 0x77843d3b, 0x85efbe38,
            0xdbfc821c, 0x2997011f, 0x3ac7f2eb, 0xc8ac71e8, 0x1c661503, 0xee0d9600, 0xfd5d65f4, 0x0f36e6f7)
  }

  function Row6(j: bv8): bv32 {
    Pick(j, 0x61c69362, 0x93ad1061, 0x80fde395, 0x72966096, 0xa65c047d, 0x5437877e, 0x4767748a, 0xb50cf789,
            0xeb1fcbad, 0x197448ae, 0x0a24bb5a, 0xf84f3859, 0x2c855cb2, 0xdeeedfb1, 0xcdbe2c45, 0x3fd5af46)
  }

  function Row7(j: bv8): bv32 {
    Pick(j, 0x7198540d, 0x83f3d70e, 0x90a324fa, 0x62c8a7f9, 0xb602c312, 0x44694011, 0x5739b3e5, 0xa55230e6,
            0xfb410cc2, 0x092a8fc1, 0x1a7a7c35, 0xe811ff36, 0x3cdb9bdd, 0xceb018de, 0xdde0eb2a, 0x2f8b6829)
  }

  function Row8(j: bv8): bv32 {
    Pick(j, 0x82f63b78, 0x709db87b, 0x63cd4b8f, 0x91a6c88c, 0x456cac67, 0xb7072f64, 0xa457dc90, 0x563c5f93,
            0x082f63b7, 0xfa44e0b4, 0xe9141340, 0x1b7f9043, 0xcfb5f4a8, 0x3dde77ab, 0x2e8e845f, 0xdce5075c)
  }

  function Row9(j: bv8): bv32 {
    Pick(j, 0x92a8fc17, 0x60c37f14, 0x73938ce0, 0x81f80fe3, 0x55326b08, 0xa759e80b, 0xb4091bff, 0x466298fc,
            0x1871a4d8, 0xea1a27db, 0xf94ad42f, 0x0b21572c, 0xdfeb33c7, 0x2d80b0c4, 0x3ed04330, 0xccbbc033)
  }

  function RowA(j: bv8): bv32 {
    Pick(j, 0xa24bb5a6, 0x502036a5, 0x4370c551, 0xb11b4652, 0x65d122b9, 0x97baa1ba, 0x84ea524e, 0x7681d14d,
            0x2892ed69, 0xdaf96e6a, 0xc9a99d9e, 0x3bc21e9d, 0xef087a76, 0x1d63f975, 0x0e330a81, 0xfc588982)
  }

  function RowB(j: bv8): bv32 {
    Pick(j, 0xb21572c9, 0x407ef1ca, 0x532e023e, 0xa145813d, 0x758fe5d6, 0x87e466d5, 0x94b49521, 0x66df1622,
            0x38cc2a06, 0xcaa7a905, 0xd9f75af1, 0x2b9cd9f2, 0xff56bd19, 0x0d3d3e1a, 0x1e6dcdee, 0xec064eed)
  }

  function RowC(j: bv8): bv32 {
    Pick(j, 0xc38d26c4, 0x31e6a5c7, 0x22b65633, 0xd0ddd530, 0x0417b1db, 0xf67c32d8, 0xe52cc12c, 0x1747422f,
            0x49547e0b, 0xbb3ffd08, 0xa86f0efc, 0x5a048dff, 0x8ecee914, 0x7ca56a17, 0x6ff599e3, 0x9d9e1ae0)
  }

  function RowD(j: bv8): bv32 {
    Pick(j, 0xd3d3e1ab, 0x21b862a8, 0x32e8915c, 0xc083125f, 0x144976b4, 0xe622f5b7, 0xf5720643, 0x07198540,
            0x590ab964, 0xab613a67, 0xb831c993, 0x4a5a4a90, 0x9e902e7b, 0x6cfbad78, 0x7fab5e8c, 0x8dc0dd8f)
  }

  function RowE(j: bv8): bv32 {
    Pick(j, 0xe330a81a, 0x115b2b19, 0x020bd8ed, 0xf0605bee, 0x24aa3f05, 0xd6c1bc06, 0xc5914ff2, 0x37faccf1,
            0x69e9f0d5, 0x9b8273d6, 0x88d28022, 0x7ab90321, 0xae7367ca, 0x5c18e4c9, 0x4f48173d, 0xbd23943e)
  }

  function RowF(j: bv8): bv32 {
    Pick(j, 0xf36e6f75, 0x0105ec76, 0x12551f82, 0xe03e9c81, 0x34f4f86a, 0xc69f7b69, 0xd5cf889d, 0x27a40b9e,
            0x79b737ba, 0x8bdcb4b9, 0x988c474d, 0x6ae7c44e, 0xbe2da0a5, 0x4c4623a6, 0x5f16d052, 0xad7d5351)
  }

  function Quarter0(r: bv8, j: bv8): bv32 {
    if r == 0 then Row0(j) else if r == 1 then Row1(j) else if r == 2 then Row2(j) else Row3(j)
  }

  function Quarter1(r: bv8, j: bv8): bv32 {
    if r == 4 then Row4(j) else if r == 5 then Row5(j) else if r == 6 then Row6(j) else Row7(j)
  }

  function Quarter2(r: bv8, j: bv8): bv32 {
    if r == 8 then Row8(j) else if r == 9 then Row9(j) else if r == 10 then RowA(j) else RowB(j)
  }

  function Quarter3(r: bv8, j: bv8): bv32 {
    if r == 12 then RowC(j) else if r == 13 then RowD(j) else if r == 14 then RowE(j) else RowF(j)
  }

  /** Entry 16 * r + j. */
  function Row(r: bv8, j: bv8): bv32 {
    if r < 4 then Quarter0(r, j) else if r < 8 then Quarter1(r, j)
    else if r < 12 then Quarter2(r, j) else Quarter3(r, j)
  }

  function Table(b: bv8): bv32 {
    Row(b >> 4, b & 0x0f)
  }

  /** The place of a table entry in the register. */
  function Put(v: bv32): bv32 {
    v as bv32
  }

  lemma FirstRow(j: bv8)
    requires j < 16
    ensures Put(Row0(j)) == Eight(CRC32C(), Place(CRC32C(), j))
  {
    match j
    case 0 => case 1 => case 2 => case 3 => case 4 => case 5 => case 6 => case 7 => case 8 => case 9 => case 10 => case 11 => case 12 => case 13 => case 14 => case 15 => case _ =>
  }

  lemma FirstColumn(r: bv8)
    requires r < 16
    ensures Put(Row(r, 0)) == Eight(CRC32C(), Place(CRC32C(), r << 4))
  {
    match r
    case 0 => case 1 => case 2 => case 3 => case 4 => case 5 => case 6 => case 7 => case 8 => case 9 => case 10 => case 11 => case 12 => case 13 => case 14 => case 15 => case _ =>
  }

  lemma Rows0(j: bv8)
    requires j < 16
    ensures Put(Row0(j)) == Xor(Put(Row0(0)), Put(Row0(j)))
    ensures Put(Row1(j)) == Xor(Put(Row1(0)), Put(Row0(j)))
    ensures Put(Row2(j)) == Xor(Put(Row2(0)), Put(Row0(j)))
    ensures Put(Row3(j)) == Xor(Put(Row3(0)), Put(Row0(j)))
  {
    match j
    case 0 => case 1 => case 2 => case 3 => case 4 => case 5 => case 6 => case 7 => case 8 => case 9 => case 10 => case 11 => case 12 => case 13 => case 14 => case 15 => case _ =>
  }

  lemma Linear0(r: bv8, j: bv8)
    requires r < 4 && j < 16
    ensures Put(Quarter0(r, j)) == Xor(Put(Quarter0(r, 0)), Put(Row0(j)))
  {
    Rows0(j);
    hide Row0, Row1, Row2, Row3, Put, Xor;
    if r == 0 { } else if r == 1 { } else if r == 2 { } else { }
  }

  lemma Rows1(j: bv8)
    requires j < 16
    ensures Put(Row4(j)) == Xor(Put(Row4(0)), Put(Row0(j)))
    ensures Put(Row5(j)) == Xor(Put(Row5(0)), Put(Row0(j)))
    ensures Put(Row6(j)) == Xor(Put(Row6(0)), Put(Row0(j)))
    ensures Put(Row7(j)) == Xor(Put(Row7(0)), Put(Row0(j)))
  {
    match j
    case 0 => case 1 => case 2 => case 3 => case 4 => case 5 => case 6 => case 7 => case 8 => case 9 => case 10 => case 11 => case 12 => case 13 => case 14 => case 15 => case _ =>
  }

  lemma Linear1(r: bv8, j: bv8)
    requires 4 <= r < 8 && j < 16
    ensures Put(Quarter1(r, j)) == Xor(Put(Quarter1(r, 0)), Put(Row0(j)))
  {
    Rows1(j);
    hide Row4, Row5, Row6, Row7, Row0, Put, Xor;
  }

  lemma Rows2(j: bv8)
    requires j < 16
    ensures Put(Row8(j)) == Xor(Put(Row8(0)), Put(Row0(j)))
    ensures Put(Row9(j)) == Xor(Put(Row9(0)), Put(Row0(j)))
    ensures Put(RowA(j)) == Xor(Put(RowA(0)), Put(Row0(j)))
    ensures Put(RowB(j)) == Xor(Put(RowB(0)), Put(Row0(j)))
  {
    match j
    case 0 => case 1 => case 2 => case 3 => case 4 => case 5 => case 6 => case 7 => case 8 => case 9 => case 10 => case 11 => case 12 => case 13 => case 14 => case 15 => case _ =>
  }

  lemma Linear2(r: bv8, j: bv8)
    requires 8 <= r < 12 && j < 16
    ensures Put(Quarter2(r, j)) == Xor(Put(Quarter2(r, 0)), Put(Row0(j)))
  {
    Rows2(j);
    hide Row8, Row9, RowA, RowB, Row0, Put, Xor;
  }

  lemma Rows3(j: bv8)
    requires j < 16
    ensures Put(RowC(j)) == Xor(Put(RowC(0)), Put(Row0(j)))
    ensures Put(RowD(j)) == Xor(Put(RowD(0)), Put(Row0(j)))
    ensures Put(RowE(j)) == Xor(Put(RowE(0)), Put(Row0(j)))
    ensures Put(RowF(j)) == Xor(Put(RowF(0)), Put(Row0(j)))
  {
    match j
    case 0 => case 1 => case 2 => case 3 => case 4 => case 5 => case 6 => case 7 => case 8 => case 9 => case 10 => case 11 => case 12 => case 13 => case 14 => case 15 => case _ =>
  }

  lemma Linear3(r: bv8, j: bv8)
    requires 12 <= r < 16 && j < 16
    ensures Put(Quarter3(r, j)) == Xor(Put(Quarter3(r, 0)), Put(Row0(j)))
  {
    Rows3(j);
    hide RowC, RowD, RowE, RowF, Row0, Put, Xor;
  }

  /** The table is linear. */
  lemma RowsLinear(r: bv8, j: bv8)
    requires r < 16 && j < 16
    ensures Put(Row(r, j)) == Xor(Put(Row(r, 0)), Put(Row0(j)))
  {
    hide Quarter0, Quarter1, Quarter2, Quarter3, Row0, Put, Xor;
    if r < 4 { Linear0(r, j); }
    else if r < 8 { Linear1(r, j); }
    else if r < 12 { Linear2(r, j); }
    else { Linear3(r, j); }
  }

  lemma PlaceJoin(b: bv8)
    ensures Place(CRC32C(), b) == Xor(Place(CRC32C(), (b >> 4) << 4), Place(CRC32C(), b & 0x0f))
    ensures b >> 4 < 16 && b & 0x0f < 16
  {
  }

  lemma Unfolded(b: bv8)
    ensures Table(b) == Row(b >> 4, b & 0x0f)
  {
    hide Row;
  }

  /** Every entry is what eight bit steps make of its index. */
  lemma TableIsDivision(b: bv8)
    ensures Put(Table(b)) == Times(CRC32C(), Place(CRC32C(), b), 8)
  {
    hide *;
    var hi, lo := b >> 4, b & 0x0f;
    PlaceJoin(b);
    Unfolded(b);
    RowsLinear(hi, lo);
    FirstRow(lo);
    FirstColumn(hi);
    Unfold8(CRC32C(), Place(CRC32C(), hi << 4));
    Unfold8(CRC32C(), Place(CRC32C(), lo));
    TimesXor(CRC32C(), Place(CRC32C(), hi << 4), Place(CRC32C(), lo), 8);
  }
}
