/** Morton numbers of misc/Octree.ipp: interleaved coordinates, levels and common
    ancestors. */
module Morton {

  // ---------------------------------------------------------------- interleaving

  /** The bits of n, three places apart. */
  function Separated(n: bv8): bv32 {
    var s0 := n as bv32;
    var s1 := (s0 | (s0 << 8)) & 0x0000_f00f;
    var s2 := (s1 | (s1 << 4)) & 0x000c_30c3;
    (s2 | (s2 << 2)) & 0x0024_9249
  }

  function Combined(s: bv32): bv8 {
    var s1 := (s & 0x0024_9249) | ((s & 0x0024_9249) >> 2);
    var s2 := (s1 & 0x000c_30c3) | ((s1 & 0x000c_30c3) >> 4);
    var s3 := (s2 & 0x0000_f00f) | ((s2 & 0x0000_f00f) >> 8);
    (s3 & 0xff) as bv8
  }

  /** Every third bit from the lowest on. */
  function Lane(s: bv32): bv32 {
    s & 0x0024_9249
  }

  /** The number shifted so that the lane of the second or third coordinate comes first. */
  function Down(m: bv32, axis: nat): bv32 {
    if axis == 0 then m else if axis == 1 then m >> 1 else m >> 2
  }

  function MortonNumber(ix: bv8, iy: bv8, iz: bv8): bv32 {
    Separated(ix) | (Separated(iy) << 1) | (Separated(iz) << 2)
  }

  lemma CombinedOfSeparated(n: bv8)
    ensures Combined(Separated(n)) == n
  {
  }

  lemma LanesApart(x: bv32, y: bv32, z: bv32)
    requires x & 0x0024_9249 == x && y & 0x0024_9249 == y && z & 0x0024_9249 == z
    ensures (x | (y << 1) | (z << 2)) & 0x0024_9249 == x
    ensures ((x | (y << 1) | (z << 2)) >> 1) & 0x0024_9249 == y
    ensures ((x | (y << 1) | (z << 2)) >> 2) & 0x0024_9249 == z
  {
  }

  lemma SeparatedLane(n: bv8)
    ensures Separated(n) & 0x0024_9249 == Separated(n)
  {
  }

  lemma CombinedOfLane(s: bv32)
    ensures Combined(s) == Combined(Lane(s))
  {
  }

  lemma LanesOfMorton(ix: bv8, iy: bv8, iz: bv8)
    ensures var m := MortonNumber(ix, iy, iz);
            && Lane(m) == Separated(ix) && Lane(Down(m, 1)) == Separated(iy) && Lane(Down(m, 2)) == Separated(iz)
  {
    SeparatedLane(ix);
    SeparatedLane(iy);
    SeparatedLane(iz);
    hide Separated;
    LanesApart(Separated(ix), Separated(iy), Separated(iz));
  }

  /** Bit i of a number. */
  predicate BitAt(m: bv32, i: bv32)
    requires i < 32
  {
    (m >> i) & 1 == 1
  }

  lemma SeparatedBit(n: bv8, i: bv32)
    requires i < 8
    ensures BitAt(Separated(n), 3 * i) == BitAt(n as bv32, i)
  {
  }

  predicate IsLane(x: bv32) {
    x & 0x0024_9249 == x
  }

  function Interleaved(x: bv32, y: bv32, z: bv32): bv32 {
    x | (y << 1) | (z << 2)
  }

  /** A lane has every third bit. */
  lemma LaneBit(m: bv32, i: bv32)
    requires i < 8
    ensures BitAt(Lane(m), 3 * i) == BitAt(m, 3 * i)
  {
  }

  lemma DownBit(m: bv32, i: bv32)
    requires i < 8
    ensures BitAt(Down(m, 1), 3 * i) == BitAt(m, 3 * i + 1)
    ensures BitAt(Down(m, 2), 3 * i) == BitAt(m, 3 * i + 2)
  {
  }

  lemma NoHighBits(x: bv32, y: bv32, z: bv32)
    requires IsLane(x) && IsLane(y) && IsLane(z)
    ensures Interleaved(x, y, z) >> 24 == 0
  {
  }

  lemma MortonIsInterleaved(ix: bv8, iy: bv8, iz: bv8)
    ensures MortonNumber(ix, iy, iz) == Interleaved(Separated(ix), Separated(iy), Separated(iz))
    ensures IsLane(Separated(ix)) && IsLane(Separated(iy)) && IsLane(Separated(iz))
  {
    SeparatedLane(ix);
    SeparatedLane(iy);
    SeparatedLane(iz);
    hide Separated;
  }

  /** Bits 3i, 3i + 1 and 3i + 2 of the number are bit i of x, of y and of z, and there are
      no other bits. */
  lemma MortonBit(ix: bv8, iy: bv8, iz: bv8, i: bv32)
    requires i < 8
    ensures var m := MortonNumber(ix, iy, iz);
      && BitAt(m, 3 * i) == BitAt(ix as bv32, i) && BitAt(m, 3 * i + 1) == BitAt(iy as bv32, i)
      && BitAt(m, 3 * i + 2) == BitAt(iz as bv32, i)
      && m >> 24 == 0
  {
    hide *;
    var m := MortonNumber(ix, iy, iz);
    LanesOfMorton(ix, iy, iz);
    LaneBit(m, i);
    LaneBit(Down(m, 1), i);
    LaneBit(Down(m, 2), i);
    DownBit(m, i);
    SeparatedBit(ix, i);
    SeparatedBit(iy, i);
    SeparatedBit(iz, i);
    MortonIsInterleaved(ix, iy, iz);
    NoHighBits(Separated(ix), Separated(iy), Separated(iz));
  }

  /** position() recovers the coordinates. */
  lemma PositionOfMorton(ix: bv8, iy: bv8, iz: bv8)
    ensures var m := MortonNumber(ix, iy, iz);
            Combined(m) == ix && Combined(Down(m, 1)) == iy && Combined(Down(m, 2)) == iz
  {
    hide *;
    var m := MortonNumber(ix, iy, iz);
    LanesOfMorton(ix, iy, iz);
    CombinedOfLane(m);
    CombinedOfLane(Down(m, 1));
    CombinedOfLane(Down(m, 2));
    CombinedOfSeparated(ix);
    CombinedOfSeparated(iy);
    CombinedOfSeparated(iz);
  }

  lemma SeparatedOfCombined(s: bv32)
    ensures Separated(Combined(s)) == Lane(s)
  {
  }

  /** mortonNumber() recovers the low 24 bits of a number. */
  lemma MortonOfPosition(m: bv32)
    ensures MortonNumber(Combined(m), Combined(Down(m, 1)), Combined(Down(m, 2))) == m & 0x00ff_ffff
  {
    hide Separated, Combined;
    SeparatedOfCombined(m);
    SeparatedOfCombined(Down(m, 1));
    SeparatedOfCombined(Down(m, 2));
    LanesJoin(m);
  }

  lemma LanesJoin(m: bv32)
    ensures (m & 0x0024_9249) | (((m >> 1) & 0x0024_9249) << 1) | (((m >> 2) & 0x0024_9249) << 2)
         == m & 0x00ff_ffff
  {
  }

  lemma SeparatedHalf(n: bv8)
    ensures Separated(n) >> 3 == Separated(n >> 1)
  {
  }

  lemma ShiftOr(x: bv32, y: bv32, z: bv32)
    requires x & 0x0024_9249 == x && y & 0x0024_9249 == y && z & 0x0024_9249 == z
    ensures (x | (y << 1) | (z << 2)) >> 3 == (x >> 3) | ((y >> 3) << 1) | ((z >> 3) << 2)
  {
  }

  /** up() leads to the cell of half the coordinates, the parent in the tree. */
  lemma UpHalves(ix: bv8, iy: bv8, iz: bv8)
    ensures MortonNumber(ix, iy, iz) >> 3 == MortonNumber(ix >> 1, iy >> 1, iz >> 1)
  {
    SeparatedLane(ix);
    SeparatedLane(iy);
    SeparatedLane(iz);
    hide Separated;
    ShiftOr(Separated(ix), Separated(iy), Separated(iz));
    SeparatedHalf(ix);
    SeparatedHalf(iy);
    SeparatedHalf(iz);
  }

  // ---------------------------------------------------------------- levels

  function Up(m: bv32): bv32 {
    m >> 3
  }

  /** k steps towards the root. */
  function Ancestor(m: bv32, k: nat): bv32 {
    if k == 0 then m else Up(Ancestor(m, k - 1))
  }

  /** Octal digit d, the lowest being number 0. */
  function Digit(m: bv32, d: nat): bv32 {
    Ancestor(m, d) & 0x7
  }

  /** The highest of the n low octal digits that is not zero, -1 if there is none. */
  function LevelOf(m: bv32, n: nat): (l: int)
    ensures -1 <= l < n
  {
    if n == 0 then -1 else if Digit(m, n - 1) != 0 then n - 1 else LevelOf(m, n - 1)
  }

  /** The mask of octal digit d. */
  function Ref(d: nat): bv32
    requires d < 8
  {
    0x7 << (3 * d)
  }

  /** m >> 3 * k, each distance written out. */
  function Shifted(m: bv32, k: nat): bv32
    requires k <= 8
  {
    if k == 0 then m else if k == 1 then m >> 3 else if k == 2 then m >> 6
    else if k == 3 then m >> 9 else if k == 4 then m >> 12 else if k == 5 then m >> 15
    else if k == 6 then m >> 18 else if k == 7 then m >> 21 else m >> 24
  }

  lemma ThreeMore(m: bv32)
    ensures Up(m) == m >> 3 && Up(m >> 3) == m >> 6 && Up(m >> 6) == m >> 9 && Up(m >> 9) == m >> 12
    ensures Up(m >> 12) == m >> 15 && Up(m >> 15) == m >> 18 && Up(m >> 18) == m >> 21
    ensures Up(m >> 21) == m >> 24
  {
  }

  lemma ShiftedUp(m: bv32, k: nat)
    requires 1 <= k <= 8
    ensures Up(Shifted(m, k - 1)) == Shifted(m, k)
  {
    ThreeMore(m);
    hide Up;
    if k == 1 { } else if k == 2 { } else if k == 3 { } else if k == 4 { }
    else if k == 5 { } else if k == 6 { } else if k == 7 { } else { }
  }

  /** The shift that the code writes. */
  lemma {:induction false} AncestorIsShift(m: bv32, k: nat)
    requires k <= 8
    ensures Ancestor(m, k) == Shifted(m, k)
  {
    if k > 0 {
      hide Up;
      ShiftedUp(m, k);
      hide Shifted;
      AncestorIsShift(m, k - 1);
    }
  }

  lemma RefTable()
    ensures Ref(0) == 0x7 && Ref(1) == 0x38 && Ref(2) == 0x1c0 && Ref(3) == 0xe00
    ensures Ref(4) == 0x7000 && Ref(5) == 0x3_8000 && Ref(6) == 0x1c_0000 && Ref(7) == 0xe0_0000
  {
  }

  lemma DigitTable(m: bv32)
    ensures (m >> 3) & 0x7 != 0 <==> Masked(m, 0x38)
    ensures (m >> 6) & 0x7 != 0 <==> Masked(m, 0x1c0)
    ensures (m >> 9) & 0x7 != 0 <==> Masked(m, 0xe00)
    ensures (m >> 12) & 0x7 != 0 <==> Masked(m, 0x7000)
    ensures (m >> 15) & 0x7 != 0 <==> Masked(m, 0x3_8000)
    ensures (m >> 18) & 0x7 != 0 <==> Masked(m, 0x1c_0000)
    ensures (m >> 21) & 0x7 != 0 <==> Masked(m, 0xe0_0000)
    ensures m & 0x7 != 0 <==> Masked(m, 0x7)
  {
  }

  lemma MaskDigit(m: bv32, d: nat)
    requires d < 8
    ensures Masked(m, Ref(d)) <==> Shifted(m, d) & 0x7 != 0
  {
    hide Ref, Masked;
    RefTable();
    DigitTable(m);
    if d == 0 { } else if d == 1 { } else if d == 2 { } else if d == 3 { } else if d == 4 { }
    else if d == 5 { } else if d == 6 { } else { }
  }

  lemma RefDown(d: nat)
    requires 1 <= d < 8
    ensures Ref(d) >> 3 == Ref(d - 1)
  {
    if d == 1 { } else if d == 2 { } else if d == 3 { } else if d == 4 { }
    else if d == 5 { } else if d == 6 { } else { }
  }

  predicate Masked(m: bv32, ref: bv32) {
    m & ref != 0
  }

  lemma MaskedIff(m: bv32, d: nat)
    requires d < 8
    ensures Masked(m, Ref(d)) <==> Digit(m, d) != 0
  {
    MaskDigit(m, d);
    hide Ref, Shifted, Masked, Ancestor;
    AncestorIsShift(m, d);
  }

  /** The mask wanders down from the top digit. */
  method Level(maxLevel: nat, m: bv32) returns (l: int)
    requires 1 <= maxLevel <= 8
    ensures l == LevelOf(m, maxLevel)
  {
    hide Digit, Masked, Up;
    var ref := Ref(maxLevel - 1);
    for i := 0 to maxLevel
      invariant i < maxLevel ==> ref == Ref(maxLevel - 1 - i)
      invariant LevelOf(m, maxLevel) == LevelOf(m, maxLevel - i)
    {
      hide Ref;
      MaskedIff(m, maxLevel - 1 - i);
      if Masked(m, ref) {
        return maxLevel - 1 - i;
      }
      if i < maxLevel - 1 { RefDown(maxLevel - 1 - i); }
      ref := ref >> 3;
    }
    return -1;
  }

  // ---------------------------------------------------------------- common ancestors

  lemma SameIffZero(a: bv32, b: bv32)
    ensures a ^ b == 0 <==> a == b
  {
    assert (a ^ b) ^ b == a;
    assert a ^ a == 0;
  }

  lemma UpZero(m: bv32)
    ensures m == 0 <==> Up(m) == 0 && m & 0x7 == 0
  {
  }

  function Difference(a: bv32, b: bv32): bv32 {
    a ^ b
  }

  lemma {:induction false} AncestorsDiffer(a: bv32, b: bv32, k: nat)
    ensures Ancestor(Difference(a, b), k) == Difference(Ancestor(a, k), Ancestor(b, k))
  {
    if k > 0 {
      hide Up, Difference;
      AncestorsDiffer(a, b, k - 1);
      UpDifference(Ancestor(a, k - 1), Ancestor(b, k - 1));
    }
  }

  lemma UpDifference(a: bv32, b: bv32)
    ensures Up(Difference(a, b)) == Difference(Up(a), Up(b))
  {
  }

  lemma DifferenceZero(a: bv32, b: bv32)
    ensures Difference(a, b) == 0 <==> a == b
  {
    SameIffZero(a, b);
  }

  /** Ancestors vanish exactly above the level. */
  lemma {:induction false} VanishesAbove(m: bv32, k: nat, n: nat)
    requires k <= n && Ancestor(m, n) == 0
    ensures Ancestor(m, k) == 0 <==> LevelOf(m, n) < k
    decreases n - k
  {
    if k < n {
      VanishesAbove(m, k + 1, n);
      UpZero(Ancestor(m, k));
      hide Up;
      LevelSteps(m, k, n);
    }
  }

  lemma {:induction false} LevelSteps(m: bv32, k: nat, n: nat)
    requires k < n
    ensures Digit(m, k) != 0 ==> LevelOf(m, n) >= k
    ensures LevelOf(m, n) == k ==> Digit(m, k) != 0
  {
    hide Digit;
    if k < n - 1 { LevelSteps(m, k, n - 1); }
  }

  /** enclose(): A, shifted past the highest digit in which A and B differ. */
  method Enclose(maxLevel: nat, a: bv32, b: bv32) returns (m: bv32)
    requires 1 <= maxLevel <= 8
    ensures m == Ancestor(a, LevelOf(Difference(a, b), maxLevel) + 1)
  {
    hide Shifted, Ancestor;
    var l := Level(maxLevel, Difference(a, b));
    AncestorIsShift(a, l + 1);
    m := Shifted(a, l + 1);
  }

  /** It is the lowest common ancestor: two numbers of at most n digits agree after k
      steps towards the root exactly when k is at least the number that enclose shifts. */
  lemma LowestCommonAncestor(a: bv32, b: bv32, n: nat, k: nat)
    requires Ancestor(a, n) == 0 && Ancestor(b, n) == 0 && k <= n
    ensures Ancestor(a, k) == Ancestor(b, k) <==> LevelOf(Difference(a, b), n) + 1 <= k
  {
    hide *;
    DifferenceZero(0, 0);
    AncestorsDiffer(a, b, n);
    AncestorsDiffer(a, b, k);
    DifferenceZero(Ancestor(a, k), Ancestor(b, k));
    VanishesAbove(Difference(a, b), k, n);
  }

  // ---------------------------------------------------------------- levels that get lost

  lemma {:induction false} AncestorAdd(m: bv32, j: nat, k: nat)
    ensures Ancestor(Ancestor(m, j), k) == Ancestor(m, j + k)
  {
    hide Up;
    if k > 0 { AncestorAdd(m, j, k - 1); }
  }

  lemma {:induction false} LevelIsTop(m: bv32, d: nat, n: nat)
    requires d < n && forall i :: d < i < n ==> Digit(m, i) == 0
    ensures LevelOf(m, n) <= d
    ensures LevelOf(m, n) == d <==> Digit(m, d) != 0
  {
    hide Digit;
    if d < n - 1 { LevelIsTop(m, d, n - 1); }
  }

  lemma {:induction false} ZeroAbove(m: bv32, n: nat, k: nat)
    requires Ancestor(m, n) == 0 && n <= k
    ensures Ancestor(m, k) == 0
  {
    if n < k { ZeroAbove(m, n, k - 1); }
  }

  /** assignInstance(level, ix, iy, iz) shifts the number of the cell up to its level and
      reads the level off the result: that gives the level asked for exactly when the
      cell's top digit is not zero, and a lower level otherwise. */
  lemma LevelKeptIff(m: bv32, n: nat, level: nat)
    requires level < n && Ancestor(m, n) == 0
    ensures LevelOf(Ancestor(m, n - 1 - level), n) <= level
    ensures LevelOf(Ancestor(m, n - 1 - level), n) == level <==> Digit(m, n - 1) != 0
  {
    var a := Ancestor(m, n - 1 - level);
    forall i | level < i < n ensures Digit(a, i) == 0 {
      AncestorAdd(m, n - 1 - level, i);
      ZeroAbove(m, n, n - 1 - level + i);
    }
    AncestorAdd(m, n - 1 - level, level);
    LevelIsTop(a, level, n);
  }
}
