/** The bit operations of misc/intX_t.ipp on nonnegative integers. */
module IntXBits {
  import opened NumberTheory
  import opened Limbs
  import opened LimbDivision
  import opened IntXModule
  import opened IntXText

  /** The functors AND, OR and XOR. */
  datatype BitOp = And | Or | Xor

  predicate Op(op: BitOp, x: bool, y: bool) {
    match op
    case And => x && y
    case Or => x || y
    case Xor => x != y
  }

  /** Bit i of n. */
  predicate Bit(n: nat, i: nat)
    decreases i
  {
    if i == 0 then n % 2 == 1 else Bit(n / 2, i - 1)
  }

  function Unit(b: bool): (n: nat)
    ensures n <= 1
  {
    if b then 1 else 0
  }

  /** The bitwise operation on whole integers. */
  function Bitwise(op: BitOp, a: nat, b: nat): nat
    decreases a + b
  {
    if a == 0 && b == 0 then 0
    else Unit(Op(op, a % 2 == 1, b % 2 == 1)) + 2 * Bitwise(op, a / 2, b / 2)
  }

  /** Every bit of the result is the operation on the bits of the operands. */
  lemma {:induction false} BitwiseBit(op: BitOp, a: nat, b: nat, i: nat)
    ensures Bit(Bitwise(op, a, b), i) == Op(op, Bit(a, i), Bit(b, i))
    decreases i
  {
    hide Bitwise;
    BitwiseStep(op, a, b);
    var x, rest := Unit(Op(op, a % 2 == 1, b % 2 == 1)), Bitwise(op, a / 2, b / 2);
    if i > 0 {
      BitwiseBit(op, a / 2, b / 2, i - 1);
      HalfOf(x, rest);
    } else {
      hide Op;
    }
  }

  lemma HalfOf(x: nat, n: nat)
    requires x <= 1
    ensures (x + 2 * n) / 2 == n
  {
  }

  lemma BitwiseStep(op: BitOp, a: nat, b: nat)
    ensures Bitwise(op, a, b) == Unit(Op(op, a % 2 == 1, b % 2 == 1)) + 2 * Bitwise(op, a / 2, b / 2)
  {
  }

  /** What the three operations are, in terms of addition: and + or = a + b, and
      xor + 2 and = a + b. */
  lemma {:induction false} BitwiseSums(a: nat, b: nat)
    ensures Bitwise(And, a, b) + Bitwise(Or, a, b) == a + b
    ensures Bitwise(Xor, a, b) + 2 * Bitwise(And, a, b) == a + b
    decreases a + b
  {
    if a + b > 0 {
      BitwiseSums(a / 2, b / 2);
      BitwiseStep(And, a, b);
      BitwiseStep(Or, a, b);
      BitwiseStep(Xor, a, b);
      hide Bitwise;
    }
  }

  lemma {:induction false} BitwiseCommutes(op: BitOp, a: nat, b: nat)
    ensures Bitwise(op, a, b) == Bitwise(op, b, a)
    decreases a + b
  {
    if a + b > 0 { BitwiseCommutes(op, a / 2, b / 2); }
  }

  /** The functor on the low k bits: k is 8 for a byte. */
  function Low(op: BitOp, a: nat, b: nat, k: nat): nat {
    if k == 0 then 0 else Unit(Op(op, a % 2 == 1, b % 2 == 1)) + 2 * Low(op, a / 2, b / 2, k - 1)
  }

  lemma {:induction false} LowBound(op: BitOp, a: nat, b: nat, k: nat)
    ensures Low(op, a, b, k) < Pow(2, k)
  {
    if k > 0 { LowBound(op, a / 2, b / 2, k - 1); }
  }

  function ByteOp(op: BitOp, a: nat, b: nat): (r: nat)
    ensures r < 256
  {
    LowBound(op, a, b, 8);
    PowTwoEight();
    Low(op, a, b, 8)
  }

  lemma PowTwoEight()
    ensures Pow(2, 8) == 256
  {
    assert Pow(2, 4) == 16;
  }

  /** The low byte, in terms of the operands' low bytes. */
  lemma LowOfBytes(op: BitOp, a: nat, b: nat)
    ensures ByteOp(op, a % 256, b % 256) == ByteOp(op, a, b)
  {
    LowMod(op, a, b, 8, 256);
  }

  lemma {:induction false} LowMod(op: BitOp, a: nat, b: nat, k: nat, m: nat)
    requires m == Pow(2, k)
    ensures m > 0 && Low(op, a % m, b % m, k) == Low(op, a, b, k)
  {
    if k > 0 {
      var h := Pow(2, k - 1);
      LowMod(op, a / 2, b / 2, k - 1, h);
      HalfMod(a, h);
      HalfMod(b, h);
    }
  }

  lemma HalfMod(a: nat, h: nat)
    requires h > 0
    ensures a % (2 * h) / 2 == a / 2 % h && a % (2 * h) % 2 == a % 2
  {
    var q, r := a / 2 / h, a / 2 % h;
    assert a / 2 == h * q + r;
    assert a == (2 * h) * q + (2 * r + a % 2);
    DivModUnique(a, 2 * h, q, 2 * r + a % 2);
  }

  function Down(n: nat, k: nat): nat {
    if k == 0 then n else Down(n / 2, k - 1)
  }

  lemma {:induction false} BitwiseSplit(op: BitOp, a: nat, b: nat, k: nat)
    ensures Bitwise(op, a, b) == Low(op, a, b, k) + Pow(2, k) * Bitwise(op, Down(a, k), Down(b, k))
  {
    if k > 0 {
      BitwiseSplit(op, a / 2, b / 2, k - 1);
      BitwiseStep(op, a, b);
      MulAssociates(2, Pow(2, k - 1), Bitwise(op, Down(a, k), Down(b, k)));
    }
  }

  lemma EightDown(n: nat)
    ensures Down(n, 8) == n / 256
  {
    var n2 := n / 2 / 2;
    var n4 := n2 / 2 / 2;
    var n6 := n4 / 2 / 2;
    assert Down(n, 8) == Down(n / 2, 7) == Down(n2, 6);
    assert Down(n2, 6) == Down(n2 / 2, 5) == Down(n4, 4);
    assert Down(n4, 4) == Down(n4 / 2, 3) == Down(n6, 2);
    assert Down(n6, 2) == Down(n6 / 2, 1) == Down(n6 / 2 / 2, 0);
  }

  lemma BitwiseByte(op: BitOp, a: nat, b: nat)
    ensures Bitwise(op, a, b) == ByteOp(op, a % 256, b % 256) + 256 * Bitwise(op, a / 256, b / 256)
  {
    hide Bitwise, Low, Down, Pow;
    BitwiseSplit(op, a, b, 8);
    EightDown(a);
    EightDown(b);
    PowTwoEight();
    LowOfBytes(op, a, b);
  }

  // ---------------------------------------------------------------- on byte sequences

  /** The byte loop: the shorter operand is extended with zeros. */
  function Zip(op: BitOp, l: seq<int>, s: seq<int>): (z: seq<int>)
    requires |s| <= |l|
    requires forall i :: 0 <= i < |l| ==> 0 <= l[i] < 256
    requires forall i :: 0 <= i < |s| ==> 0 <= s[i] < 256
    ensures |z| == |l| && forall i :: 0 <= i < |z| ==> 0 <= z[i] < 256
  {
    seq(|l|, i requires 0 <= i < |l| => ByteOp(op, l[i], if i < |s| then s[i] else 0))
  }

  /** Reading the bytes from the top: each one shifts what is there by eight bits. */
  function Pushed(start: int, z: seq<int>): (r: int)
    requires forall i :: 0 <= i < |z| ==> 0 <= z[i] < 256
    ensures start >= 0 ==> r >= 0
  {
    if |z| == 0 then start else Pushed(start, z[1..]) * 256 + z[0]
  }

  lemma BytesStep(n: nat)
    requires n > 0
    ensures Bytes(n) == [n % 256] + Bytes(n / 256)
  {
  }

  lemma {:induction false} BytesLonger(a: nat, b: nat)
    requires b <= a
    ensures |Bytes(b)| <= |Bytes(a)|
    decreases a
  {
    if a > 0 && b > 0 { BytesLonger(a / 256, b / 256); }
  }

  /** The bytes combined one by one are the bytes of the whole. */
  lemma {:induction false} ZipIsBitwise(op: BitOp, a: nat, b: nat)
    requires b <= a
    ensures |Bytes(b)| <= |Bytes(a)| && Pushed(0, Zip(op, Bytes(a), Bytes(b))) == Bitwise(op, a, b)
    decreases a
  {
    BytesLonger(a, b);
    if a > 0 {
      ZipIsBitwise(op, a / 256, b / 256);
      BitwiseByte(op, a, b);
      ZipStep(op, a, b);
    }
  }

  lemma ZipStep(op: BitOp, a: nat, b: nat)
    requires 0 < a && b <= a && |Bytes(b)| <= |Bytes(a)| && |Bytes(b / 256)| <= |Bytes(a / 256)|
    ensures var z := Zip(op, Bytes(a), Bytes(b));
            |z| > 0 && z[0] == ByteOp(op, a % 256, b % 256)
            && z[1..] == Zip(op, Bytes(a / 256), Bytes(b / 256))
  {
    BytesStep(a);
    if b > 0 { BytesStep(b); }
    BytesOfZero();
    hide ByteOp, Bytes;
    ZipTail(op, Bytes(a), Bytes(b), Bytes(a / 256), Bytes(b / 256));
  }

  lemma BytesOfZero()
    ensures Bytes(0) == []
  {
  }

  lemma ZipTail(op: BitOp, l: seq<int>, s: seq<int>, l2: seq<int>, s2: seq<int>)
    requires |s| <= |l| && 0 < |l| && l2 == l[1..] && s2 == (if |s| > 0 then s[1..] else [])
    requires forall i :: 0 <= i < |l| ==> 0 <= l[i] < 256
    requires forall i :: 0 <= i < |s| ==> 0 <= s[i] < 256
    ensures Zip(op, l, s)[1..] == Zip(op, l2, s2)
  {
    hide ByteOp;
    var z, t := Zip(op, l, s), Zip(op, l2, s2);
    forall i | 0 <= i < |t| ensures z[i + 1] == t[i] {
    }
  }

  /** A start value stays in the result, in front of all bytes. */
  lemma {:induction false} PushedStart(start: int, z: seq<int>)
    requires forall i :: 0 <= i < |z| ==> 0 <= z[i] < 256
    ensures Pushed(start, z) == start * Pow(256, |z|) + Pushed(0, z)
  {
    if |z| > 0 {
      PushedStart(start, z[1..]);
      MulAssociates(start, 256, Pow(256, |z| - 1));
    }
  }

  lemma PushedIff(start: int, z: seq<int>)
    requires forall i :: 0 <= i < |z| ==> 0 <= z[i] < 256
    ensures Pushed(start, z) == Pushed(0, z) <==> start == 0
  {
    PushedStart(start, z);
    PowPositive(256, |z|);
    if start > 0 { MulAtLeast(Pow(256, |z|), start); }
    if start < 0 { MulAtLeast(Pow(256, |z|), -start); MulDistributes(Pow(256, |z|), start, -start); }
  }

  // ---------------------------------------------------------------- on integers

  /** The byte loop needs the vector of the smaller magnitude to be no longer. Two
      numbers with safe bytes meet this, and so do two negative numbers. */
  ghost predicate BytesFit(x: seq<int>, y: seq<int>, xIsLarger: bool) {
    if xIsLarger then |y| <= |x| else |x| <= |y|
  }

  predicate IsBytes(x: seq<int>) {
    forall i :: 0 <= i < |x| ==> 0 <= x[i] < 256
  }

  /** What bitOperation leaves in a result object that held start, for operands with
      the bytes x and y. */
  ghost function Outcome(op: BitOp, start: int, x: seq<int>, y: seq<int>, xIsLarger: bool): int
    requires IsBytes(x) && IsBytes(y) && BytesFit(x, y, xIsLarger)
  {
    if xIsLarger then Pushed(start, Zip(op, x, y)) else Pushed(start, Zip(op, y, x))
  }

  /** On safe nonnegative operands the result is the bitwise operation exactly when the
      result object held zero: always for a & b, a | b and a ^ b, and for a &= b, a |= b,
      a ^= b only if a is 0. */
  lemma OutcomeIff(op: BitOp, start: int, a: nat, b: nat)
    requires a > 0 || b > 0 || start == 0
    ensures IsBytes(Bytes(a)) && IsBytes(Bytes(b)) && BytesFit(Bytes(a), Bytes(b), b <= a)
    ensures Outcome(op, start, Bytes(a), Bytes(b), b <= a) == Bitwise(op, a, b) <==> start == 0
  {
    hide Bytes, Bitwise, Zip, Pushed;
    if b <= a {
      ZipIsBitwise(op, a, b);
      PushedIff(start, Zip(op, Bytes(a), Bytes(b)));
    } else {
      ZipIsBitwise(op, b, a);
      BitwiseCommutes(op, a, b);
      PushedIff(start, Zip(op, Bytes(b), Bytes(a)));
    }
  }

  /** Of two negative numbers only the low bytes of the magnitudes are combined: the
      result is never negative. */
  lemma NegativeOutcome(op: BitOp, a: seq<int>, b: seq<int>, larger: bool)
    requires LimbsOk(a) && LimbsOk(b)
    ensures BytesFit(BinArray(NEGATIVE, a), BinArray(NEGATIVE, b), larger)
    ensures Val(a) >= 0 && Val(b) >= 0
    ensures Outcome(op, 0, BinArray(NEGATIVE, a), BinArray(NEGATIVE, b), larger)
            == ByteOp(op, Val(a) % 256, Val(b) % 256)
  {
    hide ByteOp, BinArray, Val;
    ValNat(a);
    ValNat(b);
    NegativeBytes(a);
    NegativeBytes(b);
    var u, v := Val(a) % 256, Val(b) % 256;
    ByteOpCommutes(op, u, v);
    OneByte(op, u, v);
    OneByte(op, v, u);
  }

  lemma OneByte(op: BitOp, u: nat, v: nat)
    requires u < 256 && v < 256
    ensures Pushed(0, Zip(op, [u], [v])) == ByteOp(op, u, v)
  {
    hide ByteOp;
    var z := Zip(op, [u], [v]);
    assert z[1..] == [];
    assert Pushed(0, z[1..]) == 0;
  }

  lemma ByteOpCommutes(op: BitOp, a: nat, b: nat)
    ensures ByteOp(op, a, b) == ByteOp(op, b, a)
  {
    LowCommutes(op, a, b, 8);
  }

  lemma {:induction false} LowCommutes(op: BitOp, a: nat, b: nat, k: nat)
    ensures Low(op, a, b, k) == Low(op, b, a, k)
  {
    if k > 0 { LowCommutes(op, a / 2, b / 2, k - 1); }
  }

  /** Nonnegative, and every division by 256 on the way down is safe. */
  ghost predicate SafeOperand(x: IntX)
    reads x
  {
    x.Wf() && x.sign == POSITIVE && x.Abs() >= 0 && SafeBytes(x.Abs())
  }

  ghost predicate OperandsFit(a: IntX, b: IntX)
    reads a, b
    requires a.Wf() && b.Wf()
  {
    BytesFit(BinArray(a.sign, a.body), BinArray(b.sign, b.body), b.Abs() <= a.Abs())
  }

  ghost function OutcomeOf(op: BitOp, start: int, a: IntX, b: IntX): int
    reads a, b
    requires a.Wf() && b.Wf() && OperandsFit(a, b)
  {
    Outcome(op, start, BinArray(a.sign, a.body), BinArray(b.sign, b.body), b.Abs() <= a.Abs())
  }

  /** Safe operands have the bytes that the operation on integers needs. */
  lemma SafeOperands(op: BitOp, start: int, a: IntX, b: IntX)
    requires SafeOperand(a) && SafeOperand(b)
    ensures ByteOperand(a) && ByteOperand(b) && OperandsFit(a, b)
    ensures a.Abs() > 0 || b.Abs() > 0 || start == 0 ==>
      (OutcomeOf(op, start, a, b) == Bitwise(op, a.Abs(), b.Abs()) <==> start == 0)
  {
    hide SafeBytes, Bytes, Bitwise, DividedBytes, Outcome;
    SafeBytesExact(a.Abs());
    SafeBytesExact(b.Abs());
    BytesLonger(if b.Abs() <= a.Abs() then a.Abs() else b.Abs(), if b.Abs() <= a.Abs() then b.Abs() else a.Abs());
    if a.Abs() > 0 || b.Abs() > 0 || start == 0 {
      OutcomeIff(op, start, a.Abs(), b.Abs());
    }
  }

  /** bitOperation for any operands and any result object, also one of the operands. */
  method BitOperation(result: IntX, a: IntX, b: IntX, op: BitOp)
    requires ByteOperand(a) && ByteOperand(b) && OperandsFit(a, b) && result.Wf()
    modifies result
    ensures result.Wf() && result.Value() == old(OutcomeOf(op, result.Value(), a, b))
    ensures old(result.Value()) >= 0 && old(result.sign) == POSITIVE ==> result.sign == POSITIVE
  {
    hide SafeBytes, Bytes, Zip, BinArray, ByteOp;
    ghost var start := result.Value();
    var largerFlag := IntX.AbsNoless(a, b);
    var abit := ToBinArray(a);
    var bbit := ToBinArray(b);
    var larger, smaller := if largerFlag then abit else bbit, if largerFlag then bbit else abit;
    var z := Combine(op, larger, smaller);
    assert OutcomeOf(op, start, a, b) == Pushed(start, z);
    var i := |z|;
    while i > 0
      invariant 0 <= i <= |z|
      invariant result.Wf() && result.Value() == Pushed(start, z[i..])
      invariant old(result.Value()) >= 0 && old(result.sign) == POSITIVE ==> result.sign == POSITIVE
    {
      i := i - 1;
      assert z[i..][1..] == z[i + 1..];
      PushByteInto(result, z[i]);
    }
    assert z[0..] == z;
  }

  /** The two loops over the byte vectors. */
  method Combine(op: BitOp, larger: seq<int>, smaller: seq<int>) returns (z: seq<int>)
    requires |smaller| <= |larger|
    requires forall i :: 0 <= i < |larger| ==> 0 <= larger[i] < 256
    requires forall i :: 0 <= i < |smaller| ==> 0 <= smaller[i] < 256
    ensures z == Zip(op, larger, smaller)
  {
    hide ByteOp;
    z := larger;
    for i := 0 to |smaller|
      invariant |z| == |larger|
      invariant forall k :: 0 <= k < |z| ==> z[k] == if k < i then Zip(op, larger, smaller)[k] else larger[k]
    {
      z := z[i := ByteOp(op, z[i], smaller[i])];
    }
    for i := |smaller| to |larger|
      invariant |z| == |larger|
      invariant forall k :: 0 <= k < |z| ==> z[k] == if k < i then Zip(op, larger, smaller)[k] else larger[k]
    {
      z := z[i := ByteOp(op, z[i], 0)];
    }
  }

  /** result <<= 8; result += byte. A byte is subtracted from a negative number
      without a bad column. */
  method PushByteInto(result: IntX, byte: int)
    requires 0 <= byte < 256 && result.Wf()
    modifies result
    ensures result.Wf() && result.Value() == old(result.Value()) * 256 + byte
    ensures old(result.sign) == POSITIVE ==> result.sign == POSITIVE
  {
    hide BadSubtraction, Val, Scaled;
    IntX.ShiftLeft(result, 8);
    ScaledByte(old(result.Abs()));
    var x := new IntX.FromInteger(byte);
    ShortIsSafe(result.body, x.body);
    result.AddAssign(x);
  }

  lemma ShortIsSafe(a: seq<int>, b: seq<int>)
    requires LimbsOk(a) && NoTopZero(a) && LimbsOk(b) && NoTopZero(b) && Val(b) < BASE
    ensures !BadSubtraction(a, b)
  {
    ValNat(a);
    ValNat(b);
    if BadSubtraction(a, b) {
      if Val(a) >= Val(b) {
        var i := BadNeeds(a, b);
        LongerIsGreater(b, [BASE - 1]);
        assert false;
      } else {
        assert BadSubtraction(b, a);
        var i := BadNeeds(b, a);
        ThreeLimbs(b);
        assert false;
      }
    }
  }

  lemma ScaledByte(n: int)
    ensures Scaled(n, 8) == n * 256
  {
    PowTwoEight();
  }

  /** operator&, operator| and operator^. */
  method BitOperator(a: IntX, b: IntX, op: BitOp) returns (ret: IntX)
    requires ByteOperand(a) && ByteOperand(b) && a.Wf() && b.Wf() && OperandsFit(a, b)
    ensures fresh(ret) && ret.Wf() && ret.sign == POSITIVE
    ensures ret.Value() == OutcomeOf(op, 0, a, b)
    ensures SafeOperand(a) && SafeOperand(b) ==> ret.Value() == Bitwise(op, a.Abs(), b.Abs())
  {
    ret := new IntX();
    hide Outcome, Bitwise, SafeBytes, BinArray;
    if SafeOperand(a) && SafeOperand(b) { SafeOperands(op, 0, a, b); }
    BitOperation(ret, a, b, op);
  }

  /** operator&=, operator|= and operator^= shift the bytes in behind the old value:
      they are right exactly when that value is zero. */
  method BitAssign(a: IntX, b: IntX, op: BitOp)
    requires ByteOperand(a) && ByteOperand(b) && a.Wf() && b.Wf() && OperandsFit(a, b)
    modifies a
    ensures a.Wf() && a.Value() == old(OutcomeOf(op, a.Value(), a, b))
    ensures old(SafeOperand(a) && SafeOperand(b)) ==>
      a.sign == POSITIVE && (a.Abs() == old(Bitwise(op, a.Abs(), b.Abs())) <==> old(a.Abs()) == 0)
  {
    hide Outcome, Bitwise, SafeBytes, BinArray;
    if SafeOperand(a) && SafeOperand(b) { SafeOperands(op, a.Value(), a, b); }
    BitOperation(a, a, b, op);
  }
}
