/** Reading and printing the integers of misc/intX_t.ipp: decimal, octal and
    hexadecimal input, decimal and hexadecimal output, and the byte array. */
module IntXText {
  import opened NumberTheory
  import opened Limbs
  import opened LimbDivision
  import opened IntXModule

  // ---------------------------------------------------------------- digits

  /** convertToDec: letters count from ten, anything else is zero. */
  function DigitOf(c: char): (d: nat)
    ensures d <= 35
  {
    if '0' <= c <= '9' then c as int - '0' as int
    else if 'a' <= c <= 'z' then 10 + (c as int - 'a' as int)
    else if 'A' <= c <= 'Z' then 10 + (c as int - 'A' as int)
    else 0
  }

  /** Horner's rule over the characters, most significant first. */
  function Fold(s: string, base: nat, acc: int): int {
    if |s| == 0 then acc else Fold(s[1..], base, acc * base + DigitOf(s[0]))
  }

  lemma {:induction false} FoldConcat(a: string, b: string, base: nat, acc: int)
    ensures Fold(a + b, base, acc) == Fold(b, base, Fold(a, base, acc))
  {
    if |a| == 0 {
      assert a + b == b;
    } else {
      FoldConcat(a[1..], b, base, acc * base + DigitOf(a[0]));
      assert (a + b)[1..] == a[1..] + b;
    }
  }

  lemma NatProduct(a: int, b: int)
    requires a >= 0 && b >= 0
    ensures a * b >= 0
  {
  }

  /** A leading accumulator is shifted by the number of characters read. */
  lemma {:induction false} FoldShift(s: string, base: nat, acc: int)
    ensures Fold(s, base, acc) == acc * Pow(base, |s|) + Fold(s, base, 0)
  {
    if |s| > 0 {
      var d := DigitOf(s[0]);
      FoldShift(s[1..], base, acc * base + d);
      FoldShift(s[1..], base, d);
      ShiftArithmetic(acc, base, d, Pow(base, |s| - 1));
    }
  }

  lemma ShiftArithmetic(acc: int, base: int, d: int, p: int)
    ensures (acc * base + d) * p == acc * (base * p) + d * p
  {
    MulAssociates(acc, base, p);
    MulDistributes(p, acc * base, d);
  }

  /** The positional value of the first n characters of s, the last one counting 1. */
  function PositionalSum(s: string, base: nat, n: nat): int
    requires n <= |s|
  {
    if n == 0 then 0 else PositionalSum(s, base, n - 1) + DigitOf(s[n - 1]) * Pow(base, |s| - n)
  }

  /** Character i counts base^(|s| - 1 - i) times its digit. */
  lemma {:induction false} FoldIsPositional(s: string, base: nat)
    ensures Fold(s, base, 0) == PositionalSum(s, base, |s|)
  {
    FoldPrefix(s, base, |s|);
    assert s[..|s|] == s;
    assert Pow(base, 0) == 1;
  }

  lemma {:induction false} FoldPrefix(s: string, base: nat, n: nat)
    requires n <= |s|
    ensures Fold(s[..n], base, 0) * Pow(base, |s| - n) == PositionalSum(s, base, n)
  {
    hide DigitOf;
    if n > 0 {
      FoldPrefix(s, base, n - 1);
      assert s[..n] == s[..n - 1] + [s[n - 1]];
      FoldConcat(s[..n - 1], [s[n - 1]], base, 0);
      assert [s[n - 1]][1..] == "";
      var f, d := Fold(s[..n - 1], base, 0), DigitOf(s[n - 1]);
      assert Fold(s[..n], base, 0) == f * base + d;
      ShiftArithmetic(f, base, d, Pow(base, |s| - n));
    }
  }

  /** Digits count from zero and letters, of either case, from ten. */
  lemma DigitValues(c: char)
    ensures DigitOf('0') == 0 && DigitOf('a') == DigitOf('A') == 10
    ensures ('0' <= c < '9' || 'a' <= c < 'z' || 'A' <= c < 'Z') ==> DigitOf(c + 1 as char) == DigitOf(c) + 1
    ensures !('0' <= c <= '9' || 'a' <= c <= 'z' || 'A' <= c <= 'Z') ==> DigitOf(c) == 0
  {
  }

  // ---------------------------------------------------------------- input

  /** The number initByString reads: "0x" hexadecimal, "0" octal, else decimal.
      A leading '-' is consumed and has no effect on the value. */
  function ParseOf(s: string): int {
    if |s| > 0 && s[0] == '0' then
      if |s| > 1 && s[1] == 'x' then Fold(s[2..], 16, 0) else Fold(s[1..], 8, 0)
    else if |s| > 0 && s[0] == '-' then Fold(s[1..], 10, 0)
    else Fold(s, 10, 0)
  }

  /** A "0x" is followed by base 16, any other "0" by base 8, and the rest is base 10. */
  lemma ParseIsPositional(s: string)
    ensures s != "" && s[0] == 'x' ==> ParseOf("0" + s) == PositionalSum(s[1..], 16, |s| - 1)
    ensures !(s != "" && s[0] == 'x') ==> ParseOf("0" + s) == PositionalSum(s, 8, |s|)
    ensures !(s != "" && s[0] == '0') && !(s != "" && s[0] == '-') ==> ParseOf(s) == PositionalSum(s, 10, |s|)
    ensures ParseOf("-" + s) == PositionalSum(s, 10, |s|)
  {
    hide Fold, PositionalSum;
    FoldIsPositional(s, 8);
    FoldIsPositional(s, 10);
    if s != "" { FoldIsPositional(s[1..], 16); }
    assert ("0" + s)[1..] == s && ("-" + s)[1..] == s;
    if s != "" { assert ("0" + s)[2..] == s[1..]; }
  }

  method InitByString(x: IntX, s: string)
    requires x.sign == POSITIVE && x.body == []
    modifies x
    ensures x.Wf() && x.Value() == ParseOf(s)
    ensures x.Canonical() || s == "-"
  {
    var digit: nat;
    var i := 0;
    if i < |s| && s[i] == '0' {
      digit := 8;
      i := i + 1;
      if i < |s| && s[i] == 'x' {
        digit := 16;
        i := i + 1;
      }
    } else {
      digit := 10;
      if i < |s| && s[i] == '-' {
        x.sign := NEGATIVE;
        i := i + 1;
      }
    }
    assert s[0..] == s;
    ReadDigits(x, digit, s, i);
    assert x.sign == NEGATIVE ==> s == "-";
  }

  /** The loop over the digits from position start on. */
  method ReadDigits(x: IntX, digit: nat, s: string, start: nat)
    requires 0 < digit <= 16 && start <= |s| && x.body == []
    modifies x
    ensures x.Wf() && x.Value() == Fold(s[start..], digit, 0)
    ensures start < |s| ==> x.sign == POSITIVE
    ensures start == |s| ==> x.sign == old(x.sign) && x.body == []
  {
    hide DigitOf;
    var i := start;
    while i < |s|
      invariant start <= i <= |s|
      invariant x.Wf() && x.Value() >= 0
      invariant i > start ==> x.sign == POSITIVE
      invariant i == start ==> x.sign == old(x.sign) && x.body == []
      invariant Fold(s[i..], digit, x.Value()) == Fold(s[start..], digit, 0)
    {
      AppendDigit(x, digit, s[i]);
      assert s[i..][1..] == s[i + 1..];
      i := i + 1;
    }
  }

  /** One character: multiply by the base and add the digit. */
  method AppendDigit(x: IntX, base: nat, c: char)
    requires x.Wf() && x.Value() >= 0 && 0 < base <= 16
    requires x.sign == NEGATIVE ==> x.body == []
    modifies x
    ensures x.Canonical() && x.sign == POSITIVE && x.Value() == old(x.Value()) * base + DigitOf(c)
  {
    hide BadSubtraction;
    var b := new IntX.FromInteger(base);
    var d := new IntX.FromInteger(DigitOf(c));
    NatProduct(x.Value(), base);
    x.MulAssign(b);
    ghost var v := x.Value();
    DigitIsSafe(x, d);
    x.AddAssign(d);
    assert x.Value() == v + DigitOf(c);
    IntX.OrderOfMagnitudes(x);
  }

  lemma DigitIsSafe(x: IntX, d: IntX)
    requires x.Wf() && x.Value() >= 0 && d.Canonical() && d.Value() >= 0
    ensures d.sign == POSITIVE
    ensures x.sign == d.sign || !BadSubtraction(x.body, d.body)
  {
    ValNat(x.body);
    ValNat(d.body);
    if x.body != [] { ValPositive(x.body); }
    if d.body != [] { ValPositive(d.body); }
  }

  // ---------------------------------------------------------------- decimal output

  function DigitChar(d: nat): (c: char)
    requires d < 16
    ensures DigitOf(c) == d
    ensures 0 < d < 10 ==> c != '0' && c != '-'
  {
    if d < 10 then '0' + d as char else 'a' + (d - 10) as char
  }

  /** Streaming a nonnegative limb. */
  function Dec(n: nat): (s: string)
    ensures |s| > 0
  {
    if n < 10 then [DigitChar(n)] else Dec(n / 10) + [DigitChar(n % 10)]
  }

  function Zeros(n: nat): (s: string)
    ensures |s| == n
  {
    if n == 0 then "" else ['0'] + Zeros(n - 1)
  }

  /** Streaming with setw(18), right and setfill('0'). */
  function Padded(n: nat): string {
    var s := Dec(n);
    if |s| < 18 then Zeros(18 - |s|) + s else s
  }

  lemma {:induction false} DecFold(n: nat)
    ensures Fold(Dec(n), 10, 0) == n
  {
    if n < 10 {
      assert Fold(Dec(n)[1..], 10, n) == n;
    } else {
      DecFold(n / 10);
      var last := [DigitChar(n % 10)];
      FoldConcat(Dec(n / 10), last, 10, 0);
      assert last[1..] == "";
    }
  }

  lemma {:induction false} DecHead(n: nat)
    requires n > 0
    ensures Dec(n)[0] != '0' && Dec(n)[0] != '-'
  {
    if n >= 10 { DecHead(n / 10); }
  }

  lemma {:induction false} DecLength(n: nat, w: nat)
    requires w >= 1 && n < Pow(10, w)
    ensures |Dec(n)| <= w
  {
    if n >= 10 {
      assert w > 1 by { assert Pow(10, 1) == 10 * Pow(10, 0) == 10; }
      DecLength(n / 10, w - 1);
    }
  }

  lemma TenToThe18()
    ensures Pow(10, 18) == BASE
  {
    assert Pow(10, 3) == 1000;
    PowMul(10, 3, 3);
    assert Pow(1000, 3) == 1_000_000_000;
    PowAdd(10, 9, 9);
  }

  lemma {:induction false} ZerosFold(k: nat, s: string)
    ensures Fold(Zeros(k) + s, 10, 0) == Fold(s, 10, 0)
  {
    if k == 0 {
      assert Zeros(0) + s == s;
    } else {
      ZerosFold(k - 1, s);
      assert (Zeros(k) + s)[1..] == Zeros(k - 1) + s;
    }
  }

  /** Reading a padded limb multiplies by BASE and adds the limb. */
  lemma PaddedFold(n: nat, acc: int)
    requires n < BASE
    ensures Fold(Padded(n), 10, acc) == acc * BASE + n
  {
    TenToThe18();
    DecLength(n, 18);
    DecFold(n);
    ZerosFold(18 - |Dec(n)|, Dec(n));
    assert Zeros(0) + Dec(n) == Dec(n);
    FoldShift(Padded(n), 10, acc);
  }

  function LimbText(b: seq<int>): string
    requires |b| > 0 && forall i :: 0 <= i < |b| ==> b[i] >= 0
  {
    if |b| == 1 then Dec(b[0]) else LimbText(b[1..]) + Padded(b[0])
  }

  /** The text of an integer with the given sign and limbs. */
  function TextOf(s: Sign, b: seq<int>): string
    requires forall i :: 0 <= i < |b| ==> b[i] >= 0
  {
    if b == [] then "0" else (if s == NEGATIVE then "-" else "") + LimbText(b)
  }

  method ToString(x: IntX) returns (s: string)
    requires x.Wf()
    ensures s == TextOf(x.sign, x.body)
  {
    if |x.body| == 0 {
      return "0";
    }
    s := if x.sign == NEGATIVE then "-" else "";
    ghost var front := s;
    var i := |x.body| - 1;
    s := s + Dec(x.body[i]);
    while i > 0
      invariant 0 <= i < |x.body|
      invariant s == front + LimbText(x.body[i..])
    {
      i := i - 1;
      AppendLimb(x.body, i, front);
      s := s + Padded(x.body[i]);
    }
    assert x.body[0..] == x.body;
  }

  lemma AppendLimb(b: seq<int>, i: nat, front: string)
    requires i + 1 < |b| && forall k :: 0 <= k < |b| ==> b[k] >= 0
    ensures front + LimbText(b[i + 1..]) + Padded(b[i]) == front + LimbText(b[i..])
  {
    assert b[i..][1..] == b[i + 1..];
  }

  lemma {:induction false} LimbTextFold(b: seq<int>)
    requires LimbsOk(b) && NoTopZero(b) && |b| > 0
    ensures Fold(LimbText(b), 10, 0) == Val(b)
    ensures |LimbText(b)| > 0 && LimbText(b)[0] != '0' && LimbText(b)[0] != '-'
  {
    if |b| == 1 {
      DecFold(b[0]);
      DecHead(b[0]);
    } else {
      LimbTextFold(b[1..]);
      FoldConcat(LimbText(b[1..]), Padded(b[0]), 10, 0);
      PaddedFold(b[0], Val(b[1..]));
    }
  }

  predicate AllDecimal(s: string) {
    forall i :: 0 <= i < |s| ==> '0' <= s[i] <= '9'
  }

  lemma {:induction false} DecIsDecimal(n: nat)
    ensures AllDecimal(Dec(n))
  {
    if n >= 10 { DecIsDecimal(n / 10); }
  }

  lemma {:induction false} ZerosAreDecimal(n: nat)
    ensures AllDecimal(Zeros(n))
  {
    if n > 0 { ZerosAreDecimal(n - 1); }
  }

  lemma {:induction false} LimbTextIsDecimal(b: seq<int>)
    requires |b| > 0 && forall i :: 0 <= i < |b| ==> b[i] >= 0
    ensures AllDecimal(LimbText(b))
  {
    hide Dec;
    DecIsDecimal(b[0]);
    ZerosAreDecimal(if |Dec(b[0])| < 18 then 18 - |Dec(b[0])| else 0);
    if |b| > 1 { LimbTextIsDecimal(b[1..]); }
  }

  /** Output consists of decimal digits behind a minus for negative numbers, and has no
      leading zero unless it is "0": with its value this determines it. */
  lemma TextIsDecimal(s: Sign, b: seq<int>)
    requires LimbsOk(b) && NoTopZero(b) && (b == [] ==> s == POSITIVE)
    ensures var t := TextOf(s, b);
      var digits := if s == NEGATIVE then t[1..] else t;
      && (s == NEGATIVE ==> t != "" && t[0] == '-')
      && digits != "" && AllDecimal(digits) && (digits[0] == '0' ==> b == [] && digits == "0")
  {
    if b != [] {
      LimbTextIsDecimal(b);
      LimbTextFold(b);
      hide LimbText;
      var t := TextOf(s, b);
      if s == NEGATIVE {
        assert t[1..] == LimbText(b);
      } else {
        assert t == LimbText(b);
      }
    }
  }

  /** Parsing what was printed gives the magnitude back, so it gives the number
      back exactly when the number is not negative. */
  lemma ParsePrintIff(s: Sign, b: seq<int>)
    requires LimbsOk(b) && NoTopZero(b) && (b == [] ==> s == POSITIVE)
    ensures ParseOf(TextOf(s, b)) == Val(b)
    ensures ParseOf(TextOf(s, b)) == Signed(s, Val(b)) <==> s == POSITIVE
  {
    if b == [] {
      assert ParseOf("0") == Fold("0"[1..], 8, 0);
    } else {
      ValPositive(b);
      LimbTextFold(b);
      if s == NEGATIVE {
        assert TextOf(s, b)[1..] == LimbText(b);
      } else {
        assert TextOf(s, b) == LimbText(b);
      }
    }
  }

  // ---------------------------------------------------------------- bytes and hexadecimal output

  /** The base-256 digits, least significant first. */
  function Bytes(n: nat): (b: seq<int>)
    ensures forall i :: 0 <= i < |b| ==> 0 <= b[i] < 256
  {
    if n == 0 then [] else [n % 256] + Bytes(n / 256)
  }

  /** Every division by 256 on the way down meets no bad column. */
  ghost predicate SafeBytes(n: nat) {
    n > 0 ==> SafeDivision(n, 256) && SafeBytes(n / 256)
  }

  /** Numbers of two limbs have safe bytes. */
  lemma {:induction false} SmallBytes(n: nat)
    requires n < BASE * BASE
    ensures SafeBytes(n)
  {
    hide SafeDivision;
    if n > 0 {
      SmallIsSafe(n, 256);
      SmallBytes(n / 256);
    }
  }

  /** So have all numbers up to which no power of two from 256 on has a limb BASE - 1
      above its lowest one. */
  lemma {:induction false} CleanBytes(n: nat)
    requires CleanScales(n, 256)
    ensures SafeBytes(n)
  {
    hide SafeDivision, CleanScales;
    if n > 0 {
      CleanIsSafe(n, 256);
      CleanBelow(n, n / 256, 256);
      CleanBytes(n / 256);
    }
  }

  /** The lowest limb of a remainder as an unsigned char. */
  function LowByte(b: seq<int>): (r: int)
    ensures 0 <= r < 256
  {
    if |b| == 0 then 0 else b[0] % 256
  }

  /** The bytes that repeated division by 256 gives, right or wrong. */
  function DividedBytes(n: nat): (b: seq<int>)
    ensures forall i :: 0 <= i < |b| ==> 0 <= b[i] < 256
  {
    if n == 0 then []
    else
      ToLimbsVal(n);
      QuotientShrinks(ToLimbs(n), 256);
      var (q, r) := DivOf(ToLimbs(n), 256);
      [LowByte(r)] + DividedBytes(q)
  }

  /** What toBinArray leaves for a number with sign s and limbs b: a negative number is
      its own remainder, and one byte is all that is taken of it. */
  function BinArray(s: Sign, b: seq<int>): (z: seq<int>)
    requires LimbsOk(b)
    ensures forall i :: 0 <= i < |z| ==> 0 <= z[i] < 256
  {
    ValNat(b);
    if s == NEGATIVE then [LowByte(b)] else DividedBytes(Val(b))
  }

  /** Safe bytes are the base-256 digits. */
  lemma {:induction false} SafeBytesExact(n: nat)
    requires SafeBytes(n)
    ensures DividedBytes(n) == Bytes(n)
  {
    hide SafeDivision, DivOf;
    if n > 0 {
      ToLimbsVal(n);
      SafeIsExact(ToLimbs(n), 256);
      ToLimbsVal(n % 256);
      LowLimb(ToLimbs(n % 256));
      SafeBytesExact(n / 256);
      DividedStep(n);
    }
  }

  lemma DividedStep(n: nat)
    requires n > 0
    ensures var (q, r) := DivOf(ToLimbs(n), 256);
            q < n && DividedBytes(n) == [LowByte(r)] + DividedBytes(q)
  {
    hide DivOf;
    ToLimbsVal(n);
    QuotientShrinks(ToLimbs(n), 256);
  }

  lemma LowLimb(b: seq<int>)
    requires LimbsOk(b) && NoTopZero(b) && Val(b) < 256
    ensures Val(b) == LowByte(b)
  {
    if |b| > 0 { ValNat(b[1..]); }
  }

  /** A negative number leaves the lowest byte of its magnitude. */
  lemma NegativeBytes(b: seq<int>)
    requires LimbsOk(b)
    ensures BinArray(NEGATIVE, b) == [Val(b) % 256]
  {
    if |b| > 0 { ModShift(b[0], BASE / 256 * Val(b[1..]), 256); MulAssociates(256, BASE / 256, Val(b[1..])); }
  }

  /** Numbers whose divisions by 256 the code can carry out. */
  ghost predicate BoundedBytes(n: nat) {
    SafeBytes(n) || Bits(n, 256) <= MAXBITS
  }

  lemma BoundedStep(n: nat)
    requires n > 0 && BoundedBytes(n)
    ensures Bounded(n, 256) && BoundedBytes(DivOf(ToLimbs(n), 256).0)
  {
    hide SafeDivision, DivOf;
    ToLimbsVal(n);
    QuotientShrinks(ToLimbs(n), 256);
    if SafeBytes(n) {
      SafeIsExact(ToLimbs(n), 256);
    } else {
      BitsMonotone(n, DivOf(ToLimbs(n), 256).0, 256);
    }
  }

  ghost predicate ByteOperand(x: IntX)
    reads x
  {
    x.Wf() && x.Abs() >= 0 && (x.sign == POSITIVE ==> BoundedBytes(x.Abs()))
  }

  method ToBinArray(a: IntX) returns (result: seq<int>)
    requires ByteOperand(a)
    ensures result == BinArray(a.sign, a.body)
    ensures a.sign == POSITIVE && a.Abs() >= 0 && SafeBytes(a.Abs()) ==> result == Bytes(a.Abs())
  {
    hide SafeDivision, Bytes, SafeBytes, ByteOperand, BinArray, Val, Left;
    OperandFacts(a);
    result := [];
    var atmp := new IntX.Copy(a);
    OperandCopy(a, atmp);
    var zero := new IntX();
    var mask := new IntX.FromInteger(0x100);
    assert [] + BinArray(a.sign, a.body) == BinArray(a.sign, a.body);
    while true
      invariant ByteOperand(atmp) && LimbsOk(atmp.body)
      invariant mask.Canonical() && mask.Value() == 256 && mask.sign == POSITIVE
      invariant zero.sign == POSITIVE && zero.body == []
      invariant fresh(atmp) && fresh(mask) && fresh(zero) && atmp != mask && atmp != zero
      invariant result + BinArray(atmp.sign, atmp.body) == BinArray(a.sign, a.body)
      decreases Left(atmp)
    {
      var done := atmp.Equals(zero);
      if done {
        NoBytes();
        return;
      }
      ghost var rest := BinArray(atmp.sign, atmp.body);
      var byte := TakeByte(atmp, mask);
      Associate(result, byte, BinArray(atmp.sign, atmp.body));
      result := result + [byte];
    }
  }

  lemma Associate(a: seq<int>, b: int, c: seq<int>)
    ensures a + ([b] + c) == (a + [b]) + c && a + [] == a
  {
  }

  /** A bound on the bytes still to be taken. */
  ghost function Left(x: IntX): nat
    reads x
    requires LimbsOk(x.body)
  {
    ValNat(x.body);
    if x.sign == NEGATIVE then 1 else Val(x.body)
  }

  lemma OperandFacts(a: IntX)
    requires ByteOperand(a)
    ensures a.Wf() && a.Abs() >= 0
    ensures a.sign == POSITIVE && SafeBytes(a.Abs()) ==> BinArray(a.sign, a.body) == Bytes(a.Abs())
  {
    if a.sign == POSITIVE && SafeBytes(a.Abs()) { SafeBytesExact(a.Abs()); }
  }

  lemma OperandCopy(a: IntX, b: IntX)
    requires ByteOperand(a) && a.sign == b.sign && a.body == b.body
    ensures ByteOperand(b)
  {
  }

  /** One round: the remainder gives the byte, the quotient stays. */
  method TakeByte(atmp: IntX, mask: IntX) returns (byte: int)
    requires atmp != mask && ByteOperand(atmp) && LimbsOk(atmp.body)
    requires !(atmp.body == [] && atmp.sign == POSITIVE)
    requires mask.Canonical() && mask.Value() == 256 && mask.sign == POSITIVE
    modifies atmp
    ensures ByteOperand(atmp) && LimbsOk(atmp.body) && atmp.sign == POSITIVE
    ensures Left(atmp) < old(Left(atmp))
    ensures old(BinArray(atmp.sign, atmp.body)) == [byte] + BinArray(atmp.sign, atmp.body)
  {
    hide Bounded, BinArray, ByteOperand, Division;
    OperandFacts(atmp);
    BinStep(atmp);
    var div := new IntX();
    var res := IntX.AbsDiv(div, atmp, mask);
    byte := if |res.body| == 0 then 0 else res.body[0] % 256;
    BinNext(atmp, div, res.body);
    atmp.sign, atmp.body := div.sign, div.body;
    OperandCopy(div, atmp);
  }

  lemma BinStep(a: IntX)
    requires ByteOperand(a)
    ensures a.sign == POSITIVE && a.body != [] ==> a.Abs() > 0 && Bounded(a.Abs(), 256)
  {
    hide Bounded;
    if a.sign == POSITIVE && a.body != [] {
      ValPositive(a.body);
      BoundedStep(a.Abs());
    }
  }

  lemma BinNext(a: IntX, div: IntX, r: seq<int>)
    requires ByteOperand(a) && !(a.body == [] && a.sign == POSITIVE)
    requires div.Canonical() && div.sign == POSITIVE && div.Abs() >= 0
    requires (div.Abs(), r) == Division(a.sign, a.body, POSITIVE, 256)
    ensures a.Wf() && ByteOperand(div) && LimbsOk(div.body)
    ensures Left(div) < Left(a)
    ensures BinArray(a.sign, a.body) == [LowByte(r)] + BinArray(div.sign, div.body)
  {
    hide DivOf, DividedBytes;
    if a.sign == POSITIVE {
      ValPositive(a.body);
      ValUnique(a.body);
      BoundedStep(a.Abs());
      DividedStep(a.Abs());
    } else {
      NoBytes();
    }
  }

  lemma NoBytes()
    ensures Bytes(0) == [] && DividedBytes(0) == [] && BinArray(POSITIVE, []) == [] && SafeBytes(0)
  {
  }

  function HexByte(b: int): string
    requires 0 <= b < 256
  {
    [DigitChar(b / 16), DigitChar(b % 16)]
  }

  function HexOf(b: seq<int>): string
    requires forall i :: 0 <= i < |b| ==> 0 <= b[i] < 256
  {
    if |b| == 0 then "" else HexOf(b[1..]) + HexByte(b[0])
  }

  method ToHexString(x: IntX) returns (s: string)
    requires ByteOperand(x)
    ensures s == HexOf(BinArray(x.sign, x.body))
    ensures x.sign == POSITIVE && x.Abs() >= 0 && SafeBytes(x.Abs()) ==> s == HexOf(Bytes(x.Abs()))
  {
    var bin := ToBinArray(x);
    s := "";
    var i := |bin|;
    while i > 0
      invariant 0 <= i <= |bin|
      invariant s == HexOf(bin[i..])
    {
      i := i - 1;
      assert bin[i..][1..] == bin[i + 1..];
      s := s + HexByte(bin[i]);
    }
    assert bin[0..] == bin;
  }

  /** Hexadecimal output: two lower-case digits a byte. */
  lemma {:induction false} HexIsLower(b: seq<int>)
    requires forall i :: 0 <= i < |b| ==> 0 <= b[i] < 256
    ensures |HexOf(b)| == 2 * |b|
    ensures forall i :: 0 <= i < |HexOf(b)| ==> '0' <= HexOf(b)[i] <= '9' || 'a' <= HexOf(b)[i] <= 'f'
  {
    if |b| > 0 { HexIsLower(b[1..]); }
  }

  lemma {:induction false} HexFold(n: nat)
    ensures Fold(HexOf(Bytes(n)), 16, 0) == n
  {
    if n > 0 {
      HexFold(n / 256);
      var b := n % 256;
      assert Bytes(n)[1..] == Bytes(n / 256);
      FoldConcat(HexOf(Bytes(n / 256)), HexByte(b), 16, 0);
      var h := HexByte(b);
      assert h[1..] == [DigitChar(b % 16)] && h[1..][1..] == "";
      assert Fold(h, 16, n / 256) == Fold(h[1..], 16, n / 256 * 16 + b / 16);
    }
  }

  /** Reading "0x" followed by the hexadecimal text gives the number back. */
  lemma ParseHex(n: nat)
    ensures ParseOf("0x" + HexOf(Bytes(n))) == n
  {
    HexFold(n);
    assert ("0x" + HexOf(Bytes(n)))[2..] == HexOf(Bytes(n));
  }
}
